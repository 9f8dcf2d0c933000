/**
The IP block engine (src/security/ip_blocking.rs): sharded violation windows, the bounded pending
set mirrored into the temporary snapshot, and the batched transaction into the durable one.

Each operation is a function on `Shared`, the state all tasks see; the methods of
`IpBlockingRuntime` are proved to perform exactly those functions.
*/
module IpBlocking {
  import opened Wrappers
  import opened ViolationWindows
  import opened Network
  import opened BlockFile

  /**
  `allows` is membership in one of the configured CIDRs (`AllowList` below) and `shardOf` the hash;
  nothing depends on which functions they are.
  */
  datatype Config = Config(
    enabled: bool, allows: IpAddr -> bool, maxTracked: nat, maxBlocked: nat, maxPending: nat, batchSize: nat,
    threshold: ViolationRule -> nat, shardOf: IpAddr -> nat)

  function AllowList(networks: seq<IpNetwork>): IpAddr -> bool {
    ip => exists i | 0 <= i < |networks| :: Contains(networks[i], ip)
  }

  /**
  With the configured CIDRs, allowing a client means that its normalised address lies in one of the
  intervals they denote; an IPv4 client is allowed in either of its forms.
  */
  lemma AllowedIsInterval(config: Config, networks: seq<IpNetwork>, addresses: seq<IpAddr>, prefixes: seq<u32>,
      ip: IpAddr)
    requires config.allows == AllowList(networks) && |networks| == |addresses| == |prefixes|
    requires forall i | 0 <= i < |networks| :: IsCidr(networks[i], addresses[i], prefixes[i])
    ensures forall i | 0 <= i < |networks| :: prefixes[i] <= Width(addresses[i])
    ensures Allowed(config, ip) <==>
      exists i :: 0 <= i < |networks| && InBlock(addresses[i], prefixes[i], Normalize(ip))
    ensures ip.V4? ==> Allowed(config, Mapped(ip.bits4)) == Allowed(config, ip)
  {
    forall i | 0 <= i < |networks|
      ensures prefixes[i] <= Width(addresses[i])
      ensures Contains(networks[i], ip) <==> InBlock(addresses[i], prefixes[i], Normalize(ip))
      ensures ip.V4? ==> Contains(networks[i], Mapped(ip.bits4)) == Contains(networks[i], ip)
    {
      ContainsIsInterval(networks[i], addresses[i], prefixes[i], ip);
      if ip.V4? {
        MappedIsSame(networks[i], ip.bits4);
      }
    }
  }

  ghost predicate ConfigOk(config: Config) {
    && config.maxBlocked >= 1 && 1 <= config.batchSize <= config.maxPending
    && (forall rule: ViolationRule :: 1 <= config.threshold(rule) <= 1_000_000)
    && (forall ip: IpAddr :: config.shardOf(ip) < SHARDS)
  }

  datatype PendingBlock = PendingBlock(rule: ViolationRule, count: nat, deadline: Instant)

  type Shard = map<IpAddr, ClientWindow>

  datatype Shared = Shared(
    durable: BlockSnapshot, temporary: map<IpAddr, Instant>, windows: seq<Shard>, pending: map<IpAddr, PendingBlock>,
    accepting: bool)

  predicate Allowed(config: Config, ip: IpAddr) {
    config.allows(ip)
  }

  /** The clients the engine acts on: all but the allowed ones, when it is enabled. */
  predicate Watched(config: Config, ip: IpAddr) {
    config.enabled && !Allowed(config, ip)
  }

  predicate DurableLive(s: Shared, ip: IpAddr, now: Instant) {
    ip in s.durable && s.durable[ip].deadline > now
  }

  predicate TemporaryLive(s: Shared, ip: IpAddr, now: Instant) {
    ip in s.temporary && s.temporary[ip] > now
  }

  // ---- recording a violation ----

  function Deadlines(pending: map<IpAddr, PendingBlock>): map<IpAddr, Instant> {
    map ip | ip in pending :: pending[ip].deadline
  }

  /** `publish_temporary`. */
  function WithPending(s: Shared, pending: map<IpAddr, PendingBlock>): Shared {
    s.(pending := pending, temporary := Deadlines(pending))
  }

  /** What recording did: whether the violation was counted, and whether the client became pending. */
  datatype Recorded = Ignored | CountedOnly(tally: Tally) | EnteredPending(tally: Tally)

  ghost predicate WindowsShaped(config: Config, windows: seq<Shard>) {
    && |windows| == SHARDS
    && forall i | 0 <= i < SHARDS :: ShardShaped(config, windows[i], i)
  }

  ghost predicate ShardShaped(config: Config, shard: Shard, i: nat) {
    && |shard| <= ShardCapacity(config.maxTracked, i)
    && forall ip | ip in shard :: shard[ip].Valid() && config.shardOf(ip) == i
  }

  lemma CountingKeepsShape(config: Config, windows: seq<Shard>, ip: IpAddr, client: ClientWindow)
    requires ConfigOk(config) && WindowsShaped(config, windows) && client.Valid()
    requires var i := config.shardOf(ip);
      ip in windows[i] || |windows[i]| < ShardCapacity(config.maxTracked, i)
    ensures var i := config.shardOf(ip);
      WindowsShaped(config, windows[i := windows[i][ip := client]])
  {
  }

  function ClientAt(windows: seq<Shard>, shard: nat, ip: IpAddr, now: Instant): ClientWindow
    requires shard < |windows|
  {
    if ip in windows[shard] then windows[shard][ip] else FreshClient(now)
  }

  /** Under the shard lock: count the violation, unless the client is new and the shard is full. */
  function CountInShard(config: Config, s: Shared, ip: IpAddr, rule: ViolationRule, now: Instant)
    : (Shared, Option<Tally>)
    requires ConfigOk(config) && WindowsShaped(config, s.windows)
  {
    var shard := config.shardOf(ip);
    if ip !in s.windows[shard] && |s.windows[shard]| >= ShardCapacity(config.maxTracked, shard) then (s, None)
    else
      assert ShardShaped(config, s.windows[shard], shard);
      var client := CountViolation(ClientAt(s.windows, shard, ip, now), rule, now);
      var window := client.rules[rule.Index()];
      (s.(windows := s.windows[shard := s.windows[shard][ip := client]]), Some(Tally(now, window.since, window.count)))
  }

  lemma CountKeepsShape(config: Config, s: Shared, ip: IpAddr, rule: ViolationRule, now: Instant)
    requires ConfigOk(config) && WindowsShaped(config, s.windows)
    ensures WindowsShaped(config, CountInShard(config, s, ip, rule, now).0.windows)
    ensures var r := CountInShard(config, s, ip, rule, now);
      r.0 == s.(windows := r.0.windows) && (r.1.Some? ==> r.1.value.count >= 1)
  {
    var shard := config.shardOf(ip);
    assert ShardShaped(config, s.windows[shard], shard);
    if ip in s.windows[shard] || |s.windows[shard]| < ShardCapacity(config.maxTracked, shard) {
      CountingKeepsShape(config, s.windows, ip, CountViolation(ClientAt(s.windows, shard, ip, now), rule, now));
    }
  }

  /** Under the pending lock: add the client, unless it is there or the set is full. */
  function Enqueue(config: Config, s: Shared, ip: IpAddr, rule: ViolationRule, count: nat, now: Instant): (Shared, bool)
  {
    if ip in s.pending || |s.pending| >= config.maxPending then (s, false)
    else (WithPending(s, s.pending[ip := PendingBlock(rule, count, now + TEMPORARY_SECONDS * SECOND)]), true)
  }

  /** Violations of allowed and of blocked clients are not counted, nor any once the manager has stopped. */
  predicate Admits(config: Config, s: Shared, ip: IpAddr, now: Instant) {
    Watched(config, ip) && s.accepting && !DurableLive(s, ip, now) && !TemporaryLive(s, ip, now)
  }

  /** The answer every request gets. */
  predicate Blocked(config: Config, s: Shared, ip: IpAddr, now: Instant) {
    Watched(config, ip) && (DurableLive(s, ip, now) || TemporaryLive(s, ip, now))
  }

  function AfterCount(config: Config, counted: Shared, tally: Option<Tally>, ip: IpAddr, rule: ViolationRule,
      now: Instant)
    : (Shared, Recorded)
  {
    if tally.None? then (counted, Ignored)
    else if tally.value.count < config.threshold(rule) then (counted, CountedOnly(tally.value))
    else
      var queued := Enqueue(config, counted, ip, rule, tally.value.count, now);
      (queued.0, if queued.1 then EnteredPending(tally.value) else CountedOnly(tally.value))
  }

  function Record(config: Config, s: Shared, ip: IpAddr, rule: ViolationRule, now: Instant): (Shared, Recorded)
    requires ConfigOk(config) && WindowsShaped(config, s.windows)
  {
    if !Admits(config, s, ip, now) then (s, Ignored)
    else
      var counted := CountInShard(config, s, ip, rule, now);
      AfterCount(config, counted.0, counted.1, ip, rule, now)
  }

  // ---- housekeeping ----

  function SweptShard(shard: Shard, now: Instant): Shard {
    map ip | ip in shard && !Idle(shard[ip], now) :: shard[ip]
  }

  function Sweep(s: Shared, now: Instant): Shared {
    s.(windows := seq(|s.windows|, i requires 0 <= i < |s.windows| => SweptShard(s.windows[i], now)))
  }

  function Unexpired(pending: map<IpAddr, PendingBlock>, now: Instant): map<IpAddr, PendingBlock> {
    map ip | ip in pending && pending[ip].deadline > now :: pending[ip]
  }

  function Expire(s: Shared, now: Instant): Shared {
    WithPending(s, Unexpired(s.pending, now))
  }

  // ---- the transaction ----

  type Proposal = (IpAddr, PendingBlock)

  /** At most `batchSize` live entries, each once; all of them if there is room. */
  ghost predicate IsBatch(config: Config, pending: map<IpAddr, PendingBlock>, now: Instant, batch: seq<Proposal>) {
    && (forall i | 0 <= i < |batch| ::
          batch[i].0 in pending && pending[batch[i].0] == batch[i].1 && batch[i].1.deadline > now)
    && (forall i, j | 0 <= i < j < |batch| :: batch[i].0 != batch[j].0)
    && |batch| <= config.batchSize
    && (|batch| < config.batchSize ==>
          forall ip | ip in Unexpired(pending, now) :: exists i :: 0 <= i < |batch| && batch[i].0 == ip)
  }

  datatype Draft = Draft(blocks: BlockSnapshot, consumed: seq<IpAddr>, activated: seq<IpAddr>, overflow: bool)

  datatype PersistError = CapacityReached | ClockUnavailable | TimestampOverflow | WriteFailed

  /** A new durable block: a day from now on both clocks. */
  function NewBlock(proposal: Proposal, now: Instant, wall: u64): ActiveBlock
    requires wall + BLOCK_SECONDS < U64_LIMIT
  {
    ActiveBlock(BlockRecord(proposal.0, wall, wall + BLOCK_SECONDS, proposal.1.rule, proposal.1.count),
      now + BLOCK_SECONDS * SECOND)
  }

  /** Works through the batch until it ends or the table is full; `None` is a timestamp overflow. */
  function Propose(config: Config, draft: Draft, batch: seq<Proposal>, now: Instant, wall: u64): Option<Draft>
    decreases |batch|
  {
    if batch == [] then Some(draft)
    else
      var (ip, entry) := batch[0];
      if entry.deadline <= now then Propose(config, draft, batch[1..], now, wall)
      else if ip in draft.blocks || Allowed(config, ip) then
        Propose(config, draft.(consumed := draft.consumed + [ip]), batch[1..], now, wall)
      else if |draft.blocks| >= config.maxBlocked then Some(draft.(overflow := true))
      else if wall + BLOCK_SECONDS >= U64_LIMIT then None
      else
        Propose(config,
          Draft(draft.blocks[ip := NewBlock(batch[0], now, wall)], draft.consumed + [ip], draft.activated + [ip],
            draft.overflow),
          batch[1..], now, wall)
  }

  function Retained(blocks: BlockSnapshot, now: Instant): BlockSnapshot {
    map ip | ip in blocks && blocks[ip].deadline > now :: blocks[ip]
  }

  predicate AnyExpired(blocks: BlockSnapshot, now: Instant) {
    exists ip :: ip in blocks && blocks[ip].deadline <= now
  }

  /** A draft, and whether it has to be written. */
  datatype Prepared = Prepared(draft: Draft, write: bool)

  function Prepare(config: Config, before: BlockSnapshot, batch: seq<Proposal>, now: Instant, wall: Option<u64>,
      force: bool)
    : Result<Prepared, PersistError>
  {
    var expired := AnyExpired(before, now);
    if batch == [] && !expired && !force then Ok(Prepared(Draft(before, [], [], false), false))
    else if batch != [] && |before| >= config.maxBlocked && !expired && !force then Err(CapacityReached)
    else if wall.None? then Err(ClockUnavailable)
    else match Propose(config, Draft(Retained(before, now), [], [], false), batch, now, wall.value)
      case None => Err(TimestampOverflow)
      case Some(draft) =>
        if draft.activated != [] || expired || force then Ok(Prepared(draft, true))
        else if draft.overflow && draft.consumed == [] then Err(CapacityReached)
        else Ok(Prepared(draft, false))
  }

  function Publish(s: Shared, blocks: BlockSnapshot): Shared {
    s.(durable := blocks)
  }

  function ToSet(ips: seq<IpAddr>): set<IpAddr> {
    set i | 0 <= i < |ips| :: ips[i]
  }

  function Consume(s: Shared, ips: seq<IpAddr>): Shared {
    WithPending(s, s.pending - ToSet(ips))
  }

  /** What a finished transaction leaves. */
  function Committed(s: Shared, prepared: Prepared): Shared {
    var published := if prepared.write then Publish(s, prepared.draft.blocks) else s;
    if prepared.draft.consumed == [] then published else Consume(published, prepared.draft.consumed)
  }

  /** Everything the outside world decides about one transaction. */
  datatype Moment = Moment(
    takenAt: Instant, builtAt: Instant, writtenAt: Instant, wall: Option<u64>, temp: TempName, outcomes: Outcomes)

  /** A whole transaction on a batch: memory, disk and the reported result. */
  function Persisted(config: Config, size: Size, s: Shared, disk: Disk, batch: seq<Proposal>, force: bool, m: Moment)
    : (Shared, Disk, Result<(), PersistError>)
  {
    match Prepare(config, s.durable, batch, m.builtAt, m.wall, force)
    case Err(error) => (s, disk, Err(error))
    case Ok(prepared) =>
      if !prepared.write then (Committed(s, prepared), disk, Ok(()))
      else
        var r := RunJob(size, disk, StartJob(prepared.draft.blocks, m.temp), m.writtenAt, m.outcomes);
        if r.1.stage == Done(true) then (Committed(s, prepared), r.0, Ok(()))
        else (s, r.0, Err(WriteFailed))
  }

  // ---- the runtime ----

  class IpBlockingRuntime {
    const config: Config
    const writer: StateWriter
    var durable: BlockSnapshot
    var temporary: map<IpAddr, Instant>
    var windows: seq<Shard>
    var pending: map<IpAddr, PendingBlock>
    var accepting: bool

    ghost function State(): Shared
      reads this
    {
      Shared(durable, temporary, windows, pending, accepting)
    }

    ghost function OnDisk(): Disk
      reads writer
    {
      Disk(writer.fs, writer.cleanupTemp)
    }

    ghost predicate Valid()
      reads this
    {
      ConfigOk(config) && WindowsShaped(config, windows) && temporary == Deadlines(pending)
    }

    /** The state after a successful load. */
    constructor (config: Config, writer: StateWriter, blocks: BlockSnapshot)
      requires ConfigOk(config)
      ensures Valid() && this.config == config && this.writer == writer
      ensures State() == Shared(blocks, map[], seq(SHARDS, _ => map[]), map[], true)
    {
      this.config := config;
      this.writer := writer;
      durable := blocks;
      temporary := map[];
      windows := seq(SHARDS, _ => map[]);
      pending := map[];
      accepting := true;
    }

    method IsClientIpBlocked(ip: IpAddr, now: Instant) returns (blocked: bool)
      ensures blocked <==> Blocked(config, State(), ip, now)
    {
      if !config.enabled || Allowed(config, ip) {
        return false;
      }
      return (ip in durable && durable[ip].deadline > now) || (ip in temporary && temporary[ip] > now);
    }

    method PublishTemporary()
      modifies this`temporary
      ensures temporary == Deadlines(pending)
    {
      temporary := map ip | ip in pending :: pending[ip].deadline;
    }

    method RecordClientProtocolViolation(ip: IpAddr, rule: ViolationRule, now: Instant)
      returns (ghost recorded: Recorded)
      requires Valid()
      modifies this
      ensures (State(), recorded) == Record(config, old(State()), ip, rule, now)
      ensures Valid()
    {
      recorded := Ignored;
      if !config.enabled || Allowed(config, ip) || !accepting {
        return;
      }
      if (ip in durable && durable[ip].deadline > now) || (ip in temporary && temporary[ip] > now) {
        return;
      }
      assert Admits(config, State(), ip, now);
      var tally := CountUnderShardLock(ip, rule, now);
      ghost var counted := State();
      recorded := AfterCount(config, counted, tally, ip, rule, now).1;
      if tally.None? || tally.value.count < config.threshold(rule) {
        return;
      }
      var entered := EnqueueUnderPendingLock(ip, rule, tally.value.count, now);
    }

    method CountUnderShardLock(ip: IpAddr, rule: ViolationRule, now: Instant) returns (tally: Option<Tally>)
      requires Valid()
      modifies this`windows
      ensures (State(), tally) == CountInShard(config, old(State()), ip, rule, now)
      ensures Valid()
    {
      var shard := config.shardOf(ip);
      var capacity := config.maxTracked / SHARDS + (if shard < config.maxTracked % SHARDS then 1 else 0);
      assert ShardShaped(config, windows[shard], shard);
      if ip !in windows[shard] && |windows[shard]| >= capacity {
        return None;
      }
      var client := if ip in windows[shard] then windows[shard][ip] else FreshClient(now);
      client := client.(lastSeen := now);
      var counter := client.rules[rule.Index()];
      if Elapsed(now, counter.since) >= rule.Window() {
        counter := RuleWindow(now, 0);
      }
      counter := counter.(count := Increment(counter.count));
      client := client.(rules := client.rules[rule.Index() := counter]);
      CountingKeepsShape(config, windows, ip, client);
      windows := windows[shard := windows[shard][ip := client]];
      return Some(Tally(now, counter.since, counter.count));
    }

    method EnqueueUnderPendingLock(ip: IpAddr, rule: ViolationRule, count: nat, now: Instant) returns (entered: bool)
      modifies this`pending, this`temporary
      ensures (State(), entered) == Enqueue(config, old(State()), ip, rule, count, now)
    {
      if ip in pending {
        return false;
      }
      if |pending| >= config.maxPending {
        return false;
      }
      pending := pending[ip := PendingBlock(rule, count, now + TEMPORARY_SECONDS * SECOND)];
      PublishTemporary();
      return true;
    }

    method SweepWindows(now: Instant)
      requires Valid()
      modifies this`windows
      ensures State() == Sweep(old(State()), now)
      ensures forall i, ip | 0 <= i < SHARDS :: ip in windows[i] <==>
        ip in old(windows)[i] && now < old(windows)[i][ip].lastSeen + 1800 * SECOND
      ensures forall i, ip | 0 <= i < SHARDS && ip in windows[i] :: windows[i][ip] == old(windows)[i][ip]
      ensures Valid()
    {
      SweepKeepsShape(config, windows, now);
      ghost var before := windows;
      for i := 0 to SHARDS
        invariant |windows| == SHARDS
        invariant forall k | 0 <= k < SHARDS :: windows[k] == if k < i then SweptShard(before[k], now) else before[k]
      {
        var table := windows[i];
        windows := windows[i := map ip | ip in table && !Idle(table[ip], now) :: table[ip]];
      }
      assert windows == Sweep(old(State()), now).windows;
    }

    method ExpirePending(now: Instant)
      requires Valid()
      modifies this`pending, this`temporary
      ensures State() == Expire(old(State()), now)
      ensures forall ip :: ip in pending <==> ip in old(pending) && now < old(pending)[ip].deadline
      ensures Valid()
    {
      var before := |pending|;
      ghost var was := pending;
      pending := map ip | ip in pending && pending[ip].deadline > now :: pending[ip];
      if |pending| != before {
        PublishTemporary();
      } else {
        SubmapOfSameSize(pending, was);
      }
    }

    /** The first live entries in some order. */
    method TakeBatch(now: Instant) returns (batch: seq<Proposal>)
      requires Valid()
      ensures IsBatch(config, pending, now, batch)
    {
      var rest := set ip | ip in pending && pending[ip].deadline > now;
      batch := [];
      while rest != {} && |batch| < config.batchSize
        invariant |batch| <= config.batchSize
        invariant rest <= Unexpired(pending, now).Keys
        invariant forall ip | ip in Unexpired(pending, now) ::
          ip in rest || exists i :: 0 <= i < |batch| && batch[i].0 == ip
        invariant forall i | 0 <= i < |batch| ::
          && batch[i].0 in pending && pending[batch[i].0] == batch[i].1 && batch[i].1.deadline > now
          && batch[i].0 !in rest
        invariant forall i, j | 0 <= i < j < |batch| :: batch[i].0 != batch[j].0
        decreases rest
      {
        var ip :| ip in rest;
        ghost var before := batch;
        rest := rest - {ip};
        batch := batch + [(ip, pending[ip])];
        assert batch[|before|].0 == ip && forall i | 0 <= i < |before| :: batch[i] == before[i];
      }
    }

    /** The blocking part: builds the candidate from the old snapshot and the batch alone. */
    method BuildCandidate(before: BlockSnapshot, batch: seq<Proposal>, now: Instant, wall: Option<u64>, force: bool)
      returns (r: Result<Prepared, PersistError>)
      ensures r == Prepare(config, before, batch, now, wall, force)
    {
      var expired := AnyExpired(before, now);
      if batch == [] && !expired && !force {
        return Ok(Prepared(Draft(before, [], [], false), false));
      }
      if batch != [] && |before| >= config.maxBlocked && !expired && !force {
        return Err(CapacityReached);
      }
      if wall.None? {
        return Err(ClockUnavailable);
      }
      var draft := Draft(Retained(before, now), [], [], false);
      var start := draft;
      var i := 0;
      while i < |batch| && !draft.overflow
        invariant i <= |batch|
        invariant Propose(config, start, batch, now, wall.value) ==
          if draft.overflow then Some(draft) else Propose(config, draft, batch[i..], now, wall.value)
        decreases |batch| - i, !draft.overflow
      {
        var (ip, entry) := batch[i];
        assert batch[i..][1..] == batch[i + 1..];
        if entry.deadline <= now {
          i := i + 1;
        } else if ip in draft.blocks || Allowed(config, ip) {
          draft := draft.(consumed := draft.consumed + [ip]);
          i := i + 1;
        } else if |draft.blocks| >= config.maxBlocked {
          draft := draft.(overflow := true);
        } else if wall.value + BLOCK_SECONDS >= U64_LIMIT {
          return Err(TimestampOverflow);
        } else {
          draft := Draft(draft.blocks[ip := NewBlock((ip, entry), now, wall.value)], draft.consumed + [ip],
            draft.activated + [ip], draft.overflow);
          i := i + 1;
        }
      }
      if draft.activated != [] || expired || force {
        return Ok(Prepared(draft, true));
      }
      if draft.overflow && draft.consumed == [] {
        return Err(CapacityReached);
      }
      return Ok(Prepared(draft, false));
    }

    /** The whole transaction; nothing in memory changes unless it succeeds. */
    method PersistPending(force: bool, moment: Moment) returns (r: Result<(), PersistError>, ghost batch: seq<Proposal>)
      requires Valid()
      modifies this`durable, this`pending, this`temporary, writer
      ensures Valid() && accepting == old(accepting)
      ensures IsBatch(config, old(pending), moment.takenAt, batch)
      ensures (State(), OnDisk(), r) ==
        Persisted(config, writer.size, old(State()), old(OnDisk()), batch, force, moment)
      ensures r.Err? ==> State() == old(State())
    {
      var taken := TakeBatch(moment.takenAt);
      batch := taken;
      var result := BuildCandidate(durable, taken, moment.builtAt, moment.wall, force);
      if result.Err? {
        return Err(result.error), batch;
      }
      var Prepared(draft, write) := result.value;
      if write {
        var ok := writer.PersistClientIpBlocklistAtomically(draft.blocks, moment.temp, moment.writtenAt,
          moment.outcomes);
        if !ok {
          return Err(WriteFailed), batch;
        }
        durable := draft.blocks;
      }
      if draft.consumed != [] {
        ConsumePending(draft.consumed);
      }
      return Ok(()), batch;
    }

    method ConsumePending(ips: seq<IpAddr>)
      modifies this`pending, this`temporary
      ensures State() == Consume(old(State()), ips)
    {
      ghost var before := pending;
      for i := 0 to |ips|
        invariant pending == before - ToSet(ips[..i])
      {
        assert ToSet(ips[..i + 1]) == ToSet(ips[..i]) + {ips[i]} by {
          ToSetAppend(ips[..i], ips[i]);
          assert ips[..i + 1] == ips[..i] + [ips[i]];
        }
        pending := pending - {ips[i]};
      }
      assert ips[..|ips|] == ips;
      PublishTemporary();
    }
  }

  lemma ToSetAppend(ips: seq<IpAddr>, ip: IpAddr)
    ensures ToSet(ips + [ip]) == ToSet(ips) + {ip}
  {
    var all := ips + [ip];
    assert all[|ips|] == ip;
    forall other
      ensures other in ToSet(all) <==> other in ToSet(ips) + {ip}
    {
      if i :| 0 <= i < |ips| && ips[i] == other {
        assert all[i] == other;
      }
    }
  }

  lemma SubmapOfSameSize<K, V>(part: map<K, V>, whole: map<K, V>)
    requires part.Keys <= whole.Keys && |part| == |whole|
    requires forall k | k in part :: part[k] == whole[k]
    ensures part == whole
  {
    SubsetSize(whole.Keys - part.Keys, whole.Keys);
    assert whole.Keys == part.Keys + (whole.Keys - part.Keys);
    assert |whole.Keys - part.Keys| == 0;
    assert whole.Keys - part.Keys == {};
  }

  lemma SweepKeepsShape(config: Config, windows: seq<Shard>, now: Instant)
    requires WindowsShaped(config, windows)
    ensures forall i | 0 <= i < SHARDS :: ShardShaped(config, SweptShard(windows[i], now), i)
  {
    forall i | 0 <= i < SHARDS
      ensures ShardShaped(config, SweptShard(windows[i], now), i)
    {
      assert ShardShaped(config, windows[i], i);
      SubsetSize(SweptShard(windows[i], now).Keys, windows[i].Keys);
    }
  }
}
