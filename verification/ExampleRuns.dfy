/**
Whole runs of the IP block engine from a start, that show where a stronger promise would be wrong:
a durable block lost to a loss of power, a forced compaction that leaves live work behind, and
violations at almost twice the threshold that never reach it.
*/
module ExampleRuns {
  import opened Wrappers
  import opened ViolationWindows
  import opened Network
  import opened BlockFile
  import opened IpBlocking
  import opened IpBlockingRuns
  import opened IpBlockingTheorems
  import opened IpCrossings

  const NOTHING: StateFile := StateFile(VERSION, [])

  function FsWith(file: StateFile): Fs {
    Fs(Some(Stored(file)), Some(Stored(file)), {}, map[])
  }

  /** The first state of a process that has loaded a settled file. */
  function Born(file: StateFile, wall: u64, now: Instant, offset: nat, blocks: BlockSnapshot): System {
    Started(FsWith(file), wall, now, offset, blocks)
  }

  ghost predicate CanTrack(config: Config, ip: IpAddr) {
    && ConfigOk(config) && Normalized(ip) && Watched(config, ip)
    && ShardCapacity(config.maxTracked, config.shardOf(ip)) >= 1
  }

  /** A configuration under which one violation of the rule blocks the client. */
  ghost predicate BlocksAtOnce(config: Config, ip: IpAddr, rule: ViolationRule) {
    CanTrack(config, ip) && config.threshold(rule) == 1
  }

  function Entry(rule: ViolationRule, now: Instant): PendingBlock {
    PendingBlock(rule, 1, now + TEMPORARY_SECONDS * SECOND)
  }

  lemma EmptyShaped(config: Config)
    requires ConfigOk(config)
    ensures WindowsShaped(config, EmptyShards())
  {
    forall i | 0 <= i < SHARDS
      ensures ShardShaped(config, EmptyShards()[i], i)
    {
      assert EmptyShards()[i] == map[];
    }
  }

  // ---- one violation that blocks ----

  lemma FirstViolation(config: Config, size: Size, s: System, ip: IpAddr, rule: ViolationRule)
    requires BlocksAtOnce(config, ip, rule) && s.shared.windows == EmptyShards() && s.shared.accepting
    requires s.shared.pending == map[] && s.shared.temporary == map[] && ip !in s.shared.durable
    ensures Enabled(config, size, s, Violation(ip, rule)) && WindowsShaped(config, s.shared.windows)
    ensures var t := Next(config, size, s, Violation(ip, rule));
      && WindowsShaped(config, t.shared.windows)
      && t.shared.pending == map[ip := Entry(rule, s.clock)] && t.shared.durable == s.shared.durable
      && t.manager == s.manager && t.disk == s.disk && t.clock == s.clock && t.uncut == s.uncut
  {
    EmptyShaped(config);
    var windows := RecordCases(config, s.shared, ip, rule, s.clock);
    var counted := CountInShard(config, s.shared, ip, rule, s.clock);
    assert counted.1 == Some(Tally(s.clock, s.clock, 1));
  }

  lemma FirstIsTracked(config: Config, size: Size, s: System, ip: IpAddr, rule: ViolationRule)
    requires BlocksAtOnce(config, ip, rule) && s.shared.windows == EmptyShards() && s.shared.accepting
    requires s.shared.pending == map[] && s.shared.temporary == map[] && ip !in s.shared.durable
    requires WindowsShaped(config, s.shared.windows) && Enabled(config, size, s, Violation(ip, rule))
    ensures var t := Next(config, size, s, Violation(ip, rule));
      ip in t.shared.windows[config.shardOf(ip)] && t.shared.accepting
  {
    assert s.shared.windows[config.shardOf(ip)] == map[];
    var windows := RecordCases(config, s.shared, ip, rule, s.clock);
  }

  /** A temporary block has lapsed, the manager has not expired it yet, and the client goes on. */
  function Relapse(ip: IpAddr, rule: ViolationRule): seq<Event> {
    [Violation(ip, rule), Tick(TEMPORARY_SECONDS * SECOND)]
  }

  /**
  A crossing that does not block: while the lapsed entry of an earlier block waits to be expired, the
  client's next violation is counted and reaches the threshold, but the client is not blocked by it.
  */
  lemma LapsedEntryWaits(config: Config, size: Size, wall: u64, now: Instant, offset: nat, ip: IpAddr,
    rule: ViolationRule) returns (s: System)
    requires BlocksAtOnce(config, ip, rule) && Loads(config, size, FsWith(NOTHING), wall, now, map[])
    ensures Reaches(config, size, Born(NOTHING, wall, now, offset, map[]), Relapse(ip, rule), s)
    ensures WindowsShaped(config, s.shared.windows) && Enabled(config, size, s, Violation(ip, rule))
    ensures var t := Next(config, size, s, Violation(ip, rule));
      && |t.log| == |s.log| + 1 && !t.log[|s.log|].entered
      && t.log[|s.log|].tally.count >= config.threshold(rule)
      && !Blocked(config, t.shared, ip, t.clock)
  {
    var start := Born(NOTHING, wall, now, offset, map[]);
    EmptyShaped(config);
    FirstViolation(config, size, start, ip, rule);
    FirstIsTracked(config, size, start, ip, rule);
    ReachesThen(config, size, start, [], start, Violation(ip, rule));
    var first := Next(config, size, start, Violation(ip, rule));
    ReachesThen(config, size, start, [] + [Violation(ip, rule)], first, Tick(TEMPORARY_SECONDS * SECOND));
    s := Next(config, size, first, Tick(TEMPORARY_SECONDS * SECOND));
    assert [] + [Violation(ip, rule)] + [Tick(TEMPORARY_SECONDS * SECOND)] == Relapse(ip, rule);
    InvariantAtStart(config, size, FsWith(NOTHING), wall, now, offset, map[]);
    InvariantAlways(config, size, start, Relapse(ip, rule), s);
    CountsLapsed(config, size, s, ip, rule, now);
  }

  lemma CountsLapsed(config: Config, size: Size, s: System, ip: IpAddr, rule: ViolationRule, now: Instant)
    requires BlocksAtOnce(config, ip, rule) && Invariant(config, size, s)
    requires s.shared.pending == map[ip := Entry(rule, now)] && s.clock == now + TEMPORARY_SECONDS * SECOND
    requires ip !in s.shared.durable && s.shared.accepting && ip in s.shared.windows[config.shardOf(ip)]
    ensures var t := Next(config, size, s, Violation(ip, rule));
      && |t.log| == |s.log| + 1 && !t.log[|s.log|].entered
      && t.log[|s.log|].tally.count >= config.threshold(rule)
      && !Blocked(config, t.shared, ip, t.clock)
  {
    CrossingEnters(config, size, s, ip, rule);
    RecordFrame(config, s, ip, rule);
    var t := Next(config, size, s, Violation(ip, rule));
    InvariantKept(config, size, s, Violation(ip, rule));
    CountedAtLeastOnce(config, s, ip, rule);
  }

  lemma CountedAtLeastOnce(config: Config, s: System, ip: IpAddr, rule: ViolationRule)
    requires ConfigOk(config) && WindowsShaped(config, s.shared.windows)
    ensures var r := Record(config, s.shared, ip, rule, s.clock).1;
      !r.Ignored? ==> r.tally.count >= 1
  {
    var windows := RecordCases(config, s.shared, ip, rule, s.clock);
  }

  /** From a fresh start to a transaction that has everything ready to write. */
  lemma UntilWriting(config: Config, size: Size, s: System, ip: IpAddr, rule: ViolationRule, force: bool, wall: u64,
    temp: TempName, prepared: Prepared) returns (events: seq<Event>, t: System)
    requires BlocksAtOnce(config, ip, rule) && s.shared.windows == EmptyShards() && s.shared.accepting
    requires s.shared.pending == map[] && s.shared.temporary == map[] && ip !in s.shared.durable && s.manager.Resting?
    requires Prepare(config, s.shared.durable, [(ip, Entry(rule, s.clock))], s.clock, Some(wall), force) == Ok(prepared)
    requires prepared.write
    ensures Reaches(config, size, s, events, t) && WindowsShaped(config, t.shared.windows)
    ensures t.clock == s.clock && t.disk == s.disk
    ensures t.shared.pending == map[ip := Entry(rule, s.clock)] && t.shared.durable == s.shared.durable
    ensures t.manager == Writing(prepared, StartJob(prepared.draft.blocks, temp))
    ensures TakeBatch([(ip, Entry(rule, s.clock))], force) in events
  {
    FirstViolation(config, size, s, ip, rule);
    ReachesThen(config, size, s, [], s, Violation(ip, rule));
    var pending := Next(config, size, s, Violation(ip, rule));
    var batch: seq<Proposal> := [(ip, Entry(rule, s.clock))];
    assert batch[0].0 == ip;
    ReachesThen(config, size, s, [] + [Violation(ip, rule)], pending, TakeBatch(batch, force));
    var taken := Next(config, size, pending, TakeBatch(batch, force));
    events := [] + [Violation(ip, rule)] + [TakeBatch(batch, force)];
    ReachesThen(config, size, s, events, taken, Build(Some(wall), temp));
    events := events + [Build(Some(wall), temp)];
    t := Next(config, size, taken, Build(Some(wall), temp));
  }

  // ---- successful file actions ----

  /** The disk and the job after so many successful file actions. */
  function AfterActions(size: Size, fs: Fs, blocks: BlockSnapshot, temp: TempName, now: Instant, n: nat): (Disk, Job) {
    if n == 0 then (Disk(fs, None), StartJob(blocks, temp))
    else
      var before := AfterActions(size, fs, blocks, temp, now, n - 1);
      if before.1.stage.Done? then before else FileAction(size, before.0, before.1, now, true)
  }

  function StageAfter(n: nat): Stage {
    if n == 0 then RemoveOrphan else if n == 1 then Create else if n == 2 then WriteData else if n == 3 then SyncData
    else if n == 4 then Rename else if n == 5 then SyncDirectory else Done(true)
  }

  /** After five the new file is in place, after six it is settled. */
  lemma {:induction false} ActionsAre(size: Size, file: StateFile, blocks: BlockSnapshot, temp: TempName, now: Instant,
    n: nat)
    requires n <= 6 && size(FileOf(blocks, now)) <= MAX_STATE_BYTES
    ensures var r, made := AfterActions(size, FsWith(file), blocks, temp, now, n), FileOf(blocks, now);
      && r.1 == Job(blocks, temp, if n == 0 then NOTHING else made, StageAfter(n))
      && r.0.cleanupTemp.None?
      && r.0.fs.temps == (if n <= 1 || n >= 5 then map[] else map[temp := r.0.fs.temps[temp]])
      && (n == 4 ==> r.0.fs.temps[temp] == Stored(made))
      && r.0.fs.current == Some(Stored(if n >= 5 then made else file))
      && r.0.fs.settled == Some(Stored(if n == 6 then made else file))
      && r.0.fs.recent == (if n == 5 then {Stored(made)} else {})
    decreases n
  {
    if n > 0 {
      ActionsAre(size, file, blocks, temp, now, n - 1);
    }
  }

  /** One successful file action. */
  lemma Acts(config: Config, size: Size, s: System, events: seq<Event>, m: System)
    returns (longer: seq<Event>, t: System)
    requires Reaches(config, size, s, events, m) && ConfigOk(config) && WindowsShaped(config, m.shared.windows)
    requires m.manager.Writing? && !m.manager.job.stage.Done?
    ensures Reaches(config, size, s, longer, t) && WindowsShaped(config, t.shared.windows)
    ensures events <= longer && t.clock == m.clock && t.shared == m.shared
    ensures var r := FileAction(size, m.disk, m.manager.job, m.clock, true);
      t.disk == r.0 && t.manager == Writing(m.manager.prepared, r.1)
  {
    ReachesThen(config, size, s, events, m, ActOnFile(true));
    longer := events + [ActOnFile(true)];
    t := Next(config, size, m, ActOnFile(true));
  }

  /** Several of them. */
  lemma ActsUntil(config: Config, size: Size, s: System, file: StateFile, events: seq<Event>, m: System, temp: TempName,
    n: nat) returns (longer: seq<Event>, t: System)
    requires Reaches(config, size, s, events, m) && ConfigOk(config) && WindowsShaped(config, m.shared.windows)
    requires m.manager.Writing? && m.disk == Disk(FsWith(file), None) && n <= 6
    requires m.manager.job == StartJob(m.manager.prepared.draft.blocks, temp)
    requires size(FileOf(m.manager.prepared.draft.blocks, m.clock)) <= MAX_STATE_BYTES
    ensures Reaches(config, size, s, longer, t) && WindowsShaped(config, t.shared.windows)
    ensures events <= longer && t.clock == m.clock && t.shared == m.shared
    ensures t.manager.Writing? && t.manager.prepared == m.manager.prepared
    ensures (t.disk, t.manager.job) ==
      AfterActions(size, FsWith(file), m.manager.prepared.draft.blocks, temp, m.clock, n)
  {
    longer, t := events, m;
    for i := 0 to n
      invariant Reaches(config, size, s, longer, t) && WindowsShaped(config, t.shared.windows)
      invariant events <= longer && t.clock == m.clock && t.shared == m.shared
      invariant t.manager.Writing? && t.manager.prepared == m.manager.prepared
      invariant (t.disk, t.manager.job) ==
        AfterActions(size, FsWith(file), m.manager.prepared.draft.blocks, temp, m.clock, i)
    {
      ActionsAre(size, file, m.manager.prepared.draft.blocks, temp, m.clock, i);
      longer, t := Acts(config, size, s, longer, t);
    }
  }

  // ---- a loss of power that loses a block ----

  function Block(ip: IpAddr, rule: ViolationRule, now: Instant, wall: u64): ActiveBlock
    requires wall + BLOCK_SECONDS < U64_LIMIT
  {
    NewBlock((ip, Entry(rule, now)), now, wall)
  }

  lemma OneProposal(config: Config, ip: IpAddr, rule: ViolationRule, now: Instant, wall: u64)
    requires BlocksAtOnce(config, ip, rule) && wall + BLOCK_SECONDS < U64_LIMIT
    ensures var blocks := map[ip := Block(ip, rule, now, wall)];
      Prepare(config, map[], [(ip, Entry(rule, now))], now, Some(wall), false) ==
        Ok(Prepared(Draft(blocks, [ip], [ip], false), true))
  {
    var batch: seq<Proposal> := [(ip, Entry(rule, now))];
    var empty: BlockSnapshot := map[];
    assert Retained(empty, now) == map[];
    assert batch[1..] == [];
    var start := Draft(map[], [], [], false);
    var draft := Draft(map[ip := Block(ip, rule, now, wall)], [ip], [ip], false);
    assert start.blocks[ip := NewBlock(batch[0], now, wall)] == draft.blocks;
    assert start.consumed + [ip] == [ip];
    assert Propose(config, draft, [], now, wall) == Some(draft);
    assert Propose(config, start, batch, now, wall) == Some(draft);
  }

  lemma OneRow(ip: IpAddr, block: ActiveBlock, now: Instant)
    requires block.deadline > now
    ensures FileOf(map[ip := block], now) == StateFile(VERSION, [block.record])
  {
    var blocks := map[ip := block];
    assert Live(blocks, now) == {ip};
    SortedLists({ip});
    var ips := Sorted({ip});
    assert ips == [ip] by {
      assert ip in ips;
      assert forall i | 0 <= i < |ips| :: ips[i] in ips && ips[i] == ip;
    }
  }

  /** Up to the moment after the rename. */
  lemma UntilRenamed(config: Config, size: Size, wall: u64, now: Instant, offset: nat, ip: IpAddr, rule: ViolationRule,
    temp: TempName) returns (events: seq<Event>, t: System)
    requires BlocksAtOnce(config, ip, rule) && wall + BLOCK_SECONDS < U64_LIMIT
    requires size(StateFile(VERSION, [Block(ip, rule, now, wall).record])) <= MAX_STATE_BYTES
    ensures Reaches(config, size, Born(NOTHING, wall, now, offset, map[]), events, t)
    ensures WindowsShaped(config, t.shared.windows) && t.clock == now && t.manager.Writing?
    ensures var file := StateFile(VERSION, [Block(ip, rule, now, wall).record]);
      && t.manager.job.stage.SyncDirectory? && t.manager.job.file == file
      && t.disk.fs == FsWith(NOTHING).(current := Some(Stored(file)), recent := {Stored(file)})
  {
    OneProposal(config, ip, rule, now, wall);
    events, t := RenamesOne(config, size, Born(NOTHING, wall, now, offset, map[]), ip, rule, wall, temp);
  }

  lemma RenamesOne(config: Config, size: Size, s: System, ip: IpAddr, rule: ViolationRule, wall: u64, temp: TempName)
    returns (events: seq<Event>, t: System)
    requires BlocksAtOnce(config, ip, rule) && wall + BLOCK_SECONDS < U64_LIMIT && s.manager.Resting?
    requires s.shared == Shared(map[], map[], EmptyShards(), map[], true) && s.disk == Disk(FsWith(NOTHING), None)
    requires var block := Block(ip, rule, s.clock, wall);
      && size(StateFile(VERSION, [block.record])) <= MAX_STATE_BYTES
      && Prepare(config, map[], [(ip, Entry(rule, s.clock))], s.clock, Some(wall), false) ==
           Ok(Prepared(Draft(map[ip := block], [ip], [ip], false), true))
    ensures Reaches(config, size, s, events, t)
    ensures WindowsShaped(config, t.shared.windows) && t.clock == s.clock && t.manager.Writing?
    ensures var file := StateFile(VERSION, [Block(ip, rule, s.clock, wall).record]);
      && t.manager.job.stage.SyncDirectory? && t.manager.job.file == file
      && t.disk.fs == FsWith(NOTHING).(current := Some(Stored(file)), recent := {Stored(file)})
  {
    var blocks := map[ip := Block(ip, rule, s.clock, wall)];
    var prepared := Prepared(Draft(blocks, [ip], [ip], false), true);
    OneRow(ip, blocks[ip], s.clock);
    var first, m := UntilWriting(config, size, s, ip, rule, false, wall, temp, prepared);
    events, t := ActsUntil(config, size, s, NOTHING, first, m, temp, 5);
    ActionsAre(size, NOTHING, blocks, temp, s.clock, 5);
  }

  /**
  The loss happens: some run from a fresh start, ending in a restart of the process alone, leaves
  the client durably blocked in memory while a power loss can leave a file without it.
  */
  lemma LossHappens(config: Config, size: Size, wall: u64, now: Instant, offset: nat, ip: IpAddr, rule: ViolationRule,
    temp: TempName) returns (events: seq<Event>, t: System, lost: Fs)
    requires BlocksAtOnce(config, ip, rule) && wall + BLOCK_SECONDS < U64_LIMIT
    requires size(NOTHING) <= MAX_STATE_BYTES
    requires size(StateFile(VERSION, [Block(ip, rule, now, wall).record])) <= MAX_STATE_BYTES
    ensures Reaches(config, size, Born(NOTHING, wall, now, offset, map[]), events, t) && Invariant(config, size, t)
    ensures DurableLive(t.shared, ip, t.clock)
    ensures AfterPowerLoss(t.disk.fs, lost)
    ensures !ContentCovers(config, size, lost.current, t.shared.durable, t.clock, false)
  {
    var s := Born(NOTHING, wall, now, offset, map[]);
    var blocks := map[ip := Block(ip, rule, now, wall)];
    var m;
    events, m := UntilRenamed(config, size, wall, now, offset, ip, rule, temp);
    var rows := m.manager.job.file.blocks;
    var restart := Restart(false, m.disk.fs, [], wall, now, offset, blocks);
    InvariantAtStart(config, size, FsWith(NOTHING), wall, now, offset, map[]);
    InvariantAlways(config, size, s, events, m);
    assert Restores(rows[0], ip, wall) && Restored(rows[0], wall, now) == blocks[ip];
    UnsyncedRestartCanLose(config, size, m, NOTHING, wall, now, offset, blocks, ip);
    ReachesThen(config, size, s, events, m, restart);
    events := events + [restart];
    t := Next(config, size, m, restart);
    lost := FsWith(NOTHING);
  }

  // ---- a loss of power that takes the first file ----

  /** Everything but the directory sync succeeds. */
  const UNSYNCED: Outcomes := Outcomes(true, true, true, true, true, false, true)

  const NO_FILE: Fs := Fs(None, None, {}, map[])

  lemma CreatesUnsynced(size: Size, temp: TempName, at: Instant)
    requires size(NOTHING) <= MAX_STATE_BYTES
    ensures Created(size, NO_FILE, [Try(temp, at, UNSYNCED)]) ==
      Fs(Some(Stored(NOTHING)), None, {Stored(NOTHING)}, map[])
  {
    var job := StartJob(map[], temp);
    assert Live(map[], at) == {} && FileOf(map[], at) == NOTHING;
    var torn, written, synced: Fs := WithTemp(NO_FILE, temp, Torn), WithTemp(NO_FILE, temp, Buffered(NOTHING)),
      WithTemp(NO_FILE, temp, Stored(NOTHING));
    var renamed := Fs(Some(Stored(NOTHING)), None, {Stored(NOTHING)}, map[]);
    JobStep(size, Disk(NO_FILE, None), job, at, UNSYNCED);
    JobStep(size, Disk(NO_FILE, None), job.(stage := Create), at, UNSYNCED);
    JobStep(size, Disk(torn, None), job.(stage := WriteData), at, UNSYNCED);
    assert WithTemp(torn, temp, Buffered(NOTHING)) == written && WithTemp(written, temp, Stored(NOTHING)) == synced;
    JobStep(size, Disk(written, None), job.(stage := SyncData), at, UNSYNCED);
    JobStep(size, Disk(synced, None), job.(stage := Rename), at, UNSYNCED);
    assert Renamed(synced, temp, Stored(NOTHING)) == renamed;
    JobStep(size, Disk(renamed, None), job.(stage := SyncDirectory), at, UNSYNCED);
    assert Without(renamed, temp) == renamed;
    JobStep(size, Disk(renamed, None), job.(stage := RemoveTemp), at, UNSYNCED);
    assert [Try(temp, at, UNSYNCED)][1..] == [];
  }

  /**
  When the first creation fails only at its directory sync, the next start trusts the empty file, and
  a loss of power can leave no file at all.
  */
  lemma FirstFileCanVanish(config: Config, size: Size, temp: TempName, at: Instant, wall: u64, now: Instant,
      offset: nat)
    requires ConfigOk(config) && size(NOTHING) <= MAX_STATE_BYTES
    ensures var fs := Created(size, NO_FILE, [Try(temp, at, UNSYNCED)]);
      var s := Started(fs, wall, now, offset, map[]);
      && Loads(config, size, fs, wall, now, map[]) && Invariant(config, size, s) && !s.Synced()
      && AfterPowerLoss(s.disk.fs, NO_FILE)
  {
    CreatesUnsynced(size, temp, at);
    var fs := Created(size, NO_FILE, [Try(temp, at, UNSYNCED)]);
    InvariantAtStart(config, size, fs, wall, now, offset, map[]);
    assert fs.settled in Doubts(fs) && Survives(fs.settled, NO_FILE.current);
  }

  // ---- a forced compaction that leaves its work behind ----

  lemma FullProposal(config: Config, held: IpAddr, block: ActiveBlock, ip: IpAddr, rule: ViolationRule, now: Instant,
    wall: u64)
    requires BlocksAtOnce(config, ip, rule) && config.maxBlocked == 1 && held != ip && block.deadline > now
    ensures var blocks := map[held := block];
      Prepare(config, blocks, [(ip, Entry(rule, now))], now, Some(wall), true) ==
        Ok(Prepared(Draft(blocks, [], [], true), true))
  {
    var blocks := map[held := block];
    assert Retained(blocks, now) == blocks;
  }

  /** A finished job that consumed nothing is published. */
  lemma Publishes(config: Config, size: Size, s: System, events: seq<Event>, m: System)
    returns (longer: seq<Event>, t: System)
    requires Reaches(config, size, s, events, m) && ConfigOk(config) && WindowsShaped(config, m.shared.windows)
    requires m.manager.Writing? && m.manager.job.stage == Done(true)
    requires m.manager.prepared.write && m.manager.prepared.draft.consumed == []
    ensures Reaches(config, size, s, longer, t)
    ensures longer == events + [FinishFile, PublishDurable]
    ensures t.manager.Resting? && t.clock == m.clock && t.shared.pending == m.shared.pending
    ensures t.shared.durable == m.manager.prepared.draft.blocks
  {
    ReachesThen(config, size, s, events, m, FinishFile);
    var n := Next(config, size, m, FinishFile);
    ReachesThen(config, size, s, events + [FinishFile], n, PublishDurable);
    t := Next(config, size, n, PublishDurable);
    longer := events + [FinishFile] + [PublishDurable];
  }

  /**
  The manager's first transaction is a forced one.  Started on a file with as many live blocks as the
  table takes, it commits, and the client that is pending stays pending.
  */
  lemma CompactionConsumesNothing(config: Config, size: Size, wall: u64, now: Instant, offset: nat, row: BlockRecord,
    ip: IpAddr, rule: ViolationRule, temp: TempName) returns (events: seq<Event>, t: System)
    requires BlocksAtOnce(config, ip, rule) && config.maxBlocked == 1
    requires RowOk(row) && Normalized(row.clientIp) && wall < row.expires && row.clientIp != ip
    requires size(StateFile(VERSION, [row])) <= MAX_STATE_BYTES
    requires size(StateFile(VERSION, [Restored(row, wall, now).record])) <= MAX_STATE_BYTES
    ensures var blocks := map[row.clientIp := Restored(row, wall, now)];
      && Loads(config, size, OneRowFs(row), wall, now, blocks)
      && Reaches(config, size, Started(OneRowFs(row), wall, now, offset, blocks), events, t)
      && TakeBatch([(ip, Entry(rule, now))], true) in events && PublishDurable in events
      && t.manager.Resting? && t.shared.durable == blocks
      && t.shared.pending == map[ip := Entry(rule, now)] && t.shared.pending[ip].deadline > t.clock
  {
    var block := Restored(row, wall, now);
    OneRowLoads(config, size, row, wall, now);
    var s := Born(StateFile(VERSION, [row]), wall, now, offset, map[row.clientIp := block]);
    FullProposal(config, row.clientIp, block, ip, rule, now, wall);
    events, t := CompactsFull(config, size, s, row, block, wall, ip, rule, temp);
  }

  lemma CompactsFull(config: Config, size: Size, s: System, row: BlockRecord, block: ActiveBlock, wall: u64, ip: IpAddr,
    rule: ViolationRule, temp: TempName) returns (events: seq<Event>, t: System)
    requires BlocksAtOnce(config, ip, rule) && row.clientIp != ip && s.manager.Resting?
    requires s.shared == Shared(map[row.clientIp := block], map[], EmptyShards(), map[], true)
    requires s.disk == Disk(FsWith(StateFile(VERSION, [row])), None) && block.deadline > s.clock
    requires size(StateFile(VERSION, [block.record])) <= MAX_STATE_BYTES
    requires Prepare(config, s.shared.durable, [(ip, Entry(rule, s.clock))], s.clock, Some(wall), true) ==
      Ok(Prepared(Draft(s.shared.durable, [], [], true), true))
    ensures Reaches(config, size, s, events, t)
    ensures TakeBatch([(ip, Entry(rule, s.clock))], true) in events && PublishDurable in events
    ensures t.manager.Resting? && t.shared.durable == s.shared.durable && t.clock == s.clock
    ensures t.shared.pending == map[ip := Entry(rule, s.clock)]
  {
    var file, blocks := StateFile(VERSION, [row]), s.shared.durable;
    var prepared := Prepared(Draft(blocks, [], [], true), true);
    var first, m := UntilWriting(config, size, s, ip, rule, true, wall, temp, prepared);
    OneRow(row.clientIp, block, s.clock);
    var second, n := ActsUntil(config, size, s, file, first, m, temp, 6);
    ActionsAre(size, file, blocks, temp, s.clock, 6);
    events, t := Publishes(config, size, s, second, n);
    assert forall e | e in first :: e in second && e in events;
  }

  // ---- a reload that drops a live block ----

  /**
  Unless the block started on a whole second of the wall clock, a restart just before its deadline
  drops it.
  */
  lemma ReloadDropsBlock(config: Config, size: Size, wall: u64, now: Instant, offset: nat, row: BlockRecord)
    returns (events: seq<Event>, t: System, later: u64, restart: Event)
    requires ConfigOk(config) && RowOk(row) && Normalized(row.clientIp)
    requires wall < row.expires <= wall + BLOCK_SECONDS && wall == WallAt(now, offset) && (now + offset) % SECOND != 0
    requires size(StateFile(VERSION, [row])) <= MAX_STATE_BYTES
    ensures var blocks := map[row.clientIp := Restored(row, wall, now)];
      && Loads(config, size, OneRowFs(row), wall, now, blocks)
      && Reaches(config, size, Started(OneRowFs(row), wall, now, offset, blocks), events, t)
    ensures later == WallAt(t.clock, offset) && DurableLive(t.shared, row.clientIp, t.clock)
    ensures restart == Restart(false, t.disk.fs, [], later, t.clock, offset, map[]) && Enabled(config, size, t, restart)
  {
    var ip := row.clientIp;
    var blocks := map[ip := Restored(row, wall, now)];
    OneRowLoads(config, size, row, wall, now);
    var s := Started(OneRowFs(row), wall, now, offset, blocks);
    EmptyShaped(config);
    var wait := (row.expires - wall) * SECOND - 1;
    ReachesThen(config, size, s, [], s, Tick(wait));
    events, t := [] + [Tick(wait)], Next(config, size, s, Tick(wait));
    later := row.expires;
    restart := Restart(false, t.disk.fs, [], later, t.clock, offset, map[]);
  }

  // ---- almost twice the threshold ----

  /** The client is tracked with this window for the rule; nobody is blocked or pending. */
  ghost predicate Counting(config: Config, s: System, ip: IpAddr, rule: ViolationRule, window: RuleWindow) {
    && ConfigOk(config) && WindowsShaped(config, s.shared.windows) && s.shared.accepting
    && s.shared.durable == map[] && s.shared.pending == map[] && s.shared.temporary == map[]
    && ip in s.shared.windows[config.shardOf(ip)]
    && s.shared.windows[config.shardOf(ip)][ip].Valid()
    && s.shared.windows[config.shardOf(ip)][ip].rules[rule.Index()] == window
    && (forall entry | entry in s.log :: !entry.entered)
  }

  /** One more violation that stays below the threshold. */
  lemma CountsOne(config: Config, size: Size, s: System, ip: IpAddr, counted: ViolationRule, rule: ViolationRule,
    window: RuleWindow, own: RuleWindow) returns (t: System)
    requires CanTrack(config, ip) && Counting(config, s, ip, rule, window) && Counting(config, s, ip, counted, own)
    requires CountIn(own, counted.Window(), s.clock).count < config.threshold(counted)
    ensures Enabled(config, size, s, Violation(ip, counted)) && t == Next(config, size, s, Violation(ip, counted))
    ensures t.clock == s.clock
    ensures var next := CountIn(own, counted.Window(), s.clock);
      && Counting(config, t, ip, counted, next)
      && t.log == s.log + [LogEntry(ip, counted, Tally(s.clock, next.since, next.count), false)]
    ensures counted != rule ==> Counting(config, t, ip, rule, window)
  {
    t := Next(config, size, s, Violation(ip, counted));
    CountKeepsShape(config, s.shared, ip, counted, s.clock);
  }

  /** The run goes on by that violation. */
  lemma CountsNext(config: Config, size: Size, s: System, events: seq<Event>, m: System, ip: IpAddr,
      counted: ViolationRule,
    own: RuleWindow, next: RuleWindow) returns (longer: seq<Event>, t: System)
    requires CanTrack(config, ip) && Counting(config, m, ip, counted, own) && Reaches(config, size, s, events, m)
    requires CountIn(own, counted.Window(), m.clock) == next && next.count < config.threshold(counted)
    ensures Reaches(config, size, s, longer, t) && t.clock == m.clock && Counting(config, t, ip, counted, next)
    ensures Tallies(t.log, ip, counted) == Tallies(m.log, ip, counted) + [Tally(m.clock, next.since, next.count)]
  {
    t := CountsOne(config, size, m, ip, counted, counted, own, own);
    ReachesThen(config, size, s, events, m, Violation(ip, counted));
    longer := events + [Violation(ip, counted)];
    TalliesAppend(m.log, LogEntry(ip, counted, Tally(m.clock, next.since, next.count), false), ip, counted);
  }

  lemma CountsOn(window: RuleWindow, since: Instant, n: nat, length: nat, now: Instant)
    requires CountIn(window, length, now) == RuleWindow(since, 1) && Elapsed(now, since) < length && 1 <= n <= U32_MAX
    ensures CountIn(if n == 1 then window else RuleWindow(since, n - 1), length, now) == RuleWindow(since, n)
  {
  }

  lemma BelowOneMore(at: Instant, since: Instant, n: nat)
    requires n > 0
    ensures Below(at, since, n) == Below(at, since, n - 1) + [Tally(at, since, n)]
  {
  }

  /** So many violations at one moment, from a window that has counted nothing yet or has run its length. */
  lemma {:induction false} CountsMany(config: Config, size: Size, s: System, events: seq<Event>, m: System, ip: IpAddr,
    rule: ViolationRule, window: RuleWindow, since: Instant, n: nat) returns (longer: seq<Event>, t: System)
    requires CanTrack(config, ip) && Counting(config, m, ip, rule, window) && Reaches(config, size, s, events, m)
    requires CountIn(window, rule.Window(), m.clock) == RuleWindow(since, 1) && Elapsed(m.clock, since) < rule.Window()
    requires n < config.threshold(rule)
    ensures Reaches(config, size, s, longer, t) && t.clock == m.clock
    ensures Counting(config, t, ip, rule, if n == 0 then window else RuleWindow(since, n))
    ensures Tallies(t.log, ip, rule) == Tallies(m.log, ip, rule) + Below(m.clock, since, n)
    decreases n
  {
    longer, t := events, m;
    if n > 0 {
      longer, t := CountsMany(config, size, s, events, m, ip, rule, window, since, n - 1);
      CountsOn(window, since, n, rule.Window(), m.clock);
      longer, t := CountsNext(config, size, s, longer, t, ip, rule, if n == 1 then window else RuleWindow(since, n - 1),
        RuleWindow(since, n));
      BelowOneMore(m.clock, since, n);
    }
  }

  /** Time passes. */
  lemma Waits(config: Config, size: Size, s: System, events: seq<Event>, m: System, ip: IpAddr, rule: ViolationRule,
    window: RuleWindow, nanos: nat) returns (longer: seq<Event>, t: System)
    requires Counting(config, m, ip, rule, window) && Reaches(config, size, s, events, m)
    ensures Reaches(config, size, s, longer, t) && Counting(config, t, ip, rule, window)
    ensures t.clock == m.clock + nanos && t.log == m.log
  {
    ReachesThen(config, size, s, events, m, Tick(nanos));
    longer, t := events + [Tick(nanos)], Next(config, size, m, Tick(nanos));
  }

  /** The first violation of a client, under another rule, starts the windows of all rules. */
  lemma StartsAll(config: Config, size: Size, wall: u64, now: Instant, offset: nat, ip: IpAddr, rule: ViolationRule,
    other: ViolationRule) returns (events: seq<Event>, t: System)
    requires CanTrack(config, ip) && other != rule && config.threshold(other) > 1
    ensures Reaches(config, size, Born(NOTHING, wall, now, offset, map[]), events, t) && t.clock == now
    ensures Counting(config, t, ip, rule, RuleWindow(now, 0)) && Tallies(t.log, ip, rule) == []
  {
    var s := Born(NOTHING, wall, now, offset, map[]);
    EmptyShaped(config);
    assert s.shared.windows[config.shardOf(ip)] == map[];
    CountKeepsShape(config, s.shared, ip, other, now);
    ReachesThen(config, size, s, [], s, Violation(ip, other));
    events, t := [] + [Violation(ip, other)], Next(config, size, s, Violation(ip, other));
    TalliesAppend([], LogEntry(ip, other, Tally(now, now, 1), false), ip, rule);
    assert t.log == [] + [LogEntry(ip, other, Tally(now, now, 1), false)];
  }

  /** Wait, then so many violations at one moment. */
  lemma WaitsAndCounts(config: Config, size: Size, s: System, events: seq<Event>, m: System, ip: IpAddr,
    rule: ViolationRule, window: RuleWindow, nanos: nat, since: Instant, n: nat) returns (longer: seq<Event>, t: System)
    requires CanTrack(config, ip) && Counting(config, m, ip, rule, window) && Reaches(config, size, s, events, m)
    requires CountIn(window, rule.Window(), m.clock + nanos) == RuleWindow(since, 1)
    requires Elapsed(m.clock + nanos, since) < rule.Window() && 1 <= n < config.threshold(rule)
    ensures Reaches(config, size, s, longer, t) && t.clock == m.clock + nanos
    ensures Counting(config, t, ip, rule, RuleWindow(since, n))
    ensures Tallies(t.log, ip, rule) == Tallies(m.log, ip, rule) + Below(t.clock, since, n)
  {
    longer, t := Waits(config, size, s, events, m, ip, rule, window, nanos);
    longer, t := CountsMany(config, size, s, longer, t, ip, rule, window, since, n);
  }

  /**
  A run in which a client commits twice the threshold less two violations of a rule in a span
  shorter than the rule's window, all of them counted, and is never blocked.
  */
  lemma StraddlesWindows(config: Config, size: Size, wall: u64, now: Instant, offset: nat, ip: IpAddr,
      rule: ViolationRule,
    other: ViolationRule) returns (events: seq<Event>, t: System)
    requires CanTrack(config, ip) && other != rule && config.threshold(other) > 1 && config.threshold(rule) > 1
    ensures Reaches(config, size, Born(NOTHING, wall, now, offset, map[]), events, t)
    ensures Tallies(t.log, ip, rule) == Straddling(now, rule.Window(), config.threshold(rule))
    ensures forall entry | entry in t.log :: !entry.entered
  {
    events, t := StartsAll(config, size, wall, now, offset, ip, rule, other);
    events, t := CountsTwice(config, size, Born(NOTHING, wall, now, offset, map[]), events, t, ip, rule);
  }

  lemma StraddlingIs(now: Instant, length: nat, n: nat)
    requires length >= 1
    ensures Straddling(now, length, n + 1) == Below(now + length - 1, now, n) + Below(now + length, now + length, n)
  {
  }

  lemma WindowTurns(now: Instant, length: nat, n: nat)
    requires length >= 1
    ensures CountIn(RuleWindow(now, 0), length, now + (length - 1)) == RuleWindow(now, 1)
    ensures CountIn(RuleWindow(now, n), length, now + (length - 1) + 1) == RuleWindow(now + length, 1)
  {
  }

  lemma CountsTwice(config: Config, size: Size, s: System, events: seq<Event>, m: System, ip: IpAddr,
      rule: ViolationRule)
    returns (longer: seq<Event>, t: System)
    requires CanTrack(config, ip) && config.threshold(rule) > 1 && Reaches(config, size, s, events, m)
    requires Counting(config, m, ip, rule, RuleWindow(m.clock, 0)) && Tallies(m.log, ip, rule) == []
    ensures Reaches(config, size, s, longer, t)
    ensures Tallies(t.log, ip, rule) == Straddling(m.clock, rule.Window(), config.threshold(rule))
    ensures forall entry | entry in t.log :: !entry.entered
  {
    var n: nat := config.threshold(rule) - 1;
    StraddlingIs(m.clock, rule.Window(), n);
    var half, h := CountsAtEnd(config, size, s, events, m, ip, rule, n);
    longer, t := CountsAgain(config, size, s, half, h, ip, rule, m.clock, n);
  }

  /** The first half, at the end of the window. */
  lemma CountsAtEnd(config: Config, size: Size, s: System, events: seq<Event>, m: System, ip: IpAddr,
      rule: ViolationRule,
    n: nat) returns (longer: seq<Event>, t: System)
    requires CanTrack(config, ip) && 1 <= n < config.threshold(rule) && Reaches(config, size, s, events, m)
    requires Counting(config, m, ip, rule, RuleWindow(m.clock, 0)) && Tallies(m.log, ip, rule) == []
    ensures Reaches(config, size, s, longer, t) && t.clock == m.clock + (rule.Window() - 1)
    ensures Counting(config, t, ip, rule, RuleWindow(m.clock, n))
    ensures Tallies(t.log, ip, rule) == Below(m.clock + rule.Window() - 1, m.clock, n)
  {
    var now, wait := m.clock, rule.Window() - 1;
    WindowTurns(now, rule.Window(), n);
    longer, t := WaitsAndCounts(config, size, s, events, m, ip, rule, RuleWindow(now, 0), wait, now, n);
    assert [] + Below(now + wait, now, n) == Below(now + wait, now, n);
  }

  /** The second half, in the window that opens a moment later. */
  lemma CountsAgain(config: Config, size: Size, s: System, events: seq<Event>, m: System, ip: IpAddr,
      rule: ViolationRule,
    now: Instant, n: nat) returns (longer: seq<Event>, t: System)
    requires CanTrack(config, ip) && 1 <= n < config.threshold(rule) && Reaches(config, size, s, events, m)
    requires Counting(config, m, ip, rule, RuleWindow(now, n)) && m.clock == now + (rule.Window() - 1)
    ensures Reaches(config, size, s, longer, t)
    ensures var later := now + rule.Window();
      Tallies(t.log, ip, rule) == Tallies(m.log, ip, rule) + Below(later, later, n)
    ensures forall entry | entry in t.log :: !entry.entered
  {
    WindowTurns(now, rule.Window(), n);
    longer, t := WaitsAndCounts(config, size, s, events, m, ip, rule, RuleWindow(now, n), 1, now + rule.Window(), n);
  }
}
