/**
Recording as it is in the code (src/security/ip_blocking.rs): a request takes the time, reads the
durable snapshot, then the temporary one, counts under the shard lock, and only then inserts its
client under the pending lock.  Between any two of these the manager can publish or consume.  Then an
entry can be queued for a client that has become durable meanwhile, and the transaction consumes it
without a new block; and a violation can be counted in a window that opened after its time.

There is still no gap unless some transaction publishes blocks that have not ended yet, but that no
longer outlast a temporary block.  Counts are sound up to the longest wait for the shard lock.
*/
module SplitRecording {
  import opened Wrappers
  import opened ViolationWindows
  import opened Network
  import opened BlockFile
  import opened IpBlocking
  import opened IpTransaction

  type TaskId = nat

  datatype Stage = Started | SawDurable | SawBoth | Crossed(rule: ViolationRule, count: nat)

  datatype Recorder = Recorder(ip: IpAddr, now: Instant, stage: Stage)

  datatype Manager =
    | Resting
    | Taken(batch: seq<Proposal>, force: bool)
    | Writing(prepared: Prepared, builtAt: Instant)
    | Consuming(ips: seq<IpAddr>)

  datatype Counted = Counted(ip: IpAddr, rule: ViolationRule, late: LateTally)

  /** A client that became pending, by which rule, and the end of its temporary block. */
  datatype Entered = Entered(ip: IpAddr, rule: ViolationRule, until: Instant)

  /** `log` and `counted` are bookkeeping: all clients that became pending, all violations counted. */
  datatype State = State(
    shared: Shared, clock: Instant, recorders: map<TaskId, Recorder>, manager: Manager, log: seq<Entered>,
    counted: seq<Counted>)

  datatype Event =
    | Tick(nanos: nat)
    | Begin(t: TaskId, ip: IpAddr)
    | ReadDurable(t: TaskId)
    | ReadTemporary(t: TaskId)
    | Count(t: TaskId, rule: ViolationRule)
    | Insert(t: TaskId, rule: ViolationRule, count: nat)
    | SweepWindows
    | ExpirePending
    | TakeBatch(batch: seq<Proposal>, force: bool)
    | Build(wall: Option<u64>)
    | FileFails
    | PublishDurable
    | ConsumePending

  const TEMPORARY: nat := TEMPORARY_SECONDS * SECOND
  const DAY: nat := BLOCK_SECONDS * SECOND

  predicate At(s: State, t: TaskId, stage: Stage) {
    t in s.recorders && s.recorders[t].stage == stage
  }

  ghost predicate Enabled(config: Config, s: State, e: Event) {
    match e
    case Begin(t, ip) => t !in s.recorders && Normalized(ip) && Watched(config, ip)
    case ReadDurable(t) => At(s, t, Started)
    case ReadTemporary(t) => At(s, t, SawDurable)
    case Count(t, _) => At(s, t, SawBoth)
    case Insert(t, rule, count) => At(s, t, Crossed(rule, count))
    case ExpirePending => s.manager.Resting?
    case TakeBatch(batch, _) => s.manager.Resting? && IsBatch(config, s.shared.pending, s.clock, batch)
    case Build(_) => s.manager.Taken?
    case FileFails => s.manager.Writing? && s.manager.prepared.write
    case PublishDurable => s.manager.Writing?
    case ConsumePending => s.manager.Consuming?
    case _ => true
  }

  function Leave(s: State, t: TaskId): State {
    s.(recorders := s.recorders - {t})
  }

  function MoveOn(s: State, t: TaskId, live: bool, stage: Stage): State
    requires t in s.recorders
  {
    if live then Leave(s, t) else s.(recorders := s.recorders[t := s.recorders[t].(stage := stage)])
  }

  /** The shard as it is when the lock is got, at the time the request took. */
  function Counting(config: Config, s: State, t: TaskId, rule: ViolationRule): (Shared, Option<Tally>)
    requires ConfigOk(config) && WindowsShaped(config, s.shared.windows) && t in s.recorders
  {
    CountInShard(config, s.shared, s.recorders[t].ip, rule, s.recorders[t].now)
  }

  function AfterCount(config: Config, s: State, t: TaskId, rule: ViolationRule): State
    requires ConfigOk(config) && WindowsShaped(config, s.shared.windows) && t in s.recorders
  {
    var r := Counting(config, s, t, rule);
    var entry := if r.1.Some? then [Counted(s.recorders[t].ip, rule, LateTally(r.1.value, s.clock))] else [];
    var counted := s.(shared := r.0, counted := s.counted + entry);
    if r.1.None? || r.1.value.count < config.threshold(rule) then Leave(counted, t)
    else MoveOn(counted, t, false, Crossed(rule, r.1.value.count))
  }

  /** `Enqueue` adds the client; see `InsertIsEnqueue`. */
  predicate Enters(config: Config, s: State, t: TaskId) {
    t in s.recorders && s.recorders[t].ip !in s.shared.pending && |s.shared.pending| < config.maxPending
  }

  function WithEntry(s: State, ip: IpAddr, entry: PendingBlock): State {
    s.(shared := WithPending(s.shared, s.shared.pending[ip := entry]),
       log := s.log + [Entered(ip, entry.rule, entry.deadline)])
  }

  function AfterInsert(config: Config, s: State, t: TaskId, rule: ViolationRule, count: nat): State {
    if Enters(config, s, t) then
      WithEntry(Leave(s, t), s.recorders[t].ip, PendingBlock(rule, count, s.recorders[t].now + TEMPORARY))
    else Leave(s, t)
  }

  /** Inserting is the locked step of recording, at the time the request took. */
  lemma InsertIsEnqueue(config: Config, s: State, t: TaskId, rule: ViolationRule, count: nat)
    requires t in s.recorders
    ensures var r, after := s.recorders[t], AfterInsert(config, s, t, rule, count);
      && (after.shared, Enters(config, s, t)) == Enqueue(config, s.shared, r.ip, rule, count, r.now)
      && after.log == if Enters(config, s, t) then s.log + [Entered(r.ip, rule, r.now + TEMPORARY)] else s.log
  {
  }

  function AfterBuild(config: Config, s: State, wall: Option<u64>): State
    requires s.manager.Taken?
  {
    var result := Prepare(config, s.shared.durable, s.manager.batch, s.clock, wall, s.manager.force);
    s.(manager := if result.Err? then Resting else Writing(result.value, s.clock))
  }

  function AfterPublish(s: State): State
    requires s.manager.Writing?
  {
    var p := s.manager.prepared;
    s.(shared := if p.write then Publish(s.shared, p.draft.blocks) else s.shared,
       manager := if p.draft.consumed == [] then Resting else Consuming(p.draft.consumed))
  }

  function Next(config: Config, s: State, e: Event): State
    requires ConfigOk(config) && WindowsShaped(config, s.shared.windows)
    requires Enabled(config, s, e)
  {
    match e
    case Tick(nanos) => s.(clock := s.clock + nanos)
    case Begin(t, ip) => s.(recorders := s.recorders[t := Recorder(ip, s.clock, Started)])
    case ReadDurable(t) => MoveOn(s, t, DurableLive(s.shared, s.recorders[t].ip, s.recorders[t].now), SawDurable)
    case ReadTemporary(t) => MoveOn(s, t, TemporaryLive(s.shared, s.recorders[t].ip, s.recorders[t].now), SawBoth)
    case Count(t, rule) => AfterCount(config, s, t, rule)
    case Insert(t, rule, count) => AfterInsert(config, s, t, rule, count)
    case SweepWindows => s.(shared := Sweep(s.shared, s.clock))
    case ExpirePending => s.(shared := Expire(s.shared, s.clock))
    case TakeBatch(batch, force) => s.(manager := Taken(batch, force))
    case Build(wall) => AfterBuild(config, s, wall)
    case FileFails => s.(manager := Resting)
    case PublishDurable => AfterPublish(s)
    case ConsumePending => s.(shared := Consume(s.shared, s.manager.ips), manager := Resting)
  }

  /** How long after its build a step publishes new blocks, if it does. */
  predicate PublishesAfter(s: State, e: Event, delay: nat) {
    e.PublishDurable? && s.manager.Writing? && s.manager.prepared.write && s.clock == s.manager.builtAt + delay
  }

  /** Such blocks have not ended yet but no longer outlast a temporary block of that moment. */
  predicate TooLate(delay: nat) {
    DAY - TEMPORARY < delay < DAY
  }

  /** The premise: no publication is too late. */
  ghost predicate Timely(s: State, e: Event) {
    forall delay: nat | PublishesAfter(s, e, delay) :: !TooLate(delay)
  }

  // ---- what every timely step keeps ----

  /** A durable block that still lasts, and did when a temporary one until `until` began, lasts as long. */
  predicate NotShort(durable: BlockSnapshot, ip: IpAddr, until: Instant, clock: Instant) {
    ip in durable && durable[ip].deadline + TEMPORARY > until && durable[ip].deadline > clock ==>
      durable[ip].deadline >= until
  }

  ghost predicate RecordersOk(config: Config, s: State) {
    forall t | t in s.recorders ::
      && s.recorders[t].now <= s.clock && Normalized(s.recorders[t].ip) && Watched(config, s.recorders[t].ip)
      && (!s.recorders[t].stage.Started? ==>
            NotShort(s.shared.durable, s.recorders[t].ip, s.recorders[t].now + TEMPORARY, s.clock))
      && (s.recorders[t].stage.Crossed? ==> s.recorders[t].stage.count > 0)
  }

  ghost predicate PendingOk(config: Config, s: State) {
    && s.shared.temporary == Deadlines(s.shared.pending)
    && forall ip | ip in s.shared.pending ::
         && Normalized(ip) && s.shared.pending[ip].count > 0 && Watched(config, ip)
         && s.shared.pending[ip].deadline <= s.clock + TEMPORARY
         && NotShort(s.shared.durable, ip, s.shared.pending[ip].deadline, s.clock)
  }

  predicate Outlasts(pending: map<IpAddr, PendingBlock>, durable: BlockSnapshot, ip: IpAddr) {
    ip in pending && ip in durable && durable[ip].deadline >= pending[ip].deadline
  }

  ghost predicate InPending(s: State, batch: seq<Proposal>) {
    forall i | 0 <= i < |batch| :: batch[i].0 in s.shared.pending && s.shared.pending[batch[i].0] == batch[i].1
  }

  /** What is about to be published keeps live blocks, adds blocks of a day, and outlasts what it consumes. */
  ghost predicate TargetOk(config: Config, s: State, target: BlockSnapshot, consumed: seq<IpAddr>, builtAt: Instant) {
    && BlocksOk(target, config.maxBlocked) && builtAt <= s.clock
    && (forall ip | ip in s.shared.durable && s.shared.durable[ip].deadline > builtAt ::
          ip in target && target[ip] == s.shared.durable[ip])
    && (forall ip | ip in target ::
          (ip in s.shared.durable && s.shared.durable[ip] == target[ip]) || target[ip].deadline == builtAt + DAY)
    && (forall ip | ip in consumed :: Outlasts(s.shared.pending, target, ip))
  }

  function Target(s: State): BlockSnapshot
    requires s.manager.Writing?
  {
    if s.manager.prepared.write then s.manager.prepared.draft.blocks else s.shared.durable
  }

  ghost predicate ManagerOk(config: Config, s: State) {
    match s.manager
    case Resting => true
    case Taken(batch, _) => InPending(s, batch)
    case Writing(p, builtAt) => TargetOk(config, s, Target(s), p.draft.consumed, builtAt)
    case Consuming(ips) => forall ip | ip in ips :: Outlasts(s.shared.pending, s.shared.durable, ip)
  }

  predicate Covered(shared: Shared, ip: IpAddr, until: Instant) {
    || (ip in shared.temporary && shared.temporary[ip] == until)
    || (ip in shared.durable && shared.durable[ip].deadline >= until)
  }

  ghost predicate NoGap(config: Config, s: State) {
    forall i | 0 <= i < |s.log| ::
      && Watched(config, s.log[i].ip)
      && (s.clock < s.log[i].until ==> Covered(s.shared, s.log[i].ip, s.log[i].until))
  }

  ghost predicate Invariant(config: Config, s: State) {
    && BlocksOk(s.shared.durable, config.maxBlocked)
    && RecordersOk(config, s) && PendingOk(config, s) && ManagerOk(config, s) && NoGap(config, s)
  }

  lemma KeptByRead(config: Config, s: State, t: TaskId, live: bool, stage: Stage)
    requires Invariant(config, s) && t in s.recorders && !stage.Started? && (stage.Crossed? ==> stage.count > 0)
    requires s.recorders[t].stage.Started? && !live ==> !DurableLive(s.shared, s.recorders[t].ip, s.recorders[t].now)
    ensures Invariant(config, MoveOn(s, t, live, stage))
  {
  }

  /** Counting and sweeping touch nothing that matters here but the recorder's stage. */
  lemma KeptByWindows(config: Config, s: State, windows: seq<Shard>, counted: seq<Counted>)
    requires Invariant(config, s)
    ensures Invariant(config, s.(shared := s.shared.(windows := windows), counted := counted))
  {
  }

  lemma KeptByCount(config: Config, s: State, t: TaskId, rule: ViolationRule)
    requires Invariant(config, s) && At(s, t, SawBoth) && ConfigOk(config) && WindowsShaped(config, s.shared.windows)
    ensures Invariant(config, AfterCount(config, s, t, rule))
  {
    var r := Counting(config, s, t, rule);
    var entry := if r.1.Some? then [Counted(s.recorders[t].ip, rule, LateTally(r.1.value, s.clock))] else [];
    CountKeepsShape(config, s.shared, s.recorders[t].ip, rule, s.recorders[t].now);
    KeptByWindows(config, s, r.0.windows, s.counted + entry);
    var counted := s.(shared := r.0, counted := s.counted + entry);
    if r.1.None? || r.1.value.count < config.threshold(rule) {
      KeptByLeaving(config, counted, t);
    } else {
      KeptByRead(config, counted, t, false, Crossed(rule, r.1.value.count));
    }
  }

  lemma KeptByLeaving(config: Config, s: State, t: TaskId)
    requires Invariant(config, s)
    ensures Invariant(config, Leave(s, t))
  {
  }

  /** The manager's claims survive a new pending entry. */
  lemma ManagerFrame(config: Config, s: State, t: State)
    requires ManagerOk(config, s)
    requires t.manager == s.manager && t.shared.durable == s.shared.durable && t.clock == s.clock
    requires forall ip | ip in s.shared.pending ::
      ip in t.shared.pending && t.shared.pending[ip] == s.shared.pending[ip]
    ensures ManagerOk(config, t)
  {
  }

  lemma EntryInPending(config: Config, s: State, ip: IpAddr, entry: PendingBlock)
    requires PendingOk(config, s) && Normalized(ip) && Watched(config, ip) && entry.count > 0
    requires entry.deadline <= s.clock + TEMPORARY && NotShort(s.shared.durable, ip, entry.deadline, s.clock)
    ensures PendingOk(config, WithEntry(s, ip, entry))
  {
  }

  lemma EntryInLog(config: Config, s: State, ip: IpAddr, entry: PendingBlock)
    requires NoGap(config, s) && PendingOk(config, s) && ip !in s.shared.pending && Watched(config, ip)
    ensures NoGap(config, WithEntry(s, ip, entry))
  {
    var after := WithEntry(s, ip, entry);
    forall i | 0 <= i < |after.log|
      ensures Watched(config, after.log[i].ip)
      ensures after.clock < after.log[i].until ==> Covered(after.shared, after.log[i].ip, after.log[i].until)
    {
      if i < |s.log| {
        assert after.log[i] == s.log[i];
      }
    }
  }

  lemma InsertKeepsRecorders(config: Config, s: State, t: TaskId, rule: ViolationRule, count: nat)
    requires RecordersOk(config, s)
    ensures RecordersOk(config, AfterInsert(config, s, t, rule, count))
  {
  }

  lemma InsertKeepsPending(config: Config, s: State, t: TaskId, rule: ViolationRule, count: nat)
    requires RecordersOk(config, s) && PendingOk(config, s) && At(s, t, Crossed(rule, count))
    ensures PendingOk(config, AfterInsert(config, s, t, rule, count))
  {
    var r := s.recorders[t];
    assert NotShort(s.shared.durable, r.ip, r.now + TEMPORARY, s.clock);
    if Enters(config, s, t) {
      EntryInPending(config, Leave(s, t), r.ip, PendingBlock(rule, count, r.now + TEMPORARY));
    }
  }

  lemma InsertKeepsManager(config: Config, s: State, t: TaskId, rule: ViolationRule, count: nat)
    requires ManagerOk(config, s)
    ensures ManagerOk(config, AfterInsert(config, s, t, rule, count))
  {
    ManagerFrame(config, s, AfterInsert(config, s, t, rule, count));
  }

  lemma InsertKeepsLog(config: Config, s: State, t: TaskId, rule: ViolationRule, count: nat)
    requires RecordersOk(config, s) && PendingOk(config, s) && NoGap(config, s) && At(s, t, Crossed(rule, count))
    ensures NoGap(config, AfterInsert(config, s, t, rule, count))
  {
    var r := s.recorders[t];
    if Enters(config, s, t) {
      EntryInLog(config, Leave(s, t), r.ip, PendingBlock(rule, count, r.now + TEMPORARY));
    }
  }

  lemma KeptByInsert(config: Config, s: State, t: TaskId, rule: ViolationRule, count: nat)
    requires Invariant(config, s) && At(s, t, Crossed(rule, count))
    ensures Invariant(config, AfterInsert(config, s, t, rule, count))
  {
    InsertKeepsRecorders(config, s, t, rule, count);
    InsertKeepsPending(config, s, t, rule, count);
    InsertKeepsManager(config, s, t, rule, count);
    InsertKeepsLog(config, s, t, rule, count);
  }

  lemma KeptByExpire(config: Config, s: State)
    requires Invariant(config, s) && s.manager.Resting?
    ensures Invariant(config, s.(shared := Expire(s.shared, s.clock)))
  {
  }

  lemma BuildForOne(config: Config, s: State, wall: Option<u64>, ip: IpAddr)
    requires Invariant(config, s) && s.manager.Taken?
    requires Prepare(config, s.shared.durable, s.manager.batch, s.clock, wall, s.manager.force).Ok?
    ensures var p := Prepare(config, s.shared.durable, s.manager.batch, s.clock, wall, s.manager.force).value;
      var target := if p.write then p.draft.blocks else s.shared.durable;
      && BlocksOk(target, config.maxBlocked)
      && (ip in s.shared.durable && s.shared.durable[ip].deadline > s.clock ==>
            ip in target && target[ip] == s.shared.durable[ip])
      && (ip in target ==>
            (ip in s.shared.durable && s.shared.durable[ip] == target[ip]) || target[ip].deadline == s.clock + DAY)
      && (ip in p.draft.consumed ==> Outlasts(s.shared.pending, target, ip))
  {
    var batch := s.manager.batch;
    assert ProposalsOk(batch);
    CommitIsTransaction(config, s.shared, batch, s.clock, wall, s.manager.force, ip);
    var p := Prepare(config, s.shared.durable, batch, s.clock, wall, s.manager.force).value;
    CommittedParts(s.shared, p);
    if ip in p.draft.consumed {
      var i: nat :| Proposed(batch, i, ip, s.clock);
      assert ip in s.shared.pending && s.shared.pending[ip] == batch[i].1;
    }
  }

  /** A late entry gets no new block, and in timely runs needs none: the one its client has lasts as long. */
  lemma LateEntryIsOnlyConsumed(config: Config, s: State, wall: Option<u64>, ip: IpAddr)
    requires Invariant(config, s) && s.manager.Taken? && DurableLive(s.shared, ip, s.clock)
    requires Prepare(config, s.shared.durable, s.manager.batch, s.clock, wall, s.manager.force).Ok?
    requires ip in
      Prepare(config, s.shared.durable, s.manager.batch, s.clock, wall, s.manager.force).value.draft.consumed
    ensures var p := Prepare(config, s.shared.durable, s.manager.batch, s.clock, wall, s.manager.force).value;
      var target := if p.write then p.draft.blocks else s.shared.durable;
      && ip in target && target[ip] == s.shared.durable[ip]
      && ip in s.shared.pending && target[ip].deadline >= s.shared.pending[ip].deadline
  {
    BuildForOne(config, s, wall, ip);
  }

  lemma KeptByBuild(config: Config, s: State, wall: Option<u64>)
    requires Invariant(config, s) && s.manager.Taken?
    ensures Invariant(config, AfterBuild(config, s, wall))
  {
    var result := Prepare(config, s.shared.durable, s.manager.batch, s.clock, wall, s.manager.force);
    if result.Ok? {
      var p, after := result.value, AfterBuild(config, s, wall);
      var some: IpAddr := V4(0);
      BuildForOne(config, s, wall, some);
      forall ip: IpAddr
        ensures ip in s.shared.durable && s.shared.durable[ip].deadline > s.clock ==>
          ip in Target(after) && Target(after)[ip] == s.shared.durable[ip]
        ensures ip in Target(after) ==>
          || (ip in s.shared.durable && s.shared.durable[ip] == Target(after)[ip])
          || Target(after)[ip].deadline == s.clock + DAY
        ensures ip in p.draft.consumed ==> Outlasts(s.shared.pending, Target(after), ip)
      {
        BuildForOne(config, s, wall, ip);
      }
      assert TargetOk(config, after, Target(after), p.draft.consumed, s.clock);
    }
  }

  lemma KeptByPublish(config: Config, s: State)
    requires Invariant(config, s) && s.manager.Writing? && Timely(s, PublishDurable)
    ensures Invariant(config, AfterPublish(s))
  {
    var p, target, after := s.manager.prepared, Target(s), AfterPublish(s);
    assert after.shared == s.shared.(durable := target);
    assert p.write && s.clock >= s.manager.builtAt ==> PublishesAfter(s, PublishDurable, s.clock - s.manager.builtAt);
    forall ip, until: nat | NotShort(s.shared.durable, ip, until, s.clock) && until <= s.clock + TEMPORARY
      ensures NotShort(target, ip, until, s.clock)
    {
    }
    forall i | 0 <= i < |s.log|
      ensures s.clock < s.log[i].until ==> Covered(after.shared, s.log[i].ip, s.log[i].until)
    {
    }
  }

  lemma KeptByConsume(config: Config, s: State)
    requires Invariant(config, s) && s.manager.Consuming?
    ensures Invariant(config, s.(shared := Consume(s.shared, s.manager.ips), manager := Resting))
  {
    var after := s.(shared := Consume(s.shared, s.manager.ips), manager := Resting);
    forall i | 0 <= i < |s.log| && s.clock < s.log[i].until
      ensures Covered(after.shared, s.log[i].ip, s.log[i].until)
    {
      var ip := s.log[i].ip;
      if ip in ToSet(s.manager.ips) {
        assert Outlasts(s.shared.pending, s.shared.durable, ip);
      }
    }
  }

  lemma KeptByTick(config: Config, s: State, nanos: nat)
    requires Invariant(config, s)
    ensures Invariant(config, s.(clock := s.clock + nanos))
  {
  }

  lemma KeptByBegin(config: Config, s: State, t: TaskId, ip: IpAddr)
    requires Invariant(config, s) && Normalized(ip) && Watched(config, ip)
    ensures Invariant(config, s.(recorders := s.recorders[t := Recorder(ip, s.clock, Started)]))
  {
  }

  lemma KeptByTake(config: Config, s: State, batch: seq<Proposal>, force: bool)
    requires Invariant(config, s) && InPending(s, batch)
    ensures Invariant(config, s.(manager := Taken(batch, force)))
  {
  }

  lemma KeptByFailure(config: Config, s: State)
    requires Invariant(config, s)
    ensures Invariant(config, s.(manager := Resting))
  {
  }

  lemma InvariantKept(config: Config, s: State, e: Event)
    requires Invariant(config, s) && ConfigOk(config) && WindowsShaped(config, s.shared.windows)
    requires Enabled(config, s, e) && Timely(s, e)
    ensures Invariant(config, Next(config, s, e))
  {
    match e {
      case ReadDurable(t) =>
        KeptByRead(config, s, t, DurableLive(s.shared, s.recorders[t].ip, s.recorders[t].now), SawDurable);
      case ReadTemporary(t) =>
        KeptByRead(config, s, t, TemporaryLive(s.shared, s.recorders[t].ip, s.recorders[t].now), SawBoth);
      case Count(t, rule) => KeptByCount(config, s, t, rule);
      case Insert(t, rule, count) => KeptByInsert(config, s, t, rule, count);
      case SweepWindows => KeptByWindows(config, s, Sweep(s.shared, s.clock).windows, s.counted);
      case ExpirePending => KeptByExpire(config, s);
      case Build(wall) => KeptByBuild(config, s, wall);
      case PublishDurable => KeptByPublish(config, s);
      case ConsumePending => KeptByConsume(config, s);
      case Tick(nanos) => KeptByTick(config, s, nanos);
      case Begin(t, ip) => KeptByBegin(config, s, t, ip);
      case TakeBatch(batch, force) => KeptByTake(config, s, batch, force);
      case FileFails => KeptByFailure(config, s);
    }
  }

  // ---- counting ----

  function LateTallies(counted: seq<Counted>, ip: IpAddr, rule: ViolationRule): seq<LateTally> {
    if counted == [] then []
    else
      var last := counted[|counted| - 1];
      LateTallies(counted[..|counted| - 1], ip, rule) + (if last.ip == ip && last.rule == rule then [last.late] else [])
  }

  lemma LateAppend(counted: seq<Counted>, last: Counted, ip: IpAddr, rule: ViolationRule)
    ensures LateTallies(counted + [last], ip, rule) ==
      LateTallies(counted, ip, rule) + (if last.ip == ip && last.rule == rule then [last.late] else [])
  {
    assert (counted + [last])[..|counted|] == counted;
  }

  /** The window is the one the last counted violation left, or one that has counted nothing yet. */
  predicate LateFollows(window: RuleWindow, lates: seq<LateTally>, clock: Instant) {
    && window.since <= clock
    && (window.count == 0
        || (lates != []
            && lates[|lates| - 1].tally.since == window.since && lates[|lates| - 1].tally.count == window.count))
  }

  predicate LateTracks(shard: Shard, lates: seq<LateTally>, ip: IpAddr, rule: ViolationRule, clock: Instant) {
    && LateChain(lates, rule.Window())
    && (lates != [] ==> lates[|lates| - 1].locked <= clock)
    && (ip in shard ==> shard[ip].Valid() && LateFollows(shard[ip].rules[rule.Index()], lates, clock))
  }

  /** A counted violation at the threshold, whose temporary block would end then. */
  predicate CrossesAt(config: Config, c: Counted, ip: IpAddr, rule: ViolationRule, until: Instant) {
    && c.ip == ip && c.rule == rule
    && c.late.tally.at + TEMPORARY == until && c.late.tally.count >= config.threshold(rule)
  }

  ghost predicate CrossedBy(config: Config, counted: seq<Counted>, ip: IpAddr, rule: ViolationRule, until: Instant) {
    exists k: nat :: k < |counted| && CrossesAt(config, counted[k], ip, rule, until)
  }

  ghost predicate Earned(config: Config, s: State) {
    && (forall t | t in s.recorders && s.recorders[t].stage.Crossed? ::
          CrossedBy(config, s.counted, s.recorders[t].ip, s.recorders[t].stage.rule, s.recorders[t].now + TEMPORARY))
    && forall i | 0 <= i < |s.log| :: CrossedBy(config, s.counted, s.log[i].ip, s.log[i].rule, s.log[i].until)
  }

  ghost predicate Shaped(config: Config, s: State) {
    ConfigOk(config) && WindowsShaped(config, s.shared.windows)
  }

  ghost predicate Tracks(config: Config, s: State)
    requires Shaped(config, s)
  {
    forall ip: IpAddr, rule: ViolationRule ::
      LateTracks(s.shared.windows[config.shardOf(ip)], LateTallies(s.counted, ip, rule), ip, rule, s.clock)
  }

  ghost predicate CountsOk(config: Config, s: State) {
    Shaped(config, s) && Tracks(config, s) && Earned(config, s)
  }

  lemma LateExtends(lates: seq<LateTally>, window: RuleWindow, length: nat, now: Instant, clock: Instant)
    requires LateChain(lates, length) && (lates != [] ==> lates[|lates| - 1].locked <= clock)
    requires LateFollows(window, lates, clock) && length > 0 && now <= clock
    ensures var next := CountIn(window, length, now);
      && LateChain(lates + [LateTally(Tally(now, next.since, next.count), clock)], length)
      && next.since <= clock
  {
    var next := CountIn(window, length, now);
    var late := LateTally(Tally(now, next.since, next.count), clock);
    var all := lates + [late];
    forall i | 0 <= i < |all| - 1
      ensures LateLinked(all[i], all[i + 1])
    {
      if i < |lates| - 1 {
        assert LateLinked(lates[i], lates[i + 1]);
      }
    }
  }

  /** Counting under one rule extends its chain and leaves the client's other rules as they were. */
  lemma CountTracks(shard: Shard, lates: seq<LateTally>, ip: IpAddr, counted: ViolationRule, rule: ViolationRule,
    now: Instant, clock: Instant)
    requires LateTracks(shard, lates, ip, rule, clock) && now <= clock
    requires ip in shard ==> shard[ip].Valid()
    ensures var client := CountViolation(if ip in shard then shard[ip] else FreshClient(now), counted, now);
      var window := client.rules[counted.Index()];
      LateTracks(shard[ip := client],
        lates + (if rule == counted then [LateTally(Tally(now, window.since, window.count), clock)] else []),
        ip, rule, clock)
  {
    var before := if ip in shard then shard[ip] else FreshClient(now);
    LateExtends(lates, before.rules[rule.Index()], rule.Window(), now, clock);
    assert lates + [] == lates;
  }

  /** Counting replaces the client's entry in its shard, or nothing. */
  lemma CountingIs(config: Config, s: Shared, ip: IpAddr, rule: ViolationRule, now: Instant)
    requires ConfigOk(config) && WindowsShaped(config, s.windows)
    ensures var r, home := CountInShard(config, s, ip, rule, now), config.shardOf(ip);
      var before := if ip in s.windows[home] then s.windows[home][ip] else FreshClient(now);
      && before.Valid()
      && (ip in s.windows[home] ==> s.windows[home][ip].Valid())
      && (r.1.None? ==> r.0 == s)
      && (r.1.Some? ==>
            var client := CountViolation(before, rule, now);
            var window := client.rules[rule.Index()];
            && r.0.windows == s.windows[home := s.windows[home][ip := client]]
            && r.1.value == Tally(now, window.since, window.count))
  {
    assert ShardShaped(config, s.windows[config.shardOf(ip)], config.shardOf(ip));
  }

  lemma OthersTrack(shard: Shard, lates: seq<LateTally>, ip: IpAddr, client: ClientWindow, other: IpAddr,
    rule: ViolationRule, clock: Instant)
    requires LateTracks(shard, lates, other, rule, clock) && other != ip
    ensures LateTracks(shard[ip := client], lates, other, rule, clock)
  {
  }

  /** The tables and the log when a violation was counted. */
  lemma CountedTracks(config: Config, windows: seq<Shard>, counted: seq<Counted>, ip: IpAddr, rule: ViolationRule,
    now: Instant, clock: Instant, other: IpAddr, otherRule: ViolationRule)
    requires ConfigOk(config) && WindowsShaped(config, windows) && now <= clock
    requires LateTracks(windows[config.shardOf(other)], LateTallies(counted, other, otherRule), other, otherRule, clock)
    requires ip in windows[config.shardOf(ip)] ==> windows[config.shardOf(ip)][ip].Valid()
    ensures var home := config.shardOf(ip);
      var client := CountViolation(if ip in windows[home] then windows[home][ip] else FreshClient(now), rule, now);
      var window := client.rules[rule.Index()];
      var late := LateTally(Tally(now, window.since, window.count), clock);
      LateTracks(windows[home := windows[home][ip := client]][config.shardOf(other)],
        LateTallies(counted + [Counted(ip, rule, late)], other, otherRule), other, otherRule, clock)
  {
    var home := config.shardOf(ip);
    var client := CountViolation(if ip in windows[home] then windows[home][ip] else FreshClient(now), rule, now);
    var window := client.rules[rule.Index()];
    var lates := LateTallies(counted, other, otherRule);
    LateAppend(counted, Counted(ip, rule, LateTally(Tally(now, window.since, window.count), clock)), other, otherRule);
    if other == ip {
      CountTracks(windows[home], lates, ip, rule, otherRule, now, clock);
    } else if config.shardOf(other) == home {
      OthersTrack(windows[home], lates, ip, client, other, otherRule, clock);
    }
  }

  lemma CountKeepsTracks(config: Config, s: State, t: TaskId, rule: ViolationRule)
    requires Shaped(config, s) && Tracks(config, s) && At(s, t, SawBoth) && s.recorders[t].now <= s.clock
    ensures Shaped(config, AfterCount(config, s, t, rule)) && Tracks(config, AfterCount(config, s, t, rule))
  {
    var after := AfterCount(config, s, t, rule);
    var ip, now := s.recorders[t].ip, s.recorders[t].now;
    CountKeepsShape(config, s.shared, ip, rule, now);
    CountingIs(config, s.shared, ip, rule, now);
    assert s.counted + [] == s.counted;
    forall other: IpAddr, otherRule: ViolationRule
      ensures LateTracks(after.shared.windows[config.shardOf(other)], LateTallies(after.counted, other, otherRule),
        other, otherRule, s.clock)
    {
      assert LateTracks(s.shared.windows[config.shardOf(other)], LateTallies(s.counted, other, otherRule),
        other, otherRule, s.clock);
      CountedTracks(config, s.shared.windows, s.counted, ip, rule, now, s.clock, other, otherRule);
    }
  }

  lemma CrossedStays(config: Config, counted: seq<Counted>, more: seq<Counted>, ip: IpAddr, rule: ViolationRule,
    until: Instant)
    requires CrossedBy(config, counted, ip, rule, until)
    ensures CrossedBy(config, counted + more, ip, rule, until)
  {
    var k: nat :| k < |counted| && CrossesAt(config, counted[k], ip, rule, until);
    assert (counted + more)[k] == counted[k];
  }

  lemma CountKeepsEarned(config: Config, s: State, t: TaskId, rule: ViolationRule)
    requires CountsOk(config, s) && At(s, t, SawBoth)
    ensures Earned(config, AfterCount(config, s, t, rule))
  {
    var after := AfterCount(config, s, t, rule);
    var more := after.counted[|s.counted|..];
    assert after.counted == s.counted + more;
    forall u | u in after.recorders && after.recorders[u].stage.Crossed?
      ensures CrossedBy(config, after.counted, after.recorders[u].ip, after.recorders[u].stage.rule,
        after.recorders[u].now + TEMPORARY)
    {
      var q := after.recorders[u];
      if u == t {
        assert CrossesAt(config, after.counted[|s.counted|], q.ip, q.stage.rule, q.now + TEMPORARY);
      } else {
        CrossedStays(config, s.counted, more, q.ip, q.stage.rule, q.now + TEMPORARY);
      }
    }
    forall i | 0 <= i < |after.log|
      ensures CrossedBy(config, after.counted, after.log[i].ip, after.log[i].rule, after.log[i].until)
    {
      CrossedStays(config, s.counted, more, s.log[i].ip, s.log[i].rule, s.log[i].until);
    }
  }

  lemma SweepKeepsTracks(config: Config, s: State)
    requires CountsOk(config, s)
    ensures CountsOk(config, s.(shared := Sweep(s.shared, s.clock)))
  {
    SweepKeepsShape(config, s.shared.windows, s.clock);
    var after := s.(shared := Sweep(s.shared, s.clock));
    forall ip: IpAddr, rule: ViolationRule
      ensures LateTracks(after.shared.windows[config.shardOf(ip)], LateTallies(s.counted, ip, rule), ip, rule, s.clock)
    {
      assert LateTracks(s.shared.windows[config.shardOf(ip)], LateTallies(s.counted, ip, rule), ip, rule, s.clock);
    }
  }

  lemma SameTracks(config: Config, s: State, t: State)
    requires Shaped(config, s) && Tracks(config, s)
    requires t.shared.windows == s.shared.windows && t.counted == s.counted && t.clock >= s.clock
    ensures Shaped(config, t) && Tracks(config, t)
  {
    forall ip: IpAddr, rule: ViolationRule
      ensures LateTracks(t.shared.windows[config.shardOf(ip)], LateTallies(t.counted, ip, rule), ip, rule, t.clock)
    {
      assert LateTracks(s.shared.windows[config.shardOf(ip)], LateTallies(s.counted, ip, rule), ip, rule, s.clock);
    }
  }

  lemma InsertKeepsEarned(config: Config, s: State, t: TaskId, rule: ViolationRule, count: nat)
    requires Earned(config, s) && At(s, t, Crossed(rule, count))
    ensures Earned(config, AfterInsert(config, s, t, rule, count))
  {
    var after := AfterInsert(config, s, t, rule, count);
    forall i | 0 <= i < |after.log|
      ensures CrossedBy(config, after.counted, after.log[i].ip, after.log[i].rule, after.log[i].until)
    {
      if i < |s.log| {
        assert after.log[i] == s.log[i];
      }
    }
  }

  lemma EarnedByOthers(config: Config, s: State, e: Event)
    requires Shaped(config, s) && Earned(config, s) && Enabled(config, s, e) && !e.Count? && !e.Insert?
    ensures Earned(config, Next(config, s, e))
  {
  }

  lemma CountsKept(config: Config, s: State, e: Event)
    requires CountsOk(config, s) && RecordersOk(config, s) && Enabled(config, s, e)
    ensures CountsOk(config, Next(config, s, e))
  {
    if e.Count? {
      CountKeepsTracks(config, s, e.t, e.rule);
      CountKeepsEarned(config, s, e.t, e.rule);
    } else if e.SweepWindows? {
      SweepKeepsTracks(config, s);
    } else {
      SameTracks(config, s, Next(config, s, e));
      if e.Insert? {
        InsertKeepsEarned(config, s, e.t, e.rule, e.count);
      } else {
        EarnedByOthers(config, s, e);
      }
    }
  }

  lemma {:induction false} LatePrefix(counted: seq<Counted>, n: nat, ip: IpAddr, rule: ViolationRule)
    requires n <= |counted|
    ensures LateTallies(counted[..n], ip, rule) <= LateTallies(counted, ip, rule)
    decreases |counted|
  {
    if n < |counted| {
      LatePrefix(counted[..|counted| - 1], n, ip, rule);
      assert counted[..|counted| - 1][..n] == counted[..n];
    } else {
      assert counted[..n] == counted;
    }
  }

  lemma LateOf(counted: seq<Counted>, i: nat) returns (k: nat)
    requires i < |counted|
    ensures var lates := LateTallies(counted, counted[i].ip, counted[i].rule);
      k < |lates| && lates[k] == counted[i].late
  {
    var c := counted[i];
    k := |LateTallies(counted[..i], c.ip, c.rule)|;
    assert counted[..i + 1] == counted[..i] + [c];
    LateAppend(counted[..i], c, c.ip, c.rule);
    LatePrefix(counted, i + 1, c.ip, c.rule);
  }

  /**
  A client becomes pending for a rule only after `threshold` counted violations of that rule, any two
  of them less than the rule's window plus the longest wait for the lock apart.
  */
  lemma PendingIsEarned(config: Config, s: State, i: nat, delay: nat) returns (last: nat)
    requires CountsOk(config, s) && i < |s.log|
    requires forall late | late in LateTallies(s.counted, s.log[i].ip, s.log[i].rule) ::
      late.locked <= late.tally.at + delay
    ensures var lates, threshold := LateTallies(s.counted, s.log[i].ip, s.log[i].rule), config.threshold(s.log[i].rule);
      && threshold <= last + 1 <= |lates|
      && lates[last].tally.at + TEMPORARY == s.log[i].until
      && forall j, k | last + 1 - threshold <= j <= last && last + 1 - threshold <= k <= last ::
           lates[j].tally.at < lates[k].tally.at + s.log[i].rule.Window() + delay
  {
    var ip, rule := s.log[i].ip, s.log[i].rule;
    var c: nat :| c < |s.counted| && CrossesAt(config, s.counted[c], ip, rule, s.log[i].until);
    last := LateOf(s.counted, c);
    assert LateTracks(s.shared.windows[config.shardOf(ip)], LateTallies(s.counted, ip, rule), ip, rule, s.clock);
    LateCrossingIsSound(LateTallies(s.counted, ip, rule), rule.Window(), delay, last, config.threshold(rule));
  }

  // ---- every run ----

  /** Publications are on time, but that those with one particular delay are let through. */
  ghost predicate OnTime(s: State, e: Event, late: Option<nat>) {
    forall delay: nat | PublishesAfter(s, e, delay) :: !TooLate(delay) || late == Some(delay)
  }

  ghost predicate Reaches(config: Config, late: Option<nat>, s: State, events: seq<Event>, t: State)
    decreases |events|
  {
    if events == [] then s == t
    else
      && Shaped(config, s) && Enabled(config, s, events[0]) && OnTime(s, events[0], late)
      && Reaches(config, late, Next(config, s, events[0]), events[1..], t)
  }

  lemma {:induction false} InvariantAlways(config: Config, late: Option<nat>, s: State, events: seq<Event>, t: State)
    requires Invariant(config, s) && CountsOk(config, s) && Reaches(config, late, s, events, t)
    requires late.Some? ==> !TooLate(late.value)
    ensures Invariant(config, t) && CountsOk(config, t)
    decreases |events|
  {
    if events != [] {
      InvariantKept(config, s, events[0]);
      CountsKept(config, s, events[0]);
      InvariantAlways(config, late, Next(config, s, events[0]), events[1..], t);
    }
  }

  function Start(blocks: BlockSnapshot, now: Instant): State {
    State(Shared(blocks, map[], seq(SHARDS, _ => map[]), map[], true), now, map[], Resting, [], [])
  }

  lemma InvariantAtStart(config: Config, blocks: BlockSnapshot, now: Instant)
    requires ConfigOk(config) && BlocksOk(blocks, config.maxBlocked)
    ensures Invariant(config, Start(blocks, now)) && CountsOk(config, Start(blocks, now))
  {
    var s := Start(blocks, now);
    forall i | 0 <= i < SHARDS
      ensures ShardShaped(config, s.shared.windows[i], i)
    {
      assert s.shared.windows[i] == map[];
    }
  }

  /**
  In every run from a start without a late publication, a client that became pending is refused until
  the end of its temporary block, however its recording interleaved with the manager.
  */
  lemma NoGapWithSplitRecording(config: Config, late: Option<nat>, blocks: BlockSnapshot, now: Instant,
    events: seq<Event>, t: State, i: nat)
    requires ConfigOk(config) && BlocksOk(blocks, config.maxBlocked) && (late.Some? ==> !TooLate(late.value))
    requires Reaches(config, late, Start(blocks, now), events, t)
    requires i < |t.log| && t.clock < t.log[i].until
    ensures Blocked(config, t.shared, t.log[i].ip, t.clock)
  {
    InvariantAtStart(config, blocks, now);
    InvariantAlways(config, late, Start(blocks, now), events, t);
  }

  // ---- the premise is needed ----

  lemma {:induction false} ReachesThen(config: Config, late: Option<nat>, s: State, events: seq<Event>, m: State,
      e: Event)
    requires Reaches(config, late, s, events, m) && Shaped(config, m) && Enabled(config, m, e) && OnTime(m, e, late)
    ensures Reaches(config, late, s, events + [e], Next(config, m, e))
    decreases |events|
  {
    if events == [] {
      assert [e][1..] == [];
    } else {
      ReachesThen(config, late, Next(config, s, events[0]), events[1..], m, e);
      assert (events + [e])[1..] == events[1..] + [e];
    }
  }

  /** A client that the engine can count. */
  ghost predicate CanTrack(config: Config, ip: IpAddr) {
    && ConfigOk(config) && Normalized(ip) && Watched(config, ip)
    && ShardCapacity(config.maxTracked, config.shardOf(ip)) >= 1
  }

  function RuleBefore(config: Config, s: State, ip: IpAddr, rule: ViolationRule): RuleWindow
    requires Shaped(config, s)
  {
    assert ShardShaped(config, s.shared.windows[config.shardOf(ip)], config.shardOf(ip));
    ClientAt(s.shared.windows, config.shardOf(ip), ip, s.clock).rules[rule.Index()]
  }

  /** There is room for the client, and its next violation of the rule is the `count`th of its window. */
  ghost predicate Ready(config: Config, s: State, ip: IpAddr, rule: ViolationRule, count: nat) {
    && Shaped(config, s)
    && var shard := config.shardOf(ip);
       && (ip in s.shared.windows[shard] || |s.shared.windows[shard]| < ShardCapacity(config.maxTracked, shard))
       && RuleBefore(config, s, ip, rule).since <= s.clock
       && CountIn(RuleBefore(config, s, ip, rule), rule.Window(), s.clock).count == count
  }

  /** The client is tracked, and its window of the rule did not start after that moment. */
  ghost predicate Seen(config: Config, s: State, ip: IpAddr, rule: ViolationRule, at: Instant) {
    && Shaped(config, s) && ip in s.shared.windows[config.shardOf(ip)]
    && RuleBefore(config, s, ip, rule).since <= at
  }

  /** A state but for its counters. */
  function Gist(s: State): State {
    s.(shared := s.shared.(windows := []), counted := [])
  }

  lemma SameGist(s: State, t: State)
    requires Gist(s) == Gist(t)
    ensures s.clock == t.clock && s.recorders == t.recorders && s.manager == t.manager && s.log == t.log
    ensures s.shared.(windows := []) == t.shared.(windows := [])
    ensures s.shared.durable == t.shared.durable && s.shared.pending == t.shared.pending
    ensures s.shared.temporary == t.shared.temporary
  {
  }

  /** A request finds its client unblocked. */
  lemma Reads(config: Config, late: Option<nat>, s: State, events: seq<Event>, m: State, t: TaskId, ip: IpAddr)
    returns (longer: seq<Event>, n: State)
    requires Reaches(config, late, s, events, m) && Shaped(config, m)
    requires t !in m.recorders && Normalized(ip) && Watched(config, ip)
    requires !DurableLive(m.shared, ip, m.clock) && !TemporaryLive(m.shared, ip, m.clock)
    ensures Reaches(config, late, s, longer, n)
    ensures n == m.(recorders := m.recorders[t := Recorder(ip, m.clock, SawBoth)])
  {
    ReachesThen(config, late, s, events, m, Begin(t, ip));
    longer, n := events + [Begin(t, ip)], Next(config, m, Begin(t, ip));
    ReachesThen(config, late, s, longer, n, ReadDurable(t));
    longer, n := longer + [ReadDurable(t)], Next(config, n, ReadDurable(t));
    ReachesThen(config, late, s, longer, n, ReadTemporary(t));
    longer, n := longer + [ReadTemporary(t)], Next(config, n, ReadTemporary(t));
  }

  /** It counts. */
  lemma CountsNext(config: Config, m: State, t: TaskId, rule: ViolationRule, count: nat)
    requires At(m, t, SawBoth) && m.recorders[t].now == m.clock && count <= config.threshold(rule)
    requires Ready(config, m, m.recorders[t].ip, rule, count)
    ensures var n := AfterCount(config, m, t, rule);
      && Shaped(config, n)
      && (count < config.threshold(rule) ==>
            Ready(config, n, m.recorders[t].ip, rule, count + 1) && Gist(n) == Gist(Leave(m, t)))
      && (count == config.threshold(rule) ==> Gist(n) == Gist(MoveOn(m, t, false, Crossed(rule, count))))
      && Seen(config, n, m.recorders[t].ip, rule, m.clock)
  {
    var ip := m.recorders[t].ip;
    CountKeepsShape(config, m.shared, ip, rule, m.clock);
    CountingIs(config, m.shared, ip, rule, m.clock);
    assert config.threshold(rule) <= 1_000_000;
    WindowGoesOn(RuleBefore(config, m, ip, rule), rule.Window(), m.clock);
  }

  lemma WindowGoesOn(window: RuleWindow, length: nat, now: Instant)
    requires length > 0
    ensures var next := CountIn(window, length, now);
      && (next.count < U32_MAX ==> CountIn(next, length, now).count == next.count + 1)
      && (window.since <= now ==> next.since <= now)
  {
  }

  /** So many requests find their client unblocked and count it, all at one moment and below the threshold. */
  lemma {:induction false} CountsBelow(config: Config, late: Option<nat>, s: State, events: seq<Event>, m: State,
    ip: IpAddr, rule: ViolationRule, count: nat) returns (longer: seq<Event>, n: State)
    requires CanTrack(config, ip) && Reaches(config, late, s, events, m) && Ready(config, m, ip, rule, 1)
    requires m.recorders == map[] && 1 <= count <= config.threshold(rule)
    requires !DurableLive(m.shared, ip, m.clock) && !TemporaryLive(m.shared, ip, m.clock)
    ensures Reaches(config, late, s, longer, n) && Ready(config, n, ip, rule, count) && Gist(n) == Gist(m)
    decreases count
  {
    longer, n := events, m;
    if count > 1 {
      longer, n := CountsBelow(config, late, s, events, m, ip, rule, count - 1);
      SameGist(n, m);
      longer, n := CountsOnce(config, late, s, longer, n, ip, rule, count - 1);
    }
  }

  lemma CountsOnce(config: Config, late: Option<nat>, s: State, events: seq<Event>, m: State, ip: IpAddr,
    rule: ViolationRule, count: nat) returns (longer: seq<Event>, n: State)
    requires CanTrack(config, ip) && Reaches(config, late, s, events, m) && Ready(config, m, ip, rule, count)
    requires m.recorders == map[] && count < config.threshold(rule)
    requires !DurableLive(m.shared, ip, m.clock) && !TemporaryLive(m.shared, ip, m.clock)
    ensures Reaches(config, late, s, longer, n) && Ready(config, n, ip, rule, count + 1) && Gist(n) == Gist(m)
  {
    var read, q := Reads(config, late, s, events, m, 0, ip);
    SameCounters(config, m, q, ip, rule, count);
    CountsNext(config, q, 0, rule, count);
    ReachesThen(config, late, s, read, q, Count(0, rule));
    longer, n := read + [Count(0, rule)], AfterCount(config, q, 0, rule);
    assert Leave(q, 0) == m;
  }

  lemma SameCounters(config: Config, m: State, n: State, ip: IpAddr, rule: ViolationRule, count: nat)
    requires Ready(config, m, ip, rule, count) && n.shared.windows == m.shared.windows && n.clock == m.clock
    ensures Ready(config, n, ip, rule, count)
  {
  }

  lemma RoomForFirst(config: Config, m: State, t: TaskId)
    requires config.maxPending >= 1 && t in m.recorders && m.shared.pending == map[]
    ensures Enters(config, m, t)
  {
  }

  /** The request that crosses the threshold queues its client. */
  lemma Inserts(config: Config, late: Option<nat>, s: State, events: seq<Event>, m: State, t: TaskId,
    rule: ViolationRule) returns (longer: seq<Event>, n: State)
    requires Reaches(config, late, s, events, m) && At(m, t, SawBoth) && m.shared.pending == map[]
    requires CanTrack(config, m.recorders[t].ip) && m.recorders[t].now == m.clock
    requires Ready(config, m, m.recorders[t].ip, rule, config.threshold(rule))
    ensures Reaches(config, late, s, longer, n) && Shaped(config, n)
    ensures Seen(config, n, m.recorders[t].ip, rule, m.clock)
    ensures Gist(n) == Gist(WithEntry(Leave(m, t), m.recorders[t].ip, Entry(config, rule, m.clock)))
  {
    var count := config.threshold(rule);
    var c;
    c, n := CountsAndInserts(config, m, t, rule);
    ReachesThen(config, late, s, events, m, Count(t, rule));
    ReachesThen(config, late, s, events + [Count(t, rule)], c, Insert(t, rule, count));
    longer := events + [Count(t, rule)] + [Insert(t, rule, count)];
  }

  lemma CountsAndInserts(config: Config, m: State, t: TaskId, rule: ViolationRule) returns (c: State, n: State)
    requires At(m, t, SawBoth) && m.shared.pending == map[]
    requires CanTrack(config, m.recorders[t].ip) && m.recorders[t].now == m.clock
    requires Ready(config, m, m.recorders[t].ip, rule, config.threshold(rule))
    ensures c == AfterCount(config, m, t, rule) && Shaped(config, c) && At(c, t, Crossed(rule, config.threshold(rule)))
    ensures n == AfterInsert(config, c, t, rule, config.threshold(rule))
    ensures Seen(config, n, m.recorders[t].ip, rule, m.clock)
    ensures Gist(n) == Gist(WithEntry(Leave(m, t), m.recorders[t].ip, Entry(config, rule, m.clock)))
  {
    var ip, count := m.recorders[t].ip, config.threshold(rule);
    CountsNext(config, m, t, rule, count);
    c := AfterCount(config, m, t, rule);
    CrossedState(m, c, t, rule, count);
    RoomForFirst(config, c, t);
    n := AfterInsert(config, c, t, rule, count);
    InsertGist(config, m, c, t, rule, count);
    StillSeen(config, c, n, ip, rule, m.clock);
  }

  lemma CrossedState(m: State, c: State, t: TaskId, rule: ViolationRule, count: nat)
    requires t in m.recorders && Gist(c) == Gist(MoveOn(m, t, false, Crossed(rule, count)))
    ensures At(c, t, Crossed(rule, count)) && c.shared.pending == m.shared.pending
  {
    SameGist(c, MoveOn(m, t, false, Crossed(rule, count)));
  }

  lemma StillSeen(config: Config, c: State, n: State, ip: IpAddr, rule: ViolationRule, at: Instant)
    requires Seen(config, c, ip, rule, at) && n.shared.windows == c.shared.windows
    ensures Seen(config, n, ip, rule, at)
  {
  }

  function Entry(config: Config, rule: ViolationRule, now: Instant): PendingBlock {
    PendingBlock(rule, config.threshold(rule), now + TEMPORARY)
  }

  lemma InsertGist(config: Config, m: State, c: State, t: TaskId, rule: ViolationRule, count: nat)
    requires t in m.recorders && Enters(config, c, t)
    requires Gist(c) == Gist(MoveOn(m, t, false, Crossed(rule, count)))
    ensures Gist(AfterInsert(config, c, t, rule, count)) ==
      Gist(WithEntry(Leave(m, t), m.recorders[t].ip, PendingBlock(rule, count, m.recorders[t].now + TEMPORARY)))
  {
    SameGist(c, MoveOn(m, t, false, Crossed(rule, count)));
    assert c.recorders - {t} == m.recorders - {t};
  }

  lemma OneIsBatch(config: Config, ip: IpAddr, entry: PendingBlock, now: Instant)
    requires ConfigOk(config) && entry.deadline > now
    ensures IsBatch(config, map[ip := entry], now, [(ip, entry)])
  {
    var batch: seq<Proposal> := [(ip, entry)];
    assert batch[0].0 == ip;
  }

  /** The manager takes the only pending entry and builds. */
  lemma TakesAndBuilds(config: Config, late: Option<nat>, s: State, events: seq<Event>, m: State, ip: IpAddr,
    entry: PendingBlock, force: bool, wall: u64, prepared: Prepared) returns (longer: seq<Event>, n: State)
    requires Reaches(config, late, s, events, m) && Shaped(config, m) && m.manager.Resting?
    requires m.shared.pending == map[ip := entry] && entry.deadline > m.clock
    requires Prepare(config, m.shared.durable, [(ip, entry)], m.clock, Some(wall), force) == Ok(prepared)
    ensures Reaches(config, late, s, longer, n) && n == m.(manager := Writing(prepared, m.clock))
  {
    var batch: seq<Proposal> := [(ip, entry)];
    OneIsBatch(config, ip, entry, m.clock);
    ReachesThen(config, late, s, events, m, TakeBatch(batch, force));
    longer, n := events + [TakeBatch(batch, force)], m.(manager := Taken(batch, force));
    ReachesThen(config, late, s, longer, n, Build(Some(wall)));
    longer, n := longer + [Build(Some(wall))], m.(manager := Writing(prepared, m.clock));
  }

  /** The candidate for one new entry has a block of a day. */
  lemma OneNewEntry(config: Config, ip: IpAddr, entry: PendingBlock, now: Instant, wall: u64)
    requires config.maxBlocked >= 1 && Watched(config, ip) && entry.deadline > now && wall + BLOCK_SECONDS < U64_LIMIT
    ensures var blocks := map[ip := NewBlock((ip, entry), now, wall)];
      Prepare(config, map[], [(ip, entry)], now, Some(wall), false) ==
        Ok(Prepared(Draft(blocks, [ip], [ip], false), true))
  {
    var batch: seq<Proposal> := [(ip, entry)];
    var none: BlockSnapshot := map[];
    assert batch[1..] == [] && Retained(none, now) == map[];
    var start := Draft(map[], [], [], false);
    var draft := Draft(map[ip := NewBlock((ip, entry), now, wall)], [ip], [ip], false);
    assert start.blocks[ip := NewBlock(batch[0], now, wall)] == draft.blocks && start.consumed + [ip] == [ip];
    assert Propose(config, draft, [], now, wall) == Some(draft);
    assert Propose(config, start, batch, now, wall) == Some(draft);
  }

  /** The candidate for an entry whose client is durable already consumes it and adds nothing. */
  lemma OneLateEntry(config: Config, durable: BlockSnapshot, ip: IpAddr, entry: PendingBlock, now: Instant, wall: u64)
    requires entry.deadline > now && durable.Keys == {ip} && durable[ip].deadline > now
    ensures Prepare(config, durable, [(ip, entry)], now, Some(wall), true) ==
      Ok(Prepared(Draft(durable, [ip], [], false), true))
  {
    var batch: seq<Proposal> := [(ip, entry)];
    assert batch[1..] == [] && Retained(durable, now) == durable;
    var start, draft := Draft(durable, [], [], false), Draft(durable, [ip], [], false);
    assert start.consumed + [ip] == [ip];
    assert Propose(config, draft, [], now, wall) == Some(draft);
    assert Propose(config, start, batch, now, wall) == Some(draft);
  }

  lemma StartIsReady(config: Config, now: Instant, ip: IpAddr, rule: ViolationRule)
    requires CanTrack(config, ip)
    ensures Ready(config, Start(map[], now), ip, rule, 1)
  {
    InvariantAtStart(config, map[], now);
  }

  /** The state once the candidate for the first client is built. */
  function FirstBuilt(now: Instant, ip: IpAddr, entry: PendingBlock, wall: u64): State
    requires wall + BLOCK_SECONDS < U64_LIMIT
  {
    var prepared := Prepared(Draft(map[ip := NewBlock((ip, entry), now, wall)], [ip], [ip], false), true);
    Gist(Start(map[], now)).(
      shared := WithPending(Gist(Start(map[], now)).shared, map[ip := entry]),
      manager := Writing(prepared, now), log := [Entered(ip, entry.rule, entry.deadline)])
  }

  /** The client becomes pending; the candidate with its block is built at once. */
  lemma BuildsFirst(config: Config, late: Option<nat>, now: Instant, ip: IpAddr, rule: ViolationRule, wall: u64)
    returns (events: seq<Event>, t: State)
    requires CanTrack(config, ip) && wall + BLOCK_SECONDS < U64_LIMIT
    ensures Reaches(config, late, Start(map[], now), events, t) && Shaped(config, t)
    ensures Seen(config, t, ip, rule, now)
    ensures Gist(t) == FirstBuilt(now, ip, Entry(config, rule, now), wall)
  {
    var s, entry := Start(map[], now), Entry(config, rule, now);
    StartIsReady(config, now, ip, rule);
    var none: seq<Event> := [];
    var below, b := CountsBelow(config, late, s, none, s, ip, rule, config.threshold(rule));
    SameGist(b, s);
    var read, m := Reads(config, late, s, below, b, 0, ip);
    SameCounters(config, b, m, ip, rule, config.threshold(rule));
    var queued, n := Inserts(config, late, s, read, m, 0, rule);
    SameGist(n, WithEntry(Leave(m, 0), ip, entry));
    assert Leave(m, 0) == b;
    OneNewEntry(config, ip, entry, now, wall);
    events, t := TakesAndBuilds(config, late, s, queued, n, ip, entry, false, wall,
      Prepared(Draft(map[ip := NewBlock((ip, entry), now, wall)], [ip], [ip], false), true));
    BuiltGist(now, ip, entry, wall, b, n, t);
  }

  lemma BuiltGist(now: Instant, ip: IpAddr, entry: PendingBlock, wall: u64, b: State, n: State, t: State)
    requires wall + BLOCK_SECONDS < U64_LIMIT
    requires Gist(b) == Gist(Start(map[], now)) && Gist(n) == Gist(WithEntry(b, ip, entry))
    requires t == n.(manager :=
      Writing(Prepared(Draft(map[ip := NewBlock((ip, entry), now, wall)], [ip], [ip], false), true), now))
    ensures Gist(t) == FirstBuilt(now, ip, entry, wall)
  {
    SameGist(b, Start(map[], now));
    SameGist(n, WithEntry(b, ip, entry));
  }

  /** Publish and consume. */
  lemma PublishesAndConsumes(config: Config, late: Option<nat>, s: State, events: seq<Event>, m: State)
    returns (longer: seq<Event>, n: State)
    requires Reaches(config, late, s, events, m) && Shaped(config, m)
    requires m.manager.Writing? && m.manager.prepared.draft.consumed != [] && OnTime(m, PublishDurable, late)
    ensures Reaches(config, late, s, longer, n)
    ensures var shared := m.shared.(durable := Target(m));
      n == m.(shared := Consume(shared, m.manager.prepared.draft.consumed), manager := Resting)
  {
    ReachesThen(config, late, s, events, m, PublishDurable);
    longer, n := events + [PublishDurable], Next(config, m, PublishDurable);
    ReachesThen(config, late, s, longer, n, ConsumePending);
    longer, n := longer + [ConsumePending], Next(config, n, ConsumePending);
  }

  lemma ConsumesOne(ip: IpAddr, entry: PendingBlock)
    ensures map[ip := entry] - ToSet([ip]) == map[]
  {
    assert [ip][0] == ip && ip in ToSet([ip]);
  }

  /**
  What is left when the first block was published `delay` after its build, with another request that
  had read before and now crosses the threshold.
  */
  ghost predicate PublishedLate(config: Config, now: Instant, ip: IpAddr, delay: nat, rule: ViolationRule, t: State) {
    && t.clock == now + delay && Ready(config, t, ip, rule, config.threshold(rule)) && t.manager.Resting?
    && t.recorders == map[0 := Recorder(ip, t.clock, SawBoth)]
    && t.shared.pending == map[] && t.shared.temporary == map[]
    && t.shared.durable.Keys == {ip} && t.shared.durable[ip].deadline == now + DAY
    && t.log == [Entered(ip, rule, now + TEMPORARY)]
  }

  /** By then every window has run its length. */
  lemma ReadyAgain(config: Config, m: State, ip: IpAddr, rule: ViolationRule, since: Instant)
    requires CanTrack(config, ip) && Shaped(config, m) && Seen(config, m, ip, rule, since)
    requires m.clock >= since + TEMPORARY
    ensures Ready(config, m, ip, rule, 1)
  {
  }

  lemma PublishesLate(config: Config, now: Instant, ip: IpAddr, rule: ViolationRule, wall: u64, delay: nat)
    returns (events: seq<Event>, t: State)
    requires CanTrack(config, ip) && wall + BLOCK_SECONDS < U64_LIMIT && TEMPORARY <= delay
    ensures Reaches(config, Some(delay), Start(map[], now), events, t)
    ensures PublishedLate(config, now, ip, delay, rule, t)
  {
    var built, m := BuildsFirst(config, Some(delay), now, ip, rule, wall);
    SameGist(m, FirstBuilt(now, ip, Entry(config, rule, now), wall));
    events, t := ReadsAndPublishes(config, Start(map[], now), built, m, ip, rule, delay);
  }

  /** Other requests count the client and the last of them still reads before the publication. */
  lemma ReadsAndPublishes(config: Config, s: State, events: seq<Event>, m: State, ip: IpAddr, rule: ViolationRule,
    delay: nat) returns (longer: seq<Event>, t: State)
    requires CanTrack(config, ip) && Reaches(config, Some(delay), s, events, m) && TEMPORARY <= delay
    requires Seen(config, m, ip, rule, m.clock) && m.recorders == map[]
    requires m.manager.Writing? && m.manager.prepared.write && m.manager.builtAt == m.clock
    requires m.manager.prepared.draft.consumed == [ip]
    requires m.manager.prepared.draft.blocks.Keys == {ip}
    requires m.manager.prepared.draft.blocks[ip].deadline == m.clock + DAY
    requires m.shared.durable == map[] && m.shared.pending.Keys == {ip}
    requires m.shared.temporary == map[ip := m.clock + TEMPORARY]
    requires m.log == [Entered(ip, rule, m.clock + TEMPORARY)]
    ensures Reaches(config, Some(delay), s, longer, t) && PublishedLate(config, m.clock, ip, delay, rule, t)
  {
    var read, n := WaitsAndReads(config, Some(delay), s, events, m, ip, rule, delay);
    SameGist(n, m.(clock := m.clock + delay, recorders := map[0 := Recorder(ip, m.clock + delay, SawBoth)]));
    longer, t := PublishesAndConsumes(config, Some(delay), s, read, n);
    SameCounters(config, n, t, ip, rule, config.threshold(rule));
    ConsumesOne(ip, m.shared.pending[ip]);
    assert m.shared.pending == map[ip := m.shared.pending[ip]];
  }

  lemma WaitsAndReads(config: Config, late: Option<nat>, s: State, events: seq<Event>, m: State, ip: IpAddr,
    rule: ViolationRule, delay: nat) returns (longer: seq<Event>, n: State)
    requires CanTrack(config, ip) && Reaches(config, late, s, events, m) && TEMPORARY <= delay
    requires Seen(config, m, ip, rule, m.clock) && m.recorders == map[]
    requires m.shared.durable == map[] && m.shared.temporary == map[ip := m.clock + TEMPORARY]
    ensures Reaches(config, late, s, longer, n) && Ready(config, n, ip, rule, config.threshold(rule))
    ensures Gist(n) ==
      Gist(m.(clock := m.clock + delay, recorders := map[0 := Recorder(ip, m.clock + delay, SawBoth)]))
  {
    ReachesThen(config, late, s, events, m, Tick(delay));
    var waited, w := events + [Tick(delay)], m.(clock := m.clock + delay);
    ReadyAgain(config, w, ip, rule, m.clock);
    var below, b := CountsBelow(config, late, s, waited, w, ip, rule, config.threshold(rule));
    SameGist(b, w);
    longer, n := Reads(config, late, s, below, b, 0, ip);
    SameCounters(config, b, n, ip, rule, config.threshold(rule));
  }

  /** The late entry is only consumed. */
  lemma InsertsLate(config: Config, now: Instant, ip: IpAddr, rule: ViolationRule, wall: u64, delay: nat, s: State,
    events: seq<Event>, m: State) returns (longer: seq<Event>, n: State)
    requires CanTrack(config, ip) && delay < DAY
    requires Reaches(config, Some(delay), s, events, m) && PublishedLate(config, now, ip, delay, rule, m)
    ensures Reaches(config, Some(delay), s, longer, n) && Shaped(config, n) && n.clock == m.clock
    ensures n.log == m.log + [Entered(ip, rule, m.clock + TEMPORARY)]
    ensures n.shared.durable == m.shared.durable && n.shared.pending == map[] && n.shared.temporary == map[]
  {
    longer, n := InsertsAndConsumes(config, Some(delay), s, events, m, ip, rule, wall);
  }

  lemma InsertsAndConsumes(config: Config, late: Option<nat>, s: State, events: seq<Event>, m: State, ip: IpAddr,
    rule: ViolationRule, wall: u64) returns (longer: seq<Event>, n: State)
    requires CanTrack(config, ip) && Reaches(config, late, s, events, m) && m.manager.Resting?
    requires At(m, 0, SawBoth) && m.recorders[0].ip == ip && m.recorders[0].now == m.clock
    requires Ready(config, m, ip, rule, config.threshold(rule)) && m.shared.pending == map[]
    requires m.shared.durable.Keys == {ip} && m.shared.durable[ip].deadline > m.clock
    ensures Reaches(config, late, s, longer, n) && Shaped(config, n) && n.clock == m.clock
    ensures n.log == m.log + [Entered(ip, rule, m.clock + TEMPORARY)]
    ensures n.shared.durable == m.shared.durable && n.shared.pending == map[] && n.shared.temporary == map[]
  {
    var entry := Entry(config, rule, m.clock);
    var queued, q := Inserts(config, late, s, events, m, 0, rule);
    OneEntry(m, q, ip, entry);
    longer, n := ConsumesLate(config, late, s, queued, q, ip, entry, wall);
  }

  lemma OneEntry(m: State, q: State, ip: IpAddr, entry: PendingBlock)
    requires Gist(q) == Gist(WithEntry(Leave(m, 0), ip, entry)) && m.shared.pending == map[]
    ensures q.shared.pending == map[ip := entry] && q.shared.durable == m.shared.durable
    ensures q.clock == m.clock && q.manager == m.manager
    ensures q.log == m.log + [Entered(ip, entry.rule, entry.deadline)]
  {
    SameGist(q, WithEntry(Leave(m, 0), ip, entry));
  }

  lemma ConsumesLate(config: Config, late: Option<nat>, s: State, events: seq<Event>, m: State, ip: IpAddr,
    entry: PendingBlock, wall: u64) returns (longer: seq<Event>, n: State)
    requires Reaches(config, late, s, events, m) && Shaped(config, m) && m.manager.Resting?
    requires m.shared.pending == map[ip := entry] && entry.deadline > m.clock
    requires m.shared.durable.Keys == {ip} && m.shared.durable[ip].deadline > m.clock
    ensures Reaches(config, late, s, longer, n) && Shaped(config, n) && n.clock == m.clock && n.log == m.log
    ensures n.shared.durable == m.shared.durable && n.shared.pending == map[] && n.shared.temporary == map[]
  {
    OneLateEntry(config, m.shared.durable, ip, entry, m.clock, wall);
    var built, b := TakesAndBuilds(config, late, s, events, m, ip, entry, true, wall,
      Prepared(Draft(m.shared.durable, [ip], [], false), true));
    longer, n := PublishesAndConsumes(config, late, s, built, b);
    ConsumesOne(ip, entry);
  }

  /**
  Late entries happen: a request that read before a publication queues its client after it, and the
  entry is consumed while the client keeps the durable block it had.
  */
  lemma LateEntryHappens(config: Config, now: Instant, ip: IpAddr, rule: ViolationRule, wall: u64, delay: nat)
    returns (events: seq<Event>, t: State)
    requires CanTrack(config, ip) && wall + BLOCK_SECONDS < U64_LIMIT && TEMPORARY <= delay < DAY
    ensures Reaches(config, Some(delay), Start(map[], now), events, t) && Shaped(config, t) && t.clock == now + delay
    ensures t.log == [Entered(ip, rule, now + TEMPORARY), Entered(ip, rule, now + delay + TEMPORARY)]
    ensures t.shared.pending == map[] && t.shared.temporary == map[]
    ensures t.shared.durable.Keys == {ip} && t.shared.durable[ip].deadline == now + DAY
  {
    var published, m := PublishesLate(config, now, ip, rule, wall, delay);
    events, t := InsertsLate(config, now, ip, rule, wall, delay, Start(map[], now), published, m);
  }

  /** A run with a gap, in which all publications are on time but those `delay` after their build. */
  ghost predicate GapRun(config: Config, delay: nat, blocks: BlockSnapshot, now: Instant, events: seq<Event>, t: State,
    i: nat)
  {
    && BlocksOk(blocks, config.maxBlocked) && Reaches(config, Some(delay), Start(blocks, now), events, t)
    && i < |t.log| && t.clock < t.log[i].until && !Blocked(config, t.shared, t.log[i].ip, t.clock)
  }

  /**
  For every delay that is too late there is a run with a gap: the late entry is consumed without a
  new block, and when the durable block ends the temporary one should still last.
  */
  lemma GapWhenLate(config: Config, now: Instant, ip: IpAddr, rule: ViolationRule, wall: u64, delay: nat)
    returns (events: seq<Event>, t: State)
    requires CanTrack(config, ip) && wall + BLOCK_SECONDS < U64_LIMIT && TooLate(delay)
    ensures GapRun(config, delay, map[], now, events, t, 1)
  {
    var inserted, m := LateEntryHappens(config, now, ip, rule, wall, delay);
    ReachesThen(config, Some(delay), Start(map[], now), inserted, m, Tick(DAY - delay));
    events, t := inserted + [Tick(DAY - delay)], m.(clock := now + DAY);
  }

  /**
  So the condition is exact: letting publications through that come `delay` after their build makes a
  gap possible if and only if that is more than 86100 and less than 86400 seconds.
  */
  lemma GapExactly(config: Config, ip: IpAddr, rule: ViolationRule, delay: nat)
    requires CanTrack(config, ip)
    ensures TooLate(delay) <==> exists blocks, now, events, t, i :: GapRun(config, delay, blocks, now, events, t, i)
  {
    if TooLate(delay) {
      var events, t := GapWhenLate(config, 0, ip, rule, 0, delay);
      assert GapRun(config, delay, map[], 0, events, t, 1);
    } else {
      forall blocks, now, events, t, i: nat
        ensures !GapRun(config, delay, blocks, now, events, t, i)
      {
        if GapRun(config, delay, blocks, now, events, t, i) {
          NoGapWithSplitRecording(config, Some(delay), blocks, now, events, t, i);
        }
      }
    }
  }
}
