/**
Runs of the whole IP block engine.  Violations are recorded by any number of request tasks while
one manager sweeps, expires, and carries a transaction through its stages: take a batch, build the
candidate, one file action after another, publish the durable snapshot, consume the pending
entries.  At any point the process can stop, with or without a loss of power, and load again.

`Invariant` holds in every reachable state; the theorems at the end read off what it means.
*/
module IpBlockingRuns {
  import opened Wrappers
  import opened ViolationWindows
  import opened Network
  import opened BlockFile
  import opened IpBlocking
  import opened IpTransaction

  datatype Manager =
    | Resting
    | Taken(batch: seq<Proposal>, force: bool)
    | Writing(prepared: Prepared, job: Job)
    | Publishing(prepared: Prepared)
    | Consuming(ips: seq<IpAddr>)

  /** A counted violation, and whether it made its client pending. */
  datatype LogEntry = LogEntry(ip: IpAddr, rule: ViolationRule, tally: Tally, entered: bool) {
    /** When the temporary block it started ends. */
    function Until(): Instant {
      tally.at + TEMPORARY_SECONDS * SECOND
    }
  }

  /**
  `log` and the last five fields are bookkeeping for the proofs: the violations counted by this
  process, the temporary files found at its start, what a loss of power could then have brought back
  instead of the file it loaded (until the directory is synced), how the clocks relate, and whether
  memory has every block as its row says.  Loading breaks the last one when it cuts a row from the
  future to a day; publishing a file written from memory mends it.
  */
  datatype System = System(
    shared: Shared, clock: Instant, disk: Disk, manager: Manager, log: seq<LogEntry>,
    foreign: set<TempName>, doubtful: set<Option<Content>>, offset: nat, inStep: bool, uncut: bool)
  {
    predicate Synced() { doubtful == {} }
  }

  datatype Event =
    | Tick(nanos: nat)
    | Violation(ip: IpAddr, rule: ViolationRule)
    | SweepWindows
    | ExpirePending
    | TakeBatch(batch: seq<Proposal>, force: bool)
    | Build(reading: Option<u64>, temp: TempName)
    | ActOnFile(ok: bool)
    | FinishFile
    | PublishDurable
    | ConsumePending
    | StopAccepting
    | Restart(power: bool, left: Fs, tries: seq<Try>, wall: u64, now: Instant, offset: nat, blocks: BlockSnapshot)

  ghost predicate Enabled(config: Config, size: Size, s: System, e: Event) {
    match e
    case Violation(ip, _) => Normalized(ip)
    case ExpirePending => s.manager.Resting?
    case TakeBatch(batch, _) => s.manager.Resting? && IsBatch(config, s.shared.pending, s.clock, batch)
    case Build(_, _) => s.manager.Taken?
    case ActOnFile(_) => s.manager.Writing? && !s.manager.job.stage.Done?
    case FinishFile => s.manager.Writing? && s.manager.job.stage.Done?
    case PublishDurable => s.manager.Publishing?
    case ConsumePending => s.manager.Consuming?
    case Restart(power, left, tries, wall, now, _, blocks) =>
      && (if power then AfterPowerLoss(s.disk.fs, left) else left == s.disk.fs)
      && Loads(config, size, Created(size, left, tries), wall, now, blocks)
    case _ => true
  }

  ghost predicate Loads(config: Config, size: Size, fs: Fs, wall: u64, now: Instant, blocks: BlockSnapshot) {
    && WholeFile(config, size, fs.current)
    && RestoredFrom(fs.current.value.file.blocks, wall, now, blocks)
  }

  function EmptyShards(): seq<Shard> {
    seq(SHARDS, i => map[])
  }

  function Started(fs: Fs, wall: u64, now: Instant, offset: nat, blocks: BlockSnapshot): System {
    System(Shared(blocks, map[], EmptyShards(), map[], true), now, Disk(fs, None), Resting, [], fs.temps.Keys,
      Doubts(fs), offset, wall == WallAt(now, offset), NoneCut(fs, wall))
  }

  /** No row ends more than a day after this reading of the wall clock. */
  predicate NoneCut(fs: Fs, wall: u64) {
    fs.current.Some? && fs.current.value.Stored? ==>
      forall row | row in fs.current.value.file.blocks :: row.expires <= wall + BLOCK_SECONDS
  }

  function Logged(log: seq<LogEntry>, ip: IpAddr, rule: ViolationRule, recorded: Recorded): seq<LogEntry> {
    match recorded
    case Ignored => log
    case CountedOnly(tally) => log + [LogEntry(ip, rule, tally, false)]
    case EnteredPending(tally) => log + [LogEntry(ip, rule, tally, true)]
  }

  /** After publishing, the transaction still has to take its entries out of the pending set. */
  function AfterPublish(consumed: seq<IpAddr>): Manager {
    if consumed == [] then Resting else Consuming(consumed)
  }

  /** After a file action; a synced directory leaves no doubt. */
  function Acted(s: System, disk: Disk, job: Job): System
    requires s.manager.Writing?
  {
    s.(disk := disk, manager := s.manager.(job := job), doubtful := if job.stage == Done(true) then {} else s.doubtful)
  }

  function Next(config: Config, size: Size, s: System, e: Event): System
    requires ConfigOk(config) && WindowsShaped(config, s.shared.windows)
    requires Enabled(config, size, s, e)
  {
    match e
    case Tick(nanos) => s.(clock := s.clock + nanos)
    case Violation(ip, rule) =>
      var r := Record(config, s.shared, ip, rule, s.clock);
      s.(shared := r.0, log := Logged(s.log, ip, rule, r.1))
    case SweepWindows => s.(shared := Sweep(s.shared, s.clock))
    case ExpirePending => s.(shared := Expire(s.shared, s.clock))
    case TakeBatch(batch, force) => s.(manager := Taken(batch, force))
    case Build(wall, temp) =>
      var result := Prepare(config, s.shared.durable, s.manager.batch, s.clock, wall, s.manager.force);
      s.(manager :=
          (if result.Err? then Resting
           else if result.value.write then Writing(result.value, StartJob(result.value.draft.blocks, temp))
           else Publishing(result.value)),
         inStep := s.inStep && wall.GetOr(0) == WallAt(s.clock, s.offset))
    case ActOnFile(ok) =>
      var r := FileAction(size, s.disk, s.manager.job, s.clock, ok);
      Acted(s, r.0, r.1)
    case FinishFile =>
      s.(manager := if s.manager.job.stage.ok then Publishing(s.manager.prepared) else Resting)
    case PublishDurable =>
      var p := s.manager.prepared;
      s.(shared := if p.write then Publish(s.shared, p.draft.blocks) else s.shared,
         manager := AfterPublish(p.draft.consumed), uncut := s.uncut || p.write)
    case ConsumePending => s.(shared := Consume(s.shared, s.manager.ips), manager := Resting)
    case StopAccepting => s.(shared := s.shared.(accepting := false))
    case Restart(_, left, tries, wall, now, offset, blocks) =>
      Started(Created(size, left, tries), wall, now, offset, blocks)
  }

  // ---- the invariant, part by part ----

  ghost predicate PendingOk(config: Config, s: System) {
    forall ip | ip in s.shared.pending ::
      && Normalized(ip) && s.shared.pending[ip].count > 0 && !Allowed(config, ip)
      && s.shared.pending[ip].deadline <= s.clock + TEMPORARY_SECONDS * SECOND
  }

  /** Bounds, and the temporary snapshot is the image of the pending set. */
  ghost predicate SharedInv(config: Config, s: System) {
    && ConfigOk(config)
    && WindowsShaped(config, s.shared.windows)
    && s.shared.temporary == Deadlines(s.shared.pending)
    && |s.shared.pending| <= config.maxPending
    && BlocksOk(s.shared.durable, config.maxBlocked)
    && PendingOk(config, s)
  }

  /** A pending client is not durably blocked, but for the moment between publishing and consuming. */
  ghost predicate NotBoth(s: System) {
    forall ip | ip in s.shared.pending ::
      DurableLive(s.shared, ip, s.clock) ==> s.manager.Consuming? && ip in s.manager.ips
  }

  /** A candidate keeps the live durable blocks and outlasts the entries it is going to consume. */
  ghost predicate DraftFits(config: Config, s: System, d: Draft) {
    && BlocksOk(d.blocks, config.maxBlocked)
    && (forall ip | ip in s.shared.durable && s.shared.durable[ip].deadline > s.clock ::
          ip in d.blocks && d.blocks[ip] == s.shared.durable[ip])
    && (forall ip | ip in d.blocks ::
          (ip in s.shared.durable && s.shared.durable[ip] == d.blocks[ip]) || ip in d.consumed)
    && (forall ip | ip in d.consumed :: Outlasts(s, d.blocks, ip))
  }

  ghost predicate Outlasts(s: System, blocks: BlockSnapshot, ip: IpAddr) {
    && ip in s.shared.pending && ip in blocks
    && blocks[ip].deadline >= s.shared.pending[ip].deadline
  }

  ghost predicate InPending(s: System, batch: seq<Proposal>) {
    forall i | 0 <= i < |batch| :: batch[i].0 in s.shared.pending && s.shared.pending[batch[i].0] == batch[i].1
  }

  ghost predicate ManagerInv(config: Config, s: System) {
    match s.manager
    case Resting => true
    case Taken(batch, _) => InPending(s, batch)
    case Writing(p, job) => p.write && DraftFits(config, s, p.draft) && job.blocks == p.draft.blocks
    case Publishing(p) => if p.write then DraftFits(config, s, p.draft) else p.draft.consumed == []
    case Consuming(ips) => forall ip | ip in ips :: Outlasts(s, s.shared.durable, ip)
  }

  // ---- bounds, mirror and transaction are kept ----

  lemma SharedKept(config: Config, size: Size, s: System, e: Event)
    requires SharedInv(config, s) && ManagerInv(config, s) && NotBoth(s) && Enabled(config, size, s, e)
    ensures SharedInv(config, Next(config, size, s, e))
  {
    if e.Violation? {
      RecordKeepsShared(config, s, e.ip, e.rule);
    } else if e.SweepWindows? {
      SweepKeepsShape(config, s.shared.windows, s.clock);
    } else if e.ExpirePending? {
      FewerPendingKeepShared(config, s, Unexpired(s.shared.pending, s.clock));
    } else if e.ConsumePending? {
      FewerPendingKeepShared(config, s, s.shared.pending - ToSet(s.manager.ips));
    } else if e.Restart? {
      var file := Created(size, e.left, e.tries).current.value.file;
      RestoredBlocksOk(size, file, config.maxBlocked, e.wall, e.now, e.blocks);
    } else {
      SharedKeptByManager(config, size, s, e);
    }
  }

  lemma SharedKeptByManager(config: Config, size: Size, s: System, e: Event)
    requires SharedInv(config, s) && ManagerInv(config, s) && Enabled(config, size, s, e)
    requires !e.Violation? && !e.SweepWindows? && !e.ExpirePending? && !e.ConsumePending? && !e.Restart?
    ensures SharedInv(config, Next(config, size, s, e))
  {
  }

  lemma FewerPendingKeepShared(config: Config, s: System, pending: map<IpAddr, PendingBlock>)
    requires SharedInv(config, s) && pending.Keys <= s.shared.pending.Keys
    requires forall ip | ip in pending :: pending[ip] == s.shared.pending[ip]
    ensures SharedInv(config, s.(shared := WithPending(s.shared, pending)))
  {
    SubsetSize(pending.Keys, s.shared.pending.Keys);
  }

  lemma RecordKeepsShared(config: Config, s: System, ip: IpAddr, rule: ViolationRule)
    requires SharedInv(config, s) && Normalized(ip)
    ensures SharedInv(config, s.(shared := Record(config, s.shared, ip, rule, s.clock).0))
  {
    var windows := RecordCases(config, s.shared, ip, rule, s.clock);
    var recorded := Record(config, s.shared, ip, rule, s.clock).1;
    var counted := s.(shared := s.shared.(windows := windows));
    if recorded.EnteredPending? {
      var entry := PendingBlock(rule, recorded.tally.count, s.clock + TEMPORARY_SECONDS * SECOND);
      EntryKeepsShared(config, counted, ip, entry);
    }
  }

  lemma EntryKeepsShared(config: Config, s: System, ip: IpAddr, entry: PendingBlock)
    requires SharedInv(config, s) && Normalized(ip) && !Allowed(config, ip)
    requires |s.shared.pending| < config.maxPending
    requires entry.count > 0 && entry.deadline == s.clock + TEMPORARY_SECONDS * SECOND
    ensures SharedInv(config, s.(shared := WithPending(s.shared, s.shared.pending[ip := entry])))
  {
  }

  /** The three outcomes of recording, spelled out. */
  lemma RecordCases(config: Config, s: Shared, ip: IpAddr, rule: ViolationRule, now: Instant)
    returns (windows: seq<Shard>)
    requires ConfigOk(config) && WindowsShaped(config, s.windows)
    ensures WindowsShaped(config, windows)
    ensures var (after, recorded) := Record(config, s, ip, rule, now);
      && (recorded.Ignored? ==> after == s && windows == s.windows)
      && (!recorded.Ignored? ==>
            && Admits(config, s, ip, now)
            && recorded.tally.count >= 1
            && CountInShard(config, s, ip, rule, now) == (s.(windows := windows), Some(recorded.tally)))
      && (recorded.CountedOnly? ==> after == s.(windows := windows))
      && (recorded.EnteredPending? ==>
            && ip !in s.pending && |s.pending| < config.maxPending
            && recorded.tally.count >= config.threshold(rule)
            && after == WithPending(s.(windows := windows),
                 s.pending[ip := PendingBlock(rule, recorded.tally.count, now + TEMPORARY_SECONDS * SECOND)]))
  {
    windows := s.windows;
    if Admits(config, s, ip, now) {
      CountKeepsShape(config, s, ip, rule, now);
      windows := CountInShard(config, s, ip, rule, now).0.windows;
    }
  }

  /** In this machine, building a candidate never meets an entry that is already durable or allowed. */
  lemma ConsumedIsActivated(config: Config, s: System, wall: Option<u64>, ip: IpAddr)
    requires SharedInv(config, s) && NotBoth(s) && s.manager.Taken? && InPending(s, s.manager.batch)
    requires Prepare(config, s.shared.durable, s.manager.batch, s.clock, wall, s.manager.force).Ok?
    ensures var p := Prepare(config, s.shared.durable, s.manager.batch, s.clock, wall, s.manager.force).value;
      && Transacts(config, s.shared.durable, s.manager.batch, s.clock, wall.GetOr(0), p)
      && (ip in p.draft.consumed ==>
            && p.write && ip in p.draft.activated && Outlasts(s, p.draft.blocks, ip)
            && p.draft.blocks[ip].deadline == s.clock + BLOCK_SECONDS * SECOND)
  {
    var batch := s.manager.batch;
    assert ProposalsOk(batch);
    PrepareTransacts(config, s.shared.durable, batch, s.clock, wall, s.manager.force);
    var p := Prepare(config, s.shared.durable, batch, s.clock, wall, s.manager.force).value;
    if ip in p.draft.consumed {
      var i: nat :| Proposed(batch, i, ip, s.clock);
      assert ip in s.shared.pending && !Allowed(config, ip);
      assert !DurableLive(s.shared, ip, s.clock);
      if p.write {
        assert ip in p.draft.blocks && ip !in Retained(s.shared.durable, s.clock);
      }
    }
  }

  lemma BuildFits(config: Config, s: System, wall: Option<u64>)
    requires SharedInv(config, s) && NotBoth(s) && s.manager.Taken? && InPending(s, s.manager.batch)
    requires Prepare(config, s.shared.durable, s.manager.batch, s.clock, wall, s.manager.force).Ok?
    ensures var p := Prepare(config, s.shared.durable, s.manager.batch, s.clock, wall, s.manager.force).value;
      if p.write then DraftFits(config, s, p.draft) else p.draft.consumed == []
  {
    var p := Prepare(config, s.shared.durable, s.manager.batch, s.clock, wall, s.manager.force).value;
    forall ip
      ensures ip in p.draft.consumed ==> p.write && Outlasts(s, p.draft.blocks, ip)
    {
      ConsumedIsActivated(config, s, wall, ip);
    }
    if p.write {
      var any: IpAddr := V4(0);
      ConsumedIsActivated(config, s, wall, any);
      KeptOrConsumed(config, s.shared.durable, s.manager.batch, s.clock, wall.GetOr(0), p.draft);
    } else {
      EmptyOrInhabited(p.draft.consumed);
    }
  }

  lemma KeptOrConsumed(config: Config, durable: BlockSnapshot, batch: seq<Proposal>, now: Instant, wall: u64, d: Draft)
    requires DraftOk(config, Retained(durable, now), batch, now, wall, d)
    ensures forall ip | ip in durable && durable[ip].deadline > now :: ip in d.blocks && d.blocks[ip] == durable[ip]
    ensures forall ip | ip in d.blocks :: (ip in durable && durable[ip] == d.blocks[ip]) || ip in d.consumed
  {
    forall ip | ip in durable && durable[ip].deadline > now
      ensures ip in d.blocks && d.blocks[ip] == durable[ip]
    {
      assert ip in Retained(durable, now);
    }
  }

  /** Recording adds at most one pending entry, for a client that is not durably blocked, and touches no other. */
  lemma RecordFrame(config: Config, s: System, ip: IpAddr, rule: ViolationRule)
    requires SharedInv(config, s)
    ensures var after := Record(config, s.shared, ip, rule, s.clock).0;
      && after.durable == s.shared.durable
      && (forall other | other in s.shared.pending ::
            other in after.pending && after.pending[other] == s.shared.pending[other])
      && (forall other | other in after.pending && other !in s.shared.pending ::
            other == ip && !DurableLive(s.shared, ip, s.clock))
  {
    var windows := RecordCases(config, s.shared, ip, rule, s.clock);
  }

  /** A manager's claims survive anything that leaves the durable map and its pending entries alone. */
  lemma ManagerFrame(config: Config, s: System, t: System)
    requires ManagerInv(config, s)
    requires t.manager == s.manager && t.shared.durable == s.shared.durable && t.clock >= s.clock
    requires forall ip | ip in s.shared.pending ::
      ip in t.shared.pending && t.shared.pending[ip] == s.shared.pending[ip]
    ensures ManagerInv(config, t)
  {
    forall blocks, ip | Outlasts(s, blocks, ip)
      ensures Outlasts(t, blocks, ip)
    {
    }
    forall d | DraftFits(config, s, d)
      ensures DraftFits(config, t, d)
    {
    }
  }

  lemma EmptyOrInhabited(ips: seq<IpAddr>)
    ensures ips == [] || exists ip :: ip in ips
  {
    if ips != [] {
      assert ips[0] in ips;
    }
  }

  predicate LeavesManagerAlone(e: Event) {
    e.Tick? || e.Violation? || e.SweepWindows? || e.StopAccepting?
  }

  lemma ManagerKeptByOthers(config: Config, size: Size, s: System, e: Event)
    requires SharedInv(config, s) && ManagerInv(config, s) && Enabled(config, size, s, e) && LeavesManagerAlone(e)
    ensures ManagerInv(config, Next(config, size, s, e))
  {
    if e.Violation? {
      RecordFrame(config, s, e.ip, e.rule);
    }
    ManagerFrame(config, s, Next(config, size, s, e));
  }

  lemma ActionKeepsBlocks(size: Size, disk: Disk, job: Job, now: Instant, ok: bool)
    requires !job.stage.Done?
    ensures FileAction(size, disk, job, now, ok).1.blocks == job.blocks
  {
  }

  lemma ManagerKeptByJob(config: Config, s: System, disk: Disk, job: Job)
    requires ManagerInv(config, s) && s.manager.Writing? && job.blocks == s.manager.job.blocks
    ensures ManagerInv(config, Acted(s, disk, job))
  {
    SameDraftFits(config, s, Acted(s, disk, job), s.manager.prepared.draft);
  }

  lemma ManagerKeptByFinish(config: Config, s: System)
    requires ManagerInv(config, s) && s.manager.Writing? && s.manager.job.stage.Done?
    ensures ManagerInv(config, s.(manager := Publishing(s.manager.prepared)))
  {
    SameDraftFits(config, s, s.(manager := Publishing(s.manager.prepared)), s.manager.prepared.draft);
  }

  lemma SameDraftFits(config: Config, s: System, t: System, d: Draft)
    requires DraftFits(config, s, d) && t.shared == s.shared && t.clock == s.clock
    ensures DraftFits(config, t, d)
  {
    forall ip | ip in d.consumed
      ensures Outlasts(t, d.blocks, ip)
    {
      assert Outlasts(s, d.blocks, ip);
    }
  }

  lemma ManagerKeptByBuild(config: Config, size: Size, s: System, e: Event)
    requires SharedInv(config, s) && ManagerInv(config, s) && NotBoth(s) && Enabled(config, size, s, e) && e.Build?
    ensures ManagerInv(config, Next(config, size, s, e))
  {
    var t := Next(config, size, s, e);
    var result := Prepare(config, s.shared.durable, s.manager.batch, s.clock, e.reading, s.manager.force);
    if result.Ok? {
      BuildFits(config, s, e.reading);
      if result.value.write {
        SameDraftFits(config, s, t, result.value.draft);
      }
    }
  }

  lemma ManagerKept(config: Config, size: Size, s: System, e: Event)
    requires SharedInv(config, s) && ManagerInv(config, s) && NotBoth(s) && Enabled(config, size, s, e)
    ensures ManagerInv(config, Next(config, size, s, e))
  {
    if LeavesManagerAlone(e) {
      ManagerKeptByOthers(config, size, s, e);
    } else if e.ActOnFile? {
      ActionKeepsBlocks(size, s.disk, s.manager.job, s.clock, e.ok);
      var r := FileAction(size, s.disk, s.manager.job, s.clock, e.ok);
      ManagerKeptByJob(config, s, r.0, r.1);
    } else if e.FinishFile? {
      ManagerKeptByFinish(config, s);
    } else if e.Build? {
      ManagerKeptByBuild(config, size, s, e);
    } else if e.PublishDurable? {
      PublishKeeps(config, s);
    }
  }

  lemma PublishKeeps(config: Config, s: System)
    requires s.manager.Publishing? && ManagerInv(config, s)
    ensures var p := s.manager.prepared;
      var shared := if p.write then Publish(s.shared, p.draft.blocks) else s.shared;
      ManagerInv(config, s.(shared := shared, manager := AfterPublish(p.draft.consumed), uncut := s.uncut || p.write))
  {
    var p := s.manager.prepared;
    if p.write {
      forall ip | ip in p.draft.consumed
        ensures Outlasts(s.(shared := Publish(s.shared, p.draft.blocks)), p.draft.blocks, ip)
      {
        assert Outlasts(s, p.draft.blocks, ip);
      }
    }
  }

  lemma NotBothKept(config: Config, size: Size, s: System, e: Event)
    requires SharedInv(config, s) && ManagerInv(config, s) && NotBoth(s) && Enabled(config, size, s, e)
    ensures NotBoth(Next(config, size, s, e))
  {
    match e {
      case Violation(ip, rule) => RecordFrame(config, s, ip, rule);
      case ConsumePending =>
        forall ip | ip in s.shared.pending - ToSet(s.manager.ips)
          ensures ip !in s.manager.ips
        {
          InToSet(s.manager.ips, ip);
        }
      case _ =>
    }
  }

  lemma InToSet(ips: seq<IpAddr>, ip: IpAddr)
    ensures ip in ips <==> ip in ToSet(ips)
  {
  }

  // ---- no gap between the temporary and the durable block ----

  ghost predicate Covered(shared: Shared, ip: IpAddr, until: Instant) {
    || (ip in shared.temporary && shared.temporary[ip] == until)
    || (ip in shared.durable && shared.durable[ip].deadline >= until)
  }

  ghost predicate EntryCovered(s: System, entry: LogEntry) {
    entry.entered && s.clock < entry.Until() ==> Covered(s.shared, entry.ip, entry.Until())
  }

  ghost predicate NoGap(s: System) {
    forall entry | entry in s.log :: EntryCovered(s, entry)
  }

  lemma RecordLogs(config: Config, s: System, ip: IpAddr, rule: ViolationRule)
    requires SharedInv(config, s)
    ensures var (after, recorded) := Record(config, s.shared, ip, rule, s.clock);
      && after.temporary == Deadlines(after.pending)
      && (!recorded.Ignored? ==> Admits(config, s.shared, ip, s.clock) && recorded.tally.at == s.clock)
      && (recorded.EnteredPending? ==>
            && ip in after.pending
            && after.pending[ip].deadline == s.clock + TEMPORARY_SECONDS * SECOND
            && recorded.tally.count >= config.threshold(rule))
  {
    var windows := RecordCases(config, s.shared, ip, rule, s.clock);
  }

  lemma NoGapByRecord(config: Config, s: System, ip: IpAddr, rule: ViolationRule)
    requires SharedInv(config, s) && NoGap(s)
    ensures var r := Record(config, s.shared, ip, rule, s.clock);
      NoGap(s.(shared := r.0, log := Logged(s.log, ip, rule, r.1)))
  {
    RecordFrame(config, s, ip, rule);
    RecordLogs(config, s, ip, rule);
    var r := Record(config, s.shared, ip, rule, s.clock);
    var t := s.(shared := r.0, log := Logged(s.log, ip, rule, r.1));
    forall entry | entry in t.log
      ensures EntryCovered(t, entry)
    {
      if entry in s.log {
        assert EntryCovered(s, entry);
      }
    }
  }

  lemma NoGapByConsume(config: Config, s: System)
    requires SharedInv(config, s) && ManagerInv(config, s) && NoGap(s) && s.manager.Consuming?
    ensures NoGap(s.(shared := Consume(s.shared, s.manager.ips), manager := Resting))
  {
    var t := s.(shared := Consume(s.shared, s.manager.ips), manager := Resting);
    forall entry | entry in t.log
      ensures EntryCovered(t, entry)
    {
      assert EntryCovered(s, entry);
      InToSet(s.manager.ips, entry.ip);
      if entry.ip in s.manager.ips {
        assert Outlasts(s, s.shared.durable, entry.ip);
      }
    }
  }

  lemma NoGapByPublish(config: Config, s: System)
    requires ManagerInv(config, s) && NoGap(s) && s.manager.Publishing? && s.manager.prepared.write
    ensures NoGap(s.(shared := Publish(s.shared, s.manager.prepared.draft.blocks),
                     manager := AfterPublish(s.manager.prepared.draft.consumed), uncut := true))
  {
    var t := s.(shared := Publish(s.shared, s.manager.prepared.draft.blocks),
                manager := AfterPublish(s.manager.prepared.draft.consumed), uncut := true);
    forall entry | entry in t.log
      ensures EntryCovered(t, entry)
    {
      assert EntryCovered(s, entry);
    }
  }

  lemma NoGapKept(config: Config, size: Size, s: System, e: Event)
    requires SharedInv(config, s) && ManagerInv(config, s) && NoGap(s) && Enabled(config, size, s, e)
    ensures NoGap(Next(config, size, s, e))
  {
    if e.Violation? {
      NoGapByRecord(config, s, e.ip, e.rule);
    } else if e.ConsumePending? {
      NoGapByConsume(config, s);
    } else if e.PublishDurable? && s.manager.prepared.write {
      NoGapByPublish(config, s);
    } else if !e.Restart? {
      var t := Next(config, size, s, e);
      LiveStays(config, size, s, e);
      forall entry | entry in s.log
        ensures EntryCovered(t, entry)
      {
        assert EntryCovered(s, entry);
      }
    }
  }

  /** The other steps leave both snapshots as they are, but that lapsed temporary blocks may go. */
  lemma LiveStays(config: Config, size: Size, s: System, e: Event)
    requires SharedInv(config, s) && Enabled(config, size, s, e)
    requires !e.Violation? && !e.ConsumePending? && !e.Restart? && (e.PublishDurable? ==> !s.manager.prepared.write)
    ensures var t := Next(config, size, s, e);
      && t.log == s.log && t.clock >= s.clock && t.shared.durable == s.shared.durable
      && forall ip | ip in s.shared.temporary && s.shared.temporary[ip] > t.clock ::
           ip in t.shared.temporary && t.shared.temporary[ip] == s.shared.temporary[ip]
  {
  }

  // ---- what the log says ----

  /** Counted violations are past ones of watched clients; a client that became pending crossed its threshold. */
  ghost predicate EntryOk(config: Config, s: System, entry: LogEntry) {
    && Watched(config, entry.ip) && entry.tally.at <= s.clock
    && (entry.entered ==> entry.tally.count >= config.threshold(entry.rule))
  }

  ghost predicate LogOk(config: Config, s: System) {
    && (forall entry | entry in s.log :: EntryOk(config, s, entry))
    && (forall i, j | 0 <= i < j < |s.log| :: s.log[i].tally.at <= s.log[j].tally.at)
    && (forall i, j | 0 <= i < j < |s.log| && s.log[i].entered && s.log[i].ip == s.log[j].ip ::
          s.log[i].Until() <= s.log[j].tally.at)
  }

  lemma LogKept(config: Config, size: Size, s: System, e: Event)
    requires SharedInv(config, s) && NoGap(s) && LogOk(config, s) && Enabled(config, size, s, e)
    ensures LogOk(config, Next(config, size, s, e))
  {
    if e.Violation? {
      LogKeptByRecord(config, s, e.ip, e.rule);
    } else if !e.Restart? {
      forall entry | entry in s.log
        ensures EntryOk(config, Next(config, size, s, e), entry)
      {
        assert EntryOk(config, s, entry);
      }
    }
  }

  lemma LogKeptByRecord(config: Config, s: System, ip: IpAddr, rule: ViolationRule)
    requires SharedInv(config, s) && NoGap(s) && LogOk(config, s)
    ensures var r := Record(config, s.shared, ip, rule, s.clock);
      LogOk(config, s.(shared := r.0, log := Logged(s.log, ip, rule, r.1)))
  {
    RecordLogs(config, s, ip, rule);
    var r := Record(config, s.shared, ip, rule, s.clock);
    var t := s.(shared := r.0, log := Logged(s.log, ip, rule, r.1));
    forall entry | entry in t.log
      ensures EntryOk(config, t, entry)
    {
      if entry in s.log {
        assert EntryOk(config, s, entry);
      }
    }
    if !r.1.Ignored? {
      forall i | 0 <= i < |s.log|
        ensures s.log[i].tally.at <= s.clock
      {
        assert EntryOk(config, s, s.log[i]);
      }
      forall i | 0 <= i < |s.log| && s.log[i].entered && s.log[i].ip == ip
        ensures s.log[i].Until() <= s.clock
      {
        assert EntryCovered(s, s.log[i]);
      }
    }
  }

  // ---- the log of each client and rule is a chain of windows ----

  function Tallies(log: seq<LogEntry>, ip: IpAddr, rule: ViolationRule): seq<Tally> {
    if log == [] then []
    else
      var last := log[|log| - 1];
      Tallies(log[..|log| - 1], ip, rule) + (if last.ip == ip && last.rule == rule then [last.tally] else [])
  }

  lemma TalliesAppend(log: seq<LogEntry>, entry: LogEntry, ip: IpAddr, rule: ViolationRule)
    ensures Tallies(log + [entry], ip, rule) ==
      Tallies(log, ip, rule) + (if entry.ip == ip && entry.rule == rule then [entry.tally] else [])
  {
    assert (log + [entry])[..|log|] == log;
  }

  /** The window is the one the last tally left, or a new one opened after that one ran its length. */
  predicate WindowFollows(window: RuleWindow, tallies: seq<Tally>, length: nat) {
    if tallies == [] then window.count == 0
    else
      var last := tallies[|tallies| - 1];
      || window == RuleWindow(last.since, last.count)
      || (window.count == 0 && last.at <= window.since && last.since + length <= window.since)
  }

  predicate SeenBy(tallies: seq<Tally>, at: Instant) {
    tallies != [] ==> tallies[|tallies| - 1].at <= at
  }

  predicate ClientFollows(client: ClientWindow, tallies: seq<Tally>, rule: ViolationRule) {
    && client.Valid()
    && client.rules[rule.Index()].since <= client.lastSeen
    && SeenBy(tallies, client.lastSeen)
    && WindowFollows(client.rules[rule.Index()], tallies, rule.Window())
  }

  predicate TracksOne(shard: Shard, tallies: seq<Tally>, ip: IpAddr, rule: ViolationRule, clock: Instant) {
    && Chain(tallies, rule.Window())
    && if ip in shard then shard[ip].lastSeen <= clock && ClientFollows(shard[ip], tallies, rule)
       else tallies == [] || tallies[|tallies| - 1].at + IDLE_SECONDS * SECOND <= clock
  }

  ghost predicate Tracks(config: Config, s: System)
    requires ConfigOk(config) && WindowsShaped(config, s.shared.windows)
  {
    forall ip: IpAddr, rule: ViolationRule ::
      TracksOne(s.shared.windows[config.shardOf(ip)], Tallies(s.log, ip, rule), ip, rule, s.clock)
  }

  /** The client's windows as the next violation finds them, whether stored or fresh. */
  lemma ClientBefore(shard: Shard, tallies: seq<Tally>, ip: IpAddr, rule: ViolationRule, now: Instant)
    requires TracksOne(shard, tallies, ip, rule, now)
    ensures var client := if ip in shard then shard[ip] else FreshClient(now);
      client.lastSeen <= now && ClientFollows(client, tallies, rule)
  {
    if ip !in shard && tallies != [] {
      ChainInWindow(tallies, rule.Window(), |tallies| - 1);
    }
  }

  lemma ChainExtends(tallies: seq<Tally>, window: RuleWindow, length: nat, now: Instant)
    requires Chain(tallies, length) && WindowFollows(window, tallies, length) && length > 0
    requires window.since <= now && SeenBy(tallies, now)
    ensures var next := CountIn(window, length, now);
      Chain(tallies + [Tally(now, next.since, next.count)], length)
  {
    var next := CountIn(window, length, now);
    var tally := Tally(now, next.since, next.count);
    var all := tallies + [tally];
    if tallies != [] {
      assert Linked(tallies[|tallies| - 1], tally, length);
    }
    forall i | 0 <= i < |all| - 1
      ensures Linked(all[i], all[i + 1], length)
    {
      if i < |tallies| - 1 {
        assert Linked(tallies[i], tallies[i + 1], length);
      }
    }
  }

  lemma CountTracks(shard: Shard, tallies: seq<Tally>, ip: IpAddr, rule: ViolationRule, now: Instant)
    requires TracksOne(shard, tallies, ip, rule, now)
    ensures var client := CountViolation(ClientBeforeCount(shard, ip, now), rule, now);
      var window := client.rules[rule.Index()];
      TracksOne(shard[ip := client], tallies + [Tally(now, window.since, window.count)], ip, rule, now)
  {
    ClientBefore(shard, tallies, ip, rule, now);
    ChainExtends(tallies, ClientBeforeCount(shard, ip, now).rules[rule.Index()], rule.Window(), now);
  }

  function ClientBeforeCount(shard: Shard, ip: IpAddr, now: Instant): (client: ClientWindow)
    requires ip in shard ==> shard[ip].Valid()
    ensures client.Valid()
  {
    if ip in shard then shard[ip] else FreshClient(now)
  }

  /** Counting under one rule leaves the client's other rules as they were. */
  lemma CountTracksOtherRule(shard: Shard, tallies: seq<Tally>, ip: IpAddr, counted: ViolationRule, rule: ViolationRule,
    now: Instant)
    requires TracksOne(shard, tallies, ip, rule, now) && rule != counted
    ensures TracksOne(shard[ip := CountViolation(ClientBeforeCount(shard, ip, now), counted, now)], tallies, ip,
      rule, now)
  {
    ClientBefore(shard, tallies, ip, rule, now);
  }

  lemma TracksByCount(config: Config, s: System, ip: IpAddr, rule: ViolationRule, entered: bool)
    requires SharedInv(config, s) && Tracks(config, s)
    requires CountInShard(config, s.shared, ip, rule, s.clock).1.Some?
    ensures var r := CountInShard(config, s.shared, ip, rule, s.clock);
      && WindowsShaped(config, r.0.windows)
      && Tracks(config, s.(shared := r.0, log := s.log + [LogEntry(ip, rule, r.1.value, entered)]))
  {
    CountKeepsShape(config, s.shared, ip, rule, s.clock);
    var r := CountInShard(config, s.shared, ip, rule, s.clock);
    var entry := LogEntry(ip, rule, r.1.value, entered);
    var before, after := s.shared.windows, r.0.windows;
    var home := config.shardOf(ip);
    forall other: IpAddr, otherRule: ViolationRule
      ensures TracksOne(after[config.shardOf(other)], Tallies(s.log + [entry], other, otherRule), other, otherRule,
        s.clock)
    {
      var shard, tallies := before[config.shardOf(other)], Tallies(s.log, other, otherRule);
      assert TracksOne(shard, tallies, other, otherRule, s.clock);
      TalliesAppend(s.log, entry, other, otherRule);
      if other == ip && otherRule == rule {
        CountTracks(shard, tallies, ip, rule, s.clock);
      } else if other == ip {
        CountTracksOtherRule(shard, tallies, ip, rule, otherRule, s.clock);
      }
    }
  }

  lemma TracksByRecord(config: Config, s: System, ip: IpAddr, rule: ViolationRule)
    requires SharedInv(config, s) && Tracks(config, s)
    ensures var r := Record(config, s.shared, ip, rule, s.clock);
      && WindowsShaped(config, r.0.windows)
      && Tracks(config, s.(shared := r.0, log := Logged(s.log, ip, rule, r.1)))
  {
    var windows := RecordCases(config, s.shared, ip, rule, s.clock);
    var r := Record(config, s.shared, ip, rule, s.clock);
    if !r.1.Ignored? {
      TracksByCount(config, s, ip, rule, r.1.EnteredPending?);
      var counted := s.(shared := s.shared.(windows := windows), log := Logged(s.log, ip, rule, r.1));
      SameTracks(config, counted, s.(shared := r.0, log := Logged(s.log, ip, rule, r.1)));
    }
  }

  lemma SameTracks(config: Config, s: System, t: System)
    requires ConfigOk(config) && WindowsShaped(config, s.shared.windows) && Tracks(config, s)
    requires t.shared.windows == s.shared.windows && t.log == s.log && t.clock >= s.clock
    ensures Tracks(config, t)
  {
    forall ip: IpAddr, rule: ViolationRule
      ensures TracksOne(t.shared.windows[config.shardOf(ip)], Tallies(t.log, ip, rule), ip, rule, t.clock)
    {
      assert TracksOne(s.shared.windows[config.shardOf(ip)], Tallies(s.log, ip, rule), ip, rule, s.clock);
    }
  }

  /** The sweep only evicts clients none of whose windows is still running. */
  lemma SweptIsOver(config: Config, s: System, ip: IpAddr, rule: ViolationRule)
    requires SharedInv(config, s) && Tracks(config, s)
    requires ip in s.shared.windows[config.shardOf(ip)]
    requires ip !in Sweep(s.shared, s.clock).windows[config.shardOf(ip)]
    ensures var client := s.shared.windows[config.shardOf(ip)][ip];
      client.Valid() && Elapsed(s.clock, client.rules[rule.Index()].since) >= rule.Window()
  {
    assert TracksOne(s.shared.windows[config.shardOf(ip)], Tallies(s.log, ip, rule), ip, rule, s.clock);
  }

  lemma TracksBySweep(config: Config, s: System)
    requires SharedInv(config, s) && Tracks(config, s)
    ensures WindowsShaped(config, Sweep(s.shared, s.clock).windows)
    ensures Tracks(config, s.(shared := Sweep(s.shared, s.clock)))
  {
    SweepKeepsShape(config, s.shared.windows, s.clock);
    forall ip: IpAddr, rule: ViolationRule
      ensures TracksOne(SweptShard(s.shared.windows[config.shardOf(ip)], s.clock), Tallies(s.log, ip, rule), ip,
        rule, s.clock)
    {
      assert TracksOne(s.shared.windows[config.shardOf(ip)], Tallies(s.log, ip, rule), ip, rule, s.clock);
    }
  }

  lemma TracksKept(config: Config, size: Size, s: System, e: Event)
    requires SharedInv(config, s) && Tracks(config, s) && Enabled(config, size, s, e)
    requires WindowsShaped(config, Next(config, size, s, e).shared.windows)
    ensures Tracks(config, Next(config, size, s, e))
  {
    if e.Violation? {
      TracksByRecord(config, s, e.ip, e.rule);
    } else if e.SweepWindows? {
      TracksBySweep(config, s);
    } else if e.Restart? {
    } else {
      SameTracks(config, s, Next(config, size, s, e));
    }
  }

  // ---- the state file ----

  /** The file has a row for the client that ends with the block, or, unless `exact`, no earlier. */
  ghost predicate HoldsFor(file: StateFile, ip: IpAddr, block: ActiveBlock, exact: bool) {
    exists i :: 0 <= i < |file.blocks| && RowFor(file.blocks[i], ip, block, exact)
  }

  predicate RowFor(row: BlockRecord, ip: IpAddr, block: ActiveBlock, exact: bool) {
    && Normalize(row.clientIp) == ip
    && (if exact then row.expires == block.record.expires else row.expires >= block.record.expires)
  }

  ghost predicate CoversLive(file: StateFile, blocks: BlockSnapshot, now: Instant, exact: bool) {
    forall ip | ip in blocks && blocks[ip].deadline > now :: HoldsFor(file, ip, blocks[ip], exact)
  }

  /** A whole file that loads. */
  ghost predicate WholeFile(config: Config, size: Size, content: Option<Content>) {
    content.Some? && content.value.Stored? && Loadable(size, content.value.file, config.maxBlocked)
  }

  /** A whole file that loads and has a row for every live block. */
  ghost predicate ContentCovers(config: Config, size: Size, content: Option<Content>, blocks: BlockSnapshot,
    now: Instant, exact: bool)
  {
    WholeFile(config, size, content) && CoversLive(content.value.file, blocks, now, exact)
  }

  predicate FileInUse(stage: Stage) {
    stage.WriteData? || stage.SyncData? || stage.Rename? || stage.SyncDirectory? || stage == Done(true)
  }

  ghost predicate JobFileOk(config: Config, size: Size, job: Job, now: Instant) {
    && (job.stage.Create? || FileInUse(job.stage) ==>
          && (size(job.file) <= MAX_STATE_BYTES ==> Loadable(size, job.file, config.maxBlocked))
          && CoversLive(job.file, job.blocks, now, true))
    && (FileInUse(job.stage) ==> size(job.file) <= MAX_STATE_BYTES)
  }

  ghost predicate DiskInv(config: Config, size: Size, s: System) {
    && ContentCovers(config, size, s.disk.fs.current, s.shared.durable, s.clock, s.uncut)
    && s.doubtful <= Possible(s.disk.fs)
    && (forall content | content in Possible(s.disk.fs) - s.doubtful ::
          ContentCovers(config, size, content, s.shared.durable, s.clock, s.uncut))
    && (s.manager.Writing? ==>
          && JobSound(s.disk, s.manager.job) && JobFileOk(config, size, s.manager.job, s.clock)
          && (s.manager.job.stage == Done(true) ==> s.Synced()))
    && (s.manager.Publishing? && s.manager.prepared.write ==>
          && s.Synced() && Clean(s.disk.fs)
          && ContentCovers(config, size, s.disk.fs.current, s.manager.prepared.draft.blocks, s.clock, true))
  }

  /** The file written from a snapshot covers it. */
  lemma FileCovers(config: Config, size: Size, blocks: BlockSnapshot, now: Instant)
    requires BlocksOk(blocks, config.maxBlocked)
    ensures size(FileOf(blocks, now)) <= MAX_STATE_BYTES ==> Loadable(size, FileOf(blocks, now), config.maxBlocked)
    ensures CoversLive(FileOf(blocks, now), blocks, now, true)
  {
    if size(FileOf(blocks, now)) <= MAX_STATE_BYTES {
      WrittenIsLoadable(size, blocks, now, config.maxBlocked);
    }
    var file := FileOf(blocks, now);
    forall ip | ip in blocks && blocks[ip].deadline > now
      ensures HoldsFor(file, ip, blocks[ip], true)
    {
      assert ip in Live(blocks, now);
      FileHoldsLive(blocks, now, blocks[ip].record);
      var i :| 0 <= i < |file.blocks| && file.blocks[i] == blocks[ip].record;
      assert RowFor(file.blocks[i], ip, blocks[ip], true);
    }
  }

  /** It also covers any map whose live blocks the snapshot keeps. */
  lemma CoversKept(file: StateFile, blocks: BlockSnapshot, durable: BlockSnapshot, now: Instant, exact: bool)
    requires CoversLive(file, blocks, now, true)
    requires forall ip | ip in durable && durable[ip].deadline > now :: ip in blocks && blocks[ip] == durable[ip]
    ensures CoversLive(file, durable, now, exact)
  {
    forall ip | ip in durable && durable[ip].deadline > now
      ensures HoldsFor(file, ip, durable[ip], exact)
    {
      assert HoldsFor(file, ip, blocks[ip], true);
      var i :| 0 <= i < |file.blocks| && RowFor(file.blocks[i], ip, blocks[ip], true);
      assert RowFor(file.blocks[i], ip, durable[ip], exact);
    }
  }

  /** What one file action can do to the state path. */
  lemma ActionEffects(size: Size, disk: Disk, job: Job, now: Instant, ok: bool)
    requires !job.stage.Done? && JobSound(disk, job)
    ensures var (disk', job') := FileAction(size, disk, job, now, ok);
      && (disk'.fs.current == disk.fs.current || (job.stage.Rename? && disk'.fs.current == Some(Stored(job.file))))
      && (job'.stage == Done(true) ==> job.stage.SyncDirectory? && Clean(disk'.fs))
      && (job'.stage != Done(true) ==>
            || Possible(disk'.fs) == Possible(disk.fs)
            || (job.stage.Rename? && Possible(disk'.fs) == Possible(disk.fs) + {Some(Stored(job.file))}))
      && (job'.file == job.file || (job.stage.RemoveOrphan? && job'.stage.Create?))
      && (job'.stage.Create? ==> job.stage.RemoveOrphan? && job'.file == FileOf(job.blocks, now))
      && (FileInUse(job'.stage) ==>
            job'.file == job.file && (FileInUse(job.stage) || (job.stage.Create? && size(job.file) <= MAX_STATE_BYTES)))
  {
  }

  lemma DiskByAction(config: Config, size: Size, s: System, ok: bool)
    requires DiskInv(config, size, s) && ManagerInv(config, s)
    requires s.manager.Writing? && !s.manager.job.stage.Done?
    ensures var r := FileAction(size, s.disk, s.manager.job, s.clock, ok);
      DiskInv(config, size, Acted(s, r.0, r.1))
  {
    var job, durable := s.manager.job, s.shared.durable;
    ActionKeepsSound(size, s.disk, job, s.clock, ok);
    ActionEffects(size, s.disk, job, s.clock, ok);
    var r := FileAction(size, s.disk, job, s.clock, ok);
    FileCovers(config, size, job.blocks, s.clock);
    assert JobFileOk(config, size, r.1, s.clock);
    if FileInUse(job.stage) {
      CoversKept(job.file, job.blocks, durable, s.clock, s.uncut);
      assert ContentCovers(config, size, Some(Stored(job.file)), durable, s.clock, s.uncut);
    }
    assert ContentCovers(config, size, r.0.fs.current, durable, s.clock, s.uncut);
  }

  lemma DiskByPublish(config: Config, size: Size, s: System)
    requires DiskInv(config, size, s) && s.manager.Publishing?
    ensures var p := s.manager.prepared;
      var shared := if p.write then Publish(s.shared, p.draft.blocks) else s.shared;
      DiskInv(config, size,
        s.(shared := shared, manager := AfterPublish(p.draft.consumed), uncut := s.uncut || p.write))
  {
  }

  /** A row that is not cut is restored as it is. */
  lemma RestoredExactly(fs: Fs, wall: u64, now: Instant, blocks: BlockSnapshot, ip: IpAddr)
    requires fs.current.Some? && fs.current.value.Stored?
    requires RestoredFrom(fs.current.value.file.blocks, wall, now, blocks) && ip in blocks
    ensures HoldsFor(fs.current.value.file, ip, blocks[ip], NoneCut(fs, wall))
  {
    var rows := fs.current.value.file.blocks;
    var i :| 0 <= i < |rows| && Restores(rows[i], ip, wall);
    assert blocks[ip] == Restored(rows[i], wall, now);
    assert RowFor(rows[i], ip, blocks[ip], NoneCut(fs, wall));
  }

  lemma DiskByRestart(config: Config, size: Size, fs: Fs, wall: u64, now: Instant, offset: nat, blocks: BlockSnapshot)
    requires Loads(config, size, fs, wall, now, blocks)
    ensures DiskInv(config, size, Started(fs, wall, now, offset, blocks))
  {
    forall ip | ip in blocks && blocks[ip].deadline > now
      ensures HoldsFor(fs.current.value.file, ip, blocks[ip], NoneCut(fs, wall))
    {
      RestoredExactly(fs, wall, now, blocks, ip);
    }
  }

  lemma DiskByOther(config: Config, size: Size, s: System, t: System)
    requires DiskInv(config, size, s)
    requires t.disk == s.disk && t.doubtful == s.doubtful && t.uncut == s.uncut
    requires t.shared.durable == s.shared.durable && t.clock >= s.clock
    requires t.manager == s.manager || t.manager.Resting? || t.manager.Taken?
      || (t.manager.Writing? && t.manager.job.stage.RemoveOrphan?)
      || (t.manager.Publishing? && (t.manager.prepared.write ==>
            && s.manager.Writing? && s.manager.job.stage == Done(true)
            && s.manager.job.blocks == t.manager.prepared.draft.blocks))
    ensures DiskInv(config, size, t)
  {
  }

  lemma DiskKept(config: Config, size: Size, s: System, e: Event)
    requires SharedInv(config, s) && ManagerInv(config, s) && DiskInv(config, size, s) && Enabled(config, size, s, e)
    ensures DiskInv(config, size, Next(config, size, s, e))
  {
    if e.ActOnFile? {
      DiskByAction(config, size, s, e.ok);
    } else if e.PublishDurable? {
      DiskByPublish(config, size, s);
    } else if e.Restart? {
      DiskByRestart(config, size, Created(size, e.left, e.tries), e.wall, e.now, e.offset, e.blocks);
    } else {
      DiskKeptByOther(config, size, s, e);
    }
  }

  lemma DiskKeptByOther(config: Config, size: Size, s: System, e: Event)
    requires SharedInv(config, s) && DiskInv(config, size, s) && ManagerInv(config, s) && Enabled(config, size, s, e)
    requires !e.ActOnFile? && !e.PublishDurable? && !e.Restart?
    ensures DiskInv(config, size, Next(config, size, s, e))
  {
    var t := Next(config, size, s, e);
    if e.Violation? {
      RecordFrame(config, s, e.ip, e.rule);
    }
    DiskByOther(config, size, s, t);
  }

  // ---- temporary files ----

  /** Temporary files this process has made and not removed. */
  function OwnTemps(s: System): set<TempName> {
    s.disk.fs.temps.Keys - s.foreign
  }

  function Remembered(disk: Disk): set<TempName> {
    if disk.cleanupTemp.Some? then {disk.cleanupTemp.value} else {}
  }

  predicate TempInUse(stage: Stage) {
    stage.WriteData? || stage.SyncData? || stage.Rename? || stage.RemoveTemp?
  }

  /** Between transactions every temporary is remembered; while one is in use nothing is. */
  ghost predicate TempInv(s: System) {
    && s.foreign <= s.disk.fs.temps.Keys
    && Remembered(s.disk) !! s.foreign
    && if s.manager.Writing? && TempInUse(s.manager.job.stage) then
         && s.disk.cleanupTemp.None? && s.manager.job.temp !in s.foreign
         && OwnTemps(s) <= {s.manager.job.temp}
       else
         && OwnTemps(s) <= Remembered(s.disk)
         && (s.manager.Writing? && (s.manager.job.stage.Create? || s.manager.job.stage.SyncDirectory?) ==>
               s.disk.cleanupTemp.None?)
         && (s.manager.Writing? && s.manager.job.stage.SyncDirectory? ==> s.manager.job.temp !in s.foreign)
  }

  lemma TempByAction(size: Size, s: System, ok: bool)
    requires TempInv(s) && s.manager.Writing? && !s.manager.job.stage.Done?
    ensures var r := FileAction(size, s.disk, s.manager.job, s.clock, ok);
      TempInv(Acted(s, r.0, r.1))
  {
  }

  lemma TempKept(config: Config, size: Size, s: System, e: Event)
    requires SharedInv(config, s) && TempInv(s) && Enabled(config, size, s, e)
    ensures TempInv(Next(config, size, s, e))
  {
    if e.ActOnFile? {
      TempByAction(size, s, e.ok);
    }
  }

  // ---- clocks ----

  ghost predicate AllAligned(blocks: BlockSnapshot, offset: nat) {
    forall ip | ip in blocks :: Aligned(blocks[ip], offset)
  }

  /** While wall readings agree with the monotonic clock, recorded expiries are the deadlines to the second. */
  ghost predicate ClockInv(s: System) {
    s.inStep ==>
      && AllAligned(s.shared.durable, s.offset)
      && (s.manager.Writing? || (s.manager.Publishing? && s.manager.prepared.write) ==>
            AllAligned(s.manager.prepared.draft.blocks, s.offset))
  }

  lemma ClockByBuild(config: Config, s: System, wall: Option<u64>)
    requires SharedInv(config, s) && NotBoth(s) && s.manager.Taken? && InPending(s, s.manager.batch)
    requires AllAligned(s.shared.durable, s.offset) && wall.GetOr(0) == WallAt(s.clock, s.offset)
    requires Prepare(config, s.shared.durable, s.manager.batch, s.clock, wall, s.manager.force).Ok?
    ensures var p := Prepare(config, s.shared.durable, s.manager.batch, s.clock, wall, s.manager.force).value;
      p.write ==> AllAligned(p.draft.blocks, s.offset)
  {
    var batch, now := s.manager.batch, s.clock;
    assert ProposalsOk(batch);
    PrepareTransacts(config, s.shared.durable, batch, now, wall, s.manager.force);
    var p := Prepare(config, s.shared.durable, batch, now, wall, s.manager.force).value;
    if p.write {
      forall ip | ip in p.draft.blocks
        ensures Aligned(p.draft.blocks[ip], s.offset)
      {
        if ip !in Retained(s.shared.durable, now) {
          var i: nat :| Proposed(batch, i, ip, now) && p.draft.blocks[ip] == NewBlock(batch[i], now, wall.GetOr(0));
          NewBlockAligned(p.draft.blocks[ip].record, now, s.offset);
        }
      }
    }
  }

  lemma LoadedAligned(rows: seq<BlockRecord>, wall: u64, now: Instant, offset: nat, blocks: BlockSnapshot)
    requires RestoredFrom(rows, wall, now, blocks)
    ensures wall == WallAt(now, offset) ==> AllAligned(blocks, offset)
  {
    forall ip | ip in blocks && wall == WallAt(now, offset)
      ensures Aligned(blocks[ip], offset)
    {
      var i :| 0 <= i < |rows| && Restores(rows[i], ip, wall);
      RestoredAligned(rows[i], wall, now, offset);
    }
  }

  lemma ClockKept(config: Config, size: Size, s: System, e: Event)
    requires SharedInv(config, s) && ManagerInv(config, s) && NotBoth(s) && ClockInv(s) && Enabled(config, size, s, e)
    ensures ClockInv(Next(config, size, s, e))
  {
    match e {
      case Violation(ip, rule) => RecordFrame(config, s, ip, rule);
      case Build(wall, _) =>
        if Next(config, size, s, e).inStep
          && Prepare(config, s.shared.durable, s.manager.batch, s.clock, wall, s.manager.force).Ok? {
          ClockByBuild(config, s, wall);
        }
      case Restart(_, left, tries, wall, now, offset, blocks) =>
        LoadedAligned(Created(size, left, tries).current.value.file.blocks, wall, now, offset, blocks);
      case _ =>
    }
  }

  // ---- every reachable state ----

  ghost predicate Invariant(config: Config, size: Size, s: System) {
    && SharedInv(config, s)
    && ManagerInv(config, s)
    && NotBoth(s)
    && NoGap(s)
    && LogOk(config, s)
    && Tracks(config, s)
    && DiskInv(config, size, s)
    && TempInv(s)
    && ClockInv(s)
  }

  /** Whatever happens next, the invariant is kept. */
  lemma InvariantKept(config: Config, size: Size, s: System, e: Event)
    requires Invariant(config, size, s) && Enabled(config, size, s, e)
    ensures Invariant(config, size, Next(config, size, s, e))
  {
    SharedKept(config, size, s, e);
    ManagerKept(config, size, s, e);
    NotBothKept(config, size, s, e);
    NoGapKept(config, size, s, e);
    LogKept(config, size, s, e);
    TracksKept(config, size, s, e);
    DiskKept(config, size, s, e);
    TempKept(config, size, s, e);
    ClockKept(config, size, s, e);
  }

  lemma EmptyTables(config: Config, s: System)
    requires ConfigOk(config) && s.shared.windows == EmptyShards() && s.shared.pending == map[] && s.log == []
    requires s.shared.temporary == map[] && BlocksOk(s.shared.durable, config.maxBlocked)
    ensures SharedInv(config, s) && NotBoth(s)
    ensures NoGap(s) && LogOk(config, s) && Tracks(config, s)
  {
  }

  /** It holds when the process starts with a state file it can load. */
  lemma InvariantAtStart(config: Config, size: Size, fs: Fs, wall: u64, now: Instant, offset: nat,
      blocks: BlockSnapshot)
    requires ConfigOk(config) && Loads(config, size, fs, wall, now, blocks)
    ensures Invariant(config, size, Started(fs, wall, now, offset, blocks))
  {
    var file := fs.current.value.file;
    RestoredBlocksOk(size, file, config.maxBlocked, wall, now, blocks);
    EmptyTables(config, Started(fs, wall, now, offset, blocks));
    DiskByRestart(config, size, fs, wall, now, offset, blocks);
    LoadedAligned(file.blocks, wall, now, offset, blocks);
  }

  ghost predicate Reaches(config: Config, size: Size, s: System, events: seq<Event>, t: System)
    decreases |events|
  {
    if events == [] then s == t
    else
      && ConfigOk(config) && WindowsShaped(config, s.shared.windows)
      && Enabled(config, size, s, events[0])
      && Reaches(config, size, Next(config, size, s, events[0]), events[1..], t)
  }

  /** The invariant holds in every state of every run. */
  lemma {:induction false} InvariantAlways(config: Config, size: Size, s: System, events: seq<Event>, t: System)
    requires Invariant(config, size, s) && Reaches(config, size, s, events, t)
    ensures Invariant(config, size, t)
    decreases |events|
  {
    if events != [] {
      InvariantKept(config, size, s, events[0]);
      InvariantAlways(config, size, Next(config, size, s, events[0]), events[1..], t);
    }
  }

  /** A run goes on by one step. */
  lemma {:induction false} ReachesThen(config: Config, size: Size, s: System, events: seq<Event>, m: System, e: Event)
    requires Reaches(config, size, s, events, m)
    requires ConfigOk(config) && WindowsShaped(config, m.shared.windows) && Enabled(config, size, m, e)
    ensures Reaches(config, size, s, events + [e], Next(config, size, m, e))
    decreases |events|
  {
    if events == [] {
      assert [e][1..] == [];
    } else {
      ReachesThen(config, size, Next(config, size, s, events[0]), events[1..], m, e);
      assert (events + [e])[1..] == events[1..] + [e];
    }
  }

  // ---- runs with all their states ----

  ghost predicate Step(config: Config, size: Size, s: System, e: Event, t: System) {
    && ConfigOk(config) && WindowsShaped(config, s.shared.windows) && Enabled(config, size, s, e)
    && t == Next(config, size, s, e)
  }

  ghost predicate IsRun(config: Config, size: Size, states: seq<System>, events: seq<Event>) {
    && |states| == |events| + 1
    && forall i | 0 <= i < |events| :: Step(config, size, states[i], events[i], states[i + 1])
  }

  lemma {:induction false} RunReaches(config: Config, size: Size, states: seq<System>, events: seq<Event>)
    requires IsRun(config, size, states, events)
    ensures Reaches(config, size, states[0], events, states[|events|])
    decreases |events|
  {
    if events != [] {
      assert Step(config, size, states[0], events[0], states[1]);
      forall i | 0 <= i < |events[1..]|
        ensures Step(config, size, states[1..][i], events[1..][i], states[1..][i + 1])
      {
        assert Step(config, size, states[i + 1], events[i + 1], states[i + 2]);
      }
      RunReaches(config, size, states[1..], events[1..]);
    }
  }

  lemma {:induction false} ReachesByRun(config: Config, size: Size, s: System, events: seq<Event>, t: System)
    returns (states: seq<System>)
    requires Reaches(config, size, s, events, t)
    ensures IsRun(config, size, states, events) && states[0] == s && states[|events|] == t
    decreases |events|
  {
    if events == [] {
      states := [s];
    } else {
      var rest := ReachesByRun(config, size, Next(config, size, s, events[0]), events[1..], t);
      states := [s] + rest;
      forall i | 0 <= i < |events|
        ensures Step(config, size, states[i], events[i], states[i + 1])
      {
        assert i > 0 ==> Step(config, size, rest[i - 1], events[1..][i - 1], rest[i]);
      }
    }
  }

  lemma RunReachesEach(config: Config, size: Size, states: seq<System>, events: seq<Event>, n: nat)
    requires IsRun(config, size, states, events) && n <= |events|
    ensures Reaches(config, size, states[0], events[..n], states[n])
  {
    var run, steps := states[..n + 1], events[..n];
    forall i | 0 <= i < n
      ensures Step(config, size, run[i], steps[i], run[i + 1])
    {
      assert Step(config, size, states[i], events[i], states[i + 1]);
    }
    RunReaches(config, size, run, steps);
  }
}
