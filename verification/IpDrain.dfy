/**
The shutdown drain (src/security/ip_blocking.rs): rounds of expiring and committing until nothing is
pending, a commit fails or the table is full.  The method is proved to do exactly these rounds; the
theorems say that they end, that they lose no entry, and what is on disk afterwards.
*/
module IpDrain {
  import opened Wrappers
  import opened ViolationWindows
  import opened Network
  import opened BlockFile
  import opened IpBlocking
  import opened IpTransaction

  /** One round of the drain, as the outside world times it. */
  datatype Round = Round(expireAt: Instant, moment: Moment)

  type World = nat -> Round

  ghost predicate InOrder(world: World) {
    forall i: nat ::
      world(i).expireAt <= world(i).moment.takenAt <= world(i).moment.builtAt <= world(i + 1).expireAt
  }

  datatype DrainEnd = Drained | CommitFailed(error: PersistError) | TableFull

  // ---- the rounds as a specification ----

  type Place = (Shared, Disk)

  /** Expire, then commit the batch. */
  function DrainRound(config: Config, size: Size, s: Shared, disk: Disk, round: Round, batch: seq<Proposal>)
    : (Shared, Disk, Result<(), PersistError>)
  {
    Persisted(config, size, Expire(s, round.expireAt), disk, batch, false, round.moment)
  }

  ghost predicate HasWork(config: Config, s: Shared, round: Round, batch: seq<Proposal>) {
    var pending := Unexpired(s.pending, round.expireAt);
    pending != map[] && IsBatch(config, pending, round.moment.takenAt, batch)
  }

  /** A round that found work leads from one place to the next, and says how the drain ends, if it does. */
  ghost predicate RoundDone(config: Config, size: Size, before: Place, round: Round, batch: seq<Proposal>, after: Place,
    end: Option<DrainEnd>)
  {
    var (t, disk, result) := DrainRound(config, size, before.0, before.1, round, batch);
    && HasWork(config, before.0, round, batch)
    && after == (t, disk)
    && end == (if result.Err? then Some(CommitFailed(result.error))
               else if |t.durable| >= config.maxBlocked then Some(TableFull) else None)
  }

  /** The round between two places of the trail; only the last one may end the drain. */
  ghost predicate RoundAt(config: Config, size: Size, world: World, trail: seq<Place>, batches: seq<seq<Proposal>>,
    end: Option<DrainEnd>, k: nat)
    requires k < |batches| == |trail| - 1
  {
    RoundDone(config, size, trail[k], world(k), batches[k], trail[k + 1], if k == |batches| - 1 then end else None)
  }

  /** Every round so far found work, and all but perhaps the last let the drain go on. */
  ghost predicate RoundsDone(config: Config, size: Size, world: World, trail: seq<Place>, batches: seq<seq<Proposal>>,
    end: Option<DrainEnd>)
  {
    && |trail| == |batches| + 1
    && (batches == [] ==> end.None?)
    && forall k: nat | k < |batches| :: RoundAt(config, size, world, trail, batches, end, k)
  }

  /**
  A drain from one place to another: the trail records where each round led.  It ends after a round
  that says so, or when nothing is left to do.
  */
  ghost predicate DrainedBy(config: Config, size: Size, world: World, trail: seq<Place>, batches: seq<seq<Proposal>>,
    from: Place, to: Place, end: DrainEnd)
  {
    && RoundsDone(config, size, world, trail, batches, if end.Drained? then None else Some(end))
    && trail[0] == from
    && var last := trail[|batches|];
       if end.Drained? then to == (Expire(last.0, world(|batches|).expireAt), last.1) && to.0.pending == map[]
       else to == last
  }

  // ---- it ends: every successful round leaves fewer entries ----

  lemma LiveSubset(config: Config, pending: map<IpAddr, PendingBlock>, consumed: seq<IpAddr>, batch: seq<Proposal>,
    expireAt: Instant, takenAt: Instant, builtAt: Instant, next: Instant)
    requires expireAt <= takenAt <= builtAt <= next
    requires Unexpired(pending, expireAt) == pending && pending != map[]
    requires config.batchSize >= 1 && IsBatch(config, pending, takenAt, batch)
    requires forall ip | ip in consumed :: exists i: nat :: Proposed(batch, i, ip, builtAt)
    requires FirstLive(batch, builtAt).Some? ==> consumed != []
    ensures |Unexpired(pending - ToSet(consumed), next)| < |pending|
  {
    var left := Unexpired(pending - ToSet(consumed), next);
    var gone: IpAddr;
    if consumed != [] {
      gone := consumed[0];
      assert gone in consumed;
    } else if batch != [] {
      gone := batch[0].0;
      FirstLiveFinds(batch, builtAt);
    } else {
      gone :| gone in pending;
      assert gone !in Unexpired(pending, takenAt);
    }
    assert gone in pending && gone !in left;
    SubsetSize(left.Keys, pending.Keys - {gone});
  }

  ghost predicate PendingFine(pending: map<IpAddr, PendingBlock>) {
    forall ip | ip in pending :: Normalized(ip) && pending[ip].count > 0
  }

  /** A successful round leaves fewer entries for the next one. */
  lemma RoundShrinks(config: Config, size: Size, s: Shared, disk: Disk, round: Round, batch: seq<Proposal>,
      next: Instant)
    requires round.expireAt <= round.moment.takenAt <= round.moment.builtAt <= next
    requires config.batchSize >= 1 && BlocksOk(s.durable, config.maxBlocked) && PendingFine(s.pending)
    requires HasWork(config, s, round, batch)
    ensures var r := DrainRound(config, size, s, disk, round, batch);
      r.2.Ok? ==> |Unexpired(r.0.pending, next)| < |Unexpired(s.pending, round.expireAt)|
  {
    var m, e := round.moment, Expire(s, round.expireAt);
    BatchOk(config, e.pending, m.takenAt, batch);
    if DrainRound(config, size, s, disk, round, batch).2.Ok? {
      PrepareTransacts(config, s.durable, batch, m.builtAt, m.wall, false);
      if FirstLive(batch, m.builtAt).Some? {
        SuccessConsumes(config, s.durable, batch, m.builtAt, m.wall, false);
      }
      var prepared := Prepare(config, s.durable, batch, m.builtAt, m.wall, false).value;
      CommittedParts(e, prepared);
      assert Unexpired(e.pending, round.expireAt) == e.pending;
      LiveSubset(config, e.pending, prepared.draft.consumed, batch, round.expireAt, m.takenAt, m.builtAt, next);
    }
  }

  // ---- no entry is lost ----

  predicate Lapsed(world: World, k: nat, entry: PendingBlock) {
    entry.deadline <= world(k).expireAt
  }

  /** A block for the client after `n` rounds: in the table, unless a later round found it expired. */
  ghost predicate Kept(world: World, k: nat, n: nat, block: ActiveBlock, ip: IpAddr, durable: BlockSnapshot) {
    || (ip in durable && durable[ip] == block)
    || (exists j: nat :: k < j < n && Outlived(world, j, block))
  }

  predicate Outlived(world: World, j: nat, block: ActiveBlock) {
    block.deadline <= world(j).moment.builtAt
  }

  /** Round `k` gave the client a block of a day, or found one that was live from the beginning. */
  ghost predicate BlockedIn(world: World, k: nat, before: BlockSnapshot, ip: IpAddr, entry: PendingBlock,
      block: ActiveBlock)
  {
    && block.deadline > world(k).moment.builtAt
    && ((ip in before && before[ip] == block)
        || (block.deadline == world(k).moment.builtAt + BLOCK_SECONDS * SECOND
            && (entry.deadline <= world(0).expireAt + TEMPORARY_SECONDS * SECOND ==> block.deadline >= entry.deadline)))
  }

  /** What became of a pending entry after `n` rounds and `looks` expiries. */
  ghost predicate Accounted(config: Config, world: World, n: nat, looks: nat, before: BlockSnapshot, ip: IpAddr,
    entry: PendingBlock, t: Shared)
  {
    || (ip in t.pending && t.pending[ip] == entry)
    || (exists k: nat :: k < looks && Lapsed(world, k, entry))
    || Allowed(config, ip)
    || (exists k: nat, block ::
          k < n && BlockedIn(world, k, before, ip, entry, block) && Kept(world, k, n, block, ip, t.durable))
  }

  /** What every round keeps. */
  ghost predicate DrainInv(config: Config, world: World, n: nat, s: Shared, t: Shared) {
    && BlocksOk(t.durable, config.maxBlocked)
    && (forall ip | ip in t.pending :: ip in s.pending && t.pending[ip] == s.pending[ip])
    && (forall ip | ip in t.pending && ip in t.durable :: ip in s.durable && t.durable[ip] == s.durable[ip])
    && (forall ip | ip in s.pending :: Accounted(config, world, n, n, s.durable, ip, s.pending[ip], t))
  }

  lemma {:induction false} ClockRuns(world: World, n: nat)
    requires InOrder(world)
    ensures world(0).expireAt <= world(n).expireAt
    decreases n
  {
    if n > 0 {
      ClockRuns(world, n - 1);
      assert world(n - 1 + 1) == world(n);
    }
  }

  /** What one round, committed or not, does to one client. */
  ghost predicate RoundStep(config: Config, s: Shared, round: Round, t: Shared, ip: IpAddr) {
    && (ip in t.pending ==> ip in s.pending && t.pending[ip] == s.pending[ip])
    && (ip in s.pending && ip !in t.pending ==>
          || s.pending[ip].deadline <= round.expireAt
          || Allowed(config, ip)
          || DurableLive(t, ip, round.moment.builtAt))
    && (ip in s.durable && s.durable[ip].deadline > round.moment.builtAt ==>
          ip in t.durable && t.durable[ip] == s.durable[ip])
    && (ip in t.durable && !(ip in s.durable && t.durable[ip] == s.durable[ip]) ==>
          && ip in s.pending && ip !in t.pending
          && t.durable[ip].deadline == round.moment.builtAt + BLOCK_SECONDS * SECOND)
  }

  ghost predicate RoundFine(config: Config, s: Shared, round: Round, t: Shared) {
    BlocksOk(t.durable, config.maxBlocked) && forall ip: IpAddr :: RoundStep(config, s, round, t, ip)
  }

  /** A round only expires, or it also commits. */
  lemma RoundOutcome(config: Config, size: Size, s: Shared, disk: Disk, round: Round, batch: seq<Proposal>)
    ensures var r := DrainRound(config, size, s, disk, round, batch);
      var e := Expire(s, round.expireAt);
      var result := Prepare(config, s.durable, batch, round.moment.builtAt, round.moment.wall, false);
      && (r.2.Err? ==> r.0 == e)
      && (r.2.Ok? ==> result.Ok? && r.0 == Committed(e, result.value))
  {
  }

  lemma CommitStep(config: Config, s: Shared, round: Round, batch: seq<Proposal>, ip: IpAddr)
    requires BlocksOk(s.durable, config.maxBlocked) && PendingFine(s.pending) && HasWork(config, s, round, batch)
    requires Prepare(config, s.durable, batch, round.moment.builtAt, round.moment.wall, false).Ok?
    ensures var prepared := Prepare(config, s.durable, batch, round.moment.builtAt, round.moment.wall, false).value;
      var t := Committed(Expire(s, round.expireAt), prepared);
      BlocksOk(t.durable, config.maxBlocked) && RoundStep(config, s, round, t, ip)
  {
    var m, e := round.moment, Expire(s, round.expireAt);
    BatchOk(config, e.pending, m.takenAt, batch);
    CommitIsTransaction(config, e, batch, m.builtAt, m.wall, false, ip);
    ConsumedOrNot(Prepare(config, s.durable, batch, m.builtAt, m.wall, false).value.draft.consumed, ip);
  }

  lemma RoundIsFine(config: Config, size: Size, s: Shared, disk: Disk, round: Round, batch: seq<Proposal>)
    requires BlocksOk(s.durable, config.maxBlocked) && PendingFine(s.pending) && HasWork(config, s, round, batch)
    ensures RoundFine(config, s, round, DrainRound(config, size, s, disk, round, batch).0)
  {
    var r := DrainRound(config, size, s, disk, round, batch);
    RoundOutcome(config, size, s, disk, round, batch);
    if r.2.Ok? {
      var some: IpAddr := V4(0);
      CommitStep(config, s, round, batch, some);
      forall ip: IpAddr
        ensures RoundStep(config, s, round, r.0, ip)
      {
        CommitStep(config, s, round, batch, ip);
      }
    }
  }

  lemma ConsumedOrNot(consumed: seq<IpAddr>, ip: IpAddr)
    ensures ip in ToSet(consumed) <==> ip in consumed
  {
  }

  lemma KeptNext(world: World, k: nat, n: nat, block: ActiveBlock, ip: IpAddr, config: Config, s: Shared, t: Shared)
    requires k < n && Kept(world, k, n, block, ip, s.durable) && RoundStep(config, s, world(n), t, ip)
    ensures Kept(world, k, n + 1, block, ip, t.durable)
  {
    if !(ip in t.durable && t.durable[ip] == block) && ip in s.durable && s.durable[ip] == block {
      assert Outlived(world, n, block);
    }
  }

  lemma AccountedNext(config: Config, world: World, n: nat, before: BlockSnapshot, ip: IpAddr, entry: PendingBlock,
    s: Shared, t: Shared)
    requires InOrder(world) && RoundStep(config, s, world(n), t, ip)
    requires Accounted(config, world, n, n, before, ip, entry, s)
    requires ip in s.pending && ip in s.durable ==> ip in before && s.durable[ip] == before[ip]
    ensures Accounted(config, world, n + 1, n + 1, before, ip, entry, t)
  {
    if ip in s.pending && s.pending[ip] == entry {
      if ip !in t.pending && !Lapsed(world, n, entry) && !Allowed(config, ip) {
        ClockRuns(world, n);
        assert InOrder(world) ==> world(n).expireAt <= world(n).moment.builtAt;
        assert BlockedIn(world, n, before, ip, entry, t.durable[ip]);
        assert Kept(world, n, n + 1, t.durable[ip], ip, t.durable);
      }
    } else if k: nat :| k < n && Lapsed(world, k, entry) {
      assert k < n + 1;
    } else if !Allowed(config, ip) {
      var k: nat, block :|
        k < n && BlockedIn(world, k, before, ip, entry, block) && Kept(world, k, n, block, ip, s.durable);
      KeptNext(world, k, n, block, ip, config, s, t);
    }
  }

  lemma DrainInvNext(config: Config, world: World, n: nat, start: Shared, s: Shared, t: Shared)
    requires InOrder(world) && DrainInv(config, world, n, start, s) && RoundFine(config, s, world(n), t)
    ensures DrainInv(config, world, n + 1, start, t)
  {
    forall ip: IpAddr
      ensures ip in t.pending ==> ip in s.pending && t.pending[ip] == s.pending[ip]
      ensures ip in t.pending && ip in t.durable ==> ip in s.durable && t.durable[ip] == s.durable[ip]
    {
      assert RoundStep(config, s, world(n), t, ip);
    }
    forall ip | ip in start.pending
      ensures Accounted(config, world, n + 1, n + 1, start.durable, ip, start.pending[ip], t)
    {
      assert RoundStep(config, s, world(n), t, ip);
      AccountedNext(config, world, n, start.durable, ip, start.pending[ip], s, t);
    }
  }

  lemma {:induction false} RoundsKeep(config: Config, size: Size, world: World, trail: seq<Place>,
    batches: seq<seq<Proposal>>, end: Option<DrainEnd>, n: nat)
    requires InOrder(world) && RoundsDone(config, size, world, trail, batches, end) && n <= |batches|
    requires PendingFine(trail[0].0.pending) && BlocksOk(trail[0].0.durable, config.maxBlocked)
    ensures DrainInv(config, world, n, trail[0].0, trail[n].0)
    decreases n
  {
    if n > 0 {
      var k := n - 1;
      RoundsKeep(config, size, world, trail, batches, end, k);
      assert RoundAt(config, size, world, trail, batches, end, k);
      RoundIsFine(config, size, trail[k].0, trail[k].1, world(k), batches[k]);
      DrainInvNext(config, world, k, trail[0].0, trail[k].0, trail[n].0);
    }
  }

  /** A drain that finds nothing left has looked once more than it has run rounds. */
  function Looks(batches: seq<seq<Proposal>>, end: DrainEnd): nat {
    if end.Drained? then |batches| + 1 else |batches|
  }

  /**
  The drain loses nothing: every entry is still pending, or its time had passed when a round looked,
  or its client is allowed, or a round gave its client a durable block of a day (or found one that was
  live from the beginning), which is in the table until it expires.
  */
  lemma DrainLosesNothing(config: Config, size: Size, world: World, trail: seq<Place>, batches: seq<seq<Proposal>>,
    from: Place, to: Place, end: DrainEnd, ip: IpAddr)
    requires InOrder(world) && PendingFine(from.0.pending) && BlocksOk(from.0.durable, config.maxBlocked)
    requires DrainedBy(config, size, world, trail, batches, from, to, end)
    requires ip in from.0.pending
    ensures Accounted(config, world, |batches|, Looks(batches, end), from.0.durable, ip, from.0.pending[ip], to.0)
  {
    var n := |batches|;
    RoundsKeep(config, size, world, trail, batches, if end.Drained? then None else Some(end), n);
    LastExpiry(config, world, n, from.0.durable, ip, from.0.pending[ip], trail[n].0);
  }

  lemma LastExpiry(config: Config, world: World, n: nat, before: BlockSnapshot, ip: IpAddr, entry: PendingBlock,
      t: Shared)
    requires Accounted(config, world, n, n, before, ip, entry, t)
    ensures Accounted(config, world, n, n + 1, before, ip, entry, Expire(t, world(n).expireAt))
  {
    assert ip in t.pending && t.pending[ip] == entry && ip !in Expire(t, world(n).expireAt).pending ==>
      Lapsed(world, n, entry);
  }

  // ---- what is on disk ----

  /** The settled file is the one written for this table, or neither has changed. */
  ghost predicate OnDiskFor(world: World, n: nat, before: BlockSnapshot, beforeSettled: Option<Content>,
    durable: BlockSnapshot, settled: Option<Content>)
  {
    || (durable == before && settled == beforeSettled)
    || (exists k: nat :: k < n && WrittenIn(world, k, durable, settled))
  }

  predicate WrittenIn(world: World, k: nat, durable: BlockSnapshot, settled: Option<Content>) {
    settled == Some(Stored(FileOf(durable, world(k).moment.writtenAt)))
  }

  lemma RoundOnDisk(config: Config, size: Size, s: Shared, disk: Disk, round: Round, batch: seq<Proposal>)
    ensures var r := DrainRound(config, size, s, disk, round, batch);
      || (r.0.durable == s.durable && r.1.fs.settled == disk.fs.settled)
      || r.1.fs.settled == Some(Stored(FileOf(r.0.durable, round.moment.writtenAt)))
  {
    var m, e := round.moment, Expire(s, round.expireAt);
    var result := Prepare(config, s.durable, batch, m.builtAt, m.wall, false);
    if result.Ok? {
      CommittedParts(e, result.value);
      if result.value.write {
        var job := StartJob(result.value.draft.blocks, m.temp);
        JobCommits(size, disk, job, m.writtenAt, m.outcomes);
        FailedJobSettlesNothing(size, disk, job, m.writtenAt, m.outcomes);
      }
    }
  }

  /** What is durable in memory when the drain ends is settled on disk, however it ends. */
  lemma {:induction false} RoundsOnDisk(config: Config, size: Size, world: World, trail: seq<Place>,
    batches: seq<seq<Proposal>>, end: Option<DrainEnd>, n: nat)
    requires RoundsDone(config, size, world, trail, batches, end) && n <= |batches|
    ensures OnDiskFor(world, n, trail[0].0.durable, trail[0].1.fs.settled, trail[n].0.durable, trail[n].1.fs.settled)
    decreases n
  {
    if n > 0 {
      var k := n - 1;
      RoundsOnDisk(config, size, world, trail, batches, end, k);
      assert RoundAt(config, size, world, trail, batches, end, k);
      RoundOnDisk(config, size, trail[k].0, trail[k].1, world(k), batches[k]);
      if trail[n].1.fs.settled == Some(Stored(FileOf(trail[n].0.durable, world(k).moment.writtenAt))) {
        assert WrittenIn(world, k, trail[n].0.durable, trail[n].1.fs.settled);
      }
    }
  }

  /** Every pending entry is accounted for, and what is durable in memory is settled on disk. */
  ghost predicate NothingLost(config: Config, world: World, n: nat, looks: nat, from: Place, to: Place) {
    && (forall ip | ip in from.0.pending ::
          Accounted(config, world, n, looks, from.0.durable, ip, from.0.pending[ip], to.0))
    && OnDiskFor(world, n, from.0.durable, from.1.fs.settled, to.0.durable, to.1.fs.settled)
  }

  lemma DrainAccounts(config: Config, size: Size, world: World, trail: seq<Place>, batches: seq<seq<Proposal>>,
    from: Place, to: Place, end: DrainEnd)
    requires InOrder(world) && PendingFine(from.0.pending) && BlocksOk(from.0.durable, config.maxBlocked)
    requires DrainedBy(config, size, world, trail, batches, from, to, end)
    ensures NothingLost(config, world, |batches|, Looks(batches, end), from, to)
  {
    RoundsOnDisk(config, size, world, trail, batches, if end.Drained? then None else Some(end), |batches|);
    forall ip | ip in from.0.pending
      ensures Accounted(config, world, |batches|, Looks(batches, end), from.0.durable, ip, from.0.pending[ip], to.0)
    {
      DrainLosesNothing(config, size, world, trail, batches, from, to, end, ip);
    }
  }

  // ---- the drain itself ----

  lemma StepKeepsFine(config: Config, s: Shared, round: Round, t: Shared)
    requires PendingFine(s.pending) && RoundFine(config, s, round, t)
    ensures PendingFine(t.pending)
  {
    forall ip | ip in t.pending
      ensures Normalized(ip) && t.pending[ip].count > 0
    {
      assert RoundStep(config, s, round, t, ip);
    }
  }

  /** What the loop needs of a round that lets it go on. */
  lemma RoundLeaves(config: Config, size: Size, before: Place, round: Round, batch: seq<Proposal>, after: Place,
    next: Instant)
    requires round.expireAt <= round.moment.takenAt <= round.moment.builtAt <= next
    requires ConfigOk(config) && BlocksOk(before.0.durable, config.maxBlocked) && PendingFine(before.0.pending)
    requires RoundDone(config, size, before, round, batch, after, None)
    ensures BlocksOk(after.0.durable, config.maxBlocked) && PendingFine(after.0.pending)
    ensures |Unexpired(after.0.pending, next)| < |Unexpired(before.0.pending, round.expireAt)|
  {
    RoundShrinks(config, size, before.0, before.1, round, batch, next);
    RoundIsFine(config, size, before.0, before.1, round, batch);
    StepKeepsFine(config, before.0, round, after.0);
  }

  /** Between two rounds. */
  ghost predicate Reached(config: Config, size: Size, world: World, trail: seq<Place>, batches: seq<seq<Proposal>>,
    from: Place, here: Place)
  {
    RoundsDone(config, size, world, trail, batches, None) && trail[0] == from && trail[|batches|] == here
  }

  /** One more round goes on, or ends the drain. */
  lemma RoundsExtend(config: Config, size: Size, world: World, trail: seq<Place>, batches: seq<seq<Proposal>>,
    from: Place, here: Place, batch: seq<Proposal>, after: Place, end: Option<DrainEnd>)
    requires Reached(config, size, world, trail, batches, from, here)
    requires RoundDone(config, size, here, world(|batches|), batch, after, end)
    ensures end.None? ==> Reached(config, size, world, trail + [after], batches + [batch], from, after)
    ensures end.Some? ==> DrainedBy(config, size, world, trail + [after], batches + [batch], from, after, end.value)
  {
    var longer, all := trail + [after], batches + [batch];
    forall k: nat | k < |all|
      ensures RoundAt(config, size, world, longer, all, end, k)
    {
      if k < |batches| {
        assert RoundAt(config, size, world, trail, batches, None, k);
      }
    }
  }

  /** When nothing is left the drain has ended. */
  lemma NothingLeft(config: Config, size: Size, world: World, trail: seq<Place>, batches: seq<seq<Proposal>>,
    from: Place, here: Place, to: Place)
    requires Reached(config, size, world, trail, batches, from, here)
    requires to == (Expire(here.0, world(|batches|).expireAt), here.1) && to.0.pending == map[]
    ensures DrainedBy(config, size, world, trail, batches, from, to, Drained)
  {
  }

  /** The body of the drain's loop; `None` lets the loop go on. */
  method DrainOnce(runtime: IpBlockingRuntime, round: Round) returns (end: Option<DrainEnd>, ghost batch: seq<Proposal>)
    requires runtime.Valid()
    modifies runtime, runtime.writer
    ensures runtime.Valid() && runtime.accepting == old(runtime.accepting)
    ensures end == Some(Drained) ==>
      && runtime.State() == Expire(old(runtime.State()), round.expireAt) && runtime.pending == map[]
      && runtime.OnDisk() == old(runtime.OnDisk())
    ensures end != Some(Drained) ==>
      RoundDone(runtime.config, runtime.writer.size, old((runtime.State(), runtime.OnDisk())), round, batch,
        (runtime.State(), runtime.OnDisk()), end)
  {
    batch := [];
    runtime.ExpirePending(round.expireAt);
    if |runtime.pending| == 0 {
      return Some(Drained), batch;
    }
    var r;
    r, batch := runtime.PersistPending(false, round.moment);
    if r.Err? {
      return Some(CommitFailed(r.error)), batch;
    }
    return if |runtime.durable| >= runtime.config.maxBlocked then Some(TableFull) else None, batch;
  }

  /** Rounds until one ends the drain. */
  method DrainRounds(runtime: IpBlockingRuntime, world: World)
    returns (end: DrainEnd, ghost trail: seq<Place>, ghost batches: seq<seq<Proposal>>)
    requires runtime.Valid() && BlocksOk(runtime.durable, runtime.config.maxBlocked)
    requires PendingFine(runtime.pending) && InOrder(world)
    modifies runtime, runtime.writer
    ensures runtime.Valid() && runtime.accepting == old(runtime.accepting)
    ensures DrainedBy(runtime.config, runtime.writer.size, world, trail, batches,
      old((runtime.State(), runtime.OnDisk())), (runtime.State(), runtime.OnDisk()), end)
  {
    ghost var config, size := runtime.config, runtime.writer.size;
    ghost var from: Place := (runtime.State(), runtime.OnDisk());
    trail, batches := [from], [];
    var i: nat := 0;
    while true
      invariant runtime.Valid() && runtime.accepting == old(runtime.accepting) && i == |batches|
      invariant BlocksOk(runtime.durable, config.maxBlocked) && PendingFine(runtime.pending)
      invariant Reached(config, size, world, trail, batches, from, (runtime.State(), runtime.OnDisk()))
      decreases |Unexpired(runtime.pending, world(i).expireAt)|
    {
      ghost var here: Place := (runtime.State(), runtime.OnDisk());
      var outcome;
      ghost var batch;
      outcome, batch := DrainOnce(runtime, world(i));
      ghost var after: Place := (runtime.State(), runtime.OnDisk());
      if outcome == Some(Drained) {
        NothingLeft(config, size, world, trail, batches, from, here, after);
        return Drained, trail, batches;
      }
      RoundsExtend(config, size, world, trail, batches, from, here, batch, after, outcome);
      if outcome.Some? {
        return outcome.value, trail + [after], batches + [batch];
      }
      RoundLeaves(config, size, here, world(i), batch, after, world(i + 1).expireAt);
      trail, batches, i := trail + [after], batches + [batch], i + 1;
    }
  }

  /** Commits the bounded pending work before exit. */
  method ShutdownDrain(runtime: IpBlockingRuntime, world: World)
    returns (end: DrainEnd, ghost trail: seq<Place>, ghost batches: seq<seq<Proposal>>)
    requires runtime.Valid() && BlocksOk(runtime.durable, runtime.config.maxBlocked)
    requires PendingFine(runtime.pending) && InOrder(world)
    modifies runtime, runtime.writer
    ensures runtime.Valid() && !runtime.accepting
    ensures DrainedBy(runtime.config, runtime.writer.size, world, trail, batches,
      (old(runtime.State()).(accepting := false), old(runtime.OnDisk())), (runtime.State(), runtime.OnDisk()), end)
    ensures NothingLost(runtime.config, world, |batches|, Looks(batches, end),
      (old(runtime.State()).(accepting := false), old(runtime.OnDisk())), (runtime.State(), runtime.OnDisk()))
  {
    runtime.accepting := false;
    ghost var from: Place := (runtime.State(), runtime.OnDisk());
    end, trail, batches := DrainRounds(runtime, world);
    DrainAccounts(runtime.config, runtime.writer.size, world, trail, batches, from, (runtime.State(), runtime.OnDisk()),
      end);
  }
}
