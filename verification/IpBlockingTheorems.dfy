/**
What the invariant of IpBlockingRuns means for the gateway: no gap between temporary and durable
blocking, counts that are sound and complete within a factor of two, bounded state, a state file
that survives a crash at any file action, and deadlines that survive a reload.
*/
module IpBlockingTheorems {
  import opened Wrappers
  import opened ViolationWindows
  import opened Network
  import opened BlockFile
  import opened IpBlocking
  import opened IpBlockingRuns

  // ---- blocking ----

  /**
  From the moment a client becomes pending until its fixed deadline every request of it is refused:
  it is blocked temporarily, to exactly that deadline, or durably, to no earlier one.
  */
  lemma NoGapAtHandoff(config: Config, size: Size, s: System, i: nat)
    requires Invariant(config, size, s) && i < |s.log|
    requires s.log[i].entered && s.clock < s.log[i].Until()
    ensures Blocked(config, s.shared, s.log[i].ip, s.clock)
    ensures Covered(s.shared, s.log[i].ip, s.log[i].Until())
  {
    assert EntryCovered(s, s.log[i]) && EntryOk(config, s, s.log[i]);
  }

  /** No step moves the deadline of a temporary block. */
  lemma DeadlineNeverExtended(config: Config, size: Size, s: System, e: Event, ip: IpAddr)
    requires Invariant(config, size, s) && Enabled(config, size, s, e)
    requires ip in s.shared.temporary && ip in Next(config, size, s, e).shared.temporary
    ensures Next(config, size, s, e).shared.temporary[ip] == s.shared.temporary[ip]
  {
    if e.Violation? {
      RecordFrame(config, s, e.ip, e.rule);
      RecordLogs(config, s, e.ip, e.rule);
    }
  }

  /** While a client's block runs, none of its violations is counted. */
  lemma NothingCountedWhileBlocked(config: Config, size: Size, s: System, i: nat, j: nat)
    requires Invariant(config, size, s) && i < j < |s.log|
    requires s.log[i].entered && s.log[i].ip == s.log[j].ip
    ensures s.log[j].tally.at >= s.log[i].tally.at + TEMPORARY_SECONDS * SECOND
  {
  }

  /** Nor does anything take a durable block away before its deadline, as long as the process runs. */
  lemma BlockStays(config: Config, size: Size, s: System, e: Event, ip: IpAddr)
    requires Invariant(config, size, s) && Enabled(config, size, s, e) && !e.Restart?
    requires DurableLive(s.shared, ip, s.clock)
    ensures var t := Next(config, size, s, e);
      ip in t.shared.durable && t.shared.durable[ip] == s.shared.durable[ip]
  {
    if e.Violation? {
      RecordFrame(config, s, e.ip, e.rule);
    }
  }

  /** A step adds at most one counted violation, of a client that is not blocked, at the time it happens. */
  lemma StepCounts(config: Config, size: Size, s: System, e: Event)
    requires Invariant(config, size, s) && Enabled(config, size, s, e) && !e.Restart?
    ensures var t := Next(config, size, s, e);
      && t.clock >= s.clock
      && (t.log == s.log
          || (exists entry :: t.log == s.log + [entry]
                && entry.tally.at == s.clock && !Blocked(config, s.shared, entry.ip, s.clock)
                && Watched(config, entry.ip)))
  {
    if e.Violation? {
      RecordLogs(config, s, e.ip, e.rule);
      var recorded := Record(config, s.shared, e.ip, e.rule, s.clock).1;
      if !recorded.Ignored? {
        var entry := LogEntry(e.ip, e.rule, recorded.tally, recorded.EnteredPending?);
        assert Next(config, size, s, e).log == s.log + [entry];
      }
    }
  }

  /** Since the first state the client's block has stayed and nothing of it was counted before its deadline. */
  ghost predicate Quiet(first: System, t: System, ip: IpAddr, block: ActiveBlock) {
    && t.clock >= first.clock
    && (t.clock < block.deadline ==> ip in t.shared.durable && t.shared.durable[ip] == block)
    && |t.log| >= |first.log|
    && forall k | |first.log| <= k < |t.log| && t.log[k].ip == ip :: t.log[k].tally.at >= block.deadline
  }

  lemma QuietKept(config: Config, size: Size, first: System, s: System, e: Event, t: System, ip: IpAddr,
    block: ActiveBlock)
    requires Invariant(config, size, s) && Step(config, size, s, e, t) && !e.Restart?
    requires Quiet(first, s, ip, block)
    ensures Quiet(first, t, ip, block)
  {
    StepCounts(config, size, s, e);
    if s.clock < block.deadline {
      BlockStays(config, size, s, e, ip);
    }
  }

  /**
  While a client is durably blocked, none of its violations is counted: what is logged after a state
  with a live durable block comes no earlier than that block's deadline.
  */
  lemma {:induction false} NothingCountedWhileDurable(config: Config, size: Size, states: seq<System>,
    events: seq<Event>, i: nat, n: nat, ip: IpAddr)
    requires IsRun(config, size, states, events) && Invariant(config, size, states[0]) && i <= n <= |events|
    requires forall k | i <= k < n :: !events[k].Restart?
    requires DurableLive(states[i].shared, ip, states[i].clock)
    ensures Quiet(states[i], states[n], ip, states[i].shared.durable[ip])
    decreases n
  {
    if i < n {
      var m := n - 1;
      NothingCountedWhileDurable(config, size, states, events, i, m, ip);
      InvariantEach(config, size, states, events, m);
      assert Step(config, size, states[m], events[m], states[m + 1]);
      QuietKept(config, size, states[i], states[m], events[m], states[m + 1], ip, states[i].shared.durable[ip]);
    }
  }

  lemma InvariantEach(config: Config, size: Size, states: seq<System>, events: seq<Event>, n: nat)
    requires IsRun(config, size, states, events) && Invariant(config, size, states[0]) && n <= |events|
    ensures Invariant(config, size, states[n])
  {
    RunReachesEach(config, size, states, events, n);
    InvariantAlways(config, size, states[0], events[..n], states[n]);
  }

  // ---- bounds ----

  function Tracked(windows: seq<Shard>, n: nat): nat
    requires n <= |windows|
  {
    if n == 0 then 0 else Tracked(windows, n - 1) + |windows[n - 1]|
  }

  lemma {:induction false} TrackedBelowCapacity(config: Config, windows: seq<Shard>, n: nat)
    requires WindowsShaped(config, windows) && n <= SHARDS
    ensures Tracked(windows, n) <= CapacitySum(config.maxTracked, n)
    decreases n
  {
    if n > 0 {
      TrackedBelowCapacity(config, windows, n - 1);
      assert ShardShaped(config, windows[n - 1], n - 1);
    }
  }

  /** Memory is bounded as configured in every state, and the temporary snapshot mirrors the pending set. */
  lemma StateIsBounded(config: Config, size: Size, s: System)
    requires Invariant(config, size, s)
    ensures Tracked(s.shared.windows, SHARDS) <= config.maxTracked
    ensures |s.shared.pending| <= config.maxPending
    ensures |s.shared.durable| <= config.maxBlocked
    ensures s.shared.temporary == Deadlines(s.shared.pending)
  {
    TrackedBelowCapacity(config, s.shared.windows, SHARDS);
    CapacitiesSumToMaximum(config.maxTracked);
  }

  // ---- counting ----

  /** The counted violations of a client and rule are a chain of windows. */
  lemma TalliesAreChain(config: Config, size: Size, s: System, ip: IpAddr, rule: ViolationRule)
    requires Invariant(config, size, s)
    ensures Chain(Tallies(s.log, ip, rule), rule.Window())
  {
    assert TracksOne(s.shared.windows[config.shardOf(ip)], Tallies(s.log, ip, rule), ip, rule, s.clock);
  }

  /** The log up to a point gives a prefix of the tallies; the entry at that point comes next. */
  lemma {:induction false} TalliesPrefix(log: seq<LogEntry>, n: nat, ip: IpAddr, rule: ViolationRule)
    requires n <= |log|
    ensures Tallies(log[..n], ip, rule) <= Tallies(log, ip, rule)
    decreases |log|
  {
    if n < |log| {
      TalliesPrefix(log[..|log| - 1], n, ip, rule);
      assert log[..|log| - 1][..n] == log[..n];
    } else {
      assert log[..n] == log;
    }
  }

  lemma TallyOf(log: seq<LogEntry>, i: nat) returns (k: nat)
    requires i < |log|
    ensures k == |Tallies(log[..i], log[i].ip, log[i].rule)|
    ensures k < |Tallies(log, log[i].ip, log[i].rule)|
    ensures Tallies(log, log[i].ip, log[i].rule)[k] == log[i].tally
  {
    var entry := log[i];
    k := |Tallies(log[..i], entry.ip, entry.rule)|;
    assert log[..i + 1] == log[..i] + [entry];
    TalliesAppend(log[..i], entry, entry.ip, entry.rule);
    TalliesPrefix(log, i + 1, entry.ip, entry.rule);
  }

  /**
  Soundness: a client becomes pending for a rule only when at least `threshold` counted violations
  of that rule lie within less than the rule's window.
  */
  lemma PendingIsEarned(config: Config, size: Size, s: System, i: nat) returns (first: nat, last: nat)
    requires Invariant(config, size, s) && i < |s.log| && s.log[i].entered
    ensures var tallies := Tallies(s.log, s.log[i].ip, s.log[i].rule);
      && first <= last < |tallies|
      && tallies[last] == s.log[i].tally
      && last - first + 1 == config.threshold(s.log[i].rule)
      && tallies[last].at - tallies[first].at < s.log[i].rule.Window()
  {
    assert EntryOk(config, s, s.log[i]);
    TalliesAreChain(config, size, s, s.log[i].ip, s.log[i].rule);
    first, last := EarnedInLog(s.log, i, config.threshold(s.log[i].rule));
  }

  lemma EarnedInLog(log: seq<LogEntry>, i: nat, threshold: nat) returns (first: nat, last: nat)
    requires i < |log| && Chain(Tallies(log, log[i].ip, log[i].rule), log[i].rule.Window())
    requires 1 <= threshold <= log[i].tally.count
    ensures var tallies := Tallies(log, log[i].ip, log[i].rule);
      && first <= last < |tallies| && tallies[last] == log[i].tally
      && last - first + 1 == threshold
      && tallies[last].at - tallies[first].at < log[i].rule.Window()
  {
    last := TallyOf(log, i);
    CrossingIsSound(Tallies(log, log[i].ip, log[i].rule), log[i].rule.Window(), last, threshold);
    first := last + 1 - threshold;
  }

  /** Completeness: twice the threshold, less one, within less than the window always crosses it. */
  lemma CrossingIsReached(config: Config, size: Size, s: System, ip: IpAddr, rule: ViolationRule, i: nat, j: nat)
    requires Invariant(config, size, s)
    requires i <= j < |Tallies(s.log, ip, rule)| && j - i + 1 >= 2 * config.threshold(rule) - 1
    requires Tallies(s.log, ip, rule)[j].at - Tallies(s.log, ip, rule)[i].at < rule.Window()
    ensures exists k | i <= k <= j :: Tallies(s.log, ip, rule)[k].count >= config.threshold(rule)
  {
    TalliesAreChain(config, size, s, ip, rule);
    CrossingIsComplete(Tallies(s.log, ip, rule), rule.Window(), i, j, config.threshold(rule));
  }

  lemma {:induction false} NoTallyBetween(log: seq<LogEntry>, p: nat, q: nat, ip: IpAddr, rule: ViolationRule)
    requires p <= q <= |log|
    requires forall i | p <= i < q :: !(log[i].ip == ip && log[i].rule == rule)
    ensures Tallies(log[..q], ip, rule) == Tallies(log[..p], ip, rule)
    decreases q - p
  {
    if p < q {
      NoTallyBetween(log, p, q - 1, ip, rule);
      assert log[..q] == log[..q - 1] + [log[q - 1]];
      TalliesAppend(log[..q - 1], log[q - 1], ip, rule);
    }
  }

  lemma {:induction false} LastTallyInLog(log: seq<LogEntry>, n: nat, ip: IpAddr, rule: ViolationRule)
    requires n <= |log| && Tallies(log[..n], ip, rule) != []
    ensures exists i :: 0 <= i < n && log[i].tally == Tallies(log[..n], ip, rule)[|Tallies(log[..n], ip, rule)| - 1]
    decreases n
  {
    assert log[..n] == log[..n - 1] + [log[n - 1]];
    TalliesAppend(log[..n - 1], log[n - 1], ip, rule);
    if !(log[n - 1].ip == ip && log[n - 1].rule == rule) {
      LastTallyInLog(log, n - 1, ip, rule);
    }
  }

  /**
  After a client became pending, its first violation counted under any rule opens a fresh window:
  by then the temporary block has lapsed, and so has whatever was counted before it.
  */
  lemma FreshAfterBlock(config: Config, size: Size, s: System, p: nat, q: nat)
    requires Invariant(config, size, s) && p < q < |s.log|
    requires s.log[p].entered && s.log[q].ip == s.log[p].ip
    requires forall i | p < i < q :: !(s.log[i].ip == s.log[q].ip && s.log[i].rule == s.log[q].rule)
    ensures s.log[q].tally.count == 1
  {
    TalliesAreChain(config, size, s, s.log[q].ip, s.log[q].rule);
    NothingCountedWhileBlocked(config, size, s, p, q);
    FreshInLog(s.log, p, q);
  }

  lemma FreshInLog(log: seq<LogEntry>, p: nat, q: nat)
    requires p < q < |log| && Chain(Tallies(log, log[q].ip, log[q].rule), log[q].rule.Window())
    requires forall i, j | 0 <= i < j < |log| :: log[i].tally.at <= log[j].tally.at
    requires log[p].tally.at + TEMPORARY_SECONDS * SECOND <= log[q].tally.at
    requires forall i | p < i < q :: !(log[i].ip == log[q].ip && log[i].rule == log[q].rule)
    ensures log[q].tally.count == 1
  {
    var ip, rule := log[q].ip, log[q].rule;
    var k := TallyAfter(log, p, q, ip, rule);
    if k > 0 {
      TallyBefore(log, p, ip, rule, k - 1);
    }
    FollowsBlock(Tallies(log, ip, rule), rule, k, log[p].tally.at);
  }

  /** The tally of an entry comes right after those logged up to some point, when nothing lies between. */
  lemma TallyAfter(log: seq<LogEntry>, p: nat, q: nat, ip: IpAddr, rule: ViolationRule) returns (k: nat)
    requires p < q < |log| && log[q].ip == ip && log[q].rule == rule
    requires forall i | p < i < q :: !(log[i].ip == ip && log[i].rule == rule)
    ensures k == |Tallies(log[..p + 1], ip, rule)|
    ensures k < |Tallies(log, ip, rule)| && Tallies(log, ip, rule)[k] == log[q].tally
  {
    k := TallyOf(log, q);
    NoTallyBetween(log, p + 1, q, ip, rule);
  }

  /** The last tally logged up to some point is no later than that point. */
  lemma TallyBefore(log: seq<LogEntry>, p: nat, ip: IpAddr, rule: ViolationRule, k: nat)
    requires p < |log| && k + 1 == |Tallies(log[..p + 1], ip, rule)|
    requires forall i, j | 0 <= i < j < |log| :: log[i].tally.at <= log[j].tally.at
    ensures k < |Tallies(log, ip, rule)| && Tallies(log, ip, rule)[k].at <= log[p].tally.at
  {
    LastTallyInLog(log, p + 1, ip, rule);
    TalliesPrefix(log, p + 1, ip, rule);
  }

  lemma FollowsBlock(tallies: seq<Tally>, rule: ViolationRule, k: nat, entered: Instant)
    requires Chain(tallies, rule.Window()) && k < |tallies|
    requires k > 0 ==> tallies[k - 1].at <= entered && entered + TEMPORARY_SECONDS * SECOND <= tallies[k].at
    ensures tallies[k].count == 1
  {
    if k == 0 {
      assert Starts(tallies[0], rule.Window());
    } else {
      ChainInWindow(tallies, rule.Window(), k - 1);
      assert Linked(tallies[k - 1], tallies[k], rule.Window());
      FreshAfterTemporaryBlock(tallies[k - 1], tallies[k], rule, entered);
    }
  }

  // ---- the state file ----

  /**
  Stop the power in any reachable state, in the middle of any file action: the state file is a
  whole snapshot that loads and has a row for every client still blocked in memory.  For the states
  that are not synced see IpDurability.
  */
  lemma PowerLossKeepsBlocks(config: Config, size: Size, s: System, fs: Fs)
    requires Invariant(config, size, s) && s.Synced() && AfterPowerLoss(s.disk.fs, fs)
    ensures ContentCovers(config, size, fs.current, s.shared.durable, s.clock, s.uncut)
  {
    var content :| content in Possible(s.disk.fs) + {s.disk.fs.current} && Survives(content, fs.current);
    assert ContentCovers(config, size, content, s.shared.durable, s.clock, s.uncut);
  }

  /** A stop of the process alone never needs the directory to have been synced. */
  lemma StopKeepsBlocks(config: Config, size: Size, s: System)
    requires Invariant(config, size, s)
    ensures ContentCovers(config, size, s.disk.fs.current, s.shared.durable, s.clock, s.uncut)
  {
  }

  /** A row of the state file lets no block go a second early, and none lasts more than a day. */
  lemma RowKeepsDeadline(row: BlockRecord, ip: IpAddr, block: ActiveBlock, offset: nat, wall: u64, now: Instant,
    newOffset: nat, exact: bool)
    requires RowFor(row, ip, block, exact) && Aligned(block, offset)
    requires wall == WallAt(now, newOffset)
    requires block.deadline + offset >= now + newOffset + SECOND
    requires block.record.expires <= wall + BLOCK_SECONDS
    ensures row.expires > wall
    ensures var restored := Restored(row, wall, now);
      && block.deadline + offset < restored.deadline + newOffset + SECOND
      && restored.deadline <= now + BLOCK_SECONDS * SECOND
      && (exact ==> restored.deadline + newOffset < block.deadline + offset + SECOND)
  {
  }

  /** The one row of a file that a block comes back from. */
  lemma RowOfBlock(config: Config, size: Size, fs: Fs, wall: u64, now: Instant, blocks: BlockSnapshot, ip: IpAddr,
    block: ActiveBlock, exact: bool) returns (row: BlockRecord)
    requires Loads(config, size, fs, wall, now, blocks) && HoldsFor(fs.current.value.file, ip, block, exact)
    ensures row in fs.current.value.file.blocks && RowFor(row, ip, block, exact)
    ensures row.expires > wall ==> ip in blocks && blocks[ip] == Restored(row, wall, now)
  {
    var rows := fs.current.value.file.blocks;
    var i :| 0 <= i < |rows| && RowFor(rows[i], ip, block, exact);
    row := rows[i];
  }

  /**
  Loading the surviving file restores every client blocked for at least another second, to the
  same moment within a second, when the wall clock kept step and did not go back.  The bound from
  above needs memory to have the block as its row says (`uncut`); see `CutRowSlides` for the rest.
  */
  lemma ReloadRestores(config: Config, size: Size, s: System, fs: Fs, wall: u64, now: Instant, newOffset: nat,
    blocks: BlockSnapshot, ip: IpAddr)
    requires Invariant(config, size, s) && s.inStep
    requires fs == s.disk.fs || (s.Synced() && AfterPowerLoss(s.disk.fs, fs))
    requires Loads(config, size, fs, wall, now, blocks) && wall == WallAt(now, newOffset)
    requires DurableLive(s.shared, ip, s.clock)
    requires s.shared.durable[ip].deadline + s.offset >= now + newOffset + SECOND
    requires s.shared.durable[ip].record.expires <= wall + BLOCK_SECONDS
    ensures ip in blocks
    ensures s.shared.durable[ip].deadline + s.offset < blocks[ip].deadline + newOffset + SECOND
    ensures s.uncut ==> blocks[ip].deadline + newOffset < s.shared.durable[ip].deadline + s.offset + SECOND
    ensures blocks[ip].deadline <= now + BLOCK_SECONDS * SECOND
  {
    var block := s.shared.durable[ip];
    SurvivorCovers(config, size, s, fs);
    var row := RowOfBlock(config, size, fs, wall, now, blocks, ip, block, s.uncut);
    RowKeepsDeadline(row, ip, block, s.offset, wall, now, newOffset, s.uncut);
  }

  /**
  Exactly when a reload gives a client longer than it had: its row ends later than its block, as only
  a cut at an earlier load can leave it, and a day from now does too.
  */
  lemma ReloadExtendsExactly(config: Config, size: Size, s: System, fs: Fs, wall: u64, now: Instant, newOffset: nat,
    blocks: BlockSnapshot, ip: IpAddr, row: BlockRecord)
    requires Invariant(config, size, s) && s.inStep
    requires fs == s.disk.fs || (s.Synced() && AfterPowerLoss(s.disk.fs, fs))
    requires Loads(config, size, fs, wall, now, blocks) && wall == WallAt(now, newOffset)
    requires DurableLive(s.shared, ip, s.clock)
    requires s.shared.durable[ip].deadline + s.offset >= now + newOffset + SECOND
    requires s.shared.durable[ip].record.expires <= wall + BLOCK_SECONDS
    requires row in fs.current.value.file.blocks && Normalize(row.clientIp) == ip
    ensures ip in blocks
    ensures var block := s.shared.durable[ip];
      var longer := row.expires > block.record.expires && wall + BLOCK_SECONDS > block.record.expires;
      && (longer <==> blocks[ip].record.expires > block.record.expires)
      && (longer ==> blocks[ip].deadline + newOffset > block.deadline + s.offset)
      && (!longer ==> blocks[ip].deadline + newOffset < block.deadline + s.offset + SECOND)
  {
    var block := s.shared.durable[ip];
    SurvivorCovers(config, size, s, fs);
    var other := RowOfBlock(config, size, fs, wall, now, blocks, ip, block, s.uncut);
    OneRowEach(fs.current.value.file.blocks, row, other);
    RowKeepsDeadline(row, ip, block, s.offset, wall, now, newOffset, s.uncut);
    ExtendsExactly(row, block, s.offset, wall, now, newOffset);
  }

  lemma SurvivorCovers(config: Config, size: Size, s: System, fs: Fs)
    requires Invariant(config, size, s) && (fs == s.disk.fs || (s.Synced() && AfterPowerLoss(s.disk.fs, fs)))
    ensures ContentCovers(config, size, fs.current, s.shared.durable, s.clock, s.uncut)
  {
    if fs != s.disk.fs {
      PowerLossKeepsBlocks(config, size, s, fs);
    }
  }

  lemma ExtendsExactly(row: BlockRecord, block: ActiveBlock, offset: nat, wall: u64, now: Instant, newOffset: nat)
    requires row.expires >= block.record.expires && row.expires > wall && Aligned(block, offset)
    requires wall == WallAt(now, newOffset) && block.record.expires <= wall + BLOCK_SECONDS
    ensures var longer := row.expires > block.record.expires && wall + BLOCK_SECONDS > block.record.expires;
      var restored := Restored(row, wall, now);
      && (longer <==> restored.record.expires > block.record.expires)
      && (longer ==> restored.deadline + newOffset > block.deadline + offset)
      && (!longer ==> restored.deadline + newOffset < block.deadline + offset + SECOND)
  {
    RestoredAligned(row, wall, now, newOffset);
  }

  lemma OneRowEach(rows: seq<BlockRecord>, a: BlockRecord, b: BlockRecord)
    requires RowsFine(rows) && a in rows && b in rows && Normalize(a.clientIp) == Normalize(b.clientIp)
    ensures a == b
  {
  }

  /**
  When a load cuts a row from the future, its block slides: until memory has been written back, a
  later reload that cuts it again moves the deadline by exactly the time between the two loads.
  */
  lemma CutRowSlides(config: Config, size: Size, row: BlockRecord, now: Instant, later: Instant, offset: nat)
    requires ConfigOk(config) && RowOk(row) && Normalized(row.clientIp) && now <= later
    requires size(StateFile(VERSION, [row])) <= MAX_STATE_BYTES
    requires row.expires > WallAt(later, offset) + BLOCK_SECONDS
    ensures var ip, wall, wallLater := row.clientIp, WallAt(now, offset), WallAt(later, offset);
      var fs := OneRowFs(row);
      var blocks, again := map[ip := Restored(row, wall, now)], map[ip := Restored(row, wallLater, later)];
      var s := Started(fs, wall, now, offset, blocks);
      && Invariant(config, size, s) && s.inStep && s.Synced() && !s.uncut
      && DurableLive(s.shared, ip, s.clock)
      && Loads(config, size, fs, wallLater, later, again)
      && again[ip].deadline == blocks[ip].deadline + (later - now)
  {
    var fs := OneRowFs(row);
    var rows := fs.current.value.file.blocks;
    OneRowLoads(config, size, row, WallAt(now, offset), now);
    OneRowLoads(config, size, row, WallAt(later, offset), later);
    var blocks := map[row.clientIp := Restored(row, WallAt(now, offset), now)];
    InvariantAtStart(config, size, fs, WallAt(now, offset), now, offset, blocks);
    assert row in rows;
  }

  function OneRowFs(row: BlockRecord): Fs {
    var content := Some(Stored(StateFile(VERSION, [row])));
    Fs(content, content, {}, map[])
  }

  lemma OneRowLoads(config: Config, size: Size, row: BlockRecord, wall: u64, now: Instant)
    requires ConfigOk(config) && RowOk(row) && Normalized(row.clientIp) && row.expires > wall
    requires size(StateFile(VERSION, [row])) <= MAX_STATE_BYTES
    ensures Loads(config, size, OneRowFs(row), wall, now, map[row.clientIp := Restored(row, wall, now)])
  {
    var rows := [row];
    assert Restores(rows[0], row.clientIp, wall);
  }

  /** A live writer leaves at most one temporary file, and between transactions it remembers it. */
  lemma AtMostOneTemporary(config: Config, size: Size, s: System)
    requires Invariant(config, size, s)
    ensures |OwnTemps(s)| <= 1
    ensures !s.manager.Writing? ==> OwnTemps(s) <= Remembered(s.disk)
  {
    var inUse := s.manager.Writing? && TempInUse(s.manager.job.stage);
    var bound := if inUse then {s.manager.job.temp} else Remembered(s.disk);
    SubsetSize(OwnTemps(s), bound);
  }

  // ---- where the code falls short of the stronger promise ----

  /**
  When the directory sync fails after the rename, the new snapshot is current but not settled.  A
  process that is restarted then trusts it, and until its first synced commit a loss of power can
  bring back the old file, which lacks the client.
  */
  lemma UnsyncedRestartCanLose(config: Config, size: Size, s: System, before: StateFile, wall: u64, now: Instant,
    offset: nat, blocks: BlockSnapshot, ip: IpAddr)
    requires Invariant(config, size, s)
    requires s.manager.Writing? && s.manager.job.stage.SyncDirectory?
    requires s.disk.fs.settled == Some(Stored(before)) && Loadable(size, before, config.maxBlocked)
    requires ip !in Addresses(before.blocks)
    requires RestoredFrom(s.manager.job.file.blocks, wall, now, blocks) && ip in blocks
    ensures var restart := Restart(false, s.disk.fs, [], wall, now, offset, blocks);
      && Enabled(config, size, s, restart)
      && Next(config, size, s, restart) == Started(s.disk.fs, wall, now, offset, blocks)
    ensures var t := Started(s.disk.fs, wall, now, offset, blocks);
      && Invariant(config, size, t) && !t.Synced()
      && DurableLive(t.shared, ip, t.clock)
      && var lost := Fs(Some(Stored(before)), Some(Stored(before)), {}, map[]);
         && AfterPowerLoss(t.disk.fs, lost)
         && !ContentCovers(config, size, lost.current, t.shared.durable, t.clock, false)
  {
    LoadsAfterRename(config, size, s, wall, now, blocks);
    UnsettledStart(config, size, s.disk.fs, before, wall, now, offset, blocks, ip);
  }

  lemma LoadsAfterRename(config: Config, size: Size, s: System, wall: u64, now: Instant, blocks: BlockSnapshot)
    requires DiskInv(config, size, s) && s.manager.Writing? && s.manager.job.stage.SyncDirectory?
    requires RestoredFrom(s.manager.job.file.blocks, wall, now, blocks)
    ensures Loads(config, size, s.disk.fs, wall, now, blocks)
  {
  }

  /** A process that starts on a file that is not settled. */
  lemma UnsettledStart(config: Config, size: Size, fs: Fs, before: StateFile, wall: u64, now: Instant, offset: nat,
    blocks: BlockSnapshot, ip: IpAddr)
    requires ConfigOk(config) && Loads(config, size, fs, wall, now, blocks) && ip in blocks
    requires fs.settled == Some(Stored(before)) && ip !in Addresses(before.blocks)
    ensures var t := Started(fs, wall, now, offset, blocks);
      && Invariant(config, size, t) && !t.Synced()
      && DurableLive(t.shared, ip, t.clock)
      && var lost := Fs(Some(Stored(before)), Some(Stored(before)), {}, map[]);
         && AfterPowerLoss(t.disk.fs, lost)
         && !ContentCovers(config, size, lost.current, t.shared.durable, t.clock, false)
  {
    var rows := fs.current.value.file.blocks;
    SettledComesBack(fs, before);
    RestoredIsLive(rows, wall, now, blocks, ip);
    RestoredIsListed(rows, wall, now, blocks, ip);
    InvariantAtStart(config, size, fs, wall, now, offset, blocks);
    HeldIsListed(before, ip, blocks[ip]);
    assert fs.settled in Doubts(fs);
  }

  lemma SettledComesBack(fs: Fs, before: StateFile)
    requires fs.settled == Some(Stored(before))
    ensures AfterPowerLoss(fs, Fs(Some(Stored(before)), Some(Stored(before)), {}, map[]))
  {
    assert Survives(fs.settled, Some(Stored(before)));
  }

  lemma RestoredIsListed(rows: seq<BlockRecord>, wall: u64, now: Instant, blocks: BlockSnapshot, ip: IpAddr)
    requires RestoredFrom(rows, wall, now, blocks) && ip in blocks
    ensures ip in Addresses(rows)
  {
    var i :| 0 <= i < |rows| && Restores(rows[i], ip, wall);
    assert Normalize(rows[i].clientIp) in Addresses(rows);
  }

  lemma RestoredIsLive(rows: seq<BlockRecord>, wall: u64, now: Instant, blocks: BlockSnapshot, ip: IpAddr)
    requires RestoredFrom(rows, wall, now, blocks) && ip in blocks
    ensures blocks[ip].deadline > now
  {
    var i :| 0 <= i < |rows| && Restores(rows[i], ip, wall);
    RestoredWithinADay(rows[i], wall, now);
  }

  lemma HeldIsListed(file: StateFile, ip: IpAddr, block: ActiveBlock)
    ensures HoldsFor(file, ip, block, false) ==> ip in Addresses(file.blocks)
  {
  }
}
