/**
What a loss of power can do in every run, synced or not.  It leaves a whole file that loads, or none
if none was ever settled.  What may be missing is settled by how the process started: what could then
have come back instead of the file it loaded, and whether a directory sync has succeeded since.
*/
module IpDurability {
  import opened Wrappers
  import opened ViolationWindows
  import opened Network
  import opened BlockFile
  import opened IpBlocking
  import opened IpBlockingRuns

  // ---- a whole file or none ----

  ghost predicate WholeOrNone(config: Config, size: Size, content: Option<Content>) {
    content.None? || WholeFile(config, size, content)
  }

  ghost predicate EachWhole(config: Config, size: Size, fs: Fs) {
    forall content | content in Possible(fs) + {fs.current} :: WholeOrNone(config, size, content)
  }

  lemma SurvivesWhole(config: Config, size: Size, before: Fs, after: Fs)
    requires EachWhole(config, size, before) && AfterPowerLoss(before, after)
    ensures EachWhole(config, size, after) && after.current in Possible(before) + {before.current}
  {
    var content :| content in Possible(before) + {before.current} && Survives(content, after.current);
    assert WholeOrNone(config, size, content);
  }

  /** A job on its way puts only whole files in place. */
  ghost predicate JobWhole(config: Config, size: Size, disk: Disk, job: Job, now: Instant) {
    && EachWhole(config, size, disk.fs) && JobSound(disk, job) && JobFileOk(config, size, job, now)
    && BlocksOk(job.blocks, config.maxBlocked)
  }

  lemma ActionKeepsWhole(config: Config, size: Size, disk: Disk, job: Job, now: Instant, ok: bool)
    requires JobWhole(config, size, disk, job, now) && !job.stage.Done?
    ensures var r := FileAction(size, disk, job, now, ok); JobWhole(config, size, r.0, r.1, now)
  {
    ActionKeepsSound(size, disk, job, now, ok);
    ActionEffects(size, disk, job, now, ok);
    FileCovers(config, size, job.blocks, now);
    var r := FileAction(size, disk, job, now, ok);
    assert JobFileOk(config, size, r.1, now);
    if job.stage.Rename? {
      assert WholeFile(config, size, Some(Stored(job.file)));
    }
  }

  lemma {:induction false} JobKeepsWhole(config: Config, size: Size, disk: Disk, job: Job, now: Instant,
      outcomes: Outcomes)
    requires JobWhole(config, size, disk, job, now)
    ensures EachWhole(config, size, RunJob(size, disk, job, now, outcomes).0.fs)
    decreases Remaining(job.stage)
  {
    JobStep(size, disk, job, now, outcomes);
    if !job.stage.Done? {
      var ok := OutcomeOf(outcomes, job.stage);
      ActionKeepsWhole(config, size, disk, job, now, ok);
      ActionKeepsSound(size, disk, job, now, ok);
      var r := FileAction(size, disk, job, now, ok);
      JobKeepsWhole(config, size, r.0, r.1, now, outcomes);
    }
  }

  /** Creating the first file, in any number of attempts, puts nothing else in place either. */
  lemma {:induction false} CreatedWhole(config: Config, size: Size, fs: Fs, tries: seq<Try>)
    requires EachWhole(config, size, fs)
    ensures EachWhole(config, size, Created(size, fs, tries))
    decreases |tries|
  {
    if fs.current.None? && tries != [] {
      var first := tries[0];
      JobKeepsWhole(config, size, Disk(fs, None), StartJob(map[], first.temp), first.at, first.outcomes);
      var created := RunJob(size, Disk(fs, None), StartJob(map[], first.temp), first.at, first.outcomes).0.fs;
      CreatedWhole(config, size, created, tries[1..]);
    }
  }

  lemma WholeKept(config: Config, size: Size, s: System, e: Event)
    requires Invariant(config, size, s) && EachWhole(config, size, s.disk.fs) && Enabled(config, size, s, e)
    ensures EachWhole(config, size, Next(config, size, s, e).disk.fs)
  {
    if e.ActOnFile? {
      ActionKeepsWhole(config, size, s.disk, s.manager.job, s.clock, e.ok);
    } else if e.Restart? {
      if e.power {
        SurvivesWhole(config, size, s.disk.fs, e.left);
      }
      CreatedWhole(config, size, e.left, e.tries);
    }
  }

  lemma {:induction false} WholeAlways(config: Config, size: Size, s: System, events: seq<Event>, t: System)
    requires Invariant(config, size, s) && EachWhole(config, size, s.disk.fs)
    requires Reaches(config, size, s, events, t)
    ensures Invariant(config, size, t) && EachWhole(config, size, t.disk.fs)
    decreases |events|
  {
    if events != [] {
      WholeKept(config, size, s, events[0]);
      InvariantKept(config, size, s, events[0]);
      WholeAlways(config, size, Next(config, size, s, events[0]), events[1..], t);
    }
  }

  /** The first start of all, on a disk without a state file, whatever its attempts to create one met. */
  lemma FirstStart(config: Config, size: Size, temps: map<TempName, Content>, tries: seq<Try>, wall: u64, now: Instant,
    offset: nat, blocks: BlockSnapshot)
    requires ConfigOk(config)
    requires Loads(config, size, Created(size, Fs(None, None, {}, temps), tries), wall, now, blocks)
    ensures var s := Started(Created(size, Fs(None, None, {}, temps), tries), wall, now, offset, blocks);
      Invariant(config, size, s) && EachWhole(config, size, s.disk.fs)
  {
    var fs := Created(size, Fs(None, None, {}, temps), tries);
    CreatedWhole(config, size, Fs(None, None, {}, temps), tries);
    InvariantAtStart(config, size, fs, wall, now, offset, blocks);
  }

  /**
  In every run a loss of power at any moment leaves a whole file that loads, or, only while nothing is
  settled, none, and then the next start creates it empty: the gateway can always start again.
  */
  lemma PowerLossLeavesWholeFile(config: Config, size: Size, s: System, events: seq<Event>, t: System, fs: Fs)
    requires Invariant(config, size, s) && EachWhole(config, size, s.disk.fs)
    requires Reaches(config, size, s, events, t) && AfterPowerLoss(t.disk.fs, fs)
    ensures WholeFile(config, size, fs.current) || (fs.current.None? && t.disk.fs.settled.None?)
  {
    WholeAlways(config, size, s, events, t);
    LossLeavesWhole(config, size, t.disk.fs, t.disk.fs.current, fs);
  }

  lemma LossLeavesWhole(config: Config, size: Size, before: Fs, current: Option<Content>, after: Fs)
    requires EachWhole(config, size, before) && AfterPowerLoss(before, after)
    requires before.current == current && current.Some?
    ensures WholeFile(config, size, after.current) || (after.current.None? && before.settled.None?)
  {
    SurvivesWhole(config, size, before, after);
    assert WholeOrNone(config, size, after.current);
  }

  // ---- which clients can be lost ----

  /** The content has no row for the client that lasts as long as its block. */
  ghost predicate Lacks(content: Option<Content>, ip: IpAddr, block: ActiveBlock) {
    content.None? || !content.value.Stored? || !HoldsFor(content.value.file, ip, block, false)
  }

  ghost predicate CanLose(s: System, ip: IpAddr)
    requires ip in s.shared.durable
  {
    exists fs :: AfterPowerLoss(s.disk.fs, fs) && Lacks(fs.current, ip, s.shared.durable[ip])
  }

  lemma HoldsLoosely(file: StateFile, ip: IpAddr, block: ActiveBlock, exact: bool)
    ensures HoldsFor(file, ip, block, exact) ==> HoldsFor(file, ip, block, false)
  {
    if HoldsFor(file, ip, block, exact) {
      var i :| 0 <= i < |file.blocks| && RowFor(file.blocks[i], ip, block, exact);
      assert RowFor(file.blocks[i], ip, block, false);
    }
  }

  lemma CertainHolds(config: Config, size: Size, s: System, ip: IpAddr, content: Option<Content>)
    requires Invariant(config, size, s) && DurableLive(s.shared, ip, s.clock)
    requires content == s.disk.fs.current || content in Possible(s.disk.fs) - s.doubtful
    ensures !Lacks(content, ip, s.shared.durable[ip])
  {
    assert ContentCovers(config, size, content, s.shared.durable, s.clock, s.uncut);
    HoldsLoosely(content.value.file, ip, s.shared.durable[ip], s.uncut);
  }

  /** In one state, the doubtful contents decide. */
  lemma LosesByDoubt(config: Config, size: Size, s: System, ip: IpAddr)
    requires Invariant(config, size, s) && DurableLive(s.shared, ip, s.clock)
    ensures CanLose(s, ip) <==> exists content | content in s.doubtful :: Lacks(content, ip, s.shared.durable[ip])
  {
    if CanLose(s, ip) {
      var fs :| AfterPowerLoss(s.disk.fs, fs) && Lacks(fs.current, ip, s.shared.durable[ip]);
      var content :| content in Possible(s.disk.fs) + {s.disk.fs.current} && Survives(content, fs.current);
      assert Lacks(content, ip, s.shared.durable[ip]);
      if content == s.disk.fs.current || content !in s.doubtful {
        CertainHolds(config, size, s, ip, content);
      }
    }
    if content :| content in s.doubtful && Lacks(content, ip, s.shared.durable[ip]) {
      var fs := Fs(content, content, {}, map[]);
      assert content in Possible(s.disk.fs) && Survives(content, fs.current);
    }
  }

  // ---- along a run ----

  /** One process runs from step `i` to step `n`. */
  predicate OneProcess(events: seq<Event>, i: nat, n: nat) {
    i <= n <= |events| && (i == 0 || events[i - 1].Restart?) && forall j | i <= j < n :: !events[j].Restart?
  }

  lemma {:induction false} ProcessOf(events: seq<Event>, n: nat) returns (i: nat)
    requires n <= |events|
    ensures OneProcess(events, i, n)
    decreases n
  {
    if n == 0 || events[n - 1].Restart? {
      i := n;
    } else {
      i := ProcessOf(events, n - 1);
    }
  }

  /** A directory sync succeeds. */
  predicate Syncs(s: System, e: Event) {
    e == ActOnFile(true) && s.manager.Writing? && s.manager.job.stage.SyncDirectory?
  }

  predicate SyncedIn(states: seq<System>, events: seq<Event>, i: nat, n: nat)
    requires i <= n <= |events| == |states| - 1
  {
    exists j :: i <= j < n && Syncs(states[j], events[j])
  }

  lemma StepDoubts(config: Config, size: Size, s: System, e: Event, t: System)
    requires Step(config, size, s, e, t)
    ensures !e.Restart? ==> t.doubtful == if Syncs(s, e) then {} else s.doubtful
    ensures e.Restart? ==> t.doubtful == Doubts(t.disk.fs)
    ensures e.Restart? && e.power && e.left.current.Some? ==> t.Synced()
    ensures e.Restart? && !e.power && s.disk.fs.current.Some? ==> t.doubtful == Doubts(s.disk.fs)
  {
  }

  /**
  What is in doubt is what was in doubt when the process started, until a directory sync succeeds.
  After a restart of the process alone that is what a loss of power could have brought back before it;
  after a loss of power that left a file it is nothing.
  */
  lemma {:induction false} DoubtsExactly(config: Config, size: Size, states: seq<System>, events: seq<Event>, i: nat,
    n: nat)
    requires IsRun(config, size, states, events) && OneProcess(events, i, n)
    ensures states[n].doubtful == if SyncedIn(states, events, i, n) then {} else states[i].doubtful
    ensures i > 0 ==> states[i].doubtful == Doubts(states[i].disk.fs)
    ensures i > 0 && events[i - 1].power && events[i - 1].left.current.Some? ==> states[i].Synced()
    ensures i > 0 && !events[i - 1].power && states[i - 1].disk.fs.current.Some? ==>
      states[i].doubtful == Doubts(states[i - 1].disk.fs)
    decreases n
  {
    if i > 0 {
      StepDoubts(config, size, states[i - 1], events[i - 1], states[i]);
    }
    if i < n {
      var m := n - 1;
      DoubtsExactly(config, size, states, events, i, m);
      assert Step(config, size, states[m], events[m], states[m + 1]);
      StepDoubts(config, size, states[m], events[m], states[m + 1]);
      SyncedLater(states, events, i, m);
    }
  }

  lemma SyncedLater(states: seq<System>, events: seq<Event>, i: nat, m: nat)
    requires i <= m < |events| == |states| - 1
    ensures SyncedIn(states, events, i, m + 1) <==> SyncedIn(states, events, i, m) || Syncs(states[m], events[m])
  {
  }

  /**
  Which clients a loss of power can take at any point of any run: exactly those for which something
  was in doubt when the process started that has no row as long as their block, unless the directory
  has been synced since.
  */
  lemma LosesExactly(config: Config, size: Size, states: seq<System>, events: seq<Event>, i: nat, n: nat, ip: IpAddr)
    requires IsRun(config, size, states, events) && OneProcess(events, i, n)
    requires Invariant(config, size, states[0])
    requires DurableLive(states[n].shared, ip, states[n].clock)
    ensures CanLose(states[n], ip) <==>
      && !SyncedIn(states, events, i, n)
      && exists content | content in states[i].doubtful :: Lacks(content, ip, states[n].shared.durable[ip])
  {
    RunReachesEach(config, size, states, events, n);
    InvariantAlways(config, size, states[0], events[..n], states[n]);
    DoubtsExactly(config, size, states, events, i, n);
    LosesByDoubt(config, size, states[n], ip);
  }
}
