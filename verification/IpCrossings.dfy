/**
From a crossed threshold to a block (src/security/ip_blocking.rs): exactly when a violation is
counted, exactly when a counted one makes its client pending, and how many violations are enough.
The last part says the same of recording with its separate steps.
*/
module IpCrossings {
  import opened Wrappers
  import opened ViolationWindows
  import opened Network
  import opened BlockFile
  import opened IpBlocking
  import opened IpBlockingRuns
  import opened IpBlockingTheorems
  import Split = SplitRecording

  // ---- one step ----

  /** The engine still takes violations of the client, neither block of it lasts, and its shard has a place. */
  ghost predicate Countable(config: Config, s: System, ip: IpAddr)
    requires ConfigOk(config) && WindowsShaped(config, s.shared.windows)
  {
    && config.enabled && !config.allows(ip) && s.shared.accepting
    && (ip in s.shared.durable ==> s.shared.durable[ip].deadline <= s.clock)
    && (ip in s.shared.temporary ==> s.shared.temporary[ip] <= s.clock)
    && HasPlace(config, s, ip)
  }

  ghost predicate HasPlace(config: Config, s: System, ip: IpAddr)
    requires ConfigOk(config) && WindowsShaped(config, s.shared.windows)
  {
    var shard := config.shardOf(ip);
    ip in s.shared.windows[shard] || |s.shared.windows[shard]| < ShardCapacity(config.maxTracked, shard)
  }

  /** A client that the engine watches is either refused or has its violations counted; any other, neither. */
  lemma RefusedOrCounted(config: Config, size: Size, s: System, ip: IpAddr)
    requires Invariant(config, size, s)
    ensures var refused, counted := Blocked(config, s.shared, ip, s.clock), Countable(config, s, ip);
      && !(refused && counted)
      && (!config.enabled || config.allows(ip) ==> !refused && !counted)
      && (config.enabled && !config.allows(ip) && s.shared.accepting && HasPlace(config, s, ip) ==> refused || counted)
  {
  }

  /** A violation is counted exactly when it can be, once and at its time; otherwise nothing changes. */
  lemma CountedExactly(config: Config, size: Size, s: System, ip: IpAddr, rule: ViolationRule)
    requires Invariant(config, size, s) && Enabled(config, size, s, Violation(ip, rule))
    ensures var t := Next(config, size, s, Violation(ip, rule));
      && (Countable(config, s, ip) ==>
            && |t.log| == |s.log| + 1 && s.log <= t.log
            && t.log[|s.log|].ip == ip && t.log[|s.log|].rule == rule && t.log[|s.log|].tally.at == s.clock)
      && (!Countable(config, s, ip) ==> t == s)
  {
    var windows := RecordCases(config, s.shared, ip, rule, s.clock);
    RecordLogs(config, s, ip, rule);
  }

  /**
  A counted violation makes its client pending exactly when the count has reached the threshold, no
  entry of the client is waiting and the set has room.  Then the client is blocked for 300 seconds
  from the violation.  An entry can only be waiting if it has lapsed and was not expired yet.
  */
  lemma CrossingEnters(config: Config, size: Size, s: System, ip: IpAddr, rule: ViolationRule)
    requires Invariant(config, size, s) && Enabled(config, size, s, Violation(ip, rule)) && Countable(config, s, ip)
    ensures var t := Next(config, size, s, Violation(ip, rule));
      && |t.log| == |s.log| + 1
      && var entry := t.log[|s.log|];
      && (entry.entered <==>
            && entry.tally.count >= config.threshold(rule)
            && ip !in s.shared.pending && |s.shared.pending| < config.maxPending)
      && (entry.entered ==>
            && t.shared.pending == s.shared.pending[ip := PendingBlock(rule, entry.tally.count, s.clock + 300 * SECOND)]
            && ip in t.shared.temporary && t.shared.temporary[ip] == s.clock + 300 * SECOND
            && Blocked(config, t.shared, ip, s.clock))
      && (!entry.entered ==> t.shared.pending == s.shared.pending)
    ensures ip in s.shared.pending ==> s.shared.pending[ip].deadline <= s.clock
  {
    CountedExactly(config, size, s, ip, rule);
    var windows := RecordCases(config, s.shared, ip, rule, s.clock);
    RecordLogs(config, s, ip, rule);
    CountedEnters(config, s.shared, ip, rule, s.clock);
  }

  lemma CountedEnters(config: Config, s: Shared, ip: IpAddr, rule: ViolationRule, now: Instant)
    requires ConfigOk(config) && WindowsShaped(config, s.windows)
    ensures var recorded := Record(config, s, ip, rule, now).1;
      !recorded.Ignored? ==>
        (recorded.EnteredPending? <==>
           recorded.tally.count >= config.threshold(rule) && ip !in s.pending && |s.pending| < config.maxPending)
  {
    CountKeepsShape(config, s, ip, rule, now);
  }

  // ---- whole runs ----

  /** There is a place in the pending set, and no lapsed entry of the client waits to be expired. */
  ghost predicate HasRoom(config: Config, s: System, ip: IpAddr) {
    && |s.shared.pending| < config.maxPending
    && (ip in s.shared.pending ==> s.shared.pending[ip].deadline > s.clock)
  }

  lemma LoggedOnce(config: Config, size: Size, s: System, e: Event)
    requires Invariant(config, size, s) && Enabled(config, size, s, e) && !e.Restart?
    ensures var t := Next(config, size, s, e);
      && s.log <= t.log && |t.log| <= |s.log| + 1
      && (|t.log| > |s.log| ==>
            && e.Violation? && Countable(config, s, e.ip)
            && t.log[|s.log|].ip == e.ip && t.log[|s.log|].rule == e.rule)
  {
    if e.Violation? {
      CountedExactly(config, size, s, e.ip, e.rule);
    }
  }

  /** With room whenever the client violates this rule, each of its counts that reaches the threshold enters it. */
  lemma {:induction false} CrossingsEnter(config: Config, size: Size, states: seq<System>, events: seq<Event>, n: nat,
    ip: IpAddr, rule: ViolationRule)
    requires IsRun(config, size, states, events) && Invariant(config, size, states[0]) && n <= |events|
    requires forall m | 0 <= m < |events| :: !events[m].Restart?
    requires forall m | 0 <= m < |events| && events[m] == Violation(ip, rule) :: HasRoom(config, states[m], ip)
    ensures states[0].log <= states[n].log
    ensures forall l | |states[0].log| <= l < |states[n].log| :: Enters(config, states[n].log[l], ip, rule)
    decreases n
  {
    if n > 0 {
      var m := n - 1;
      CrossingsEnter(config, size, states, events, m, ip, rule);
      InvariantEach(config, size, states, events, m);
      assert Step(config, size, states[m], events[m], states[m + 1]);
      StepEnters(config, size, states[m], events[m], |states[0].log|, ip, rule);
    }
  }

  lemma StepEnters(config: Config, size: Size, s: System, e: Event, from: nat, ip: IpAddr, rule: ViolationRule)
    requires Invariant(config, size, s) && Enabled(config, size, s, e) && !e.Restart?
    requires e == Violation(ip, rule) ==> HasRoom(config, s, ip)
    requires forall l | from <= l < |s.log| :: Enters(config, s.log[l], ip, rule)
    ensures s.log <= Next(config, size, s, e).log
    ensures var log := Next(config, size, s, e).log;
      forall l | from <= l < |log| :: Enters(config, log[l], ip, rule)
  {
    LoggedOnce(config, size, s, e);
    var log := Next(config, size, s, e).log;
    forall l | from <= l < |log|
      ensures Enters(config, log[l], ip, rule)
    {
      if l < |s.log| {
        assert log[l] == s.log[l];
      } else if e == Violation(ip, rule) {
        CrossingEnters(config, size, s, ip, rule);
      }
    }
  }

  /** A count of this client and rule that reaches the threshold made the client pending. */
  ghost predicate Enters(config: Config, entry: LogEntry, ip: IpAddr, rule: ViolationRule) {
    entry.ip == ip && entry.rule == rule && entry.tally.count >= config.threshold(rule) ==> entry.entered
  }

  lemma {:induction false} TallyInLog(log: seq<LogEntry>, start: nat, ip: IpAddr, rule: ViolationRule, k: nat)
    returns (l: nat)
    requires start <= |log| && |Tallies(log[..start], ip, rule)| <= k < |Tallies(log, ip, rule)|
    ensures start <= l < |log| && log[l].ip == ip && log[l].rule == rule && log[l].tally == Tallies(log, ip, rule)[k]
    decreases |log|
  {
    assert log[..|log|] == log;
    var front, last := log[..|log| - 1], log[|log| - 1];
    if k < |Tallies(front, ip, rule)| {
      assert front[..start] == log[..start];
      l := TallyInLog(front, start, ip, rule, k);
    } else {
      l := |log| - 1;
    }
  }

  /** From the `i`-th to the `j`-th: one less than twice the threshold, in less than the window. */
  predicate Enough(tallies: seq<Tally>, rule: ViolationRule, threshold: nat, i: nat, j: nat) {
    && i <= j < |tallies|
    && j - i + 1 >= 2 * threshold - 1
    && tallies[j].at - tallies[i].at < rule.Window()
  }

  /** Log entry `k` made the client pending, no earlier than its `i`-th and no later than its `j`-th violation. */
  predicate EntersBetween(log: seq<LogEntry>, ip: IpAddr, rule: ViolationRule, i: nat, j: nat, k: nat) {
    var tallies := Tallies(log, ip, rule);
    && i <= j < |tallies| && k < |log|
    && log[k].entered && log[k].ip == ip && log[k].rule == rule
    && tallies[i].at <= log[k].tally.at <= tallies[j].at
  }

  /**
  Enough violations block: in a run of one process with room in the pending set, `2 * threshold - 1`
  violations of a rule counted in less than its window contain one that makes the client pending.
  */
  lemma EnoughViolationsBlock(config: Config, size: Size, states: seq<System>, events: seq<Event>, ip: IpAddr,
    rule: ViolationRule, i: nat, j: nat) returns (k: nat)
    requires IsRun(config, size, states, events) && Invariant(config, size, states[0])
    requires forall m | 0 <= m < |events| :: !events[m].Restart?
    requires forall m | 0 <= m < |events| && events[m] == Violation(ip, rule) :: HasRoom(config, states[m], ip)
    requires |Tallies(states[0].log, ip, rule)| <= i
    requires Enough(Tallies(states[|events|].log, ip, rule), rule, config.threshold(rule), i, j)
    ensures EntersBetween(states[|events|].log, ip, rule, i, j, k)
  {
    var last := states[|events|];
    CrossingsEnter(config, size, states, events, |events|, ip, rule);
    InvariantEach(config, size, states, events, |events|);
    assert last.log[..|states[0].log|] == states[0].log;
    k := EnteredAmong(config, size, last, |states[0].log|, ip, rule, i, j);
  }

  lemma EnteredAmong(config: Config, size: Size, s: System, start: nat, ip: IpAddr, rule: ViolationRule, i: nat, j: nat)
    returns (k: nat)
    requires Invariant(config, size, s) && start <= |s.log|
    requires forall l | start <= l < |s.log| :: Enters(config, s.log[l], ip, rule)
    requires |Tallies(s.log[..start], ip, rule)| <= i
    requires Enough(Tallies(s.log, ip, rule), rule, config.threshold(rule), i, j)
    ensures EntersBetween(s.log, ip, rule, i, j, k)
  {
    var tallies := Tallies(s.log, ip, rule);
    CrossingIsReached(config, size, s, ip, rule, i, j);
    var q :| i <= q <= j && tallies[q].count >= config.threshold(rule);
    k := TallyInLog(s.log, start, ip, rule, q);
    assert Enters(config, s.log[k], ip, rule);
    TalliesAreChain(config, size, s, ip, rule);
    ChainOrdered(tallies, rule.Window(), i, q);
    ChainOrdered(tallies, rule.Window(), q, j);
  }

  // ---- recording step by step ----

  /** Counting takes the request on to the pending lock exactly when the count has reached the threshold. */
  lemma SplitCrossing(config: Config, s: Split.State, t: Split.TaskId, rule: ViolationRule)
    requires Split.Shaped(config, s) && Split.Enabled(config, s, Split.Count(t, rule))
    ensures var n := Split.Next(config, s, Split.Count(t, rule));
      && s.counted <= n.counted && |n.counted| <= |s.counted| + 1
      && n.shared.pending == s.shared.pending
      && (t in n.recorders <==>
            |n.counted| > |s.counted| && n.counted[|s.counted|].late.tally.count >= config.threshold(rule))
      && (t in n.recorders ==>
            n.recorders[t] == s.recorders[t].(stage := Split.Crossed(rule, n.counted[|s.counted|].late.tally.count)))
  {
    CountKeepsShape(config, s.shared, s.recorders[t].ip, rule, s.recorders[t].now);
  }

  /** Under the pending lock the client is entered exactly when it is not there and there is a place. */
  lemma SplitEnters(config: Config, s: Split.State, t: Split.TaskId, rule: ViolationRule, count: nat)
    requires Split.Shaped(config, s) && Split.Enabled(config, s, Split.Insert(t, rule, count))
    ensures var n, r := Split.Next(config, s, Split.Insert(t, rule, count)), s.recorders[t];
      && t !in n.recorders
      && if r.ip !in s.shared.pending && |s.shared.pending| < config.maxPending then
           && n.log == s.log + [Split.Entered(r.ip, rule, r.now + 300 * SECOND)]
           && n.shared.pending == s.shared.pending[r.ip := PendingBlock(rule, count, r.now + 300 * SECOND)]
           && r.ip in n.shared.temporary && n.shared.temporary[r.ip] == r.now + 300 * SECOND
         else n.log == s.log && n.shared == s.shared
  {
  }

  ghost predicate CanBegin(config: Config, s: Split.State, t: Split.TaskId, ip: IpAddr) {
    Split.Shaped(config, s) && Split.Enabled(config, s, Split.Begin(t, ip))
  }

  /** The two locked steps, one right after the other. */
  ghost function CountThenInsert(config: Config, s: Split.State, t: Split.TaskId, rule: ViolationRule): Split.State
    requires Split.Shaped(config, s) && Split.Enabled(config, s, Split.Count(t, rule))
  {
    var counted := Split.Next(config, s, Split.Count(t, rule));
    CountKeepsShape(config, s.shared, s.recorders[t].ip, rule, s.recorders[t].now);
    if t !in counted.recorders then counted
    else Split.Next(config, counted, Split.Insert(t, rule, counted.recorders[t].stage.count))
  }

  /** A recording that nothing interrupts, step after step until the request is done with. */
  ghost function AtOnce(config: Config, s: Split.State, t: Split.TaskId, ip: IpAddr, rule: ViolationRule): Split.State
    requires CanBegin(config, s, t, ip)
  {
    var began := Split.Next(config, s, Split.Begin(t, ip));
    var first := Split.Next(config, began, Split.ReadDurable(t));
    if t !in first.recorders then first
    else
      var second := Split.Next(config, first, Split.ReadTemporary(t));
      if t !in second.recorders then second else CountThenInsert(config, second, t, rule)
  }

  lemma CountThenInsertIs(config: Config, s: Split.State, t: Split.TaskId, rule: ViolationRule)
    requires Split.Shaped(config, s) && Split.Enabled(config, s, Split.Count(t, rule))
    ensures var r, after := s.recorders[t], CountThenInsert(config, s, t, rule);
      var counted := CountInShard(config, s.shared, r.ip, rule, r.now);
      && after.shared == AfterCount(config, counted.0, counted.1, r.ip, rule, r.now).0
      && after.recorders == s.recorders - {t}
  {
    var counted := Split.Next(config, s, Split.Count(t, rule));
    CountedAlone(config, s, t, rule);
    if t in counted.recorders {
      var count := counted.recorders[t].stage.count;
      Split.InsertIsEnqueue(config, counted, t, rule, count);
      InsertLeaves(config, counted, t, rule, count);
    }
  }

  lemma InsertLeaves(config: Config, s: Split.State, t: Split.TaskId, rule: ViolationRule, count: nat)
    requires Split.Shaped(config, s) && Split.Enabled(config, s, Split.Insert(t, rule, count))
    ensures Split.Next(config, s, Split.Insert(t, rule, count)) == Split.AfterInsert(config, s, t, rule, count)
    ensures Split.AfterInsert(config, s, t, rule, count).recorders == s.recorders - {t}
  {
  }

  lemma CountedAlone(config: Config, s: Split.State, t: Split.TaskId, rule: ViolationRule)
    requires Split.Shaped(config, s) && Split.Enabled(config, s, Split.Count(t, rule))
    ensures var r, n := s.recorders[t], Split.Next(config, s, Split.Count(t, rule));
      var counted := CountInShard(config, s.shared, r.ip, rule, r.now);
      && n.shared == counted.0
      && n.recorders - {t} == s.recorders - {t}
      && (t in n.recorders <==> counted.1.Some? && counted.1.value.count >= config.threshold(rule))
      && (t in n.recorders ==> n.recorders[t] == r.(stage := Split.Crossed(rule, counted.1.value.count)))
  {
  }

  /** Uninterrupted, the steps are the one step of the simpler machine. */
  lemma AtOnceIsRecord(config: Config, s: Split.State, t: Split.TaskId, ip: IpAddr, rule: ViolationRule)
    requires CanBegin(config, s, t, ip) && s.shared.accepting
    ensures AtOnce(config, s, t, ip, rule).shared == Record(config, s.shared, ip, rule, s.clock).0
    ensures AtOnce(config, s, t, ip, rule).recorders == s.recorders
  {
    var second := s.(recorders := s.recorders[t := Split.Recorder(ip, s.clock, Split.SawBoth)]);
    assert second.recorders - {t} == s.recorders;
    if Admits(config, s.shared, ip, s.clock) {
      ReadsPass(config, s, t, ip);
      CountThenInsertIs(config, second, t, rule);
    }
  }

  lemma ReadsPass(config: Config, s: Split.State, t: Split.TaskId, ip: IpAddr)
    requires CanBegin(config, s, t, ip) && Admits(config, s.shared, ip, s.clock)
    ensures var began := Split.Next(config, s, Split.Begin(t, ip));
      var first := Split.Next(config, began, Split.ReadDurable(t));
      && t in first.recorders
      && Split.Next(config, first, Split.ReadTemporary(t)) ==
           s.(recorders := s.recorders[t := Split.Recorder(ip, s.clock, Split.SawBoth)])
  {
  }
}
