/**
What reuse means over whole runs of the HTTP/1 pool: a connection that is handed out again is open
and was given back less than the idle timeout before, it is the one given back last, and a fresh
open connection is not thrown away while the pool runs.
*/
module PoolReuse {
  import opened Wrappers
  import opened HttpPool
  import opened PoolRuns
  import opened PoolTheorems

  // ---- the idle list is in order of return ----

  ghost predicate InOrder(idle: seq<IdleEntry>, now: Instant) {
    && (forall i, j | 0 <= i < j < |idle| :: idle[i].since <= idle[j].since)
    && (forall entry | entry in idle :: entry.since <= now)
  }

  lemma {:induction false} ReapedInOrder(idle: seq<IdleEntry>, now: Instant, timeout: nat, closed: set<ConnId>,
    shutdown: bool)
    requires InOrder(idle, now)
    ensures InOrder(Reaped(idle, now, timeout, closed, shutdown), now)
    decreases |idle|
  {
    if idle != [] {
      var front := idle[..|idle| - 1];
      ReapedInOrder(front, now, timeout, closed, shutdown);
      var kept := Reaped(front, now, timeout, closed, shutdown);
      forall i | 0 <= i < |kept|
        ensures kept[i].since <= idle[|idle| - 1].since
      {
        assert kept[i] in front;
      }
    }
  }

  lemma OrderKept(limits: Limits, s: Pool, e: Event)
    requires Enabled(limits, s, e) && InOrder(s.held.idle, s.now)
    ensures InOrder(Next(limits, s, e).held.idle, Next(limits, s, e).now)
  {
    var after := Next(limits, s, e).held.idle;
    if e.ReapIdle? {
      ReapedInOrder(s.held.idle, s.now, limits.idleTimeout, Closed(s.held.conns), s.shutdown);
    } else if e.BodyMoves? {
      assert after == s.held.idle || exists c :: after == s.held.idle + [IdleEntry(s.now, c)];
    } else {
      assert after <= s.held.idle;
    }
  }

  // ---- when an idle connection was given back ----

  /** The state after the first `k` steps. */
  ghost function StateAt(limits: Limits, s: Pool, events: seq<Event>, k: nat): Pool
    requires Runs(limits, s, events) && k <= |events|
    decreases k
  {
    if k == 0 then s else StateAt(limits, Next(limits, s, events[0]), events[1..], k - 1)
  }

  lemma {:induction false} LastState(limits: Limits, s: Pool, events: seq<Event>)
    requires Runs(limits, s, events)
    ensures StateAt(limits, s, events, |events|) == After(limits, s, events)
    decreases |events|
  {
    if events != [] {
      LastState(limits, Next(limits, s, events[0]), events[1..]);
    }
  }

  ghost predicate IdleAt(limits: Limits, s: Pool, events: seq<Event>, k: nat, entry: IdleEntry)
    requires Runs(limits, s, events) && k <= |events|
  {
    entry in StateAt(limits, s, events, k).held.idle
  }

  /** Step `k` made the connection idle, at the time of the entry, and it has been idle since. */
  ghost predicate GivenBackAt(limits: Limits, s: Pool, events: seq<Event>, k: nat, entry: IdleEntry)
    requires Runs(limits, s, events)
  {
    && k < |events| && events[k].BodyMoves?
    && StateAt(limits, s, events, k).now == entry.since
    && entry.conn !in ConnsOf(StateAt(limits, s, events, k).held.idle)
    && forall j: nat | k < j <= |events| :: IdleAt(limits, s, events, j, entry)
  }

  lemma NewEntry(limits: Limits, s: Pool, e: Event, entry: IdleEntry)
    requires Owned(s.held) && Enabled(limits, s, e)
    requires entry in Next(limits, s, e).held.idle && entry !in s.held.idle
    ensures e.BodyMoves? && entry.since == s.now && entry.conn !in ConnsOf(s.held.idle)
  {
    if e.BodyMoves? {
      StepMoves(s.held.exchanges[e.x].body, e.step);
      IdleAreOwned(s.held);
    }
  }

  /** One step earlier, everything is one index later. */
  lemma StateLater(limits: Limits, s: Pool, events: seq<Event>, k: nat)
    requires Runs(limits, s, events) && events != [] && k < |events|
    ensures StateAt(limits, s, events, k + 1) == StateAt(limits, Next(limits, s, events[0]), events[1..], k)
  {
  }

  lemma GivenBackLater(limits: Limits, s: Pool, events: seq<Event>, k: nat, entry: IdleEntry)
    requires Runs(limits, s, events) && events != []
    requires GivenBackAt(limits, Next(limits, s, events[0]), events[1..], k, entry)
    ensures GivenBackAt(limits, s, events, k + 1, entry)
  {
    var next, rest := Next(limits, s, events[0]), events[1..];
    StateLater(limits, s, events, k);
    forall j: nat | k + 1 < j <= |events|
      ensures IdleAt(limits, s, events, j, entry)
    {
      StateLater(limits, s, events, j - 1);
      assert IdleAt(limits, next, rest, j - 1, entry);
    }
  }

  lemma IdleLater(limits: Limits, s: Pool, events: seq<Event>, entry: IdleEntry)
    requires Runs(limits, s, events) && events != []
    requires forall j: nat | j <= |events[1..]| :: IdleAt(limits, Next(limits, s, events[0]), events[1..], j, entry)
    ensures forall j: nat | 1 <= j <= |events| :: IdleAt(limits, s, events, j, entry)
    ensures entry in Next(limits, s, events[0]).held.idle
  {
    var next, rest := Next(limits, s, events[0]), events[1..];
    forall j: nat | 1 <= j <= |events|
      ensures IdleAt(limits, s, events, j, entry)
    {
      StateLater(limits, s, events, j - 1);
      assert IdleAt(limits, next, rest, j - 1, entry);
    }
    assert IdleAt(limits, next, rest, 0, entry);
  }

  lemma {:induction false} IdleSince(limits: Limits, s: Pool, events: seq<Event>, entry: IdleEntry)
    requires Invariant(limits, s) && Runs(limits, s, events)
    requires entry in After(limits, s, events).held.idle
    ensures (forall j: nat | j <= |events| :: IdleAt(limits, s, events, j, entry))
      || exists k: nat :: GivenBackAt(limits, s, events, k, entry)
    decreases |events|
  {
    if events != [] {
      var next, rest := Next(limits, s, events[0]), events[1..];
      InvariantKept(limits, s, events[0]);
      IdleSince(limits, next, rest, entry);
      if k: nat :| GivenBackAt(limits, next, rest, k, entry) {
        GivenBackLater(limits, s, events, k, entry);
      } else {
        IdleLater(limits, s, events, entry);
        if entry !in s.held.idle {
          NewEntry(limits, s, events[0], entry);
          assert GivenBackAt(limits, s, events, 0, entry);
        }
      }
    }
  }

  lemma {:induction false} OrderAfter(limits: Limits, s: Pool, events: seq<Event>)
    requires Runs(limits, s, events) && InOrder(s.held.idle, s.now)
    ensures InOrder(After(limits, s, events).held.idle, After(limits, s, events).now)
    decreases |events|
  {
    if events != [] {
      OrderKept(limits, s, events[0]);
      OrderAfter(limits, Next(limits, s, events[0]), events[1..]);
    }
  }

  /**
  Exactly when a step of a response body makes its connection idle, on top of the list and dated now:
  healthy and read to the end, upload complete, open, no shutdown, and fewer idle ones than allowed.
  */
  lemma BecomesIdleExactly(limits: Limits, s: Pool, x: ExchangeId, step: BodyStep, target: Option<TaskId>)
    requires Invariant(limits, s) && Enabled(limits, s, BodyMoves(x, step, target))
    requires s.held.exchanges[x].body.http1.Some?
    ensures var body, idle := s.held.exchanges[x].body, s.held.idle;
      var c, after := body.http1.value, Next(limits, s, BodyMoves(x, step, target)).held.idle;
      var kept := body.healthy && ReadToTheEnd(step)
                  && !s.shutdown && !s.held.conns[c].closed && |idle| < limits.maxIdle;
      after == if kept then idle + [IdleEntry(s.now, c)] else idle
  {
    StepMoves(s.held.exchanges[x].body, step);
  }

  // ---- what is handed out ----

  /** The connection can be used again: open, and idle for less than the timeout. */
  predicate FreshAndOpen(limits: Limits, s: Pool, entry: IdleEntry) {
    && 0 < limits.idleTimeout && s.now < entry.since + limits.idleTimeout
    && entry.conn in s.held.conns && !s.held.conns[entry.conn].closed
  }

  /** The step hands the idle connection to the exchange it starts. */
  ghost predicate HandsOut(limits: Limits, s: Pool, e: Event, entry: IdleEntry)
    requires Enabled(limits, s, e)
  {
    && (e.FastTake? || e.Check?)
    && entry in s.held.idle
    && Claims(Next(limits, s, e).held, entry.conn, AtExchange(e.x))
  }

  /** A look at the idle list hands out the fresh open connection that was given back last, if there is one. */
  lemma TakesLatest(limits: Limits, s: Pool, e: Event)
    requires Invariant(limits, s) && InOrder(s.held.idle, s.now) && Enabled(limits, s, e) && (e.FastTake? || e.Check?)
    ensures e.x !in Next(limits, s, e).held.exchanges ==>
      forall entry | entry in s.held.idle :: !FreshAndOpen(limits, s, entry)
    ensures e.x in Next(limits, s, e).held.exchanges ==>
      exists entry :: HandsOut(limits, s, e, entry) && IsLatest(limits, s, entry)
  {
    var r := Popped(limits.idleTimeout, s.held, s.now);
    if r.0.Some? {
      var entry := s.held.idle[|r.1|];
      assert HandsOut(limits, s, e, entry);
      TopIsLatest(limits, s);
    }
  }

  lemma TopIsLatest(limits: Limits, s: Pool)
    requires Owned(s.held) && InOrder(s.held.idle, s.now) && Popped(limits.idleTimeout, s.held, s.now).0.Some?
    ensures IsLatest(limits, s, s.held.idle[|Popped(limits.idleTimeout, s.held, s.now).1|])
  {
    var top := |Popped(limits.idleTimeout, s.held, s.now).1|;
    forall other | other in s.held.idle && FreshAndOpen(limits, s, other)
      ensures other.since <= s.held.idle[top].since
    {
      var i :| 0 <= i < |s.held.idle| && s.held.idle[i] == other;
      assert i <= top;
    }
  }

  ghost predicate IsLatest(limits: Limits, s: Pool, entry: IdleEntry) {
    && FreshAndOpen(limits, s, entry)
    && forall other | other in s.held.idle && FreshAndOpen(limits, s, other) :: other.since <= entry.since
  }

  /**
  In every run from creation, an exchange that does not wait for a new connection gets one that is
  open and was given back, by a step of the run, less than the idle timeout ago; the one given back
  last.  It gets none only when every idle connection is closed or has been idle for the timeout.
  */
  lemma ReuseIsFresh(limits: Limits, now: Instant, elsewhere: nat, events: seq<Event>, e: Event)
    requires elsewhere <= limits.globalMax && Runs(limits, Start(limits, now, elsewhere), events)
    requires Enabled(limits, After(limits, Start(limits, now, elsewhere), events), e) && (e.FastTake? || e.Check?)
    ensures var start := Start(limits, now, elsewhere);
      var s := After(limits, start, events);
      if e.x in Next(limits, s, e).held.exchanges then
        exists entry: IdleEntry, k: nat ::
          HandsOut(limits, s, e, entry) && IsLatest(limits, s, entry) && GivenBackAt(limits, start, events, k, entry)
      else forall entry | entry in s.held.idle :: !FreshAndOpen(limits, s, entry)
  {
    InvariantAlways(limits, now, elsewhere, events);
    ReuseFrom(limits, Start(limits, now, elsewhere), events, e);
  }

  lemma ReuseFrom(limits: Limits, start: Pool, events: seq<Event>, e: Event)
    requires Invariant(limits, start) && start.held.idle == [] && Runs(limits, start, events)
    requires Invariant(limits, After(limits, start, events))
    requires Enabled(limits, After(limits, start, events), e) && (e.FastTake? || e.Check?)
    ensures var s := After(limits, start, events);
      if e.x in Next(limits, s, e).held.exchanges then
        exists entry: IdleEntry, k: nat ::
          HandsOut(limits, s, e, entry) && IsLatest(limits, s, entry) && GivenBackAt(limits, start, events, k, entry)
      else forall entry | entry in s.held.idle :: !FreshAndOpen(limits, s, entry)
  {
    var s := After(limits, start, events);
    OrderAfter(limits, start, events);
    TakesLatest(limits, s, e);
    if e.x in Next(limits, s, e).held.exchanges {
      var entry :| HandsOut(limits, s, e, entry) && IsLatest(limits, s, entry);
      assert !IdleAt(limits, start, events, 0, entry);
      IdleSince(limits, start, events, entry);
      var k: nat :| GivenBackAt(limits, start, events, k, entry);
    }
  }

  // ---- what leaves the idle list ----

  lemma OtherStepsKeep(limits: Limits, s: Pool, e: Event, entry: IdleEntry)
    requires Enabled(limits, s, e) && entry in s.held.idle && !e.FastTake? && !e.Check? && !e.ReapIdle?
    ensures entry in Next(limits, s, e).held.idle
  {
    if e.BodyMoves? {
      assert s.held.idle <= Next(limits, s, e).held.idle;
      var i :| 0 <= i < |s.held.idle| && s.held.idle[i] == entry;
      assert Next(limits, s, e).held.idle[i] == entry;
    }
  }

  lemma TakenOrStale(limits: Limits, s: Pool, e: Event, entry: IdleEntry)
    requires Enabled(limits, s, e) && (e.FastTake? || e.Check?)
    requires entry in s.held.idle && entry !in Next(limits, s, e).held.idle
    ensures HandsOut(limits, s, e, entry) || !FreshAndOpen(limits, s, entry)
  {
    var i :| 0 <= i < |s.held.idle| && s.held.idle[i] == entry;
    var r := Popped(limits.idleTimeout, s.held, s.now);
    assert forall j | 0 <= j < |r.1| :: r.1[j] == s.held.idle[j];
    if r.0.Some? && i == |r.1| {
      assert HandsOut(limits, s, e, entry);
    }
  }

  /** A connection leaves the idle list by being handed out, or when stale or closed, or reaped in a shutdown. */
  lemma LeavesOnlyFor(limits: Limits, s: Pool, e: Event, entry: IdleEntry)
    requires Enabled(limits, s, e)
    requires entry in s.held.idle && entry !in Next(limits, s, e).held.idle
    ensures e.FastTake? || e.Check? || e.ReapIdle?
    ensures HandsOut(limits, s, e, entry) || !FreshAndOpen(limits, s, entry) || (e.ReapIdle? && s.shutdown)
  {
    if e.FastTake? || e.Check? {
      TakenOrStale(limits, s, e, entry);
    } else if !e.ReapIdle? {
      OtherStepsKeep(limits, s, e, entry);
    }
  }

  ghost predicate OpenAt(limits: Limits, s: Pool, events: seq<Event>, k: nat, c: ConnId)
    requires Runs(limits, s, events) && k <= |events|
  {
    var conns := StateAt(limits, s, events, k).held.conns;
    c in conns && !conns[c].closed
  }

  ghost predicate HandedOutAt(limits: Limits, s: Pool, events: seq<Event>, k: nat, entry: IdleEntry)
    requires Runs(limits, s, events)
  {
    && k < |events|
    && Enabled(limits, StateAt(limits, s, events, k), events[k])
    && HandsOut(limits, StateAt(limits, s, events, k), events[k], entry)
  }

  lemma {:induction false} TimeAndShutdownGrow(limits: Limits, s: Pool, events: seq<Event>)
    requires Runs(limits, s, events)
    ensures s.now <= After(limits, s, events).now && (s.shutdown ==> After(limits, s, events).shutdown)
    decreases |events|
  {
    if events != [] {
      TimeAndShutdownGrow(limits, Next(limits, s, events[0]), events[1..]);
    }
  }

  /**
  An idle connection that stays open is not lost while the pool runs: until its timeout has passed
  it is still idle, or some step has handed it out.
  */
  lemma {:induction false} FreshIsKept(limits: Limits, s: Pool, events: seq<Event>, entry: IdleEntry)
    requires Invariant(limits, s) && Runs(limits, s, events) && entry in s.held.idle
    requires forall k: nat | k < |events| :: OpenAt(limits, s, events, k, entry.conn)
    requires var t := After(limits, s, events); !t.shutdown && t.now < entry.since + limits.idleTimeout
    requires 0 < limits.idleTimeout
    ensures entry in After(limits, s, events).held.idle || exists k: nat :: HandedOutAt(limits, s, events, k, entry)
    decreases |events|
  {
    if events != [] {
      var next, rest := Next(limits, s, events[0]), events[1..];
      InvariantKept(limits, s, events[0]);
      TimeAndShutdownGrow(limits, s, events);
      assert OpenAt(limits, s, events, 0, entry.conn);
      if entry in next.held.idle {
        forall k: nat | k < |rest|
          ensures OpenAt(limits, next, rest, k, entry.conn)
        {
          assert OpenAt(limits, s, events, k + 1, entry.conn);
        }
        FreshIsKept(limits, next, rest, entry);
        if k: nat :| HandedOutAt(limits, next, rest, k, entry) {
          assert HandedOutAt(limits, s, events, k + 1, entry);
        }
      } else {
        LeavesOnlyFor(limits, s, events[0], entry);
        assert HandedOutAt(limits, s, events, 0, entry);
      }
    }
  }
}
