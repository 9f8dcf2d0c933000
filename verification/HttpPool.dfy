/**
The HTTP/1 side of the upstream pool (src/http_proxy/pool.rs): the idle stack, and the body wrappers
that decide whether a connection goes back to it.  A connection is known by a number; the outside
world says which senders are closed.
*/
module HttpPool {
  import opened Wrappers

  type Instant = nat
  type ConnId = nat

  datatype IdleEntry = IdleEntry(since: Instant, conn: ConnId)

  // ---- the idle stack as functions ----

  /** `elapsed` never goes negative. */
  function Age(since: Instant, now: Instant): nat {
    if now >= since then now - since else 0
  }

  predicate Usable(entry: IdleEntry, now: Instant, timeout: nat, closed: set<ConnId>) {
    Age(entry.since, now) < timeout && entry.conn !in closed
  }

  /** Idle for the timeout, or closed.  A timeout of zero keeps nothing, even when the clock has gone back. */
  predicate Stale(entry: IdleEntry, now: Instant, timeout: nat, closed: set<ConnId>) {
    timeout == 0 || now >= entry.since + timeout || entry.conn in closed
  }

  /** What is taken is open and was put in less than the timeout ago; what is dropped above it is stale. */
  ghost predicate TakesFresh(idle: seq<IdleEntry>, now: Instant, timeout: nat, closed: set<ConnId>,
    found: Option<ConnId>, rest: seq<IdleEntry>)
  {
    && rest <= idle
    && (found.Some? ==>
          && |rest| < |idle| && idle[|rest|].conn == found.value
          && now < idle[|rest|].since + timeout && 0 < timeout && found.value !in closed
          && forall i | |rest| < i < |idle| :: Stale(idle[i], now, timeout, closed))
    && (found.None? ==> rest == [] && forall i | 0 <= i < |idle| :: Stale(idle[i], now, timeout, closed))
  }

  /** Pops until a usable connection turns up; everything popped before it is dropped. */
  function TakeIdle(idle: seq<IdleEntry>, now: Instant, timeout: nat, closed: set<ConnId>)
    : (r: (Option<ConnId>, seq<IdleEntry>))
    ensures TakesFresh(idle, now, timeout, closed, r.0, r.1)
  {
    if idle == [] then (None, [])
    else
      var last := idle[|idle| - 1];
      if Usable(last, now, timeout, closed) then (Some(last.conn), idle[..|idle| - 1])
      else TakeIdle(idle[..|idle| - 1], now, timeout, closed)
  }

  /** The entries popped before the one taken. */
  function Discards(idle: seq<IdleEntry>, found: Option<ConnId>, rest: seq<IdleEntry>): seq<IdleEntry>
    requires rest <= idle && (found.Some? ==> |rest| < |idle|)
  {
    if found.Some? then idle[|rest| + 1..] else idle[|rest|..]
  }

  /** `retain`: the usable entries, in order, and none after shutdown. */
  function Reaped(idle: seq<IdleEntry>, now: Instant, timeout: nat, closed: set<ConnId>, shutdown: bool)
      : (r: seq<IdleEntry>)
    ensures |r| <= |idle|
    ensures forall entry :: entry in r <==>
      entry in idle && !shutdown && !Stale(entry, now, timeout, closed)
  {
    if idle == [] then []
    else
      var rest := Reaped(idle[..|idle| - 1], now, timeout, closed, shutdown);
      var last := idle[|idle| - 1];
      assert idle == idle[..|idle| - 1] + [last];
      if !shutdown && Usable(last, now, timeout, closed) then rest + [last] else rest
  }

  /** Whether `return_http1` keeps the connection. */
  predicate Returns(maxIdle: nat, idle: seq<IdleEntry>, shutdown: bool, conn: ConnId, closed: set<ConnId>) {
    !shutdown && conn !in closed && |idle| < maxIdle
  }

  function AfterReturn(maxIdle: nat, idle: seq<IdleEntry>, shutdown: bool, conn: ConnId, now: Instant,
      closed: set<ConnId>)
    : seq<IdleEntry>
  {
    if Returns(maxIdle, idle, shutdown, conn, closed) then idle + [IdleEntry(now, conn)] else idle
  }

  function ConnsOf(idle: seq<IdleEntry>): set<ConnId> {
    set i | 0 <= i < |idle| :: idle[i].conn
  }

  class UpstreamPool {
    const maxIdle: nat
    const idleTimeout: nat
    var idle: seq<IdleEntry>
    var shutdown: bool
    var lastActivity: Instant
    /** Wake-ups sent to waiters. */
    var notifications: nat
    /** Connections whose last owner dropped them: their driver is told to stop. */
    ghost var cancelled: set<ConnId>

    ghost predicate Valid()
      reads this
    {
      |idle| <= maxIdle
    }

    constructor (maxIdle: nat, idleTimeout: nat)
      ensures Valid() && idle == [] && !shutdown && cancelled == {} && notifications == 0
      ensures this.maxIdle == maxIdle && this.idleTimeout == idleTimeout
    {
      this.maxIdle := maxIdle;
      this.idleTimeout := idleTimeout;
      idle := [];
      shutdown := false;
      lastActivity := 0;
      notifications := 0;
      cancelled := {};
    }

    method TakeIdleHttp1(now: Instant, closed: set<ConnId>) returns (r: Option<ConnId>)
      requires Valid()
      modifies this`idle, this`cancelled
      ensures Valid()
      ensures (r, idle) == TakeIdle(old(idle), now, idleTimeout, closed)
      ensures TakesFresh(old(idle), now, idleTimeout, closed, r, idle)
      ensures cancelled == old(cancelled) + ConnsOf(Discards(old(idle), r, idle))
    {
      ghost var stack := idle;
      while idle != []
        invariant |idle| <= |stack| && idle == stack[..|idle|] && |idle| <= maxIdle
        invariant TakeIdle(idle, now, idleTimeout, closed) == TakeIdle(stack, now, idleTimeout, closed)
        invariant cancelled == old(cancelled) + ConnsOf(stack[|idle|..])
        decreases |idle|
      {
        PopSplits(stack, |idle|);
        var last := idle[|idle| - 1];
        idle := idle[..|idle| - 1];
        if Usable(last, now, idleTimeout, closed) {
          return Some(last.conn);
        }
        cancelled := cancelled + {last.conn};
      }
      return None;
    }

    method ReturnHttp1(conn: ConnId, now: Instant, closed: set<ConnId>)
      requires Valid()
      modifies this
      ensures Valid() && shutdown == old(shutdown) && lastActivity == now
      ensures idle == AfterReturn(maxIdle, old(idle), old(shutdown), conn, now, closed)
      ensures var returned := Returns(maxIdle, old(idle), old(shutdown), conn, closed);
        && notifications == old(notifications) + (if returned then 1 else 0)
        && cancelled == (if returned then old(cancelled) else old(cancelled) + {conn})
    {
      lastActivity := now;
      if shutdown || conn in closed {
        cancelled := cancelled + {conn};
        return;
      }
      if |idle| < maxIdle {
        idle := idle + [IdleEntry(now, conn)];
        notifications := notifications + 1;
      } else {
        cancelled := cancelled + {conn};
      }
    }

    method ReapIdle(now: Instant, closed: set<ConnId>)
      requires Valid()
      modifies this`idle, this`cancelled
      ensures Valid()
      ensures idle == Reaped(old(idle), now, idleTimeout, closed, shutdown)
      ensures forall entry :: entry in idle <==>
        entry in old(idle) && !shutdown && !Stale(entry, now, idleTimeout, closed)
      ensures cancelled == old(cancelled) + (ConnsOf(old(idle)) - ConnsOf(idle))
    {
      ghost var stack := idle;
      var kept: seq<IdleEntry> := [];
      for i := 0 to |idle|
        invariant kept == Reaped(stack[..i], now, idleTimeout, closed, shutdown)
        invariant idle == stack && unchanged(this)
      {
        assert stack[..i + 1][..i] == stack[..i];
        if !shutdown && Usable(idle[i], now, idleTimeout, closed) {
          kept := kept + [idle[i]];
        }
      }
      assert stack[..|stack|] == stack;
      cancelled := cancelled + (ConnsOf(idle) - ConnsOf(kept));
      idle := kept;
    }
  }

  lemma PopSplits(stack: seq<IdleEntry>, n: nat)
    requires 0 < n <= |stack|
    ensures stack[..n][..n - 1] == stack[..n - 1] && stack[..n][n - 1] == stack[n - 1]
    ensures ConnsOf(stack[n - 1..]) == {stack[n - 1].conn} + ConnsOf(stack[n..])
  {
    assert stack[n - 1..] == [stack[n - 1]] + stack[n..];
    ConnsCons(stack[n - 1], stack[n..]);
  }

  lemma ConnsCons(entry: IdleEntry, idle: seq<IdleEntry>)
    ensures ConnsOf([entry] + idle) == {entry.conn} + ConnsOf(idle)
  {
    var all := [entry] + idle;
    forall conn
      ensures conn in ConnsOf(all) <==> conn in {entry.conn} + ConnsOf(idle)
    {
      if i :| 0 <= i < |idle| && idle[i].conn == conn {
        assert all[i + 1].conn == conn;
      }
      if conn == entry.conn {
        assert all[0].conn == conn;
      }
    }
  }

  // ---- the exchange and its two bodies ----

  /** The end of the request body is reported through here. */
  class ExchangeLease {
    var uploadComplete: bool
    var cancelled: bool

    ghost function State(): Upload
      reads this
    {
      Upload(uploadComplete, cancelled)
    }

    constructor (uploadComplete: bool)
      ensures this.uploadComplete == uploadComplete && !cancelled
    {
      this.uploadComplete := uploadComplete;
      cancelled := false;
    }
  }

  /** What polling an incoming body gives; `ended` is `is_end_stream` afterwards. */
  datatype Poll =
    | Ready(frame: FrameKind, ended: bool)
    | Waiting(timedOut: bool, ended: bool)

  datatype FrameKind = Good | Bad | Nothing

  datatype UploadPoll = Passed(frame: FrameKind) | Interrupted | TimedOut | StillWaiting

  /** How far the request body has come. */
  datatype Upload = Upload(complete: bool, cancelled: bool)

  /** The poll shows the end of the body, without an error. */
  predicate SeesEnd(poll: Poll) {
    poll.Ready? && poll.frame != Bad && (poll.frame == Good ==> poll.ended)
  }

  predicate TimesOut(poll: Poll) {
    poll.Waiting? && poll.timedOut
  }

  function AfterUpload(upload: Upload, poll: Poll): Upload {
    if upload.cancelled then upload
    else match poll
      case Ready(frame, ended) => upload.(complete := upload.complete || frame == Nothing || (frame == Good && ended))
      case Waiting(timedOut, _) => upload.(cancelled := timedOut)
  }

  function AfterUploads(upload: Upload, polls: seq<Poll>): Upload
    decreases |polls|
  {
    if polls == [] then upload else AfterUploads(AfterUpload(upload, polls[0]), polls[1..])
  }

  /**
  Over any polls, the upload becomes complete exactly when one of them sees the end and none before
  it timed out.
  */
  lemma {:induction false} CompleteExactly(upload: Upload, polls: seq<Poll>)
    requires !upload.complete
    ensures AfterUploads(upload, polls).complete <==>
      !upload.cancelled
      && exists i | 0 <= i < |polls| :: SeesEnd(polls[i]) && forall j | 0 <= j < i :: !TimesOut(polls[j])
    decreases |polls|
  {
    if polls != [] {
      var next, rest := AfterUpload(upload, polls[0]), polls[1..];
      if next.complete {
        assert SeesEnd(polls[0]);
        StaysComplete(next, rest);
      } else {
        CompleteExactly(next, rest);
        assert forall i | 0 <= i < |rest| :: rest[i] == polls[i + 1];
        if AfterUploads(next, rest).complete {
          var i :| 0 <= i < |rest| && SeesEnd(rest[i]) && forall j | 0 <= j < i :: !TimesOut(rest[j]);
          assert SeesEnd(polls[i + 1]);
          assert forall j | 0 <= j < i + 1 :: j == 0 || polls[j] == rest[j - 1];
        }
        if i :|
          && 0 <= i < |polls| && SeesEnd(polls[i]) && !upload.cancelled
          && forall j | 0 <= j < i :: !TimesOut(polls[j])
        {
          assert i > 0 && SeesEnd(rest[i - 1]);
          assert forall j | 0 <= j < i - 1 :: !TimesOut(rest[j]);
        }
      }
    }
  }

  lemma {:induction false} StaysComplete(upload: Upload, polls: seq<Poll>)
    requires upload.complete
    ensures AfterUploads(upload, polls).complete
    decreases |polls|
  {
    if polls != [] {
      StaysComplete(AfterUpload(upload, polls[0]), polls[1..]);
    }
  }

  class UploadBody {
    const exchange: ExchangeLease

    constructor (exchange: ExchangeLease)
      ensures this.exchange == exchange
    {
      this.exchange := exchange;
    }

    /** The upload is complete once its end has been seen, and only then; a timeout cancels the exchange. */
    method PollFrame(poll: Poll) returns (r: UploadPoll)
      modifies exchange
      ensures exchange.State() == AfterUpload(old(exchange.State()), poll)
      ensures old(exchange.cancelled) ==> r == Interrupted
      ensures !old(exchange.cancelled) ==>
        (r == if poll.Ready? then Passed(poll.frame) else if poll.timedOut then TimedOut else StillWaiting)
    {
      if exchange.cancelled {
        return Interrupted;
      }
      match poll {
        case Ready(frame, ended) =>
          if frame == Nothing || (frame == Good && ended) {
            exchange.uploadComplete := true;
          }
          return Passed(frame);
        case Waiting(timedOut, _) =>
          if timedOut {
            exchange.cancelled := true;
            return TimedOut;
          }
          return StillWaiting;
      }
    }
  }

  /** The part of a response body that decides what happens to its connection. */
  datatype BodyState = BodyState(http1: Option<ConnId>, healthy: bool)

  /** What becomes of the connection in one step. */
  datatype Outcome = Kept | GivenBack(conn: ConnId) | Discarded(conn: ConnId)

  /** `finish_http1`. */
  function Finish(body: BodyState, ended: bool, uploadComplete: bool): (BodyState, Outcome) {
    if body.http1.None? then (body, Kept)
    else
      (body.(http1 := None),
       if body.healthy && ended && uploadComplete then GivenBack(body.http1.value) else Discarded(body.http1.value))
  }

  function AfterPoll(body: BodyState, poll: Poll, uploadComplete: bool): (BodyState, Outcome) {
    match poll
    case Ready(frame, ended) =>
      var seen := body.(healthy := body.healthy && frame != Bad);
      if frame == Nothing || ended then Finish(seen, ended, uploadComplete) else (seen, Kept)
    case Waiting(timedOut, _) =>
      if !timedOut then (body, Kept)
      else (BodyState(None, false), if body.http1.Some? then Discarded(body.http1.value) else Kept)
  }

  class PooledResponseBody {
    const pool: UpstreamPool
    const exchange: ExchangeLease
    var http1: Option<ConnId>
    var healthy: bool
    var ended: bool

    ghost function State(): BodyState
      reads this
    {
      BodyState(http1, healthy)
    }

    constructor (pool: UpstreamPool, exchange: ExchangeLease, http1: Option<ConnId>, ended: bool)
      ensures this.pool == pool && this.exchange == exchange
      ensures State() == BodyState(http1, true) && this.ended == ended
    {
      this.pool := pool;
      this.exchange := exchange;
      this.http1 := http1;
      healthy := true;
      this.ended := ended;
    }

    /** The pool after a step of this body. */
    twostate predicate Hands(outcome: Outcome, now: Instant, closed: set<ConnId>)
      reads this, pool
    {
      match outcome
      case Kept => pool.idle == old(pool.idle) && pool.cancelled == old(pool.cancelled)
      case Discarded(conn) => pool.idle == old(pool.idle) && pool.cancelled == old(pool.cancelled) + {conn}
      case GivenBack(conn) =>
        && pool.idle == AfterReturn(pool.maxIdle, old(pool.idle), old(pool.shutdown), conn, now, closed)
        && pool.cancelled ==
             (if Returns(pool.maxIdle, old(pool.idle), old(pool.shutdown), conn, closed) then old(pool.cancelled)
              else old(pool.cancelled) + {conn})
    }

    method FinishHttp1(now: Instant, closed: set<ConnId>)
      requires pool.Valid()
      modifies this`http1, pool
      ensures pool.Valid() && pool.shutdown == old(pool.shutdown)
      ensures State() == Finish(old(State()), ended, exchange.uploadComplete).0
      ensures Hands(Finish(old(State()), ended, exchange.uploadComplete).1, now, closed)
    {
      var taken := http1;
      http1 := None;
      if taken.Some? {
        if healthy && ended && exchange.uploadComplete {
          pool.ReturnHttp1(taken.value, now, closed);
        } else {
          pool.cancelled := pool.cancelled + {taken.value};
        }
      }
      pool.lastActivity := now;
    }

    method PollFrame(poll: Poll, now: Instant, closed: set<ConnId>)
      requires pool.Valid()
      modifies this, pool, exchange
      ensures pool.Valid()
      ensures ended == poll.ended
      ensures State() == AfterPoll(old(State()), poll, old(exchange.uploadComplete)).0
      ensures Hands(AfterPoll(old(State()), poll, old(exchange.uploadComplete)).1, now, closed)
      ensures exchange.uploadComplete == old(exchange.uploadComplete)
      ensures exchange.cancelled <==> old(exchange.cancelled) || (poll.Waiting? && poll.timedOut)
    {
      ended := poll.ended;
      match poll {
        case Ready(frame, _) =>
          if frame == Bad {
            healthy := false;
          }
          if frame == Nothing || ended {
            FinishHttp1(now, closed);
          }
        case Waiting(timedOut, _) =>
          if timedOut {
            healthy := false;
            if http1.Some? {
              pool.cancelled := pool.cancelled + {http1.value};
              http1 := None;
            }
            exchange.cancelled := true;
          }
      }
    }

    /** `drop`. */
    method Drop(now: Instant, closed: set<ConnId>)
      requires pool.Valid()
      modifies this, pool, exchange
      ensures pool.Valid() && http1.None? && exchange.cancelled
      ensures Hands(Finish(old(State()), old(ended), old(exchange.uploadComplete)).1, now, closed)
    {
      FinishHttp1(now, closed);
      exchange.cancelled := true;
    }
  }

  // ---- any sequence of polls, then the drop ----

  /** One step in the life of a response body, with the upload as it stands. */
  datatype BodyStep = Polled(poll: Poll, uploadComplete: bool) | DroppedAt(ended: bool, uploadComplete: bool)

  function AfterStep(body: BodyState, step: BodyStep): (BodyState, Outcome) {
    match step
    case Polled(poll, uploadComplete) => AfterPoll(body, poll, uploadComplete)
    case DroppedAt(ended, uploadComplete) => Finish(body, ended, uploadComplete)
  }

  function Outcomes(body: BodyState, steps: seq<BodyStep>): (outcomes: seq<Outcome>)
    ensures |outcomes| == |steps|
    decreases |steps|
  {
    if steps == [] then []
    else
      var next := AfterStep(body, steps[0]);
      [next.1] + Outcomes(next.0, steps[1..])
  }

  predicate ReadToTheEnd(step: BodyStep) {
    match step
    case Polled(poll, uploadComplete) => poll.Ready? && poll.ended && poll.frame != Bad && uploadComplete
    case DroppedAt(ended, uploadComplete) => ended && uploadComplete
  }

  predicate Spoils(step: BodyStep) {
    step.Polled? && ((step.poll.Ready? && step.poll.frame == Bad) || (step.poll.Waiting? && step.poll.timedOut))
  }

  /** A poll that neither ends nor spoils the response. */
  predicate StillReading(step: BodyStep) {
    step.Polled? && !Spoils(step) && (step.poll.Ready? ==> step.poll.frame != Nothing && !step.poll.ended)
  }

  /** Once the connection has left the body, no later step touches it. */
  lemma {:induction false} NothingAfterwards(body: BodyState, steps: seq<BodyStep>, i: nat)
    requires body.http1.None? && i < |steps|
    ensures Outcomes(body, steps)[i] == Kept
    decreases |steps|
  {
    if i > 0 {
      NothingAfterwards(AfterStep(body, steps[0]).0, steps[1..], i - 1);
    }
  }

  /** A connection leaves its body at most once, although polling and dropping both try. */
  lemma {:induction false} LeavesOnce(body: BodyState, steps: seq<BodyStep>, i: nat, j: nat)
    requires i < j < |steps| && Outcomes(body, steps)[i] != Kept
    ensures Outcomes(body, steps)[j] == Kept
    decreases |steps|
  {
    var next := AfterStep(body, steps[0]).0;
    if i == 0 {
      NothingAfterwards(next, steps[1..], j - 1);
    } else {
      LeavesOnce(next, steps[1..], i - 1, j - 1);
    }
  }

  /**
  A connection is given back exactly at the first step that finds the response read to its end
  with the upload complete, no error or timeout seen before, and the connection still there.
  */
  lemma {:induction false} GivenBackOnlyClean(body: BodyState, steps: seq<BodyStep>, i: nat)
    requires i < |steps| && Outcomes(body, steps)[i].GivenBack?
    ensures body.http1 == Some(Outcomes(body, steps)[i].conn) && body.healthy
    ensures ReadToTheEnd(steps[i])
    ensures forall k | 0 <= k <= i :: !Spoils(steps[k])
    decreases |steps|
  {
    if i > 0 {
      var next := AfterStep(body, steps[0]).0;
      GivenBackOnlyClean(next, steps[1..], i - 1);
      assert steps[1..][i - 1] == steps[i];
      forall k | 0 <= k <= i
        ensures !Spoils(steps[k])
      {
        assert k > 0 ==> steps[k] == steps[1..][k - 1];
      }
    }
  }

  /** Conversely a clean body gives its connection back at its first step that reads to the end. */
  lemma {:induction false} CleanIsGivenBack(body: BodyState, steps: seq<BodyStep>, i: nat)
    requires body.http1.Some? && body.healthy && i < |steps| && ReadToTheEnd(steps[i])
    requires forall k | 0 <= k < i :: StillReading(steps[k])
    ensures Outcomes(body, steps)[i] == GivenBack(body.http1.value)
    decreases |steps|
  {
    if i > 0 {
      var next := AfterStep(body, steps[0]).0;
      assert steps[1..][i - 1] == steps[i];
      forall k | 0 <= k < i - 1
        ensures steps[1..][k] == steps[k + 1]
      {
      }
      CleanIsGivenBack(next, steps[1..], i - 1);
    }
  }

  /** The step ends the body: its end is seen, its time is up, or it is dropped. */
  predicate Releases(step: BodyStep) {
    match step
    case Polled(Ready(frame, ended), _) => frame == Nothing || ended
    case Polled(Waiting(timedOut, _), _) => timedOut
    case DroppedAt(_, _) => true
  }

  /**
  Exactly when a connection leaves its body and how: it stays until the first step that ends the body,
  and that step gives it back if everything so far was clean and drops it otherwise.
  */
  lemma {:induction false} FirstReleaseDecides(body: BodyState, steps: seq<BodyStep>, i: nat)
    requires body.http1.Some? && i < |steps| && Releases(steps[i])
    requires forall k | 0 <= k < i :: !Releases(steps[k])
    ensures forall k | 0 <= k < i :: Outcomes(body, steps)[k] == Kept
    ensures var clean := body.healthy && ReadToTheEnd(steps[i]) && forall k | 0 <= k < i :: !Spoils(steps[k]);
      Outcomes(body, steps)[i] == if clean then GivenBack(body.http1.value) else Discarded(body.http1.value)
    decreases i
  {
    if i > 0 {
      var next, rest := AfterStep(body, steps[0]).0, steps[1..];
      assert !Releases(steps[0]) && next.healthy == (body.healthy && !Spoils(steps[0]));
      assert forall k | 0 <= k < |rest| :: rest[k] == steps[k + 1];
      FirstReleaseDecides(next, rest, i - 1);
      CleanAfterFirst(steps, i);
      forall k | 0 <= k < i
        ensures Outcomes(body, steps)[k] == Kept
      {
        assert k > 0 ==> Outcomes(body, steps)[k] == Outcomes(next, rest)[k - 1];
      }
    }
  }

  lemma CleanAfterFirst(steps: seq<BodyStep>, i: nat)
    requires 0 < i <= |steps|
    ensures (forall k | 0 <= k < i :: !Spoils(steps[k])) <==>
      !Spoils(steps[0]) && forall k | 0 <= k < i - 1 :: !Spoils(steps[1..][k])
  {
    assert forall k | 0 < k < i :: steps[k] == steps[1..][k - 1];
    assert forall k | 0 <= k < i - 1 :: steps[1..][k] == steps[k + 1];
  }
}
