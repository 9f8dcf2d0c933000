/**
Who holds an upstream connection, and what every run of the HTTP/1 pool keeps.
*/
module PoolTheorems {
  import opened Wrappers
  import opened HttpPool
  import opened PoolRuns

  // ---- ownership ----

  ghost predicate IdleOwned(h: Holdings) {
    forall i | 0 <= i < |h.idle| :: h.idle[i].conn in h.conns && h.conns[h.idle[i].conn].owner.InIdle?
  }

  ghost predicate Distinct(idle: seq<IdleEntry>) {
    forall i, j | 0 <= i < j < |idle| :: idle[i].conn != idle[j].conn
  }

  ghost predicate BodiesOwned(h: Holdings) {
    forall x | x in h.exchanges && h.exchanges[x].body.http1.Some? ::
      && h.exchanges[x].body.http1.value in h.conns
      && h.conns[h.exchanges[x].body.http1.value].owner == InExchange(x)
  }

  ghost predicate TunnelsOwned(h: Holdings) {
    forall x | x in h.tunnels :: h.tunnels[x] in h.conns && h.conns[h.tunnels[x]].owner == InTunnel(x)
  }

  /** The owner a connection names does hold it. */
  predicate HeldAsNamed(h: Holdings, c: ConnId)
    requires c in h.conns
  {
    match h.conns[c].owner
    case InIdle => c in ConnsOf(h.idle)
    case InExchange(x) => x in h.exchanges && h.exchanges[x].body.http1 == Some(c)
    case InTunnel(x) => x in h.tunnels && h.tunnels[x] == c
    case Nobody => true
  }

  ghost predicate NamesRight(h: Holdings) {
    forall c | c in h.conns :: HeldAsNamed(h, c)
  }

  /** Until the response arrives an exchange has its connection. */
  ghost predicate RequestsHold(h: Holdings) {
    forall x | AwaitsResponse(h, x) :: h.exchanges[x].body.http1.Some? && h.exchanges[x].body.healthy
  }

  ghost predicate Owned(h: Holdings) {
    && IdleOwned(h) && Distinct(h.idle) && BodiesOwned(h) && TunnelsOwned(h) && NamesRight(h) && RequestsHold(h)
    && h.exchanges.Keys !! h.tunnels.Keys
  }

  // ---- every step keeps it ----

  function Trimmed(h: Holdings, rest: seq<IdleEntry>): Holdings {
    h.(idle := rest, conns := Release(h.conns, ConnsOf(h.idle) - ConnsOf(rest)))
  }

  lemma OwnedAfterTrim(h: Holdings, rest: seq<IdleEntry>)
    requires Owned(h) && Distinct(rest) && ConnsOf(rest) <= ConnsOf(h.idle)
    ensures Owned(Trimmed(h, rest))
  {
    forall i | 0 <= i < |rest|
      ensures rest[i].conn in ConnsOf(rest) && rest[i].conn in ConnsOf(h.idle)
    {
    }
  }

  lemma OwnedAfterHand(h: Holdings, c: ConnId, x: ExchangeId, uploadComplete: bool)
    requires Owned(h) && c in h.conns && h.conns[c].owner.Nobody? && Unused(h, x)
    ensures Owned(Hand(h, c, x, uploadComplete))
  {
  }

  lemma ConnsConcat(a: seq<IdleEntry>, b: seq<IdleEntry>)
    ensures ConnsOf(a + b) == ConnsOf(a) + ConnsOf(b)
  {
    var all := a + b;
    forall c
      ensures c in ConnsOf(all) <==> c in ConnsOf(a) + ConnsOf(b)
    {
      if i :| 0 <= i < |a| && a[i].conn == c {
        assert all[i].conn == c;
      }
      if i :| 0 <= i < |b| && b[i].conn == c {
        assert all[|a| + i].conn == c;
      }
    }
  }

  lemma DistinctParts(a: seq<IdleEntry>, b: seq<IdleEntry>)
    requires Distinct(a + b)
    ensures Distinct(a) && Distinct(b) && ConnsOf(a) !! ConnsOf(b)
  {
    var all := a + b;
    forall i, j | 0 <= i < |a| && 0 <= j < |b|
      ensures a[i].conn != b[j].conn
    {
      assert all[i] == a[i] && all[|a| + j] == b[j];
    }
    forall i, j | 0 <= i < j < |b|
      ensures b[i].conn != b[j].conn
    {
      assert all[|a| + i] == b[i] && all[|a| + j] == b[j];
    }
    assert forall i | 0 <= i < |a| :: all[i] == a[i];
  }

  /** The stack splits into what stays, what is taken and what is dropped. */
  lemma TakeSplits(idle: seq<IdleEntry>, found: Option<ConnId>, rest: seq<IdleEntry>)
    requires Distinct(idle) && rest <= idle
    requires found.Some? ==> |rest| < |idle| && idle[|rest|].conn == found.value
    ensures Distinct(rest) && ConnsOf(rest) <= ConnsOf(idle)
    ensures ConnsOf(idle) - ConnsOf(rest) ==
            ConnsOf(Discards(idle, found, rest)) + (if found.Some? then {found.value} else {})
  {
    var popped := idle[|rest|..];
    var dropped := Discards(idle, found, rest);
    assert idle == rest + popped;
    ConnsConcat(rest, popped);
    DistinctParts(rest, popped);
    if found.Some? {
      assert popped == [popped[0]] + dropped;
      ConnsCons(popped[0], dropped);
    }
  }

  lemma OwnedAfterTake(timeout: nat, h: Holdings, now: Instant, x: ExchangeId, uploadComplete: bool)
    requires Owned(h) && Unused(h, x)
    ensures Owned(Take(timeout, h, now, x, uploadComplete))
  {
    var r := Popped(timeout, h, now);
    TakeSplits(h.idle, r.0, r.1);
    var trimmed := Trimmed(h, r.1);
    OwnedAfterTrim(h, r.1);
    if r.0.Some? {
      assert h.idle[|r.1|].conn == r.0.value && r.0.value in ConnsOf(h.idle);
      OwnedAfterHand(trimmed, r.0.value, x, uploadComplete);
      var dropped := ConnsOf(Discards(h.idle, r.0, r.1));
      SameOnceHanded(h.conns, dropped, r.0.value, InExchange(x));
    } else {
      assert ConnsOf(Discards(h.idle, r.0, r.1)) == ConnsOf(h.idle) - ConnsOf(r.1);
    }
  }

  lemma SameOnceHanded(conns: map<ConnId, Conn>, dropped: set<ConnId>, c: ConnId, owner: Owner)
    ensures Own(Release(conns, dropped), c, owner) == Own(Release(conns, dropped + {c}), c, owner)
  {
  }

  lemma {:induction false} ReapedDistinct(idle: seq<IdleEntry>, now: Instant, timeout: nat, closed: set<ConnId>,
    shutdown: bool)
    requires Distinct(idle)
    ensures Distinct(Reaped(idle, now, timeout, closed, shutdown))
  {
    if idle != [] {
      var front := idle[..|idle| - 1];
      ReapedDistinct(front, now, timeout, closed, shutdown);
      var kept := Reaped(front, now, timeout, closed, shutdown);
      forall i | 0 <= i < |kept|
        ensures kept[i].conn != idle[|idle| - 1].conn
      {
        assert kept[i] in front;
      }
    }
  }

  lemma OwnedAfterReap(limits: Limits, h: Holdings, now: Instant, shutdown: bool)
    requires Owned(h)
    ensures Owned(Reap(limits, h, now, shutdown))
  {
    var kept := Reaped(h.idle, now, limits.idleTimeout, Closed(h.conns), shutdown);
    ReapedDistinct(h.idle, now, limits.idleTimeout, Closed(h.conns), shutdown);
    forall i | 0 <= i < |kept|
      ensures kept[i].conn in ConnsOf(h.idle)
    {
      assert kept[i] in h.idle;
    }
    OwnedAfterTrim(h, kept);
  }

  /** One step of a body takes its connection away whole, or leaves it. */
  lemma StepMoves(body: BodyState, step: BodyStep)
    ensures var after := AfterStep(body, step);
      && (after.1.Kept? ==> after.0.http1 == body.http1 && (step.DroppedAt? ==> body.http1.None?))
      && (!after.1.Kept? ==> body.http1 == Some(after.1.conn) && after.0.http1.None?)
  {
  }

  lemma OwnedAfterLoss(h: Holdings, x: ExchangeId, exchanges: map<ExchangeId, Exchange>)
    requires Owned(h) && x in h.exchanges && h.exchanges[x].body.http1.Some?
    requires exchanges == h.exchanges - {x}
             || (exists e: Exchange :: e.body.http1.None? && e.streaming && exchanges == h.exchanges[x := e])
    ensures Owned(Holdings(h.idle, Own(h.conns, h.exchanges[x].body.http1.value, Nobody), exchanges, h.tunnels))
  {
  }

  lemma OwnedAfterTunnel(h: Holdings, x: ExchangeId)
    requires Owned(h) && x in h.exchanges && h.exchanges[x].body.http1.Some?
    ensures Owned(OpenTunnel(h, x))
  {
  }

  lemma OwnedAfterClose(h: Holdings, x: ExchangeId)
    requires Owned(h) && x in h.tunnels
    ensures Owned(CloseTunnel(h, x))
  {
  }

  lemma OwnedAfterReturn(h: Holdings, c: ConnId, now: Instant)
    requires Owned(h) && c in h.conns && h.conns[c].owner.Nobody?
    ensures Owned(h.(conns := Own(h.conns, c, InIdle), idle := h.idle + [IdleEntry(now, c)]))
  {
    ConnsSnoc(h.idle, IdleEntry(now, c));
  }

  lemma OwnTwice(conns: map<ConnId, Conn>, c: ConnId, owner: Owner)
    ensures Own(Own(conns, c, Nobody), c, owner) == Own(conns, c, owner)
  {
  }

  lemma OwnedAfterMove(limits: Limits, h: Holdings, now: Instant, shutdown: bool, x: ExchangeId, step: BodyStep)
    requires Owned(h) && x in h.exchanges && h.exchanges[x].streaming
    ensures Owned(Move(limits, h, now, shutdown, x, step))
  {
    var outcome := AfterStep(h.exchanges[x].body, step).1;
    var after := AfterBody(h, x, step);
    StepMoves(h.exchanges[x].body, step);
    if !outcome.Kept? {
      OwnedAfterLoss(h, x, after.exchanges);
      var lost := Holdings(h.idle, Own(h.conns, outcome.conn, Nobody), after.exchanges, h.tunnels);
      if outcome.GivenBack? && Returnable(limits, after, shutdown, outcome.conn) {
        OwnedAfterReturn(lost, outcome.conn, now);
        OwnTwice(h.conns, outcome.conn, InIdle);
      }
    }
  }

  lemma OwnedAfterEstablish(h: Holdings, c: ConnId, x: ExchangeId, uploadComplete: bool)
    requires Owned(h) && c !in h.conns && Unused(h, x)
    ensures Owned(Establish(h, c, x, uploadComplete))
  {
  }

  lemma OwnedAfterDriver(h: Holdings, c: ConnId, conn: Conn)
    requires Owned(h) && c in h.conns && conn.owner == h.conns[c].owner
    ensures Owned(h.(conns := h.conns[c := conn]))
  {
  }

  lemma OwnedAfterFlags(h: Holdings, x: ExchangeId, exchange: Exchange)
    requires Owned(h) && x in h.exchanges && exchange.body == h.exchanges[x].body
    requires exchange.streaming || !h.exchanges[x].streaming
    ensures Owned(h.(exchanges := h.exchanges[x := exchange]))
  {
  }

  lemma OwnedAfterRelease(h: Holdings, c: ConnId)
    requires Owned(h) && c in h.conns && h.conns[c].owner.Nobody?
    ensures Owned(h.(conns := h.conns - {c}))
  {
  }

  lemma OwnedKept(limits: Limits, s: Pool, e: Event)
    requires Owned(s.held) && Enabled(limits, s, e)
    ensures Owned(Next(limits, s, e).held)
  {
    var h := s.held;
    match e {
      case FastTake(x, upload) => OwnedAfterTake(limits.idleTimeout, h, s.now, x, upload);
      case Check(_, x, upload, _) => OwnedAfterTake(limits.idleTimeout, h, s.now, x, upload);
      case Connect(_, c, x, upload) => OwnedAfterEstablish(h, c, x, upload);
      case RequestFails(x) => OwnedAfterLoss(h, x, h.exchanges - {x});
      case Upgrade(x) => OwnedAfterTunnel(h, x);
      case Respond(x) => OwnedAfterFlags(h, x, h.exchanges[x].(streaming := true));
      case UploadPolled(x, poll) => OwnedAfterFlags(h, x, PollUpload(h, x, poll, s.shutdown).exchanges[x]);
      case BodyMoves(x, step, _) => OwnedAfterMove(limits, h, s.now, s.shutdown, x, step);
      case TunnelCloses(x) => OwnedAfterClose(h, x);
      case Forget(c) => OwnedAfterRelease(h, c);
      case PeerCloses(c) => OwnedAfterDriver(h, c, h.conns[c].(closed := true));
      case DriverStops(c) => OwnedAfterDriver(h, c, h.conns[c].(driving := false, closed := true));
      case ReapIdle => OwnedAfterReap(limits, h, s.now, s.shutdown);
      case _ =>
    }
  }

  lemma IdleBoundKept(limits: Limits, s: Pool, e: Event)
    requires |s.held.idle| <= limits.maxIdle && Enabled(limits, s, e)
    ensures |Next(limits, s, e).held.idle| <= limits.maxIdle
  {
    if e.FastTake? || e.Check? {
      TakeShortens(limits.idleTimeout, s.held, s.now, e.x, e.uploadComplete);
    }
  }

  // ---- every run ----

  ghost predicate Invariant(limits: Limits, s: Pool) {
    && NoLostWakeup(s.desk, |s.held.idle|)
    && PermitsOk(limits, s.permits, |s.held.conns|)
    && Owned(s.held)
    && |s.held.idle| <= limits.maxIdle
  }

  lemma InvariantKept(limits: Limits, s: Pool, e: Event)
    requires Invariant(limits, s) && Enabled(limits, s, e)
    ensures Invariant(limits, Next(limits, s, e))
  {
    WakeupKept(limits, s, e);
    PermitsKept(limits, s, e);
    OwnedKept(limits, s, e);
    IdleBoundKept(limits, s, e);
  }

  /** A pool as it is created, with whatever the other pools have already taken. */
  function Start(limits: Limits, now: Instant, elsewhere: nat): Pool
    requires elsewhere <= limits.globalMax
  {
    Pool(now, false, Desk(map[], false), Permits(limits.maxConnections, limits.globalMax - elsewhere, map[], elsewhere),
         Holdings([], map[], map[], map[]))
  }

  ghost predicate Runs(limits: Limits, s: Pool, events: seq<Event>)
    decreases |events|
  {
    events == [] || (Enabled(limits, s, events[0]) && Runs(limits, Next(limits, s, events[0]), events[1..]))
  }

  ghost function After(limits: Limits, s: Pool, events: seq<Event>): Pool
    requires Runs(limits, s, events)
    decreases |events|
  {
    if events == [] then s else After(limits, Next(limits, s, events[0]), events[1..])
  }

  lemma {:induction false} InvariantAfter(limits: Limits, s: Pool, events: seq<Event>)
    requires Invariant(limits, s) && Runs(limits, s, events)
    ensures Invariant(limits, After(limits, s, events))
    decreases |events|
  {
    if events != [] {
      InvariantKept(limits, s, events[0]);
      InvariantAfter(limits, Next(limits, s, events[0]), events[1..]);
    }
  }

  /** The invariant holds after every run of the pool. */
  lemma InvariantAlways(limits: Limits, now: Instant, elsewhere: nat, events: seq<Event>)
    requires elsewhere <= limits.globalMax && Runs(limits, Start(limits, now, elsewhere), events)
    ensures Invariant(limits, After(limits, Start(limits, now, elsewhere), events))
  {
    InvariantAfter(limits, Start(limits, now, elsewhere), events);
  }

  // ---- what it means ----

  datatype Claim = AtIdle(i: nat) | AtExchange(x: ExchangeId) | AtTunnel(t: ExchangeId)

  /** The places that hold a connection. */
  ghost predicate Claims(h: Holdings, c: ConnId, claim: Claim) {
    match claim
    case AtIdle(i) => i < |h.idle| && h.idle[i].conn == c
    case AtExchange(x) => x in h.exchanges && h.exchanges[x].body.http1 == Some(c)
    case AtTunnel(t) => t in h.tunnels && h.tunnels[t] == c
  }

  /** No two places hold the same connection, and what anyone holds is live and still has its permits. */
  lemma OneOwner(h: Holdings, c: ConnId, a: Claim, b: Claim)
    requires Owned(h) && Claims(h, c, a) && Claims(h, c, b)
    ensures a == b && c in h.conns && !h.conns[c].owner.Nobody?
  {
  }

  /** A live connection held nowhere is one its owner dropped. */
  lemma UnheldIsDropped(h: Holdings, c: ConnId)
    requires Owned(h) && c in h.conns
    ensures h.conns[c].owner.Nobody? <==> !exists claim :: Claims(h, c, claim)
  {
    match h.conns[c].owner {
      case InIdle =>
        var i :| 0 <= i < |h.idle| && h.idle[i].conn == c;
        assert Claims(h, c, AtIdle(i));
      case InExchange(x) => assert Claims(h, c, AtExchange(x));
      case InTunnel(x) => assert Claims(h, c, AtTunnel(x));
      case Nobody =>
    }
  }

  /**
  A connection becomes idle only from the one exchange that held it, after a healthy response was
  read to its end and the upload was complete; the exchange has no connection any more.
  */
  lemma ReturnsAreClean(limits: Limits, s: Pool, e: Event, c: ConnId)
    requires Invariant(limits, s) && Enabled(limits, s, e)
    requires c in ConnsOf(Next(limits, s, e).held.idle) && c !in ConnsOf(s.held.idle)
    ensures e.BodyMoves? && Claims(s.held, c, AtExchange(e.x))
    ensures s.held.exchanges[e.x].body.healthy && s.held.exchanges[e.x].upload.complete && ReadToTheEnd(e.step)
    ensures !s.shutdown && !s.held.conns[c].closed
    ensures var after := Next(limits, s, e).held.exchanges; e.x in after ==> after[e.x].body.http1.None?
  {
    if !e.BodyMoves? {
      IdleShrinks(limits, s, e);
    }
    var body := s.held.exchanges[e.x].body;
    StepMoves(body, e.step);
    ReturnNeedsGivenBack(limits, s.held, s.now, s.shutdown, e.x, e.step, c);
    GivenBackIsClean(body, e.step);
  }

  lemma GivenBackIsClean(body: BodyState, step: BodyStep)
    requires AfterStep(body, step).1.GivenBack?
    ensures body.healthy && ReadToTheEnd(step) && step.uploadComplete
  {
  }

  lemma IdleShrinks(limits: Limits, s: Pool, e: Event)
    requires Enabled(limits, s, e) && !e.BodyMoves?
    ensures ConnsOf(Next(limits, s, e).held.idle) <= ConnsOf(s.held.idle)
  {
    var after := Next(limits, s, e).held.idle;
    forall i | 0 <= i < |after|
      ensures after[i] in s.held.idle
    {
    }
  }

  /** A step that can start an exchange with this number; it is enabled only while the number is unused. */
  predicate Creates(e: Event, x: ExchangeId) {
    (e.FastTake? || e.Check? || e.Connect?) && e.x == x
  }

  /** The end of the upload, as the exchange learns of it: known from the start, or seen by a poll. */
  predicate EndsUpload(e: Event, x: ExchangeId) {
    || (Creates(e, x) && e.uploadComplete)
    || (e.UploadPolled? && e.x == x && SeesEnd(e.poll))
  }

  /** The end came at step `k`, and no exchange with this number was started after it. */
  predicate EndedAt(events: seq<Event>, k: nat, x: ExchangeId) {
    k < |events| && EndsUpload(events[k], x) && NoneCreated(events, k + 1, x)
  }

  predicate NoneCreated(events: seq<Event>, k: nat, x: ExchangeId) {
    forall j | k <= j < |events| :: !Creates(events[j], x)
  }

  predicate UploadComplete(s: Pool, x: ExchangeId) {
    x in s.held.exchanges && s.held.exchanges[x].upload.complete
  }

  lemma UploadStep(limits: Limits, s: Pool, e: Event, x: ExchangeId)
    requires Enabled(limits, s, e) && UploadComplete(Next(limits, s, e), x)
    ensures EndsUpload(e, x) || (UploadComplete(s, x) && !Creates(e, x))
  {
  }

  /**
  In every run an upload counts as complete only after its end was known at the start of this very
  exchange, or was seen since by a poll without an error.
  */
  lemma {:induction false} UploadCompleteMeansEnded(limits: Limits, s: Pool, events: seq<Event>, x: ExchangeId)
    requires Runs(limits, s, events) && UploadComplete(After(limits, s, events), x)
    ensures (UploadComplete(s, x) && NoneCreated(events, 0, x)) || exists k: nat :: EndedAt(events, k, x)
    decreases |events|
  {
    if events != [] {
      var rest := events[1..];
      UploadCompleteMeansEnded(limits, Next(limits, s, events[0]), rest, x);
      if k: nat :| EndedAt(rest, k, x) {
        EndedLater(events, k, x);
      } else {
        UploadStep(limits, s, events[0], x);
        NoneLater(events, x);
        assert EndsUpload(events[0], x) ==> EndedAt(events, 0, x);
      }
    }
  }

  lemma EndedLater(events: seq<Event>, k: nat, x: ExchangeId)
    requires events != [] && EndedAt(events[1..], k, x)
    ensures EndedAt(events, k + 1, x)
  {
    forall j | k + 2 <= j < |events|
      ensures !Creates(events[j], x)
    {
      assert events[1..][j - 1] == events[j];
    }
  }

  lemma NoneLater(events: seq<Event>, x: ExchangeId)
    requires events != [] && NoneCreated(events[1..], 0, x)
    ensures NoneCreated(events, 1, x)
  {
    forall j | 1 <= j < |events|
      ensures !Creates(events[j], x)
    {
      assert events[1..][j - 1] == events[j];
    }
  }

  /** So in every run from creation a connection becomes idle only after the upload of its exchange ended. */
  lemma ReturnFollowsUpload(limits: Limits, now: Instant, elsewhere: nat, events: seq<Event>, e: Event, c: ConnId)
    requires elsewhere <= limits.globalMax && Runs(limits, Start(limits, now, elsewhere), events)
    requires var s := After(limits, Start(limits, now, elsewhere), events);
      Enabled(limits, s, e) && c in ConnsOf(Next(limits, s, e).held.idle) && c !in ConnsOf(s.held.idle)
    ensures e.BodyMoves? && exists k: nat :: EndedAt(events, k, e.x)
  {
    InvariantAlways(limits, now, elsewhere, events);
    ReturnsAreClean(limits, After(limits, Start(limits, now, elsewhere), events), e, c);
    UploadCompleteMeansEnded(limits, Start(limits, now, elsewhere), events, e.x);
  }

  // ---- the steps are those of the methods of `HttpPool` ----

  /** The connections a step leaves without an owner. */
  function Dropped(before: map<ConnId, Conn>, after: map<ConnId, Conn>): set<ConnId> {
    set c | c in before && c in after && !before[c].owner.Nobody? && after[c].owner.Nobody?
  }

  /** Taking does to the stack and to what is dropped what `TakeIdleHttp1` does. */
  lemma TakeIsMethod(timeout: nat, h: Holdings, now: Instant)
    requires Owned(h)
    ensures var t, r := AfterTake(timeout, h, now), Popped(timeout, h, now);
      && (r.0, t.idle) == TakeIdle(h.idle, now, timeout, Closed(h.conns))
      && Dropped(h.conns, t.conns) == ConnsOf(Discards(h.idle, r.0, t.idle))
  {
    var r := Popped(timeout, h, now);
    TakeSplits(h.idle, r.0, r.1);
    IdleAreOwned(h);
  }

  lemma IdleAreOwned(h: Holdings)
    requires Owned(h)
    ensures forall c | c in ConnsOf(h.idle) :: c in h.conns && h.conns[c].owner.InIdle?
  {
    forall c | c in ConnsOf(h.idle)
      ensures c in h.conns && h.conns[c].owner.InIdle?
    {
      var i :| 0 <= i < |h.idle| && h.idle[i].conn == c;
    }
  }

  /** Reaping does what `ReapIdle` does. */
  lemma ReapIsMethod(limits: Limits, h: Holdings, now: Instant, shutdown: bool)
    requires Owned(h)
    ensures var t := Reap(limits, h, now, shutdown);
      && t.idle == Reaped(h.idle, now, limits.idleTimeout, Closed(h.conns), shutdown)
      && Dropped(h.conns, t.conns) == ConnsOf(h.idle) - ConnsOf(t.idle)
  {
    IdleAreOwned(h);
  }

  /** A step of a response body does what `FinishHttp1`, and through it `ReturnHttp1`, does. */
  lemma MoveIsMethod(limits: Limits, h: Holdings, now: Instant, shutdown: bool, x: ExchangeId, step: BodyStep)
    requires Owned(h) && x in h.exchanges
    ensures var t, outcome := Move(limits, h, now, shutdown, x, step), AfterStep(h.exchanges[x].body, step).1;
      var closed := Closed(h.conns);
      && (!outcome.GivenBack? ==> t.idle == h.idle)
      && (outcome.GivenBack? ==> t.idle == AfterReturn(limits.maxIdle, h.idle, shutdown, outcome.conn, now, closed))
      && Dropped(h.conns, t.conns) ==
           if outcome.Kept? || (outcome.GivenBack? && Returns(limits.maxIdle, h.idle, shutdown, outcome.conn, closed))
           then {} else {outcome.conn}
  {
    StepMoves(h.exchanges[x].body, step);
  }

  /** An exchange that has let its connection go never holds one again, so it gives one back at most once. */
  lemma {:induction false} NeverHoldsAgain(limits: Limits, s: Pool, events: seq<Event>, x: ExchangeId)
    requires Runs(limits, s, events) && x in s.held.exchanges && s.held.exchanges[x].body.http1.None?
    requires forall e | e in events ::
      (e.RequestFails? || e.Upgrade? || (e.BodyMoves? && e.step.DroppedAt?)) ==> e.x != x
    ensures var after := After(limits, s, events).held.exchanges; x in after && after[x].body.http1.None?
    decreases |events|
  {
    if events != [] {
      StaysWithout(limits, s, events[0], x);
      NeverHoldsAgain(limits, Next(limits, s, events[0]), events[1..], x);
    }
  }

  lemma StaysWithout(limits: Limits, s: Pool, e: Event, x: ExchangeId)
    requires Enabled(limits, s, e) && x in s.held.exchanges && s.held.exchanges[x].body.http1.None?
    requires (e.RequestFails? || e.Upgrade? || (e.BodyMoves? && e.step.DroppedAt?)) ==> e.x != x
    ensures var after := Next(limits, s, e).held.exchanges; x in after && after[x].body.http1.None?
  {
    if e.BodyMoves? {
      StepMoves(s.held.exchanges[e.x].body, e.step);
    }
  }

  lemma ReturnNeedsGivenBack(limits: Limits, h: Holdings, now: Instant, shutdown: bool, x: ExchangeId, step: BodyStep,
    c: ConnId)
    requires x in h.exchanges
    requires c in ConnsOf(Move(limits, h, now, shutdown, x, step).idle) && c !in ConnsOf(h.idle)
    ensures AfterStep(h.exchanges[x].body, step).1 == GivenBack(c)
    ensures !shutdown && c !in Closed(h.conns)
  {
    var outcome := AfterStep(h.exchanges[x].body, step).1;
    if outcome.GivenBack? {
      ConnsSnoc(h.idle, IdleEntry(now, outcome.conn));
    }
  }

  lemma ConnsSnoc(idle: seq<IdleEntry>, entry: IdleEntry)
    ensures ConnsOf(idle + [entry]) == ConnsOf(idle) + {entry.conn}
  {
    assert [entry] == [entry] + [];
    ConnsCons(entry, []);
    ConnsConcat(idle, [entry]);
  }

  /** Live connections, idle ones among them, stay within both limits. */
  lemma ConnectionsBounded(limits: Limits, s: Pool)
    requires Invariant(limits, s)
    ensures |s.held.idle| <= |s.held.conns| <= limits.maxConnections
    ensures |s.held.conns| <= limits.globalMax
  {
    DistinctCount(s.held.idle);
    forall c | c in ConnsOf(s.held.idle)
      ensures c in s.held.conns.Keys
    {
    }
    SubsetSize(ConnsOf(s.held.idle), s.held.conns.Keys);
    assert |s.held.conns| == |s.held.conns.Keys|;
  }

  lemma {:induction false} DistinctCount(idle: seq<IdleEntry>)
    requires Distinct(idle)
    ensures |ConnsOf(idle)| == |idle|
  {
    if idle != [] {
      var front := idle[..|idle| - 1];
      DistinctCount(front);
      assert idle == front + [idle[|idle| - 1]];
      ConnsSnoc(front, idle[|idle| - 1]);
    }
  }
}
