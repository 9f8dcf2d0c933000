/**
The HTTP/1 pool under concurrency (src/http_proxy/pool.rs): request tasks, waiters, connection
drivers and the reaper take steps in any order.  `Notify` is taken as the library documents it: one
stored permit, each notification wakes one registered waiter that has none yet, and a waiter that
goes away with an unused notification passes it on.  A waiter that took the stored permit has used
it up and passes nothing on.  Which waiter is woken is left open, so first-in-first-out is one case.
*/
module PoolRuns {
  import opened Wrappers
  import opened HttpPool

  type TaskId = nat
  type ExchangeId = nat

  datatype Limits = Limits(maxConnections: nat, globalMax: nat, maxIdle: nat, idleTimeout: nat)

  // ---- the waiters of `acquire_http1` ----

  datatype Phase = Registering | Checking | Sleeping

  datatype Signal = Silent | FromStore | Notified

  datatype Waiter = Waiter(phase: Phase, signal: Signal)

  datatype Desk = Desk(waiters: map<TaskId, Waiter>, storedPermit: bool)

  predicate Listening(waiter: Waiter) {
    !waiter.phase.Registering? && waiter.signal.Silent?
  }

  /** A notification goes to a registered waiter without one, or is stored when there is none. */
  ghost predicate CanNotify(waiters: map<TaskId, Waiter>, target: Option<TaskId>) {
    match target
    case Some(t) => t in waiters && Listening(waiters[t])
    case None => forall w | w in waiters :: !Listening(waiters[w])
  }

  function Notify(desk: Desk, target: Option<TaskId>): Desk {
    match target
    case None => desk.(storedPermit := true)
    case Some(t) =>
      if t in desk.waiters then desk.(waiters := desk.waiters[t := desk.waiters[t].(signal := Notified)]) else desk
  }

  /** A waiter goes away; an unused notification is passed on. */
  function Depart(desk: Desk, w: TaskId, target: Option<TaskId>): Desk
    requires w in desk.waiters
  {
    var without := desk.(waiters := desk.waiters - {w});
    if desk.waiters[w].signal.Notified? then Notify(without, target) else without
  }

  ghost predicate CanDepart(desk: Desk, w: TaskId, target: Option<TaskId>) {
    w in desk.waiters && (desk.waiters[w].signal.Notified? ==> CanNotify(desk.waiters - {w}, target))
  }

  /** A new turn of the waiting loop, which has not registered yet. */
  function StartTurn(desk: Desk, w: TaskId): Desk {
    desk.(waiters := desk.waiters[w := Waiter(Registering, Silent)])
  }

  /** Registering takes the stored permit, if there is one. */
  function RegisterWaiter(desk: Desk, w: TaskId): Desk {
    Desk(desk.waiters[w := Waiter(Checking, if desk.storedPermit then FromStore else Silent)], false)
  }

  function Sleep(desk: Desk, w: TaskId): Desk
    requires w in desk.waiters
  {
    desk.(waiters := desk.waiters[w := desk.waiters[w].(phase := Sleeping)])
  }

  // ---- permits ----

  datatype Reserve = LocalOnly | Both

  /** Free permits, those reserved by tasks that are connecting, and those of other pools. */
  datatype Permits = Permits(localFree: nat, globalFree: nat, connecting: map<TaskId, Reserve>, elsewhere: nat)

  function TakeLocal(p: Permits, t: TaskId): Permits
    requires p.localFree > 0
  {
    p.(localFree := p.localFree - 1, connecting := p.connecting[t := LocalOnly])
  }

  function TakeGlobal(p: Permits, t: TaskId): Permits
    requires p.globalFree > 0
  {
    p.(globalFree := p.globalFree - 1, connecting := p.connecting[t := Both])
  }

  function GiveUpReserve(p: Permits, t: TaskId): Permits
    requires t in p.connecting
  {
    p.(localFree := p.localFree + 1, connecting := p.connecting - {t},
       globalFree := if p.connecting[t].Both? then p.globalFree + 1 else p.globalFree)
  }

  // ---- who holds which connection ----

  datatype Owner = InIdle | InExchange(x: ExchangeId) | InTunnel(x: ExchangeId) | Nobody

  /** A live control: it keeps its permits while someone owns it or its driver still runs. */
  datatype Conn = Conn(owner: Owner, driving: bool, closed: bool)

  /** Before the response arrives the request task holds the connection; then its body does. */
  datatype Exchange = Exchange(body: BodyState, streaming: bool, upload: Upload)

  /** Where connections are held; a tunnel keeps the number of the exchange it came from. */
  datatype Holdings = Holdings(
    idle: seq<IdleEntry>, conns: map<ConnId, Conn>, exchanges: map<ExchangeId, Exchange>,
    tunnels: map<ExchangeId, ConnId>)

  predicate Unused(h: Holdings, x: ExchangeId) {
    x !in h.exchanges && x !in h.tunnels
  }

  function NewExchange(c: ConnId, uploadComplete: bool): Exchange {
    Exchange(BodyState(Some(c), true), false, Upload(uploadComplete, false))
  }

  function Closed(conns: map<ConnId, Conn>): set<ConnId> {
    set c | c in conns && conns[c].closed
  }

  function Release(conns: map<ConnId, Conn>, dropped: set<ConnId>): map<ConnId, Conn> {
    map c | c in conns :: if c in dropped then conns[c].(owner := Nobody) else conns[c]
  }

  function Own(conns: map<ConnId, Conn>, c: ConnId, owner: Owner): map<ConnId, Conn> {
    map d | d in conns :: if d == c then conns[d].(owner := owner) else conns[d]
  }

  function Popped(timeout: nat, h: Holdings, now: Instant): (Option<ConnId>, seq<IdleEntry>) {
    TakeIdle(h.idle, now, timeout, Closed(h.conns))
  }

  /** `take_idle_http1`: stale entries are dropped; what is found is left for the caller to own. */
  function AfterTake(timeout: nat, h: Holdings, now: Instant): Holdings {
    var r := Popped(timeout, h, now);
    h.(idle := r.1, conns := Release(h.conns, ConnsOf(Discards(h.idle, r.0, r.1))))
  }

  function Hand(h: Holdings, c: ConnId, x: ExchangeId, uploadComplete: bool): Holdings {
    h.(conns := Own(h.conns, c, InExchange(x)),
       exchanges := h.exchanges[x := NewExchange(c, uploadComplete)])
  }

  function Take(timeout: nat, h: Holdings, now: Instant, x: ExchangeId, uploadComplete: bool): Holdings {
    var found := Popped(timeout, h, now).0;
    if found.Some? then Hand(AfterTake(timeout, h, now), found.value, x, uploadComplete) else AfterTake(timeout, h, now)
  }

  function Establish(h: Holdings, c: ConnId, x: ExchangeId, uploadComplete: bool): Holdings {
    h.(conns := h.conns[c := Conn(InExchange(x), true, false)],
       exchanges := h.exchanges[x := NewExchange(c, uploadComplete)])
  }

  /** The exchange ends before it streams, and its connection is dropped. */
  function Fail(h: Holdings, x: ExchangeId): Holdings
    requires x in h.exchanges && h.exchanges[x].body.http1.Some?
  {
    h.(conns := Own(h.conns, h.exchanges[x].body.http1.value, Nobody), exchanges := h.exchanges - {x})
  }

  /** The tunnel task takes the connection over. */
  function OpenTunnel(h: Holdings, x: ExchangeId): Holdings
    requires x in h.exchanges && h.exchanges[x].body.http1.Some?
  {
    var c := h.exchanges[x].body.http1.value;
    h.(conns := Own(h.conns, c, InTunnel(x)), exchanges := h.exchanges - {x}, tunnels := h.tunnels[x := c])
  }

  function CloseTunnel(h: Holdings, x: ExchangeId): Holdings
    requires x in h.tunnels
  {
    h.(conns := Own(h.conns, h.tunnels[x], Nobody), tunnels := h.tunnels - {x})
  }

  predicate Returnable(limits: Limits, h: Holdings, shutdown: bool, c: ConnId) {
    Returns(limits.maxIdle, h.idle, shutdown, c, Closed(h.conns))
  }

  function Settle(limits: Limits, h: Holdings, now: Instant, shutdown: bool, outcome: Outcome): Holdings {
    match outcome
    case Kept => h
    case Discarded(c) => h.(conns := Own(h.conns, c, Nobody))
    case GivenBack(c) =>
      h.(conns := Own(h.conns, c, if Returnable(limits, h, shutdown, c) then InIdle else Nobody),
         idle := AfterReturn(limits.maxIdle, h.idle, shutdown, c, now, Closed(h.conns)))
  }

  function AfterBody(h: Holdings, x: ExchangeId, step: BodyStep): Holdings
    requires x in h.exchanges
  {
    var moved := h.exchanges[x].(body := AfterStep(h.exchanges[x].body, step).0);
    var cancelled := moved.upload.cancelled || (step.Polled? && TimesOut(step.poll));
    h.(exchanges :=
         if step.DroppedAt? then h.exchanges - {x}
         else h.exchanges[x := moved.(upload := moved.upload.(cancelled := cancelled))])
  }

  /** The request body is polled; shutting down cancels every exchange. */
  function PollUpload(h: Holdings, x: ExchangeId, poll: Poll, shutdown: bool): Holdings
    requires x in h.exchanges
  {
    var exchange := h.exchanges[x];
    var upload := exchange.upload.(cancelled := exchange.upload.cancelled || shutdown);
    h.(exchanges := h.exchanges[x := exchange.(upload := AfterUpload(upload, poll))])
  }

  function Move(limits: Limits, h: Holdings, now: Instant, shutdown: bool, x: ExchangeId, step: BodyStep): Holdings
    requires x in h.exchanges
  {
    Settle(limits, AfterBody(h, x, step), now, shutdown, AfterStep(h.exchanges[x].body, step).1)
  }

  function Reap(limits: Limits, h: Holdings, now: Instant, shutdown: bool): Holdings {
    var kept := Reaped(h.idle, now, limits.idleTimeout, Closed(h.conns), shutdown);
    h.(idle := kept, conns := Release(h.conns, ConnsOf(h.idle) - ConnsOf(kept)))
  }

  // ---- steps ----

  datatype Pool = Pool(now: Instant, shutdown: bool, desk: Desk, permits: Permits, held: Holdings)

  datatype Event =
    | Tick(nanos: nat)
    | ShutDown
    | FastTake(x: ExchangeId, uploadComplete: bool)
    | ReserveLocal(t: TaskId)
    | StartWaiting(w: TaskId)
    | Register(w: TaskId)
    | Check(w: TaskId, x: ExchangeId, uploadComplete: bool, target: Option<TaskId>)
    | Wake(w: TaskId)
    | GiveUp(w: TaskId, target: Option<TaskId>)
    | TakePermit(w: TaskId, t: TaskId, target: Option<TaskId>)
    | ReserveGlobal(t: TaskId)
    | Abandon(t: TaskId)
    | Connect(t: TaskId, c: ConnId, x: ExchangeId, uploadComplete: bool)
    | RequestFails(x: ExchangeId)
    | Upgrade(x: ExchangeId)
    | Respond(x: ExchangeId)
    | UploadPolled(x: ExchangeId, poll: Poll)
    | BodyMoves(x: ExchangeId, step: BodyStep, target: Option<TaskId>)
    | TunnelCloses(x: ExchangeId)
    | PeerCloses(c: ConnId)
    | DriverStops(c: ConnId)
    | Forget(c: ConnId)
    | ReapIdle
    | OtherPoolTakes
    | OtherPoolReturns

  function GivesBack(limits: Limits, s: Pool, x: ExchangeId, step: BodyStep): bool
    requires x in s.held.exchanges
  {
    var outcome := AfterStep(s.held.exchanges[x].body, step).1;
    outcome.GivenBack? && Returnable(limits, s.held, s.shutdown, outcome.conn)
  }

  predicate AwaitsResponse(h: Holdings, x: ExchangeId) {
    x in h.exchanges && !h.exchanges[x].streaming
  }

  ghost predicate Enabled(limits: Limits, s: Pool, e: Event) {
    match e
    case FastTake(x, _) => Unused(s.held, x)
    case ReserveLocal(t) => t !in s.permits.connecting && s.permits.localFree > 0
    case StartWaiting(w) => w !in s.desk.waiters
    case Register(w) => w in s.desk.waiters && s.desk.waiters[w].phase.Registering?
    case Check(w, x, _, target) =>
      && w in s.desk.waiters && s.desk.waiters[w].phase.Checking? && Unused(s.held, x)
      && (Popped(limits.idleTimeout, s.held, s.now).0.Some? ==> CanDepart(s.desk, w, target))
    case Wake(w) => w in s.desk.waiters && s.desk.waiters[w].phase.Sleeping? && !s.desk.waiters[w].signal.Silent?
    case GiveUp(w, target) => CanDepart(s.desk, w, target) && s.desk.waiters[w].phase.Sleeping?
    case TakePermit(w, t, target) =>
      && CanDepart(s.desk, w, target) && s.desk.waiters[w].phase.Sleeping?
      && t !in s.permits.connecting && s.permits.localFree > 0
    case ReserveGlobal(t) => t in s.permits.connecting && s.permits.connecting[t].LocalOnly? && s.permits.globalFree > 0
    case Abandon(t) => t in s.permits.connecting
    case Connect(t, c, x, _) =>
      && t in s.permits.connecting && s.permits.connecting[t].Both?
      && c !in s.held.conns && Unused(s.held, x)
    case RequestFails(x) => AwaitsResponse(s.held, x) && s.held.exchanges[x].body.http1.Some?
    case Upgrade(x) => AwaitsResponse(s.held, x) && s.held.exchanges[x].body.http1.Some?
    case Respond(x) => AwaitsResponse(s.held, x)
    case UploadPolled(x, _) => x in s.held.exchanges
    case BodyMoves(x, step, target) =>
      && x in s.held.exchanges && s.held.exchanges[x].streaming
      && step.uploadComplete == s.held.exchanges[x].upload.complete
      && (GivesBack(limits, s, x, step) ==> CanNotify(s.desk.waiters, target))
    case TunnelCloses(x) => x in s.held.tunnels
    case PeerCloses(c) => c in s.held.conns
    case DriverStops(c) =>
      && c in s.held.conns && s.held.conns[c].driving
      && (s.held.conns[c].closed || s.held.conns[c].owner.Nobody? || s.shutdown)
    case Forget(c) => c in s.held.conns && s.held.conns[c].owner.Nobody? && !s.held.conns[c].driving
    case OtherPoolTakes => s.permits.globalFree > 0
    case OtherPoolReturns => s.permits.elsewhere > 0
    case _ => true
  }

  function NextDesk(limits: Limits, s: Pool, e: Event): Desk
    requires Enabled(limits, s, e)
  {
    match e
    case StartWaiting(w) => StartTurn(s.desk, w)
    case Register(w) => RegisterWaiter(s.desk, w)
    case Check(w, _, _, target) =>
      if Popped(limits.idleTimeout, s.held, s.now).0.Some? then Depart(s.desk, w, target) else Sleep(s.desk, w)
    case Wake(w) => StartTurn(s.desk, w)
    case GiveUp(w, target) => Depart(s.desk, w, target)
    case TakePermit(w, _, target) => Depart(s.desk, w, target)
    case BodyMoves(x, step, target) => if GivesBack(limits, s, x, step) then Notify(s.desk, target) else s.desk
    case _ => s.desk
  }

  function NextPermits(limits: Limits, s: Pool, e: Event): Permits
    requires Enabled(limits, s, e)
  {
    var p := s.permits;
    match e
    case ReserveLocal(t) => TakeLocal(p, t)
    case TakePermit(_, t, _) => TakeLocal(p, t)
    case ReserveGlobal(t) => TakeGlobal(p, t)
    case Abandon(t) => GiveUpReserve(p, t)
    case Connect(t, _, _, _) => p.(connecting := p.connecting - {t})
    case Forget(_) => p.(localFree := p.localFree + 1, globalFree := p.globalFree + 1)
    case OtherPoolTakes => p.(globalFree := p.globalFree - 1, elsewhere := p.elsewhere + 1)
    case OtherPoolReturns => p.(globalFree := p.globalFree + 1, elsewhere := p.elsewhere - 1)
    case _ => p
  }

  function NextHeld(limits: Limits, s: Pool, e: Event): Holdings
    requires Enabled(limits, s, e)
  {
    var h := s.held;
    match e
    case FastTake(x, upload) => Take(limits.idleTimeout, h, s.now, x, upload)
    case Check(_, x, upload, _) => Take(limits.idleTimeout, h, s.now, x, upload)
    case Connect(_, c, x, upload) => Establish(h, c, x, upload)
    case RequestFails(x) => Fail(h, x)
    case Upgrade(x) => OpenTunnel(h, x)
    case Respond(x) => h.(exchanges := h.exchanges[x := h.exchanges[x].(streaming := true)])
    case UploadPolled(x, poll) => PollUpload(h, x, poll, s.shutdown)
    case BodyMoves(x, step, _) => Move(limits, h, s.now, s.shutdown, x, step)
    case TunnelCloses(x) => CloseTunnel(h, x)
    case PeerCloses(c) => h.(conns := h.conns[c := h.conns[c].(closed := true)])
    case DriverStops(c) => h.(conns := h.conns[c := h.conns[c].(driving := false, closed := true)])
    case Forget(c) => h.(conns := h.conns - {c})
    case ReapIdle => Reap(limits, h, s.now, s.shutdown)
    case _ => h
  }

  function Next(limits: Limits, s: Pool, e: Event): Pool
    requires Enabled(limits, s, e)
  {
    Pool(if e.Tick? then s.now + e.nanos else s.now, s.shutdown || e.ShutDown?,
         NextDesk(limits, s, e), NextPermits(limits, s, e), NextHeld(limits, s, e))
  }

  // ---- no lost wake-up ----

  function Active(waiters: map<TaskId, Waiter>): set<TaskId> {
    set w | w in waiters && !waiters[w].phase.Sleeping?
  }

  function Signalled(waiters: map<TaskId, Waiter>): set<TaskId> {
    set w | w in waiters && waiters[w].signal.Notified?
  }

  /** Looks at the idle list under way: one for each waiter about to look, one for each notification not yet used. */
  function WakeupsInFlight(waiters: map<TaskId, Waiter>): nat {
    |Active(waiters)| + |Signalled(waiters)|
  }

  predicate SleepsSilent(waiters: map<TaskId, Waiter>, w: TaskId) {
    w in waiters && waiters[w].phase.Sleeping? && waiters[w].signal.Silent?
  }

  ghost predicate SomeoneSleeps(waiters: map<TaskId, Waiter>) {
    exists w :: SleepsSilent(waiters, w)
  }

  ghost predicate TurnsStartSilent(waiters: map<TaskId, Waiter>) {
    forall w | w in waiters && waiters[w].phase.Registering? :: waiters[w].signal.Silent?
  }

  /** While anyone sleeps without a notification, each idle connection has a wake-up in flight for it. */
  ghost predicate NoLostWakeup(desk: Desk, idle: nat) {
    && (SomeoneSleeps(desk.waiters) ==> idle <= WakeupsInFlight(desk.waiters))
    && TurnsStartSilent(desk.waiters)
  }

  lemma WakeupsAfterChange(waiters: map<TaskId, Waiter>, w: TaskId, waiter: Waiter)
    ensures Active(waiters[w := waiter]) ==
      if waiter.phase.Sleeping? then Active(waiters) - {w} else Active(waiters) + {w}
    ensures Signalled(waiters[w := waiter]) ==
      if waiter.signal.Notified? then Signalled(waiters) + {w} else Signalled(waiters) - {w}
    ensures !SleepsSilent(waiters[w := waiter], w) && SomeoneSleeps(waiters[w := waiter]) ==> SomeoneSleeps(waiters)
  {
    var after := waiters[w := waiter];
    if !SleepsSilent(after, w) && SomeoneSleeps(after) {
      var v :| SleepsSilent(after, v);
      assert SleepsSilent(waiters, v);
    }
  }

  /** A notification adds a wake-up, or nobody is left asleep. */
  lemma WakeupsAfterNotify(desk: Desk, target: Option<TaskId>)
    requires CanNotify(desk.waiters, target) && TurnsStartSilent(desk.waiters)
    ensures var t := Notify(desk, target).waiters;
      && TurnsStartSilent(t)
      && (SomeoneSleeps(t) ==> SomeoneSleeps(desk.waiters) && WakeupsInFlight(t) == WakeupsInFlight(desk.waiters) + 1)
  {
    if target.Some? {
      var waiter := desk.waiters[target.value];
      WakeupsAfterChange(desk.waiters, target.value, waiter.(signal := Notified));
      assert Active(Notify(desk, target).waiters) == Active(desk.waiters);
    } else {
      assert forall w :: SleepsSilent(desk.waiters, w) ==> Listening(desk.waiters[w]);
    }
  }

  lemma WakeupsAfterDepart(desk: Desk, w: TaskId, target: Option<TaskId>)
    requires CanDepart(desk, w, target) && TurnsStartSilent(desk.waiters)
    ensures var t := Depart(desk, w, target).waiters;
      && TurnsStartSilent(t)
      && (SomeoneSleeps(t) ==>
            SomeoneSleeps(desk.waiters)
            && WakeupsInFlight(t) == WakeupsInFlight(desk.waiters) - (if desk.waiters[w].phase.Sleeping? then 0 else 1))
  {
    var without := desk.(waiters := desk.waiters - {w});
    assert Active(without.waiters) == Active(desk.waiters) - {w};
    assert Signalled(without.waiters) == Signalled(desk.waiters) - {w};
    assert forall v :: SleepsSilent(without.waiters, v) ==> SleepsSilent(desk.waiters, v);
    if desk.waiters[w].signal.Notified? {
      WakeupsAfterNotify(without, target);
    }
  }

  lemma WakeupKeptByStart(desk: Desk, idle: nat, w: TaskId)
    requires NoLostWakeup(desk, idle)
    requires w !in desk.waiters || (desk.waiters[w].phase.Sleeping? && !desk.waiters[w].signal.Silent?)
    ensures NoLostWakeup(StartTurn(desk, w), idle)
  {
    WakeupsAfterChange(desk.waiters, w, Waiter(Registering, Silent));
    assert w !in Active(desk.waiters);
  }

  lemma WakeupKeptByRegister(desk: Desk, idle: nat, w: TaskId)
    requires NoLostWakeup(desk, idle) && w in desk.waiters && desk.waiters[w].phase.Registering?
    ensures NoLostWakeup(RegisterWaiter(desk, w), idle)
  {
    WakeupsAfterChange(desk.waiters, w, RegisterWaiter(desk, w).waiters[w]);
    assert Active(desk.waiters) + {w} == Active(desk.waiters);
    assert Signalled(desk.waiters) - {w} == Signalled(desk.waiters);
  }

  /** What a look at the idle list does to its length. */
  lemma TakeShortens(timeout: nat, h: Holdings, now: Instant, x: ExchangeId, uploadComplete: bool)
    ensures var after := Take(timeout, h, now, x, uploadComplete).idle;
      && after <= h.idle
      && (if Popped(timeout, h, now).0.Some? then |after| < |h.idle| else after == [])
  {
  }

  lemma WakeupKeptByCheck(limits: Limits, s: Pool, e: Event)
    requires NoLostWakeup(s.desk, |s.held.idle|) && Enabled(limits, s, e) && e.Check?
    ensures NoLostWakeup(NextDesk(limits, s, e), |NextHeld(limits, s, e).idle|)
  {
    TakeShortens(limits.idleTimeout, s.held, s.now, e.x, e.uploadComplete);
    if Popped(limits.idleTimeout, s.held, s.now).0.Some? {
      WakeupsAfterDepart(s.desk, e.w, e.target);
    }
  }

  lemma WakeupKeptByBody(limits: Limits, s: Pool, e: Event)
    requires NoLostWakeup(s.desk, |s.held.idle|) && Enabled(limits, s, e) && e.BodyMoves?
    ensures NoLostWakeup(NextDesk(limits, s, e), |NextHeld(limits, s, e).idle|)
  {
    if GivesBack(limits, s, e.x, e.step) {
      WakeupsAfterNotify(s.desk, e.target);
    }
  }

  /** Every step keeps it: timeouts, the permit branch and callers that take the connection first included. */
  lemma WakeupKept(limits: Limits, s: Pool, e: Event)
    requires NoLostWakeup(s.desk, |s.held.idle|) && Enabled(limits, s, e)
    ensures var t := Next(limits, s, e); NoLostWakeup(t.desk, |t.held.idle|)
  {
    match e {
      case FastTake(x, upload) => TakeShortens(limits.idleTimeout, s.held, s.now, x, upload);
      case Check(_, _, _, _) => WakeupKeptByCheck(limits, s, e);
      case StartWaiting(w) => WakeupKeptByStart(s.desk, |s.held.idle|, w);
      case Wake(w) => WakeupKeptByStart(s.desk, |s.held.idle|, w);
      case Register(w) => WakeupKeptByRegister(s.desk, |s.held.idle|, w);
      case GiveUp(w, target) => WakeupsAfterDepart(s.desk, w, target);
      case TakePermit(w, _, target) => WakeupsAfterDepart(s.desk, w, target);
      case BodyMoves(_, _, _) => WakeupKeptByBody(limits, s, e);
      case _ =>
    }
  }

  /** When every waiter is asleep and none has been signalled, there is nothing idle for them to miss. */
  lemma NothingIdleBesideSleepers(desk: Desk, idle: nat)
    requires NoLostWakeup(desk, idle)
    requires desk.waiters != map[] && forall w | w in desk.waiters :: SleepsSilent(desk.waiters, w)
    ensures idle == 0
  {
    var w :| w in desk.waiters;
    assert SleepsSilent(desk.waiters, w);
    assert Active(desk.waiters) == {} && Signalled(desk.waiters) == {};
  }

  // ---- permits add up ----

  function Holding(connecting: map<TaskId, Reserve>): set<TaskId> {
    set t | t in connecting && connecting[t].Both?
  }

  /** Free, reserved and held permits always add up to the limits. */
  ghost predicate PermitsOk(limits: Limits, p: Permits, live: nat) {
    && p.localFree + |p.connecting| + live == limits.maxConnections
    && p.globalFree + |Holding(p.connecting)| + live + p.elsewhere == limits.globalMax
  }

  lemma CountAfter(connecting: map<TaskId, Reserve>, t: TaskId, reserve: Reserve)
    ensures |connecting[t := reserve]| == |connecting| + (if t in connecting then 0 else 1)
  {
    assert connecting[t := reserve].Keys == connecting.Keys + {t};
    assert |connecting| == |connecting.Keys| && |connecting[t := reserve]| == |connecting[t := reserve].Keys|;
  }

  lemma HoldingAfter(connecting: map<TaskId, Reserve>, t: TaskId, reserve: Reserve)
    requires t in connecting ==> connecting[t].LocalOnly?
    ensures var after := connecting[t := reserve];
      && |after| == |connecting| + (if t in connecting then 0 else 1)
      && |Holding(after)| == |Holding(connecting)| + (if reserve.Both? then 1 else 0)
  {
    CountAfter(connecting, t, reserve);
    var held := Holding(connecting[t := reserve]);
    assert held == if reserve.Both? then Holding(connecting) + {t} else Holding(connecting);
  }

  lemma HoldingWithout(connecting: map<TaskId, Reserve>, t: TaskId)
    requires t in connecting
    ensures var after := connecting - {t};
      && |after| == |connecting| - 1
      && |Holding(after)| == |Holding(connecting)| - (if connecting[t].Both? then 1 else 0)
  {
    var after := connecting - {t};
    assert Holding(after) == Holding(connecting) - {t};
    assert after.Keys == connecting.Keys - {t};
    assert |after| == |after.Keys| && |connecting| == |connecting.Keys|;
  }

  /** Steps of an exchange or of the idle list create and forget no connection. */
  lemma SameConnections(limits: Limits, s: Pool, e: Event)
    requires Enabled(limits, s, e) && !e.Connect? && !e.Forget?
    ensures NextHeld(limits, s, e).conns.Keys == s.held.conns.Keys
  {
  }

  lemma LiveAfter(limits: Limits, s: Pool, e: Event)
    requires Enabled(limits, s, e)
    ensures |NextHeld(limits, s, e).conns| == |s.held.conns| + (if e.Connect? then 1 else if e.Forget? then -1 else 0)
  {
    var after := NextHeld(limits, s, e).conns;
    assert |after| == |after.Keys| && |s.held.conns| == |s.held.conns.Keys|;
    if e.Connect? {
      assert after.Keys == s.held.conns.Keys + {e.c};
    } else if e.Forget? {
      assert after.Keys == s.held.conns.Keys - {e.c};
    } else {
      SameConnections(limits, s, e);
    }
  }

  lemma PermitsKept(limits: Limits, s: Pool, e: Event)
    requires PermitsOk(limits, s.permits, |s.held.conns|) && Enabled(limits, s, e)
    ensures var t := Next(limits, s, e); PermitsOk(limits, t.permits, |t.held.conns|)
  {
    LiveAfter(limits, s, e);
    PermitsStep(limits, s, e, |s.held.conns|);
  }

  lemma PermitsStep(limits: Limits, s: Pool, e: Event, live: nat)
    requires PermitsOk(limits, s.permits, live) && Enabled(limits, s, e) && (e.Forget? ==> live > 0)
    ensures PermitsOk(limits, NextPermits(limits, s, e),
              if e.Connect? then live + 1 else if e.Forget? then live - 1 else live)
  {
    match e {
      case ReserveLocal(task) => HoldingAfter(s.permits.connecting, task, LocalOnly);
      case TakePermit(_, task, _) => HoldingAfter(s.permits.connecting, task, LocalOnly);
      case ReserveGlobal(task) => HoldingAfter(s.permits.connecting, task, Both);
      case Abandon(task) => HoldingWithout(s.permits.connecting, task);
      case Connect(task, _, _, _) => HoldingWithout(s.permits.connecting, task);
      case _ =>
    }
  }
}
