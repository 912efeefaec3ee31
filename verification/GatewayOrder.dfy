/** Portal calls are handled in the order they were read. */
module GatewayOrder {
  import opened Wrappers
  import opened Gateway

  /** The host thread is passing on held calls. */
  predicate InDrain(h: Relay) {
    h.Taking? || h.Draining? || h.Holding? || h.GivingBack?
  }

  /** What it still has of them. */
  function DrainPart(h: Relay): seq<Call> {
    match h
    case Draining(rest) => rest
    case Holding(c, job, rest) => if job == Recording then rest else [c] + rest
    case GivingBack(c, rest) => [c] + rest
    case _ => []
  }

  /** What the Portal reader has. */
  function ReaderPart(p: Reader): seq<Call> {
    if p.Passing? && p.call.toPortal && p.job != Recording then [p.call] else []
  }

  /** What the order of portal calls depends on. */
  datatype View = View(
    received: seq<Call>, handled: seq<Call>, held: seq<Call>, registering: Option<nat>, draining: bool,
    p: Reader, h: Relay)

  function ViewOf(s: State): View {
    View(s.log.received, s.log.handled, s.portal.held, s.portal.registering, s.portal.draining, s.p, s.h)
  }

  /** Every portal call read was handled or waits its turn, once and in
      order. */
  ghost predicate InOrder(v: View) {
    v.received == v.handled + DrainPart(v.h) + v.held + ReaderPart(v.p)
  }

  /** How the registration stands to what the threads do. */
  ghost predicate Standing(v: View) {
    && (v.draining <==> InDrain(v.h))
    && (v.h.Taking? || v.h.Draining? || v.h.Holding? ==> v.registering.None?)
    && (v.h.GivingBack? ==> v.registering.Some?)
    && (v.h.Registered? ==> v.h.reply.Reply? && v.registering == Some(v.h.reply.serial))
    && (v.held != [] ==> v.registering.Some? || v.draining)
    && (v.p.Passing? && v.p.call.toPortal && v.p.job != Got ==> v.registering.None? && !v.draining && v.held == [])
    && (v.p.Passing? && v.p.job == Got ==> v.p.call.toPortal)
    && (v.h.Holding? ==> v.h.call.toPortal)
    && (forall c | c in v.held :: c.toPortal)
    && (forall c | c in DrainPart(v.h) :: c.toPortal)
  }

  /** Calls to the portal are numbered as they are read. */
  ghost predicate Numbered(v: View) {
    forall i | 0 <= i < |v.received| :: v.received[i].id == i
  }

  ghost predicate Ordered(v: View) {
    InOrder(v) && Standing(v) && Numbered(v)
  }

  lemma StartOrdered(app: Option<string>, owner: Option<Name>, portalOwner: Option<Name>)
    ensures Ordered(ViewOf(Start(app, owner, portalOwner)))
  {
  }

  // What each step does to the view.

  /** The reader reads a call, or turns to something else. */
  ghost predicate ReaderReads(v: View, w: View) {
    || (v.p == Reading && w.p.Passing? && w.p.job == Got && w.p.call.toPortal && w.p.call.id == |v.received|
        && w == v.(p := w.p, received := v.received + [w.p.call]))
    || (w == v.(p := w.p) && ReaderPart(v.p) == ReaderPart(w.p) == []
        && (w.p.Passing? ==> w.p.job != Got && (w.p.call.toPortal ==> v.p.Passing? && v.p.job != Got && v.p.call == w.p.call)))
  }

  /** The reader holds its call behind others or for a new registration,
      goes on with it, or is done with it. */
  ghost predicate ReaderPasses(v: View, w: View) {
    && v.p.Passing? && v.p.call.toPortal && v.p.job != Recording
    && var c := v.p.call;
       || (v.p.job == Got && w.p == Reading && w == v.(p := w.p, held := v.held + [c], registering := w.registering)
           && (w.registering == v.registering ==> v.registering.Some? || v.draining)
           && (w.registering != v.registering ==> w.registering.Some? && v.registering.None? && !v.draining))
       || (w == v.(p := w.p) && w.p.Passing? && w.p.call == c && w.p.job != Got && w.p.job != Recording
           && (v.p.job == Got ==> v.registering.None? && !v.draining))
       || (w == v.(p := w.p, handled := v.handled + [c]) && (w.p == Reading || w.p == Passing(c, Recording))
           && (v.p.job == Got ==> v.registering.None? && !v.draining))
  }

  /** The host thread begins or ends a drain, or takes up its next part. */
  ghost predicate DrainMoves(v: View, w: View) {
    || (v.h.Registered? && w == v.(registering := None, draining := true, h := Taking))
    || (v.h == Taking && v.held == [] && w == v.(draining := false, h := Waiting))
    || (v.h == Taking && w == v.(held := [], h := Draining(v.held)))
    || (v.h == Draining([]) && w == v.(h := Taking))
    || (v.h.Draining? && v.h.rest != [] && w == v.(h := Holding(v.h.rest[0], LookingUp, v.h.rest[1..])))
    || (v.h.GivingBack? && w == v.(held := [v.h.call] + v.h.rest + v.held, draining := false, h := Waiting))
  }

  /** The host thread passes its call on, is done with it, or gives it back. */
  ghost predicate DrainPasses(v: View, w: View) {
    && v.h.Holding?
    && var c := v.h.call;
       || (v.h.job != Recording && w.h.Holding? && w.h.job != Recording && w == v.(h := Holding(c, w.h.job, v.h.rest)))
       || (v.h.job != Recording && (w.h == Draining(v.h.rest) || w.h == Holding(c, Recording, v.h.rest))
           && w == v.(h := w.h, handled := v.handled + [c]))
       || (v.h.job == Recording && w == v.(h := Draining(v.h.rest)))
       || (v.h.job != Recording && w.registering.Some?
           && w == v.(registering := w.registering, h := GivingBack(c, v.h.rest)))
  }

  /** The host thread does something else. */
  ghost predicate Elsewhere(v: View, w: View) {
    && !InDrain(v.h) && !InDrain(w.h) && w == v.(h := w.h)
    && (w.h.Registered? ==> w.h.reply.Reply? && v.registering == Some(w.h.reply.serial))
  }

  lemma ReadsOrdered(v: View, w: View)
    requires Ordered(v) && ReaderReads(v, w)
    ensures Ordered(w)
  {
    hide DrainPart, InDrain;
    assert w.received == v.received + ReaderPart(w.p) || w.received == v.received;
  }

  lemma PassesOrdered(v: View, w: View)
    requires Ordered(v) && ReaderPasses(v, w)
    ensures Ordered(w)
  {
    hide DrainPart;
    OutOfDrain(v.h);
    var c := v.p.call;
    assert v.handled + DrainPart(v.h) + (v.held + [c]) == v.handled + DrainPart(v.h) + v.held + [c];
  }

  lemma OutOfDrain(h: Relay)
    ensures !InDrain(h) ==> DrainPart(h) == []
  {
  }

  lemma DrainMovesOrdered(v: View, w: View)
    requires Ordered(v) && DrainMoves(v, w)
    ensures Ordered(w)
  {
    hide Ordered, InOrder, Standing, DrainMoves;
    DrainMovesInOrder(v, w);
    DrainMovesStanding(v, w);
  }

  lemma DrainMovesInOrder(v: View, w: View)
    requires Ordered(v) && DrainMoves(v, w)
    ensures InOrder(w) && (Standing(w) ==> Ordered(w))
  {
    hide ReaderPart;
    OutOfDrain(v.h);
    if v.h.GivingBack? {
      assert v.handled + ([v.h.call] + v.h.rest) + v.held == v.handled + [] + ([v.h.call] + v.h.rest + v.held);
    }
  }

  lemma DrainMovesStanding(v: View, w: View)
    requires Ordered(v) && DrainMoves(v, w)
    ensures Standing(w)
  {
    hide InOrder, Numbered;
  }

  lemma DrainPassesOrdered(v: View, w: View)
    requires Ordered(v) && DrainPasses(v, w)
    ensures Ordered(w)
  {
  }

  lemma ElsewhereOrdered(v: View, w: View)
    requires Ordered(v) && Elsewhere(v, w)
    ensures Ordered(w)
  {
  }

  /** What the portal lock guards, after a call was held, or sent on, or the
      portal asked. */
  lemma RegionView(s: State, c: Call, fromHeld: bool)
    ensures var (t, outcome) := PortalRegion(s, c, fromHeld);
            match outcome
            case Kept =>
              && !fromHeld
              && ViewOf(t) == ViewOf(s).(held := s.portal.held + [c], registering := t.portal.registering)
              && (t.portal.registering == s.portal.registering ==> s.portal.registering.Some? || s.portal.draining)
              && (t.portal.registering != s.portal.registering ==>
                    t.portal.registering.Some? && s.portal.registering.None? && !s.portal.draining)
            case HandBack =>
              fromHeld && t.portal.registering.Some? && ViewOf(t) == ViewOf(s).(registering := t.portal.registering)
            case _ => ViewOf(t) == ViewOf(s) && (!fromHeld ==> s.portal.registering.None? && !s.portal.draining)
  {
  }

  lemma PortalView(s: State, a: PortalAct, t: State)
    requires PortalStep(s, a) == Some(t) && Standing(ViewOf(s))
    ensures var v, w := ViewOf(s), ViewOf(t); ReaderReads(v, w) || ReaderPasses(v, w)
  {
    hide InDrain, DrainPart;
    if a == Ask {
      AskView(s, t);
    }
  }

  lemma AskView(s: State, t: State)
    requires PortalStep(s, Ask) == Some(t) && Standing(ViewOf(s))
    ensures ReaderPasses(ViewOf(s), ViewOf(t))
  {
    hide InDrain, DrainPart, PortalRegion;
    RegionView(s, s.p.call, false);
  }

  lemma DrainView(s: State, a: DrainAct, t: State)
    requires DrainStep(s, a) == Some(t) && Standing(ViewOf(s))
    ensures var v, w := ViewOf(s), ViewOf(t); DrainMoves(v, w) || DrainPasses(v, w)
  {
    hide InDrain, DrainPart;
    if s.h.Holding? {
      HoldingView(s, a, t);
    }
  }

  lemma HoldingView(s: State, a: DrainAct, t: State)
    requires DrainStep(s, a) == Some(t) && Standing(ViewOf(s)) && s.h.Holding?
    ensures DrainPasses(ViewOf(s), ViewOf(t))
  {
    hide InDrain, DrainPart, PortalRegion;
    RegionView(s, s.h.call, true);
  }

  lemma RelayView(s: State, a: RelayAct, t: State)
    requires RelayStep(s, a) == Some(t)
    ensures Elsewhere(ViewOf(s), ViewOf(t))
  {
    hide Taken, Dispatched;
    if a == Dispatch {
      DispatchedView(s, s.h.msg);
    } else if a == TakePending {
      TakenView(s, s.h.reply);
    }
  }

  lemma TakenView(s: State, m: HostMsg)
    requires m.Reply? && s.h.Relaying?
    ensures Elsewhere(ViewOf(s), ViewOf(Taken(s, m)))
  {
  }

  lemma DispatchedView(s: State, m: HostMsg)
    requires s.h.Dispatching?
    ensures Elsewhere(ViewOf(s), ViewOf(Dispatched(s, m)))
  {
  }

  lemma EndView(s: State, a: EndAct)
    requires EndStep(s, a).Some?
    ensures Elsewhere(ViewOf(s), ViewOf(EndStep(s, a).value))
  {
  }

  lemma OtherView(s: State, a: OtherAct)
    requires OtherStep(s, a).Some?
    ensures ViewOf(OtherStep(s, a).value) == ViewOf(s)
  {
  }

  lemma StepOrdered(s: State, a: Act)
    requires Ordered(ViewOf(s)) && Step(s, a).Some?
    ensures Ordered(ViewOf(Step(s, a).value))
  {
    hide PortalStep, OtherStep, DrainStep, RelayStep, EndStep, InOrder, Standing, Numbered;
    hide ReaderReads, ReaderPasses, DrainMoves, DrainPasses, Elsewhere;
    var v, w := ViewOf(s), ViewOf(Step(s, a).value);
    match a {
      case OfPortal(b) =>
        PortalView(s, b, Step(s, a).value);
        if ReaderReads(v, w) { ReadsOrdered(v, w); } else { PassesOrdered(v, w); }
      case OfOther(b) => OtherView(s, b);
      case OfDrain(b) =>
        DrainView(s, b, Step(s, a).value);
        if DrainMoves(v, w) { DrainMovesOrdered(v, w); } else { DrainPassesOrdered(v, w); }
      case OfRelay(b) =>
        RelayView(s, b, Step(s, a).value);
        ElsewhereOrdered(v, w);
      case OfEnd(b) =>
        EndView(s, b);
        ElsewhereOrdered(v, w);
    }
  }

  lemma {:induction false} RunsAreOrdered(run: seq<State>, acts: seq<Act>, k: nat)
    requires IsRun(run, acts) && k < |run|
    ensures Ordered(ViewOf(run[k]))
  {
    hide Step, Ordered;
    if k == 0 {
      var app, owner, portalOwner :| run[0] == Start(app, owner, portalOwner);
      StartOrdered(app, owner, portalOwner);
    } else {
      RunsAreOrdered(run, acts, k - 1);
      assert Step(run[k - 1], acts[k - 1]) == Some(run[k - 1 + 1]);
      StepOrdered(run[k - 1], acts[k - 1]);
    }
  }

  /** In every interleaving, across any number of registrations, the portal
      calls handled are the first ones read, in that order and once each; the
      others are with a thread or held, and calls are held only while the
      reply to a registration is awaited or held calls are being passed on. */
  lemma PortalCallsInOrder(run: seq<State>, acts: seq<Act>, k: nat)
    requires IsRun(run, acts) && k < |run|
    ensures var s := run[k];
            && s.log.handled <= s.log.received
            && s.log.received[|s.log.handled|..] == DrainPart(s.h) + s.portal.held + ReaderPart(s.p)
            && (forall i, j | 0 <= i < j < |s.log.received| :: s.log.received[i] != s.log.received[j])
            && (s.portal.held != [] ==> s.portal.registering.Some? || s.portal.draining)
  {
    hide Step, DrainPart, ReaderPart;
    RunsAreOrdered(run, acts, k);
    var s := run[k];
    var rest := DrainPart(s.h) + s.portal.held + ReaderPart(s.p);
    assert s.log.received == s.log.handled + rest;
    assert forall i | 0 <= i < |s.log.received| :: s.log.received[i].id == i;
  }
}
