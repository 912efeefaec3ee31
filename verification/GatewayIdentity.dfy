/** Portal calls of a client with an identity go to the portal instance that
    accepted it. */
module GatewayIdentity {
  import opened Wrappers
  import opened Gateway
  import Order = GatewayOrder

  /** Where a portal call a thread is passing on is to go. */
  function Heading(job: Job): Option<Dest> {
    match job
    case Go(d) => Some(d)
    case Checked(d) => Some(d)
    case Sending(d) => Some(d)
    case _ => None
  }

  function ReaderDest(p: Reader): Option<Dest> {
    if p.Passing? && p.call.toPortal then Heading(p.job) else None
  }

  function RelayDest(h: Relay): Option<Dest> {
    if h.Holding? then Heading(h.job) else None
  }

  datatype View = View(
    app: Option<string>, owner: Option<Name>, accepted: Option<Name>,
    reader: Option<Dest>, relay: Option<Dest>, sent: map<nat, Sent>)

  function ViewOf(s: State): View {
    View(s.portal.app, s.portal.owner, s.log.accepted, ReaderDest(s.p), RelayDest(s.h), s.book.sent)
  }

  /** To the name that accepted the client's identity, or to the portal's
      name when it has none. */
  predicate RightDest(identified: bool, accepted: Option<Name>, dest: Dest) {
    if identified then accepted.Some? && dest == Unique(accepted.value) else dest == WellKnown
  }

  ghost predicate Identified(v: View) {
    && (v.app.Some? ==> v.owner == v.accepted)
    && (v.reader.Some? ==> RightDest(v.app.Some?, v.accepted, v.reader.value))
    && (v.relay.Some? ==> RightDest(v.app.Some?, v.accepted, v.relay.value))
    && (forall k | k in v.sent && v.sent[k].call.toPortal ::
          RightDest(v.sent[k].identified, v.sent[k].accepted, v.sent[k].dest))
  }

  lemma StartIdentified(app: Option<string>, owner: Option<Name>, portalOwner: Option<Name>)
    ensures Identified(ViewOf(Start(app, owner, portalOwner)))
  {
  }

  /** A thread learns where its call is to go. */
  predicate FromRegion(v: View, dest: Dest) {
    if v.app.None? then dest == WellKnown else v.owner.Some? && dest == Unique(v.owner.value)
  }

  /** A thread goes on, or sends a call with serial `k`. */
  ghost predicate Goes(v: View, w: View, k: nat) {
    || (w == v.(reader := w.reader) && (w.reader.Some? ==> w.reader == v.reader || FromRegion(v, w.reader.value)))
    || (w == v.(relay := w.relay) && (w.relay.Some? ==> w.relay == v.relay || FromRegion(v, w.relay.value)))
    || Sends(v, w, k)
  }

  ghost predicate Sends(v: View, w: View, k: nat) {
    && k in w.sent && w.sent == v.sent[k := w.sent[k]]
    && w.sent[k].identified == v.app.Some? && w.sent[k].accepted == v.accepted
    && (w.sent[k].call.toPortal ==> Some(w.sent[k].dest) == v.reader || Some(w.sent[k].dest) == v.relay)
    && w == v.(reader := w.reader, relay := w.relay, sent := w.sent)
    && (w.reader == v.reader || w.reader == None) && (w.relay == v.relay || w.relay == None)
  }

  /** The reply to a registration. */
  ghost predicate Accepts(v: View, w: View) {
    && v.reader.None? && v.relay.None?
    && (w == v.(owner := w.owner, accepted := w.owner) || w == v.(app := None, owner := None))
  }

  lemma GoesIdentified(v: View, w: View, k: nat)
    requires Identified(v) && (Goes(v, w, k) || Accepts(v, w))
    ensures Identified(w)
  {
  }

  /** What leaves the view alone. */
  lemma Frames()
    ensures forall s, c :: ViewOf(Handle(s, c)) == ViewOf(s)
    ensures forall s, path :: ViewOf(Unopen(s, path)) == ViewOf(s)
    ensures forall s, k, c :: ViewOf(Record(s, k, c)) == ViewOf(s)
    ensures forall s :: ViewOf(CloseIfDone(s)) == ViewOf(s)
    ensures forall s, c, fromHeld ::
              ViewOf(PortalRegion(s, c, fromHeld).0) == ViewOf(s)
    ensures forall s, c, fromHeld :: PortalRegion(s, c, fromHeld).1.Pass? ==>
              FromRegion(ViewOf(s), PortalRegion(s, c, fromHeld).1.dest)
    ensures forall s, c, d, lock ::
              ViewOf(SendRegion(s, c, d, lock)) == ViewOf(s).(sent := s.book.sent[s.host.next := Sent(c, d, s.portal.app.Some?, s.log.accepted)])
  {
  }

  lemma DispatchFrame(s: State, m: HostMsg)
    requires s.h.Dispatching?
    ensures ViewOf(Dispatched(s, m)) == ViewOf(s)
  {
    hide Unopen;
    Frames();
  }

  lemma PortalGoes(s: State, a: PortalAct)
    requires PortalStep(s, a).Some? && Order.Standing(Order.ViewOf(s))
    ensures Goes(ViewOf(s), ViewOf(PortalStep(s, a).value), s.host.next)
  {
    hide Handle, Unopen, Record, CloseIfDone, PortalRegion, SendRegion;
    Frames();
  }

  lemma OtherGoes(s: State, a: OtherAct)
    requires OtherStep(s, a).Some?
    ensures Goes(ViewOf(s), ViewOf(OtherStep(s, a).value), s.host.next)
  {
    hide Record, SendRegion;
    Frames();
    if a.TalkSend? {
      assert ViewOf(s.(talk := s.talk - {a.i})) == ViewOf(s);
    }
  }

  lemma TakenFrame(s: State, m: HostMsg)
    requires m.Reply? && s.h.Relaying?
    ensures ViewOf(Taken(s, m)) == ViewOf(s)
  {
    hide Without, Opened;
  }

  lemma RelayGoes(s: State, a: RelayAct)
    requires RelayStep(s, a).Some?
    ensures Goes(ViewOf(s), ViewOf(RelayStep(s, a).value), s.host.next)
  {
    hide Dispatched, Taken, CloseIfDone;
    Frames();
    if s.h.Dispatching? {
      DispatchFrame(s, s.h.msg);
    } else if s.h.Relaying? && s.h.reply.Reply? {
      TakenFrame(s, s.h.reply);
    }
  }

  lemma EndGoes(s: State, a: EndAct)
    requires EndStep(s, a).Some?
    ensures Goes(ViewOf(s), ViewOf(EndStep(s, a).value), s.host.next)
  {
  }

  lemma DrainGoes(s: State, a: DrainAct)
    requires DrainStep(s, a).Some? && Order.Standing(Order.ViewOf(s))
    ensures var v, w := ViewOf(s), ViewOf(DrainStep(s, a).value); Goes(v, w, s.host.next) || Accepts(v, w)
  {
    hide Handle, Unopen, Record, CloseIfDone, PortalRegion, SendRegion, Accepts;
    match a {
      case Accept => AcceptAccepts(s);
      case DrainAsk => DrainAskGoes(s);
      case DrainSend => DrainSendGoes(s);
      case _ =>
        hide Order.Standing;
        Frames();
    }
  }

  lemma AcceptAccepts(s: State)
    requires DrainStep(s, Accept).Some? && Order.Standing(Order.ViewOf(s))
    ensures Accepts(ViewOf(s), ViewOf(DrainStep(s, Accept).value))
  {
  }

  lemma DrainAskGoes(s: State)
    requires DrainStep(s, DrainAsk).Some?
    ensures Goes(ViewOf(s), ViewOf(DrainStep(s, DrainAsk).value), s.host.next)
  {
    hide PortalRegion, Handle;
    Frames();
  }

  lemma DrainSendGoes(s: State)
    requires DrainStep(s, DrainSend).Some?
    ensures Goes(ViewOf(s), ViewOf(DrainStep(s, DrainSend).value), s.host.next)
  {
    hide SendRegion, Handle;
    Frames();
  }

  lemma StepIdentified(s: State, a: Act)
    requires Identified(ViewOf(s)) && Order.Standing(Order.ViewOf(s)) && Step(s, a).Some?
    ensures Identified(ViewOf(Step(s, a).value))
  {
    hide PortalStep, OtherStep, DrainStep, RelayStep, EndStep, ViewOf, Goes, Accepts, Identified;
    match a {
      case OfPortal(b) => PortalGoes(s, b);
      case OfOther(b) => OtherGoes(s, b);
      case OfDrain(b) => DrainGoes(s, b);
      case OfRelay(b) => RelayGoes(s, b);
      case OfEnd(b) => EndGoes(s, b);
    }
    GoesIdentified(ViewOf(s), ViewOf(Step(s, a).value), s.host.next);
  }

  lemma {:induction false} RunsAreIdentified(run: seq<State>, acts: seq<Act>, k: nat)
    requires IsRun(run, acts) && k < |run|
    ensures Identified(ViewOf(run[k]))
  {
    hide Step, Identified;
    if k == 0 {
      var app, owner, portalOwner :| run[0] == Start(app, owner, portalOwner);
      StartIdentified(app, owner, portalOwner);
    } else {
      RunsAreIdentified(run, acts, k - 1);
      assert Step(run[k - 1], acts[k - 1]) == Some(run[k - 1 + 1]);
      Order.RunsAreOrdered(run, acts, k - 1);
      StepIdentified(run[k - 1], acts[k - 1]);
    }
  }

  /** In every interleaving, every portal call sent while the client had an
      identity is addressed to the unique name that accepted its latest
      registration, and every other to the portal's name. */
  lemma PortalCallsGoToTheAcceptor(run: seq<State>, acts: seq<Act>, k: nat, serial: nat)
    requires IsRun(run, acts) && k < |run| && serial in run[k].book.sent && run[k].book.sent[serial].call.toPortal
    ensures var m := run[k].book.sent[serial];
            if m.identified then m.accepted.Some? && m.dest == Unique(m.accepted.value) else m.dest == WellKnown
  {
    hide Step;
    RunsAreIdentified(run, acts, k);
  }
}
