/** Which portal instance a call goes to, and when the client registers
    again. */
module GatewayOwners {
  import opened Wrappers
  import opened Gateway

  /** A thread asks where its call is to go. */
  predicate Asks(a: Act) {
    a == OfPortal(Ask) || a == OfDrain(DrainAsk)
  }

  function Asking(s: State, a: Act): Option<Call> {
    if a == OfPortal(Ask) && s.p.Passing? then Some(s.p.call)
    else if a == OfDrain(DrainAsk) && s.h.Holding? then Some(s.h.call)
    else None
  }

  /** Where the asking thread is to send its call, as it learns. */
  function Learns(t: State, a: Act): Option<Dest> {
    if a == OfPortal(Ask) && t.p.Passing? && t.p.job.Go? then Some(t.p.job.dest)
    else if a == OfDrain(DrainAsk) && t.h.Holding? && t.h.job.Go? then Some(t.h.job.dest)
    else None
  }

  /** A call just read waits behind others while the client registers, and
      until those held are passed on. */
  predicate MustWait(s: State, a: Act) {
    a == OfPortal(Ask) && (s.portal.registering.Some? || s.portal.draining)
  }

  /** The instance that accepted the client owns the portal's name. */
  predicate Current(s: State) {
    s.portal.owner.Some? && s.portalOwner.Some? && s.portal.owner.value == s.portalOwner.value
  }

  /** The call is back with those held: last when just read, and in the host
      thread's hands when it was one of them. */
  predicate Held(s: State, a: Act, t: State) {
    if a == OfPortal(Ask) then s.p.Passing? && t.p == Reading && t.portal.held == s.portal.held + [s.p.call] && t.h == s.h
    else s.h.Holding? && t.h == GivingBack(s.h.call, s.h.rest) && t.portal.held == s.portal.held && t.p == s.p
  }

  /** A thread that asks is told the unique name of an instance exactly when
      that instance owns the portal's name at that moment and is the one that
      accepted the client; a client that another instance, or none, knows
      registers again, with the call held; one without an identity has its
      calls sent to the portal's name. */
  lemma AsksExactly(s: State, a: Act, t: State)
    requires Step(s, a) == Some(t) && Asks(a)
    ensures t.portalOwner == s.portalOwner && t.portal.owner == s.portal.owner && t.portal.app == s.portal.app
    ensures forall n :: Learns(t, a) == Some(Unique(n)) <==>
              !MustWait(s, a) && s.portal.app.Some? && s.portalOwner == Some(n) && s.portal.owner == Some(n)
    ensures Learns(t, a) == Some(WellKnown) <==> !MustWait(s, a) && s.portal.app.None?
    ensures !MustWait(s, a) && s.portal.app.Some? && !Current(s) && s.host.up && !s.host.broken ==>
              t.portal.registering == Some(s.host.next) && t.host.next == s.host.next + 1 && Held(s, a, t)
    ensures MustWait(s, a) ==> t.portal.registering == s.portal.registering && t.host == s.host && Held(s, a, t)
    ensures Learns(t, a).Some? ==> t.portal == s.portal && t.host == s.host
  {
    if a == OfPortal(Ask) {
      ReaderAsks(s, t);
    } else {
      HostAsks(s, t);
    }
  }

  lemma ReaderAsks(s: State, t: State)
    requires PortalStep(s, Ask) == Some(t)
    ensures var a := OfPortal(Ask);
            && t.portalOwner == s.portalOwner && t.portal.owner == s.portal.owner && t.portal.app == s.portal.app
            && (forall n :: Learns(t, a) == Some(Unique(n)) <==>
                  !MustWait(s, a) && s.portal.app.Some? && s.portalOwner == Some(n) && s.portal.owner == Some(n))
            && (Learns(t, a) == Some(WellKnown) <==> !MustWait(s, a) && s.portal.app.None?)
            && (!MustWait(s, a) && s.portal.app.Some? && !Current(s) && s.host.up && !s.host.broken ==>
                  t.portal.registering == Some(s.host.next) && t.host.next == s.host.next + 1 && Held(s, a, t))
            && (MustWait(s, a) ==> t.portal.registering == s.portal.registering && t.host == s.host && Held(s, a, t))
            && (Learns(t, a).Some? ==> t.portal == s.portal && t.host == s.host)
  {
  }

  lemma HostAsks(s: State, t: State)
    requires DrainStep(s, DrainAsk) == Some(t)
    ensures var a := OfDrain(DrainAsk);
            && t.portalOwner == s.portalOwner && t.portal.owner == s.portal.owner && t.portal.app == s.portal.app
            && (forall n :: Learns(t, a) == Some(Unique(n)) <==>
                  s.portal.app.Some? && s.portalOwner == Some(n) && s.portal.owner == Some(n))
            && (Learns(t, a) == Some(WellKnown) <==> s.portal.app.None?)
            && (s.portal.app.Some? && !Current(s) && s.host.up && !s.host.broken ==>
                  t.portal.registering == Some(s.host.next) && t.host.next == s.host.next + 1 && Held(s, a, t))
            && (Learns(t, a).Some? ==> t.portal == s.portal && t.host == s.host)
  {
  }

  // Over runs.

  /** The call a thread is passing on and the destination it has learnt. */
  function Bound(p: Reader): Option<(Call, Dest)> {
    if p.Passing? then (match p.job case Go(d) => Some((p.call, d)) case Checked(d) => Some((p.call, d))
                                    case Sending(d) => Some((p.call, d)) case _ => None)
    else None
  }

  function HostBound(h: Relay): Option<(Call, Dest)> {
    if h.Holding? then Bound(Passing(h.call, h.job)) else None
  }

  /** By step `k` a thread asked where `c` is to go while `n` owned the portal's
      name and had accepted the client. */
  ghost predicate AskedOf(run: seq<State>, acts: seq<Act>, k: nat, c: Call, n: Name) {
    k < |run| && |run| == |acts| + 1
    && exists j | 0 <= j < k ::
         Asks(acts[j]) && Asking(run[j], acts[j]) == Some(c) && run[j].portalOwner == Some(n) && run[j].portal.owner == Some(n)
  }

  /** Every destination by its unique name was learnt so. */
  ghost predicate Learnt(run: seq<State>, acts: seq<Act>, k: nat, s: State) {
    && (forall c, n | Bound(s.p) == Some((c, Unique(n))) :: AskedOf(run, acts, k, c, n))
    && (forall c, n | HostBound(s.h) == Some((c, Unique(n))) :: AskedOf(run, acts, k, c, n))
    && (forall i | i in s.book.sent :: s.book.sent[i].dest.Unique? ==>
          AskedOf(run, acts, k, s.book.sent[i].call, s.book.sent[i].dest.name))
  }

  /** What a step may newly bind or send. */
  ghost predicate Follows(s: State, a: Act, t: State) {
    && (Bound(t.p).Some? && Bound(t.p).value.1.Unique? ==>
          Bound(t.p) == Bound(s.p) || (a == OfPortal(Ask) && Asking(s, a) == Some(Bound(t.p).value.0)
                                       && Learns(t, a) == Some(Bound(t.p).value.1)))
    && (HostBound(t.h).Some? && HostBound(t.h).value.1.Unique? ==>
          HostBound(t.h) == HostBound(s.h) || (a == OfDrain(DrainAsk) && Asking(s, a) == Some(HostBound(t.h).value.0)
                                               && Learns(t, a) == Some(HostBound(t.h).value.1)))
    && (forall i | i in t.book.sent && t.book.sent[i].dest.Unique? ::
          || (i in s.book.sent && t.book.sent[i] == s.book.sent[i])
          || Bound(s.p) == Some((t.book.sent[i].call, t.book.sent[i].dest))
          || HostBound(s.h) == Some((t.book.sent[i].call, t.book.sent[i].dest)))
  }

  predicate SameBindings(s: State, t: State) {
    t.p == s.p && t.h == s.h && t.book.sent == s.book.sent
  }

  lemma BindingsKept()
    ensures forall s, c :: SameBindings(s, Handle(s, c))
    ensures forall s, p :: SameBindings(s, Unopen(s, p))
    ensures forall s :: SameBindings(s, CloseIfDone(s))
    ensures forall s, k, c :: SameBindings(s, Record(s, k, c))
    ensures forall s, c, f :: SameBindings(s, PortalRegion(s, c, f).0)
    ensures forall s, c, d, l :: var t := SendRegion(s, c, d, l);
              t.p == s.p && t.h == s.h
              && t.book.sent == s.book.sent[s.host.next := Sent(c, d, s.portal.app.Some?, s.log.accepted)]
  {
    hide OpensPending;
  }

  lemma PortalFollows(s: State, a: PortalAct, t: State)
    requires PortalStep(s, a) == Some(t)
    ensures Follows(s, OfPortal(a), t)
  {
    hide Handle, Unopen, CloseIfDone, Record, SendRegion, PortalRegion;
    BindingsKept();
  }

  lemma DrainFollows(s: State, a: DrainAct, t: State)
    requires DrainStep(s, a) == Some(t)
    ensures Follows(s, OfDrain(a), t)
  {
    hide Handle, Unopen, CloseIfDone, Record, SendRegion, PortalRegion;
    BindingsKept();
  }

  lemma OtherFollows(s: State, a: OtherAct, t: State)
    requires OtherStep(s, a) == Some(t)
    ensures Follows(s, OfOther(a), t)
  {
  }

  lemma RelayFollows(s: State, a: RelayAct, t: State)
    requires RelayStep(s, a) == Some(t)
    ensures Follows(s, OfRelay(a), t)
  {
    hide OpensPending, Opened, Without;
  }

  lemma EndFollows(s: State, a: EndAct, t: State)
    requires EndStep(s, a) == Some(t)
    ensures Follows(s, OfEnd(a), t)
  {
  }

  lemma StepFollows(s: State, a: Act, t: State)
    requires Step(s, a) == Some(t)
    ensures Follows(s, a, t)
  {
    hide PortalStep, OtherStep, DrainStep, RelayStep, EndStep, Follows;
    match a {
      case OfPortal(b) => PortalFollows(s, b, t);
      case OfOther(b) => OtherFollows(s, b, t);
      case OfDrain(b) => DrainFollows(s, b, t);
      case OfRelay(b) => RelayFollows(s, b, t);
      case OfEnd(b) => EndFollows(s, b, t);
    }
  }

  lemma {:induction false} RunsLearn(run: seq<State>, acts: seq<Act>, k: nat)
    requires IsRun(run, acts) && k < |run|
    ensures Learnt(run, acts, k, run[k])
  {
    hide Step, Follows, Learnt;
    if k == 0 {
      var app, owner, portalOwner :| run[0] == Start(app, owner, portalOwner);
      StartLearnt(run, acts, app, owner, portalOwner);
    } else {
      RunsLearn(run, acts, k - 1);
      assert Step(run[k - 1], acts[k - 1]) == Some(run[k - 1 + 1]);
      StepFollows(run[k - 1], acts[k - 1], run[k]);
      StillLearnt(run, acts, k);
    }
  }

  lemma StartLearnt(run: seq<State>, acts: seq<Act>, app: Option<string>, owner: Option<Name>, portalOwner: Option<Name>)
    ensures Learnt(run, acts, 0, Start(app, owner, portalOwner))
  {
  }

  lemma StillLearnt(run: seq<State>, acts: seq<Act>, k: nat)
    requires IsRun(run, acts) && 0 < k < |run|
    requires Learnt(run, acts, k - 1, run[k - 1]) && Follows(run[k - 1], acts[k - 1], run[k])
    ensures Learnt(run, acts, k, run[k])
  {
    hide Step;
    forall c, n | AskedOf(run, acts, k - 1, c, n)
      ensures AskedOf(run, acts, k, c, n)
    {
    }
    if Asks(acts[k - 1]) {
      assert Step(run[k - 1], acts[k - 1]) == Some(run[k - 1 + 1]);
      AsksExactly(run[k - 1], acts[k - 1], run[k]);
    }
  }

  /** In every interleaving, across any number of portal restarts, a call sent
      to a unique name was bound for it by a thread that asked while that name
      owned the portal's and had accepted the client. */
  lemma DestinationsOwnedThePortal(run: seq<State>, acts: seq<Act>, k: nat, serial: nat)
    requires IsRun(run, acts) && k < |run| && serial in run[k].book.sent && run[k].book.sent[serial].dest.Unique?
    ensures var m := run[k].book.sent[serial];
            exists j | 0 <= j < k ::
              && Asks(acts[j]) && Asking(run[j], acts[j]) == Some(m.call)
              && run[j].portalOwner == Some(m.dest.name) && run[j].portal.owner == Some(m.dest.name)
  {
    hide Step;
    RunsLearn(run, acts, k);
    assert AskedOf(run, acts, k, run[k].book.sent[serial].call, run[k].book.sent[serial].dest.name);
  }

  /** What changes who owns the portal's name, as the client was last told, the
      instance that accepted it, its identity, and its registration. */
  ghost predicate StandingNext(s: State, a: Act, t: State) {
    && (t.portalOwner ==
        if a == OfRelay(Dispatch) && s.h.Dispatching? && s.h.msg.PortalOwner? then s.h.msg.owner else s.portalOwner)
    && (a != OfDrain(Accept) ==> t.portal.owner == s.portal.owner && t.portal.app == s.portal.app)
    && (a == OfDrain(Accept) ==>
          && s.h.Registered? && s.h.reply.Reply? && t.portal.registering == None && t.portal.held == s.portal.held
          && (s.h.reply.ok ==> t.portal.owner == s.h.reply.sender && t.portal.app == s.portal.app)
          && (!s.h.reply.ok ==> t.portal.owner == None && t.portal.app == None))
    && (t.portal.registering != s.portal.registering ==> Asks(a) || a == OfDrain(Accept))
    && (t.h.Registered? && !s.h.Registered? ==>
          a == OfRelay(Dispatch) && s.h == Dispatching(t.h.reply) && t.h.reply.Reply?
          && s.portal.registering == Some(t.h.reply.serial))
    && (a == OfRelay(Dispatch) && s.h.Dispatching? && s.h.msg.Reply? && s.portal.registering == Some(s.h.msg.serial) ==>
          t.h == Registered(s.h.msg))
  }

  lemma StandingKept()
    ensures forall s, c :: Handle(s, c).portal == s.portal && Handle(s, c).portalOwner == s.portalOwner && Handle(s, c).h == s.h
    ensures forall s, p :: Unopen(s, p).portal == s.portal && Unopen(s, p).portalOwner == s.portalOwner && Unopen(s, p).h == s.h
    ensures forall s :: CloseIfDone(s).portal == s.portal && CloseIfDone(s).portalOwner == s.portalOwner
                        && CloseIfDone(s).h == s.h
    ensures forall s, k, c :: Record(s, k, c).portal == s.portal && Record(s, k, c).portalOwner == s.portalOwner
                              && Record(s, k, c).h == s.h
    ensures forall s, c, d, l :: SendRegion(s, c, d, l).portal == s.portal && SendRegion(s, c, d, l).portalOwner == s.portalOwner
                                 && SendRegion(s, c, d, l).h == s.h
    ensures forall s, c, f :: PortalRegion(s, c, f).0.portal.owner == s.portal.owner
                              && PortalRegion(s, c, f).0.portal.app == s.portal.app
                              && PortalRegion(s, c, f).0.portalOwner == s.portalOwner && PortalRegion(s, c, f).0.h == s.h
  {
    hide OpensPending;
  }

  lemma PortalStanding(s: State, a: PortalAct, t: State)
    requires PortalStep(s, a) == Some(t)
    ensures StandingNext(s, OfPortal(a), t)
  {
    hide Handle, Unopen, CloseIfDone, Record, SendRegion, PortalRegion;
    StandingKept();
  }

  lemma DrainStanding(s: State, a: DrainAct, t: State)
    requires DrainStep(s, a) == Some(t)
    ensures StandingNext(s, OfDrain(a), t)
  {
    hide Handle, Unopen, CloseIfDone, Record, SendRegion, PortalRegion;
    StandingKept();
  }

  lemma OtherStanding(s: State, a: OtherAct, t: State)
    requires OtherStep(s, a) == Some(t)
    ensures StandingNext(s, OfOther(a), t)
  {
    hide Handle, Record, SendRegion;
    StandingKept();
  }

  lemma RelayStanding(s: State, a: RelayAct, t: State)
    requires RelayStep(s, a) == Some(t)
    ensures StandingNext(s, OfRelay(a), t)
  {
    hide Unopen, CloseIfDone, Opened, Without;
    StandingKept();
  }

  lemma EndStanding(s: State, a: EndAct, t: State)
    requires EndStep(s, a) == Some(t)
    ensures StandingNext(s, OfEnd(a), t)
  {
  }

  lemma StandingChanges(s: State, a: Act, t: State)
    requires Step(s, a) == Some(t)
    ensures StandingNext(s, a, t)
  {
    hide PortalStep, OtherStep, DrainStep, RelayStep, EndStep, StandingNext;
    match a {
      case OfPortal(b) => PortalStanding(s, b, t);
      case OfOther(b) => OtherStanding(s, b, t);
      case OfDrain(b) => DrainStanding(s, b, t);
      case OfRelay(b) => RelayStanding(s, b, t);
      case OfEnd(b) => EndStanding(s, b, t);
    }
  }

  /** A portal that refuses a client is not asked again: from then on it has no
      identity, and every call a thread asks about goes to the portal's name. */
  lemma {:induction false} RefusalIsFinal(run: seq<State>, acts: seq<Act>, j: nat, k: nat)
    requires IsRun(run, acts) && j < k < |run|
    requires acts[j] == OfDrain(Accept) && run[j].h.Registered? && run[j].h.reply.Reply? && !run[j].h.reply.ok
    ensures run[k].portal.app.None? && run[k].portal.registering.None?
    ensures k < |acts| && Asks(acts[k]) && !run[k].portal.draining ==> Learns(run[k + 1], acts[k]) == Some(WellKnown)
    ensures k < |acts| && acts[k] == OfDrain(DrainAsk) ==> Learns(run[k + 1], acts[k]) == Some(WellKnown)
  {
    hide Step, Learns;
    assert Step(run[k - 1], acts[k - 1]) == Some(run[k - 1 + 1]);
    StandingChanges(run[k - 1], acts[k - 1], run[k]);
    if k > j + 1 {
      RefusalIsFinal(run, acts, j, k - 1);
      if Asks(acts[k - 1]) {
        NoRegistration(run[k - 1], acts[k - 1], run[k]);
      }
    }
    if k < |acts| && Asks(acts[k]) {
      assert Step(run[k], acts[k]) == Some(run[k + 1]);
      AsksExactly(run[k], acts[k], run[k + 1]);
    }
  }

  lemma NoRegistration(s: State, a: Act, t: State)
    requires Step(s, a) == Some(t) && Asks(a) && s.portal.app.None? && s.portal.registering.None?
    ensures t.portal.registering.None?
  {
  }
}
