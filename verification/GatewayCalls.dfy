/** Which calls are sent, and how a client's connection ends. */
module GatewayCalls {
  import opened Wrappers
  import opened Gateway

  // Calls are sent as they were read.

  /** The calls the host thread has. */
  function HostCalls(h: Relay): seq<Call> {
    match h
    case Draining(rest) => rest
    case Holding(c, _, rest) => [c] + rest
    case GivingBack(c, rest) => [c] + rest
    case _ => []
  }

  /** `c` is somewhere in the gateway: with a thread, held, or sent. */
  ghost predicate Has(s: State, c: Call) {
    || (s.p.Passing? && s.p.call == c)
    || c in s.portal.held || c in HostCalls(s.h)
    || (exists i | i in s.talk :: c == Call(s.talk[i].id, Talk(i), s.talk[i].serial, s.talk[i].replies, false, false, None))
    || (s.lock.ByTalk? && s.lock.call == c)
    || (exists k | k in s.book.sent :: s.book.sent[k].call == c)
  }

  /** A reader reads `c`: any call on the Portal connection, and on another one
      of a name that is not the portal's. */
  ghost predicate Reads(a: Act, c: Call) {
    || a == OfPortal(Read(c))
    || (c.via.Talk? && !c.toPortal && !c.opens && c.closes == None
        && a == OfOther(TalkRead(c.via.i, TalkCall(c.id, c.serial, c.replies))))
  }

  ghost predicate OnlyRead(s: State, a: Act, t: State) {
    forall c :: Has(t, c) ==> Has(s, c) || Reads(a, c)
  }

  /** What of a state its calls are in. */
  predicate SamePlaces(s: State, t: State) {
    t.p == s.p && t.portal.held == s.portal.held && t.h == s.h && t.talk == s.talk && t.lock == s.lock && t.book.sent == s.book.sent
  }

  lemma PlacesKept()
    ensures forall s, p :: SamePlaces(s, Unopen(s, p))
    ensures forall s :: SamePlaces(s, CloseIfDone(s))
    ensures forall s, c :: SamePlaces(s, Handle(s, c))
    ensures forall s: State, k, c :: SamePlaces(s.(lock := Free), Record(s, k, c))
    ensures forall s: State, c, f :: var t := PortalRegion(s, c, f).0;
              SamePlaces(s, t) || SamePlaces(s.(portal := s.portal.(held := s.portal.held + [c])), t)
    ensures forall s, c, d, l :: var t := SendRegion(s, c, d, l);
              t.p == s.p && t.portal.held == s.portal.held && t.h == s.h && t.talk == s.talk && t.lock == l
              && t.book.sent == s.book.sent[s.host.next := Sent(c, d, s.portal.app.Some?, s.log.accepted)]
  {
    hide OpensPending;
  }

  lemma PortalReads(s: State, a: PortalAct, t: State)
    requires PortalStep(s, a) == Some(t)
    ensures OnlyRead(s, OfPortal(a), t)
  {
    hide Unopen, CloseIfDone, Handle, Record, PortalRegion, SendRegion;
    PlacesKept();
  }

  lemma DrainReads(s: State, a: DrainAct, t: State)
    requires DrainStep(s, a) == Some(t)
    ensures OnlyRead(s, OfDrain(a), t)
  {
    hide OnlyRead, DrainStep;
    if a == DrainAsk {
      DrainAsks(s, t);
    } else if a == DrainSend || a == DrainInsert {
      DrainSends(s, a, t);
    } else if a == Take || a == Next || a == GiveBack {
      DrainHands(s, a, t);
    } else {
      DrainGoesOn(s, a, t);
    }
  }

  /** The host thread takes held calls, one of them, or gives them back. */
  lemma DrainHands(s: State, a: DrainAct, t: State)
    requires DrainStep(s, a) == Some(t) && (a == Take || a == Next || a == GiveBack)
    ensures OnlyRead(s, OfDrain(a), t)
  {
    hide Unopen, CloseIfDone, Handle, Record, PortalRegion, SendRegion;
  }

  lemma DrainGoesOn(s: State, a: DrainAct, t: State)
    requires DrainStep(s, a) == Some(t)
    requires a == Accept || a == LookUp || a.DrainCheck? || a == DrainClose
    ensures OnlyRead(s, OfDrain(a), t)
  {
    hide Unopen, CloseIfDone, Handle, Record, PortalRegion, SendRegion;
    PlacesKept();
  }

  lemma DrainAsks(s: State, t: State)
    requires DrainStep(s, DrainAsk) == Some(t)
    ensures OnlyRead(s, OfDrain(DrainAsk), t)
  {
    hide Handle, PortalRegion;
    PlacesKept();
    RegionGivesBack(s);
  }

  /** A held call is not held behind others again. */
  lemma RegionGivesBack(s: State)
    ensures forall c :: SamePlaces(s, PortalRegion(s, c, true).0)
  {
  }

  lemma DrainSends(s: State, a: DrainAct, t: State)
    requires DrainStep(s, a) == Some(t) && (a == DrainSend || a == DrainInsert)
    ensures OnlyRead(s, OfDrain(a), t)
  {
    hide Handle, Record, SendRegion;
    PlacesKept();
  }

  lemma OtherReads(s: State, a: OtherAct, t: State)
    requires OtherStep(s, a) == Some(t)
    ensures OnlyRead(s, OfOther(a), t)
  {
    hide Record, SendRegion;
    PlacesKept();
  }

  lemma RelayReads(s: State, a: RelayAct, t: State)
    requires RelayStep(s, a) == Some(t)
    ensures OnlyRead(s, OfRelay(a), t)
  {
    hide Unopen, CloseIfDone, Opened, Without;
    PlacesKept();
  }

  lemma EndReads(s: State, a: EndAct, t: State)
    requires EndStep(s, a) == Some(t)
    ensures OnlyRead(s, OfEnd(a), t)
  {
  }

  lemma StepReads(s: State, a: Act, t: State)
    requires Step(s, a) == Some(t)
    ensures OnlyRead(s, a, t)
  {
    hide PortalStep, OtherStep, DrainStep, RelayStep, EndStep, OnlyRead;
    match a {
      case OfPortal(b) => PortalReads(s, b, t);
      case OfOther(b) => OtherReads(s, b, t);
      case OfDrain(b) => DrainReads(s, b, t);
      case OfRelay(b) => RelayReads(s, b, t);
      case OfEnd(b) => EndReads(s, b, t);
    }
  }

  lemma {:induction false} HasWhatWasRead(run: seq<State>, acts: seq<Act>, k: nat, c: Call)
    requires IsRun(run, acts) && k < |run| && Has(run[k], c)
    ensures exists j | 0 <= j < k :: Reads(acts[j], c)
  {
    hide Step, Has, Reads;
    if k == 0 {
      var app, owner, portalOwner :| run[0] == Start(app, owner, portalOwner);
      NoneAtStart(app, owner, portalOwner, c);
    } else {
      assert Step(run[k - 1], acts[k - 1]) == Some(run[k - 1 + 1]);
      StepReads(run[k - 1], acts[k - 1], run[k]);
      if Has(run[k - 1], c) {
        HasWhatWasRead(run, acts, k - 1, c);
      }
    }
  }

  lemma NoneAtStart(app: Option<string>, owner: Option<Name>, portalOwner: Option<Name>, c: Call)
    ensures !Has(Start(app, owner, portalOwner), c)
  {
  }

  /** In every interleaving, every call sent was read so: with its serial, on the
      connection it came in on, and asking for a reply or not. */
  lemma SentAsRead(run: seq<State>, acts: seq<Act>, k: nat, serial: nat)
    requires IsRun(run, acts) && k < |run| && serial in run[k].book.sent
    ensures exists j | 0 <= j < k :: Reads(acts[j], run[k].book.sent[serial].call)
  {
    hide Step, Reads;
    HasWhatWasRead(run, acts, k, run[k].book.sent[serial].call);
  }

  // How a connection ends.

  /** The host connection is broken by its other end, and shut down at the end or
      by a thread that finds the client gone with nothing outstanding. */
  ghost predicate ConnectionNext(s: State, a: Act, t: State) {
    && (t.host.broken <==> s.host.broken || a == OfOther(Break))
    && (t.host.up <==>
          && s.host.up && a != OfEnd(Shutdown)
          && !((a == OfPortal(Close) || a == OfRelay(HostClose)) && s.gone && s.open == {}
               && forall k | k in s.book.pending :: !s.book.pending[k].opens))
    && (t.known <==> s.known && a != OfPortal(Forget) && a != OfEnd(ForgetClient))
    && (t.gone <==> s.gone || a == OfPortal(Leave))
  }

  lemma ConnectionKept()
    ensures forall s, p :: Unopen(s, p).host == s.host && Unopen(s, p).known == s.known && Unopen(s, p).gone == s.gone
    ensures forall s, c :: Handle(s, c).host == s.host && Handle(s, c).known == s.known && Handle(s, c).gone == s.gone
    ensures forall s, k, c :: Record(s, k, c).host == s.host && Record(s, k, c).known == s.known && Record(s, k, c).gone == s.gone
    ensures forall s: State, c, f :: var t := PortalRegion(s, c, f).0;
              t.host.up == s.host.up && t.host.broken == s.host.broken && t.known == s.known && t.gone == s.gone
    ensures forall s, c, d, l :: var t := SendRegion(s, c, d, l);
              t.host.up == s.host.up && t.host.broken == s.host.broken && t.known == s.known && t.gone == s.gone
  {
  }

  lemma PortalConnection(s: State, a: PortalAct, t: State)
    requires PortalStep(s, a) == Some(t)
    ensures ConnectionNext(s, OfPortal(a), t)
  {
    hide Unopen, Handle, Record, PortalRegion, SendRegion;
    ConnectionKept();
  }

  lemma DrainConnection(s: State, a: DrainAct, t: State)
    requires DrainStep(s, a) == Some(t)
    ensures ConnectionNext(s, OfDrain(a), t)
  {
    hide Unopen, Handle, Record, PortalRegion, SendRegion;
    ConnectionKept();
  }

  lemma OtherConnection(s: State, a: OtherAct, t: State)
    requires OtherStep(s, a) == Some(t)
    ensures ConnectionNext(s, OfOther(a), t)
  {
    hide Record, SendRegion;
    ConnectionKept();
  }

  lemma RelayConnection(s: State, a: RelayAct, t: State)
    requires RelayStep(s, a) == Some(t)
    ensures ConnectionNext(s, OfRelay(a), t)
  {
    hide Unopen, Opened, Without;
    ConnectionKept();
  }

  lemma EndConnection(s: State, a: EndAct, t: State)
    requires EndStep(s, a) == Some(t)
    ensures ConnectionNext(s, OfEnd(a), t)
  {
  }

  lemma ConnectionChanges(s: State, a: Act, t: State)
    requires Step(s, a) == Some(t)
    ensures ConnectionNext(s, a, t)
  {
    hide PortalStep, OtherStep, DrainStep, RelayStep, EndStep, ConnectionNext;
    match a {
      case OfPortal(b) => PortalConnection(s, b, t);
      case OfOther(b) => OtherConnection(s, b, t);
      case OfDrain(b) => DrainConnection(s, b, t);
      case OfRelay(b) => RelayConnection(s, b, t);
      case OfEnd(b) => EndConnection(s, b, t);
    }
  }

  /** In every interleaving, a client is known until its reader, or the host
      thread at the end of its connection, forgets it, and gone once it has
      left; its connection is broken exactly when the other end broke it. */
  lemma {:induction false} ConnectionIsWhatHappened(run: seq<State>, acts: seq<Act>, k: nat)
    requires IsRun(run, acts) && k < |run|
    ensures run[k].known <==> forall j | 0 <= j < k :: acts[j] != OfPortal(Forget) && acts[j] != OfEnd(ForgetClient)
    ensures run[k].gone <==> exists j | 0 <= j < k :: acts[j] == OfPortal(Leave)
    ensures run[k].host.broken <==> exists j | 0 <= j < k :: acts[j] == OfOther(Break)
  {
    hide Step;
    if k > 0 {
      ConnectionIsWhatHappened(run, acts, k - 1);
      assert Step(run[k - 1], acts[k - 1]) == Some(run[k - 1 + 1]);
      ConnectionChanges(run[k - 1], acts[k - 1], run[k]);
    }
  }
}
