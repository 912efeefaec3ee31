/** A client that has left keeps its host connection while it needs it, and
    no longer. */
module GatewayDepartures {
  import opened Wrappers
  import opened Gateway
  import Answers = GatewayAnswers

  /** The call sent under the lock asks for a reply. */
  predicate AwaitsReply(s: State) {
    Answers.Writing(Answers.ViewOf(s)).Some? && Answers.Writing(Answers.ViewOf(s)).value.1.replies
  }

  predicate RecordsOpen(s: State) {
    AwaitsReply(s) && Answers.Writing(Answers.ViewOf(s)).value.1.opens
  }

  /** An OpenURI call waits for its reply, or a request for its response. */
  predicate Outstanding(s: State) {
    (exists k | k in s.book.pending :: s.book.pending[k].opens) || RecordsOpen(s) || s.open != {}
  }

  /** Something will still look whether the connection can be closed: the
      Portal reader, the host thread, or it once a reply comes. */
  predicate Committed(s: State) {
    || s.p == Departed
    || s.h.Relayed? || s.h.Signalled? || s.h.PortalLeft? || s.h.Telling? || s.h.Closing?
    || s.book.pending != map[] || AwaitsReply(s)
    || (s.h.Holding? && s.h.job.Sending? && s.h.call.replies)
  }

  /** The client is gone and needs its connection no more, and no thread is
      about to close it, nor will once a reply comes. */
  predicate Stranded(s: State) {
    s.gone && Alive(s) && !Outstanding(s) && !Committed(s)
  }

  /** The host thread passes on a held call that closes the last request of a
      client that has left meanwhile, and asks for no reply. */
  predicate QuietClose(s: State, a: Act) {
    && a == OfDrain(DrainClose) && s.gone && Alive(s) && s.p != Departed
    && s.h.Holding? && s.h.job.Checked? && !s.h.call.replies
    && s.h.call.closes.Some? && s.open == {s.h.call.closes.value}
    && s.book.pending == map[] && !AwaitsReply(s)
  }

  ghost predicate Leaving(s: State) {
    && (s.gone ==> !s.known && (s.p == Departed || s.p == Reading))
    && (s.p == Removed ==> !s.known && !s.gone)
    && (s.p == Departed ==> s.gone)
    && (s.h.Lost? || s.h.Forgotten? ==> !Alive(s))
    && (Answers.Ending(s.h) ==> !s.host.up)
    && Answers.Locked(Answers.ViewOf(s))
  }

  /** A connection shut down before the other end closed it belonged to a
      client that had left with nothing outstanding. */
  ghost predicate Safe(s: State) {
    !s.host.up && !s.host.broken ==> s.gone && !Outstanding(s)
  }

  ghost predicate Good(s: State) {
    Leaving(s) && Safe(s)
  }

  lemma PortalGood(s: State, a: PortalAct, t: State)
    requires PortalStep(s, a) == Some(t) && Good(s)
    ensures Good(t) && (!Stranded(s) ==> !Stranded(t))
  {
    hide *;
    if a == Send || a == Insert {
      PortalSends(s, a, t);
    } else {
      PortalMoves(s, a, t);
    }
  }

  lemma PortalSends(s: State, a: PortalAct, t: State)
    requires PortalStep(s, a) == Some(t) && Good(s) && (a == Send || a == Insert)
    ensures Good(t) && (!Stranded(s) ==> !Stranded(t))
  {
  }

  lemma PortalMoves(s: State, a: PortalAct, t: State)
    requires PortalStep(s, a) == Some(t) && Good(s) && a != Send && a != Insert
    ensures Good(t) && (!Stranded(s) ==> !Stranded(t))
  {
  }

  lemma OtherGood(s: State, a: OtherAct, t: State)
    requires OtherStep(s, a) == Some(t) && Good(s)
    ensures Good(t) && (!Stranded(s) ==> !Stranded(t))
  {
    if a == TalkInsert && s.lock.call.replies {
      assert s.lock.serial in t.book.pending;
    }
  }

  lemma DrainGood(s: State, a: DrainAct, t: State)
    requires DrainStep(s, a) == Some(t) && Good(s)
    ensures Good(t) && (!Stranded(s) ==> (Stranded(t) <==> QuietClose(s, OfDrain(a))))
  {
    hide Good, Stranded;
    match a {
      case DrainAsk => AskGood(s, t);
      case LookUp => CheckGood(s, a, t);
      case DrainCheck(_) => CheckGood(s, a, t);
      case DrainClose => CloseGood(s, t);
      case DrainSend => SendGood(s, t);
      case DrainInsert => InsertGood(s, t);
      case Take => NextGood(s, a, t);
      case Next => NextGood(s, a, t);
      case _ => MovesGood(s, a, t);
    }
  }

  lemma MovesGood(s: State, a: DrainAct, t: State)
    requires DrainStep(s, a) == Some(t) && Good(s) && (a == Accept || a == GiveBack)
    ensures Good(t) && (!Stranded(s) ==> !Stranded(t))
  {
  }

  lemma NextGood(s: State, a: DrainAct, t: State)
    requires DrainStep(s, a) == Some(t) && Good(s) && (a == Take || a == Next)
    ensures Good(t) && (!Stranded(s) ==> !Stranded(t))
  {
  }

  lemma CheckGood(s: State, a: DrainAct, t: State)
    requires DrainStep(s, a) == Some(t) && Good(s) && (a == LookUp || a.DrainCheck?)
    ensures Good(t) && (!Stranded(s) ==> !Stranded(t))
  {
  }

  lemma AskGood(s: State, t: State)
    requires DrainStep(s, DrainAsk) == Some(t) && Good(s)
    ensures Good(t) && (!Stranded(s) ==> !Stranded(t))
  {
  }

  lemma CloseGood(s: State, t: State)
    requires DrainStep(s, DrainClose) == Some(t) && Good(s)
    ensures Good(t) && (!Stranded(s) ==> (Stranded(t) <==> QuietClose(s, OfDrain(DrainClose))))
  {
  }

  lemma SendGood(s: State, t: State)
    requires DrainStep(s, DrainSend) == Some(t) && Good(s)
    ensures Good(t) && (!Stranded(s) ==> !Stranded(t))
  {
  }

  lemma InsertGood(s: State, t: State)
    requires DrainStep(s, DrainInsert) == Some(t) && Good(s)
    ensures Good(t) && (!Stranded(s) ==> !Stranded(t))
  {
    if s.h.call.replies {
      assert s.lock.serial in t.book.pending;
    }
  }

  lemma RelayGood(s: State, a: RelayAct, t: State)
    requires RelayStep(s, a) == Some(t) && Good(s)
    ensures Good(t) && (!Stranded(s) ==> !Stranded(t))
  {
    hide Good, Stranded, Taken, Dispatched;
    match a {
      case Dispatch => DispatchGood(s, s.h.msg);
      case TakePending => TakenGood(s, s.h.reply);
      case _ => RelayMovesGood(s, a, t);
    }
  }

  lemma DispatchGood(s: State, m: HostMsg)
    requires s.h.Dispatching? && Good(s)
    ensures Good(Dispatched(s, m)) && (!Stranded(s) ==> !Stranded(Dispatched(s, m)))
  {
  }

  lemma TakenGood(s: State, m: HostMsg)
    requires m.Reply? && s.h.Relaying? && Good(s)
    ensures Good(Taken(s, m)) && (!Stranded(s) ==> !Stranded(Taken(s, m)))
  {
  }

  lemma RelayMovesGood(s: State, a: RelayAct, t: State)
    requires RelayStep(s, a) == Some(t) && Good(s) && a != Dispatch && a != TakePending
    ensures Good(t) && (!Stranded(s) ==> !Stranded(t))
  {
  }

  lemma EndGood(s: State, a: EndAct, t: State)
    requires EndStep(s, a) == Some(t) && Good(s)
    ensures Good(t) && (!Stranded(s) ==> !Stranded(t))
  {
  }

  lemma StepGood(s: State, a: Act, t: State)
    requires Step(s, a) == Some(t) && Good(s)
    ensures Good(t) && (!Stranded(s) ==> (Stranded(t) <==> QuietClose(s, a)))
  {
    hide Good, Stranded, PortalStep, OtherStep, DrainStep, RelayStep, EndStep;
    match a {
      case OfPortal(b) => PortalGood(s, b, t);
      case OfOther(b) => OtherGood(s, b, t);
      case OfDrain(b) => DrainGood(s, b, t);
      case OfRelay(b) => RelayGood(s, b, t);
      case OfEnd(b) => EndGood(s, b, t);
    }
  }

  lemma StartGood(app: Option<string>, owner: Option<Name>, portalOwner: Option<Name>)
    ensures Good(Start(app, owner, portalOwner)) && !Stranded(Start(app, owner, portalOwner))
  {
  }

  lemma {:induction false} RunsAreGood(run: seq<State>, acts: seq<Act>, k: nat)
    requires IsRun(run, acts) && k < |run|
    ensures Good(run[k])
    ensures (forall i | 0 <= i < k :: !QuietClose(run[i], acts[i])) ==> !Stranded(run[k])
  {
    hide Step, Good, Stranded, QuietClose;
    if k == 0 {
      var app, owner, portalOwner :| run[0] == Start(app, owner, portalOwner);
      StartGood(app, owner, portalOwner);
    } else {
      RunsAreGood(run, acts, k - 1);
      assert Step(run[k - 1], acts[k - 1]) == Some(run[k - 1 + 1]);
      StepGood(run[k - 1], acts[k - 1], run[k]);
    }
  }

  /** In every interleaving, while its other end keeps the host connection
      open, the gateway shuts it down only once the client has left with no
      OpenURI call waiting and no request open. */
  lemma ShutOnlyWhenDone(run: seq<State>, acts: seq<Act>, k: nat)
    requires IsRun(run, acts) && k < |run| && !run[k].host.up && !run[k].host.broken
    ensures run[k].gone && run[k].open == {} && forall i | i in run[k].book.pending :: !run[k].book.pending[i].opens
  {
    hide Step;
    RunsAreGood(run, acts, k);
  }

  /** A step strands a client that has left if and only if it is the host
      thread passing on a held call that closes the client's last request and
      asks for no reply; a run without such a step never strands one. */
  lemma StrandsExactly(run: seq<State>, acts: seq<Act>, k: nat)
    requires IsRun(run, acts) && k < |acts|
    ensures !Stranded(run[k]) ==> (Stranded(run[k + 1]) <==> QuietClose(run[k], acts[k]))
    ensures (forall i | 0 <= i <= k :: !QuietClose(run[i], acts[i])) ==> !Stranded(run[k + 1])
  {
    hide Step, Good, Stranded, QuietClose;
    RunsAreGood(run, acts, k);
    RunsAreGood(run, acts, k + 1);
    StepGood(run[k], acts[k], run[k + 1]);
  }

  /** The host thread is past looking up the client of a held call. */
  predicate TakenUp(h: Relay) {
    h.Holding? && h.job != LookingUp
  }

  lemma TakesUp(s: State, a: Act, t: State)
    requires Step(s, a) == Some(t) && TakenUp(t.h)
    ensures s.h.Holding? && s.h.call == t.h.call
    ensures TakenUp(s.h) || (a == OfDrain(LookUp) && s.known)
  {
    hide Unopen, CloseIfDone, Record, SendRegion, PortalRegion, Handle, OpensPending;
    KeepsRelay();
  }

  lemma KeepsRelay()
    ensures forall s, path :: Unopen(s, path).h == s.h
    ensures forall s :: CloseIfDone(s).h == s.h
    ensures forall s, k, c :: Record(s, k, c).h == s.h
    ensures forall s, c, d, lock :: SendRegion(s, c, d, lock).h == s.h
    ensures forall s, c, fromHeld :: PortalRegion(s, c, fromHeld).0.h == s.h
    ensures forall s, c :: Handle(s, c).h == s.h
  {
    hide OpensPending;
  }

  /** A held call is passed on only if it was taken up while its client was
      known, so one that strands its client is under way when the client
      leaves: those not taken up by then are answered with an error. */
  lemma {:induction false} TakenUpWhileKnown(run: seq<State>, acts: seq<Act>, k: nat)
    requires IsRun(run, acts) && k < |run| && TakenUp(run[k].h)
    ensures exists i | 0 <= i < k ::
              && acts[i] == OfDrain(LookUp) && run[i].known
              && forall j | i <= j <= k :: run[j].h.Holding? && run[j].h.call == run[k].h.call
  {
    hide Step;
    assert k > 0;
    assert Step(run[k - 1], acts[k - 1]) == Some(run[k - 1 + 1]);
    TakesUp(run[k - 1], acts[k - 1], run[k]);
    if TakenUp(run[k - 1].h) {
      TakenUpWhileKnown(run, acts, k - 1);
      var i :| 0 <= i < k - 1 && acts[i] == OfDrain(LookUp) && run[i].known
               && forall j | i <= j <= k - 1 :: run[j].h.Holding? && run[j].h.call == run[k - 1].h.call;
      assert forall j | i <= j <= k :: run[j].h.Holding? && run[j].h.call == run[k].h.call;
    } else {
      assert forall j | k - 1 <= j <= k :: run[j].h.Holding? && run[j].h.call == run[k].h.call;
    }
  }

  /** What a run of steps leads to. */
  function Play(s: State, acts: seq<Act>): Option<State>
    decreases |acts|
  {
    if acts == [] then Some(s)
    else
      match Step(s, acts[0])
      case Some(t) => Play(t, acts[1..])
      case None => None
  }

  lemma PlayOn(s: State, a: Act, t: State, rest: seq<Act>)
    requires Step(s, a) == Some(t)
    ensures Play(s, [a] + rest) == Play(t, rest)
  {
    hide Step;
    assert ([a] + rest)[1..] == rest;
  }

  /** Stranded is not for good: the next signal of an owner of the gateway's
      names closes the connection after all. */
  lemma NextSignalCloses(s: State)
    requires Stranded(s) && s.h == Waiting && s.lock == Free
    ensures Play(s, [OfRelay(Receive(Signal(true, None))), OfRelay(Dispatch), OfRelay(AfterSignal), OfRelay(HostClose)])
         == Some(s.(host := s.host.(up := false)))
  {
    var signal := Signal(true, None);
    var t := s.(host := s.host.(up := false));
    PlayOn(s.(h := Closing), OfRelay(HostClose), t, []);
    PlayOn(s.(h := Signalled), OfRelay(AfterSignal), s.(h := Closing), [OfRelay(HostClose)]);
    PlayOn(s.(h := Dispatching(signal)), OfRelay(Dispatch), s.(h := Signalled), [OfRelay(AfterSignal), OfRelay(HostClose)]);
    PlayOn(s, OfRelay(Receive(signal)), s.(h := Dispatching(signal)),
           [OfRelay(Dispatch), OfRelay(AfterSignal), OfRelay(HostClose)]);
    AsOne(OfRelay(Receive(signal)), OfRelay(Dispatch), OfRelay(AfterSignal), OfRelay(HostClose));
  }

  lemma AsOne(a: Act, b: Act, c: Act, d: Act)
    ensures [a] + [b, c, d] == [a, b, c, d] && [b] + [c, d] == [b, c, d] && [c] + [d] == [c, d] && [d] + [] == [d]
  {
  }

  /** So does the next change of the portal's owner. */
  lemma NextOwnerCloses(s: State, owner: Option<Name>)
    requires Stranded(s) && s.h == Waiting && s.lock == Free
    ensures Play(s, [OfRelay(Receive(PortalOwner(owner))), OfRelay(Dispatch), OfRelay(EndRequests)]
                    + [OfRelay(Tell), OfRelay(HostClose)])
         == Some(s.(portalOwner := owner, host := s.host.(up := false)))
  {
    var change := PortalOwner(owner);
    var s1 := s.(portalOwner := owner);
    OwnerCloses(s1);
    var last := [OfRelay(EndRequests), OfRelay(Tell), OfRelay(HostClose)];
    PlayOn(s.(h := Dispatching(change)), OfRelay(Dispatch), s1.(h := PortalLeft), last);
    PlayOn(s, OfRelay(Receive(change)), s.(h := Dispatching(change)), [OfRelay(Dispatch)] + last);
    assert [OfRelay(Receive(change)), OfRelay(Dispatch), OfRelay(EndRequests)] + [OfRelay(Tell), OfRelay(HostClose)]
        == [OfRelay(Receive(change))] + ([OfRelay(Dispatch)] + last);
  }

  lemma OwnerCloses(s: State)
    requires Stranded(s) && s.lock == Free && s.h == Waiting
    ensures Play(s.(h := PortalLeft), [OfRelay(EndRequests), OfRelay(Tell), OfRelay(HostClose)])
         == Some(s.(host := s.host.(up := false)))
  {
    PlayOn(s.(h := Closing), OfRelay(HostClose), s.(host := s.host.(up := false)), []);
    PlayOn(s.(h := Telling), OfRelay(Tell), s.(h := Closing), [OfRelay(HostClose)]);
    PlayOn(s.(h := PortalLeft), OfRelay(EndRequests), s.(h := Telling), [OfRelay(Tell), OfRelay(HostClose)]);
    AsOne(OfRelay(Receive(OtherMsg)), OfRelay(EndRequests), OfRelay(Tell), OfRelay(HostClose));
  }

  /** A signal of an owner of the gateway's names, or a change of the
      portal's. */
  predicate Tells(m: HostMsg) {
    (m.Signal? && m.fromOwner) || m.PortalOwner?
  }

  /** The connection is shut down, or the host thread is on its way to do so
      and nothing can be outstanding when it does. */
  ghost predicate WillShut(s: State) {
    || !s.host.up
    || (&& s.gone && !s.known && s.p == Reading && s.open == {} && !OpensPending(s.book.pending)
        && (s.lock.ByTalk? ==> !(s.lock.call.replies && s.lock.call.opens))
        && (s.h == Closing || OnItsWay(s.h)))
  }

  predicate OnItsWay(h: Relay) {
    (h.Dispatching? && Tells(h.msg)) || h == Signalled || h == PortalLeft || h == Telling
  }

  lemma StartsClosing(s: State, m: HostMsg, t: State)
    requires Step(s, OfRelay(Receive(m))) == Some(t) && Tells(m) && Stranded(s) && Leaving(s)
    ensures WillShut(t)
  {
  }

  lemma StillCloses(s: State, a: Act, t: State)
    requires Step(s, a) == Some(t) && WillShut(s)
    ensures WillShut(t)
  {
    if !s.host.up {
      StaysShut(s, a, t);
    } else {
      ShutsLater(s, a, t);
    }
  }

  lemma StaysShut(s: State, a: Act, t: State)
    requires Step(s, a) == Some(t) && !s.host.up
    ensures !t.host.up
  {
    hide OpensPending, Unopen, CloseIfDone, Record, SendRegion, PortalRegion, Handle, Taken, Dispatched;
    NeverReopens();
  }

  lemma NeverReopens()
    ensures forall s, path :: Unopen(s, path).host == s.host
    ensures forall s | CloseIfDone(s).host.up :: s.host.up
    ensures forall s, k, c :: Record(s, k, c).host == s.host
    ensures forall s, c, d, lock :: SendRegion(s, c, d, lock).host.up == s.host.up
    ensures forall s, c, fromHeld :: PortalRegion(s, c, fromHeld).0.host.up == s.host.up
    ensures forall s, c :: Handle(s, c).host == s.host
    ensures forall s, m: HostMsg | m.Reply? :: Taken(s, m).host == s.host
    ensures forall s, m :: Dispatched(s, m).host == s.host
  {
    hide OpensPending;
  }

  lemma ShutsLater(s: State, a: Act, t: State)
    requires Step(s, a) == Some(t) && WillShut(s) && s.host.up
    ensures WillShut(t)
  {
    OnlyOthers(s, a);
    hide PortalStep, DrainStep, EndStep;
    if a == OfOther(TalkInsert) {
      assert forall k | k in t.book.pending :: !t.book.pending[k].opens;
    }
  }

  /** By then the Portal reader is done, and the host thread has nothing else
      to do. */
  lemma OnlyOthers(s: State, a: Act)
    requires Step(s, a).Some? && WillShut(s) && s.host.up
    ensures a.OfOther? || a.OfRelay?
  {
    hide OpensPending, Unopen, CloseIfDone, Record, SendRegion, PortalRegion, Handle, OtherStep, RelayStep;
  }

  /** Whatever other threads do in between, once the host thread has received
      such a message for a stranded client, it waits for another only with the
      connection shut down. */
  lemma {:induction false} ClosesMeanwhile(run: seq<State>, acts: seq<Act>, i: nat, k: nat)
    requires IsRun(run, acts) && i < k < |run|
    requires acts[i].OfRelay? && acts[i].r.Receive? && Tells(acts[i].r.msg) && Stranded(run[i])
    ensures WillShut(run[k]) && (run[k].h == Waiting ==> !run[k].host.up)
    decreases k
  {
    hide Step, Stranded, Good, WillShut;
    assert Step(run[k - 1], acts[k - 1]) == Some(run[k - 1 + 1]);
    if k == i + 1 {
      RunsAreGood(run, acts, i);
      assert Leaving(run[i]) by { OfGood(run[i]); }
      StartsClosing(run[i], acts[i].r.msg, run[k]);
    } else {
      ClosesMeanwhile(run, acts, i, k - 1);
      StillCloses(run[k - 1], acts[k - 1], run[k]);
    }
    if run[k].h == Waiting {
      OnceClosed(run[k]);
    }
  }

  lemma OfGood(s: State)
    requires Good(s)
    ensures Leaving(s)
  {
  }

  lemma OnceClosed(s: State)
    requires WillShut(s) && s.h == Waiting
    ensures !s.host.up
  {
  }

  // That it does happen.

  ghost predicate Reached(s: State) {
    exists run, acts :: IsRun(run, acts) && run[|run| - 1] == s
  }

  lemma ReachStart(app: Option<string>, owner: Option<Name>, portalOwner: Option<Name>)
    ensures Reached(Start(app, owner, portalOwner))
  {
    assert IsRun([Start(app, owner, portalOwner)], []);
  }

  lemma Reach(s: State, a: Act, t: State)
    requires Reached(s) && Step(s, a) == Some(t)
    ensures Reached(t)
  {
    hide Step;
    var run, acts :| IsRun(run, acts) && run[|run| - 1] == s;
    var longer, more := run + [t], acts + [a];
    forall i | 0 <= i < |more|
      ensures Step(longer[i], more[i]) == Some(longer[i + 1])
    {
      if i < |acts| {
        assert Step(run[i], acts[i]) == Some(run[i + 1]);
      }
    }
    assert longer[0] == run[0];
    assert IsRun(longer, more);
  }

  const OPEN := Call(0, Portal, 10, true, true, true, None)
  const CLOSE := Call(1, Portal, 11, false, true, false, Some("/r"))

  /** An OpenURI call has been sent. */
  function Opening(): State {
    Start(Some("app"), Some("X"), Some("X")).(
      host := HostConn(true, false, 1),
      book := Book(map[0 := Pending(10, Portal, true)], map[0 := Sent(OPEN, Unique("X"), true, Some("X"))], [], {}),
      log := Log([OPEN], [OPEN], Some("X")))
  }

  lemma OpeningReached()
    ensures Reached(Opening())
  {
    var s0 := Start(Some("app"), Some("X"), Some("X"));
    ReachStart(Some("app"), Some("X"), Some("X"));
    var s1 := s0.(p := Passing(OPEN, Got), log := Log([OPEN], [], Some("X")));
    assert [] + [OPEN] == [OPEN];
    Reach(s0, OfPortal(Read(OPEN)), s1);
    var s2 := s1.(p := Passing(OPEN, Go(Unique("X"))));
    Reach(s1, OfPortal(Ask), s2);
    var s3 := s1.(p := Passing(OPEN, Checked(Unique("X"))));
    Reach(s2, OfPortal(Check(true)), s3);
    var s4 := s1.(p := Passing(OPEN, Sending(Unique("X"))));
    Reach(s3, OfPortal(CloseRequest), s4);
    var s5 := Opening().(p := Passing(OPEN, Recording), lock := ByPortal(0), book := Opening().book.(pending := map[]));
    Reach(s4, OfPortal(Send), s5);
    Reach(s5, OfPortal(Insert), Opening());
  }

  /** The portal's name has a new owner, and a call that closes the request,
      asking for no reply, is held while the client registers with it. */
  function Registering(): State {
    Opening().(
      portalOwner := Some("Y"), host := HostConn(true, false, 2),
      portal := PortalState(Some("app"), Some("X"), Some(1), false, [CLOSE]),
      log := Log([OPEN, CLOSE], [OPEN], Some("X")))
  }

  lemma RegisteringReached()
    ensures Reached(Registering())
  {
    OpeningReached();
    var s0 := Opening();
    var owner := PortalOwner(Some("Y"));
    Reach(s0, OfRelay(Receive(owner)), s0.(h := Dispatching(owner)));
    var s1 := s0.(portalOwner := Some("Y"));
    Reach(s0.(h := Dispatching(owner)), OfRelay(Dispatch), s1.(h := PortalLeft));
    Reach(s1.(h := PortalLeft), OfRelay(EndRequests), s1.(h := Telling));
    Reach(s1.(h := Telling), OfRelay(Tell), s1.(h := Closing));
    Reach(s1.(h := Closing), OfRelay(HostClose), s1);
    var s2 := s1.(p := Passing(CLOSE, Got), log := Log([OPEN, CLOSE], [OPEN], Some("X")));
    assert [OPEN] + [CLOSE] == [OPEN, CLOSE];
    Reach(s1, OfPortal(Read(CLOSE)), s2);
    assert [] + [CLOSE] == [CLOSE];
    Reach(s2, OfPortal(Ask), Registering());
  }

  /** The instance before has replied with the request it opened. */
  function Answered(): State {
    Registering().(
      book := Registering().book.(pending := map[], answers := [Answer(0, Portal, 10)]), open := {"/r"})
  }

  lemma AnsweredReached()
    ensures Reached(Answered())
  {
    RegisteringReached();
    var s0 := Registering();
    var reply := Reply(0, true, Some("X"), Some("/r"), true);
    Reach(s0, OfRelay(Receive(reply)), s0.(h := Dispatching(reply)));
    Reach(s0.(h := Dispatching(reply)), OfRelay(Dispatch), s0.(h := Relaying(reply)));
    var s1 := s0.(h := Relayed(0, Pending(10, Portal, true)), open := {"/r"}, book := s0.book.(pending := map[]));
    assert s0.book.pending - {0} == map[] && {} + {"/r"} == {"/r"};
    Reach(s0.(h := Relaying(reply)), OfRelay(TakePending), s1);
    assert [] + [Answer(0, Portal, 10)] == [Answer(0, Portal, 10)];
    Reach(s1, OfRelay(Give), Answered());
  }

  /** The new instance has accepted the client, and the held call is being
      passed on. */
  function Closes(): State {
    Answered().(
      h := Holding(CLOSE, Checked(Unique("Y")), []),
      portal := PortalState(Some("app"), Some("Y"), None, true, []),
      log := Answered().log.(accepted := Some("Y")))
  }

  lemma ClosesReached()
    ensures Reached(Closes())
  {
    AnsweredReached();
    var s0 := Answered();
    var reply := Reply(1, true, Some("Y"), None, true);
    Reach(s0, OfRelay(Receive(reply)), s0.(h := Dispatching(reply)));
    Reach(s0.(h := Dispatching(reply)), OfRelay(Dispatch), s0.(h := Registered(reply)));
    var s1 := Closes().(h := Taking, portal := Closes().portal.(held := [CLOSE]));
    Reach(s0.(h := Registered(reply)), OfDrain(Accept), s1);
    var s2 := Closes();
    Reach(s1, OfDrain(Take), s2.(h := Draining([CLOSE])));
    assert [CLOSE][1..] == [];
    Reach(s2.(h := Draining([CLOSE])), OfDrain(Next), s2.(h := Holding(CLOSE, LookingUp, [])));
    Reach(s2.(h := Holding(CLOSE, LookingUp, [])), OfDrain(LookUp), s2.(h := Holding(CLOSE, Got, [])));
    Reach(s2.(h := Holding(CLOSE, Got, [])), OfDrain(DrainAsk), s2.(h := Holding(CLOSE, Go(Unique("Y")), [])));
    Reach(s2.(h := Holding(CLOSE, Go(Unique("Y")), [])), OfDrain(DrainCheck(true)), s2);
  }

  /** The client leaves before the call closes the request: the Portal reader
      finds the request open and leaves the connection, and nothing is left
      that would close it. */
  lemma AClientIsStranded()
    ensures exists s :: Reached(s) && Stranded(s)
  {
    ClosesReached();
    var s0 := Closes();
    Reach(s0, OfPortal(Forget), s0.(known := false, p := Removed));
    var s1 := s0.(known := false, gone := true);
    Reach(s0.(known := false, p := Removed), OfPortal(Leave), s1.(p := Departed));
    assert "/r" in s1.open;
    Reach(s1.(p := Departed), OfPortal(Close), s1);
    var s2 := s1.(h := Holding(CLOSE, Sending(Unique("Y")), []), open := {});
    assert {"/r"} - {"/r"} == {};
    Reach(s1, OfDrain(DrainClose), s2);
    assert Stranded(s2);
  }
}
