/** Which requests of a client are open, and that a client that is gone has no
    more calls taken up. */
module GatewayRequests {
  import opened Wrappers
  import opened Gateway

  /** The host thread finds that a reply opens a request: one to an OpenURI
      call that succeeded and names it. */
  predicate Opens(s: State, a: Act, path: Path) {
    && a == OfRelay(TakePending) && s.h.Relaying? && s.h.reply.Reply?
    && s.h.reply.ok && s.h.reply.handle == Some(path)
    && s.h.reply.serial in s.book.pending && s.book.pending[s.h.reply.serial].opens
  }

  /** A call closes the request, its response comes, or all end as the portal
      or the connection has gone. */
  predicate Closes(s: State, a: Act, path: Path) {
    || (a == OfPortal(CloseRequest) && s.p.Passing? && s.p.call.closes == Some(path))
    || (a == OfDrain(DrainClose) && s.h.Holding? && s.h.call.closes == Some(path))
    || (a == OfRelay(Dispatch) && s.h == Dispatching(Signal(true, Some(path))))
    || a == OfRelay(EndRequests) || a == OfEnd(LastEnd)
  }

  ghost predicate OpenNext(s: State, a: Act, t: State) {
    forall path :: path in t.open <==> Opens(s, a, path) || (path in s.open && !Closes(s, a, path))
  }

  /** Helpers that leave the open requests alone. */
  lemma OpenKept()
    ensures forall s, c :: Handle(s, c).open == s.open
    ensures forall s, k, c :: Record(s, k, c).open == s.open
    ensures forall s :: CloseIfDone(s).open == s.open
    ensures forall s, c, fromHeld :: PortalRegion(s, c, fromHeld).0.open == s.open
    ensures forall s, c, d, lock :: SendRegion(s, c, d, lock).open == s.open
  {
    hide OpensPending;
  }

  lemma PortalOpen(s: State, a: PortalAct, t: State)
    requires PortalStep(s, a) == Some(t)
    ensures OpenNext(s, OfPortal(a), t)
  {
    hide Handle, Record, CloseIfDone, PortalRegion, SendRegion;
    OpenKept();
  }

  lemma DrainOpen(s: State, a: DrainAct, t: State)
    requires DrainStep(s, a) == Some(t)
    ensures OpenNext(s, OfDrain(a), t)
  {
    hide Handle, Record, CloseIfDone, PortalRegion, SendRegion;
    OpenKept();
  }

  lemma OtherOpen(s: State, a: OtherAct, t: State)
    requires OtherStep(s, a) == Some(t)
    ensures OpenNext(s, OfOther(a), t)
  {
    hide Handle, Record, SendRegion;
    OpenKept();
  }

  lemma RelayOpen(s: State, a: RelayAct, t: State)
    requires RelayStep(s, a) == Some(t)
    ensures OpenNext(s, OfRelay(a), t)
  {
    hide CloseIfDone;
    OpenKept();
  }

  lemma EndOpen(s: State, a: EndAct, t: State)
    requires EndStep(s, a) == Some(t)
    ensures OpenNext(s, OfEnd(a), t)
  {
  }

  lemma StepOpen(s: State, a: Act, t: State)
    requires Step(s, a) == Some(t)
    ensures OpenNext(s, a, t)
  {
    hide PortalStep, OtherStep, DrainStep, RelayStep, EndStep, OpenNext;
    match a {
      case OfPortal(b) => PortalOpen(s, b, t);
      case OfOther(b) => OtherOpen(s, b, t);
      case OfDrain(b) => DrainOpen(s, b, t);
      case OfRelay(b) => RelayOpen(s, b, t);
      case OfEnd(b) => EndOpen(s, b, t);
    }
  }

  /** In every interleaving a request is open if and only if a reply opened it
      and nothing has closed it since. */
  lemma {:induction false} OpenExactly(run: seq<State>, acts: seq<Act>, k: nat, path: Path)
    requires IsRun(run, acts) && k < |run|
    ensures path in run[k].open <==>
            exists i | 0 <= i < k ::
              Opens(run[i], acts[i], path) && forall j | i < j < k :: !Closes(run[j], acts[j], path)
  {
    hide Step, Opens, Closes;
    if k > 0 {
      OpenExactly(run, acts, k - 1, path);
      assert Step(run[k - 1], acts[k - 1]) == Some(run[k - 1 + 1]);
      StepOpen(run[k - 1], acts[k - 1], run[k]);
      NotBoth(run[k - 1], acts[k - 1], path);
    }
  }

  lemma NotBoth(s: State, a: Act, path: Path)
    ensures !(Opens(s, a, path) && Closes(s, a, path))
  {
  }

  /** A reply that opens a request was received as one that succeeded, and
      could be decoded. */
  lemma {:induction false} RepliesWereReceived(run: seq<State>, acts: seq<Act>, k: nat)
    requires IsRun(run, acts) && k < |run|
    ensures run[k].h.Relaying? && run[k].h.reply.Reply? && run[k].h.reply.ok ==>
              run[k].h.reply.decoded && exists i | 0 <= i < k :: acts[i] == OfRelay(Receive(run[k].h.reply))
    ensures run[k].h.Dispatching? ==> exists i | 0 <= i < k :: acts[i] == OfRelay(Receive(run[k].h.msg))
    ensures run[k].h.Dispatching? && run[k].h.msg.Reply? ==> run[k].h.msg.decoded
  {
    hide Step;
    if k > 0 {
      RepliesWereReceived(run, acts, k - 1);
      assert Step(run[k - 1], acts[k - 1]) == Some(run[k - 1 + 1]);
      FromDispatch(run[k - 1], acts[k - 1], run[k]);
    }
  }

  /** Where a message the host thread is at work on comes from. */
  predicate FromMessage(s: State, a: Act, t: State) {
    && (t.h.Dispatching? ==> t.h == s.h || (a == OfRelay(Receive(t.h.msg)) && (t.h.msg.Reply? ==> t.h.msg.decoded)))
    && (t.h.Relaying? ==>
          || t.h == s.h || (s.h == Dispatching(t.h.reply) && t.h.reply.Reply?)
          || (t.h.reply.Reply? && !t.h.reply.ok))
  }

  lemma RelayFrom(s: State, a: RelayAct, t: State)
    requires RelayStep(s, a) == Some(t)
    ensures FromMessage(s, OfRelay(a), t)
  {
    hide OpensPending, Unopen, CloseIfDone, Opened, Without;
    ThreadKept();
  }

  lemma PortalFrom(s: State, a: PortalAct, t: State)
    requires PortalStep(s, a) == Some(t)
    ensures t.h == s.h
  {
    hide OpensPending, Unopen, CloseIfDone, Record, SendRegion, PortalRegion, Handle;
    ThreadKept();
  }

  lemma DrainFrom(s: State, a: DrainAct, t: State)
    requires DrainStep(s, a) == Some(t)
    ensures !t.h.Dispatching? && !t.h.Relaying?
  {
    hide OpensPending, Unopen, CloseIfDone, Record, SendRegion, PortalRegion, Handle;
    ThreadKept();
  }

  lemma OtherFrom(s: State, a: OtherAct, t: State)
    requires OtherStep(s, a) == Some(t)
    ensures t.h == s.h
  {
    hide Record, SendRegion;
    ThreadKept();
  }

  lemma EndFrom(s: State, a: EndAct, t: State)
    requires EndStep(s, a) == Some(t)
    ensures !t.h.Dispatching? && !t.h.Relaying?
  {
  }

  lemma FromDispatch(s: State, a: Act, t: State)
    requires Step(s, a) == Some(t)
    ensures FromMessage(s, a, t)
  {
    hide PortalStep, OtherStep, DrainStep, RelayStep, EndStep;
    match a {
      case OfPortal(b) => PortalFrom(s, b, t);
      case OfOther(b) => OtherFrom(s, b, t);
      case OfDrain(b) => DrainFrom(s, b, t);
      case OfRelay(b) => RelayFrom(s, b, t);
      case OfEnd(b) => EndFrom(s, b, t);
    }
  }

  lemma ThreadKept()
    ensures forall s, path :: Unopen(s, path).h == s.h
    ensures forall s :: CloseIfDone(s).h == s.h
    ensures forall s, k, c :: Record(s, k, c).h == s.h
    ensures forall s, c, d, lock :: SendRegion(s, c, d, lock).h == s.h
    ensures forall s, c, fromHeld :: PortalRegion(s, c, fromHeld).0.h == s.h
    ensures forall s, c :: Handle(s, c).h == s.h
  {
    hide OpensPending;
  }

  // Clients that are gone.

  /** No new call of a client that is not in the map is taken up. */
  ghost predicate TakesNone(s: State, t: State) {
    && !t.known && t.log.received == s.log.received && t.talk.Keys <= s.talk.Keys
    && (t.p.Passing? ==> s.p.Passing? && t.p.call == s.p.call)
    && (t.h.Holding? && t.h.job != LookingUp ==> s.h.Holding? && s.h.job != LookingUp && t.h.call == s.h.call)
  }

  /** What the threads have to do with the client's calls is the same. */
  predicate SameCalls(s: State, t: State) {
    t.known == s.known && t.log.received == s.log.received && t.talk == s.talk && t.p == s.p && t.h == s.h
  }

  lemma UnknownKept()
    ensures forall s, p :: SameCalls(s, Unopen(s, p))
    ensures forall s :: SameCalls(s, CloseIfDone(s))
    ensures forall s, c :: SameCalls(s, Handle(s, c))
    ensures forall s, k, c :: SameCalls(s, Record(s, k, c))
    ensures forall s, c, d, l :: SameCalls(s, SendRegion(s, c, d, l))
    ensures forall s, c, f :: SameCalls(s, PortalRegion(s, c, f).0)
  {
    hide OpensPending;
  }

  lemma PortalTakesNone(s: State, a: PortalAct, t: State)
    requires PortalStep(s, a) == Some(t) && !s.known
    ensures TakesNone(s, t)
  {
    hide Unopen, CloseIfDone, Handle, Record, SendRegion, PortalRegion;
    UnknownKept();
  }

  lemma DrainTakesNone(s: State, a: DrainAct, t: State)
    requires DrainStep(s, a) == Some(t) && !s.known
    ensures TakesNone(s, t)
  {
    if a == DrainAsk || a == DrainSend || a == DrainInsert {
      DrainPassesOn(s, a, t);
    } else {
      hide PortalRegion, Record, SendRegion;
    }
  }

  lemma DrainPassesOn(s: State, a: DrainAct, t: State)
    requires DrainStep(s, a) == Some(t) && !s.known && (a == DrainAsk || a == DrainSend || a == DrainInsert)
    ensures TakesNone(s, t)
  {
    hide Handle, Record, SendRegion, PortalRegion;
    UnknownKept();
  }

  lemma OtherTakesNone(s: State, a: OtherAct, t: State)
    requires OtherStep(s, a) == Some(t) && !s.known
    ensures TakesNone(s, t)
  {
    hide Unopen, CloseIfDone, Handle, Record, SendRegion, PortalRegion;
    UnknownKept();
  }

  lemma RelayTakesNone(s: State, a: RelayAct, t: State)
    requires RelayStep(s, a) == Some(t) && !s.known
    ensures TakesNone(s, t)
  {
    hide Unopen, CloseIfDone, Opened, Without;
    UnknownKept();
  }

  lemma EndTakesNone(s: State, a: EndAct, t: State)
    requires EndStep(s, a) == Some(t) && !s.known
    ensures TakesNone(s, t)
  {
  }

  lemma StepTakesNone(s: State, a: Act, t: State)
    requires Step(s, a) == Some(t) && !s.known
    ensures TakesNone(s, t)
  {
    hide PortalStep, OtherStep, DrainStep, RelayStep, EndStep, TakesNone;
    match a {
      case OfPortal(b) => PortalTakesNone(s, b, t);
      case OfOther(b) => OtherTakesNone(s, b, t);
      case OfDrain(b) => DrainTakesNone(s, b, t);
      case OfRelay(b) => RelayTakesNone(s, b, t);
      case OfEnd(b) => EndTakesNone(s, b, t);
    }
  }

  /** Once a client is out of the map no thread takes up another call of its:
      none is read, and of those held none goes past its lookup. */
  lemma {:induction false} GoneTakesNone(run: seq<State>, acts: seq<Act>, i: nat, k: nat)
    requires IsRun(run, acts) && i <= k < |run| && !run[i].known
    ensures !run[k].known && run[k].log.received == run[i].log.received && run[k].talk.Keys <= run[i].talk.Keys
    ensures run[k].p.Passing? ==> run[i].p.Passing? && run[k].p.call == run[i].p.call
    ensures run[k].h.Holding? && run[k].h.job != LookingUp ==>
              run[i].h.Holding? && run[i].h.job != LookingUp && run[k].h.call == run[i].h.call
    decreases k
  {
    hide Step;
    if k > i {
      GoneTakesNone(run, acts, i, k - 1);
      assert Step(run[k - 1], acts[k - 1]) == Some(run[k - 1 + 1]);
      StepTakesNone(run[k - 1], acts[k - 1], run[k]);
    }
  }
}
