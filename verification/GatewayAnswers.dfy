/** Calls sent to the host are answered once, each where it came from. */
module GatewayAnswers {
  import opened Wrappers
  import opened Gateway

  datatype View = View(book: Book, next: nat, lock: Lock, p: Reader, h: Relay, gone: bool, up: bool)

  function ViewOf(s: State): View {
    View(s.book, s.host.next, s.lock, s.p, s.h, s.gone, s.host.up)
  }

  /** The call the Portal reader, or the host thread, has sent and not yet
      recorded. */
  function ReaderRecords(p: Reader): Option<Call> {
    if p.Passing? && p.job == Recording then Some(p.call) else None
  }

  function RelayRecords(h: Relay): Option<Call> {
    if h.Holding? && h.job == Recording then Some(h.call) else None
  }

  /** The call sent under the lock, and its serial. */
  function Writing(v: View): Option<(nat, Call)> {
    match v.lock
    case Free => None
    case ByPortal(k) => if ReaderRecords(v.p).Some? then Some((k, ReaderRecords(v.p).value)) else None
    case ByHost(k) => if RelayRecords(v.h).Some? then Some((k, RelayRecords(v.h).value)) else None
    case ByTalk(k, c) => Some((k, c))
  }

  /** The records the host thread has taken and is to answer. */
  function Hand(h: Relay): map<nat, Pending> {
    match h
    case Relayed(k, waiting) => map[k := waiting]
    case Drained(left) => left
    case Failing(left) => left
    case _ => map[]
  }

  /** The host thread has taken every record, as its connection ended. */
  predicate Done(h: Relay) {
    h.Drained? || h.Failing? || h.LastRequests? || h.LastTelling? || h.Ended?
  }

  predicate Ending(h: Relay) {
    h.Shut? || Done(h)
  }

  function RecordOf(c: Call): Pending {
    Pending(c.serial, c.via, c.opens)
  }

  predicate Answered(answers: seq<Answer>, k: nat) {
    exists i | 0 <= i < |answers| :: answers[i].to == k
  }

  ghost predicate Locked(v: View) {
    && (v.lock.ByPortal? <==> ReaderRecords(v.p).Some?)
    && (v.lock.ByHost? <==> RelayRecords(v.h).Some?)
  }

  /** A call sent and not answered or left unanswered yet, in one place. */
  ghost predicate Waits(v: View, k: nat) {
    k in v.book.pending || k in Hand(v.h) || (Writing(v).Some? && Writing(v).value.0 == k)
  }

  ghost predicate Over(v: View, k: nat) {
    Answered(v.book.answers, k) || k in v.book.dropped
  }

  /** Each call that asks for a reply waits for it or is over. */
  ghost predicate Accounted(v: View) {
    && (forall k | k in v.book.sent :: k < v.next)
    && (forall k | k in v.book.sent && v.book.sent[k].call.replies :: Waits(v, k) || Over(v, k))
    && (forall k: nat | Waits(v, k) :: k in v.book.sent && !Over(v, k))
    && (forall k: nat | Over(v, k) :: k in v.book.sent)
  }

  ghost predicate Records(v: View) {
    && (forall k | k in v.book.pending ::
          k in v.book.sent && v.book.sent[k].call.replies && v.book.pending[k] == RecordOf(v.book.sent[k].call) && k !in Hand(v.h))
    && (forall k | k in Hand(v.h) :: k in v.book.sent && v.book.sent[k].call.replies && Hand(v.h)[k] == RecordOf(v.book.sent[k].call))
    && (Writing(v).Some? ==>
          var (k, c) := Writing(v).value; k in v.book.sent && v.book.sent[k].call == c && k !in v.book.pending && k !in Hand(v.h))
  }

  /** Each was answered once, on its own connection and with its serial. */
  ghost predicate Once(v: View) {
    && (forall i | 0 <= i < |v.book.answers| ::
          var a := v.book.answers[i]; a.to in v.book.sent && v.book.sent[a.to].call.replies && a == AnswerTo(a.to, RecordOf(v.book.sent[a.to].call)))
    && (forall i, j | 0 <= i < j < |v.book.answers| :: v.book.answers[i].to != v.book.answers[j].to)
    && (v.book.dropped != {} ==> v.gone)
  }

  ghost predicate Ends(v: View) {
    && (Ending(v.h) ==> !v.up)
    && (Done(v.h) ==> v.book.pending == map[] && v.lock == Free)
  }

  ghost predicate Sound(v: View) {
    Locked(v) && Accounted(v) && Records(v) && Once(v) && Ends(v)
  }

  lemma StartSound(app: Option<string>, owner: Option<Name>, portalOwner: Option<Name>)
    ensures Sound(ViewOf(Start(app, owner, portalOwner)))
  {
  }

  // What each step does to the view.

  /** Nothing is sent, recorded or answered. */
  ghost predicate Moves(v: View, w: View) {
    && w == v.(next := w.next, p := w.p, h := w.h, gone := w.gone, up := w.up)
    && v.next <= w.next && (v.gone ==> w.gone) && (w.up ==> v.up)
    && ReaderRecords(w.p) == ReaderRecords(v.p) && RelayRecords(w.h) == RelayRecords(v.h) && Hand(w.h) == Hand(v.h)
    && (Done(w.h) ==> Done(v.h)) && (Ending(w.h) ==> Ending(v.h) || !w.up)
  }

  /** A call is sent under the lock. */
  ghost predicate Sends(v: View, w: View) {
    && v.lock == Free && v.up && Writing(w).Some? && Writing(w).value.0 == v.next && v.next in w.book.sent
    && w.book.sent[v.next].call == Writing(w).value.1
    && w == v.(book := v.book.(sent := v.book.sent[v.next := w.book.sent[v.next]]), next := v.next + 1, lock := w.lock,
            p := w.p, h := w.h)
    && (w.p == v.p || w.lock.ByPortal?) && (w.h == v.h || w.lock.ByHost?)
    && Hand(v.h) == Hand(w.h) && Done(w.h) == Done(v.h) && Ending(w.h) == Ending(v.h) && Locked(w)
  }

  /** The call just sent is recorded, and the lock let go. */
  ghost predicate Recorded(v: View, w: View) {
    && Writing(v).Some?
    && var (k, c) := Writing(v).value;
       && w == v.(lock := Free, p := w.p, h := w.h,
                  book := if c.replies then v.book.(pending := v.book.pending[k := RecordOf(c)]) else v.book)
       && ReaderRecords(w.p).None? && RelayRecords(w.h).None?
       && Hand(v.h) == Hand(w.h) && Done(w.h) == Done(v.h) && Ending(w.h) == Ending(v.h)
  }

  /** The host thread takes a record. */
  ghost predicate TakesOne(v: View, w: View) {
    && v.lock == Free && Hand(v.h) == map[] && !Ending(v.h) && w.h.Relayed?
    && w == v.(book := v.book.(pending := v.book.pending - {w.h.serial}), h := w.h)
    && w.h.serial in v.book.pending && w.h.waiting == v.book.pending[w.h.serial]
  }

  /** It takes all of them, once its connection has ended. */
  ghost predicate TakesAll(v: View, w: View) {
    v.lock == Free && v.h.Shut? && w == v.(book := v.book.(pending := map[]), h := Drained(v.book.pending))
  }

  /** It answers one. */
  ghost predicate Answers(v: View, w: View) {
    && w.h != v.h && |w.book.answers| == |v.book.answers| + 1
    && var a := w.book.answers[|v.book.answers|];
       && a.to in Hand(v.h) && a == AnswerTo(a.to, Hand(v.h)[a.to])
       && w == v.(book := v.book.(answers := v.book.answers + [a]), h := w.h) && Hand(w.h) == Hand(v.h) - {a.to}
       && RelayRecords(v.h).None? && RelayRecords(w.h).None? && Done(w.h) == Done(v.h) && Ending(w.h) == Ending(v.h)
  }

  /** Or leaves those it has taken, as the client is gone. */
  ghost predicate Drops(v: View, w: View) {
    && v.gone && w == v.(book := v.book.(dropped := v.book.dropped + Hand(v.h).Keys), h := w.h) && Hand(w.h) == map[]
    && RelayRecords(v.h).None? && RelayRecords(w.h).None? && Done(w.h) == Done(v.h) && Ending(w.h) == Ending(v.h)
  }

  lemma MovesSound(v: View, w: View)
    requires Sound(v) && Moves(v, w)
    ensures Sound(w)
  {
    hide Answered, Hand;
    assert Writing(w) == Writing(v);
    assert forall k: nat :: Waits(w, k) == Waits(v, k) && Over(w, k) == Over(v, k);
  }

  lemma SendsSound(v: View, w: View)
    requires Sound(v) && Sends(v, w)
    ensures Sound(w)
  {
    hide Answered, Hand, Done, ReaderRecords, RelayRecords;
    var k := v.next;
    assert Writing(v).None?;
    assert forall j: nat :: Over(w, j) == Over(v, j) && Waits(w, j) == (Waits(v, j) || j == k);
    assert !Waits(v, k) && !Over(v, k);
  }

  lemma RecordedSound(v: View, w: View)
    requires Sound(v) && Recorded(v, w)
    ensures Sound(w)
  {
    hide Answered, Hand, Done, Ending, ReaderRecords, RelayRecords;
    var (k, c) := Writing(v).value;
    assert forall j: nat :: Over(w, j) == Over(v, j) && Waits(w, j) == (Waits(v, j) && (j != k || c.replies));
    assert Waits(v, k);
  }

  lemma TakesOneSound(v: View, w: View)
    requires Sound(v) && TakesOne(v, w)
    ensures Sound(w)
  {
    hide Answered, ReaderRecords;
    assert forall j: nat :: Over(w, j) == Over(v, j);
    assert forall j: nat :: Waits(w, j) == Waits(v, j);
  }

  lemma TakesAllSound(v: View, w: View)
    requires Sound(v) && TakesAll(v, w)
    ensures Sound(w)
  {
    hide Answered, ReaderRecords;
    assert forall j: nat :: Over(w, j) == Over(v, j);
    assert forall j: nat :: Waits(w, j) == Waits(v, j);
  }

  lemma AnswersSound(v: View, w: View)
    requires Sound(v) && Answers(v, w)
    ensures Sound(w)
  {
    hide Answered, Hand, Done, Ending, ReaderRecords, RelayRecords;
    var k := w.book.answers[|v.book.answers|].to;
    assert Waits(v, k);
    AnsweredNext(v.book.answers, w.book.answers[|v.book.answers|]);
    assert forall j: nat :: Over(w, j) == (Over(v, j) || j == k);
    assert forall j: nat :: Waits(w, j) ==> Waits(v, j);
    assert !Waits(w, k);
    assert forall j: nat :: Waits(w, j) == (Waits(v, j) && j != k);
  }

  lemma AnsweredNext(answers: seq<Answer>, a: Answer)
    ensures forall j: nat :: Answered(answers + [a], j) == (Answered(answers, j) || j == a.to)
    ensures forall i | 0 <= i < |answers| :: Answered(answers, answers[i].to)
  {
    var more := answers + [a];
    forall j: nat
      ensures Answered(more, j) == (Answered(answers, j) || j == a.to)
    {
      assert more[|answers|] == a && forall i | 0 <= i < |answers| :: more[i] == answers[i];
    }
  }

  lemma DropsSound(v: View, w: View)
    requires Sound(v) && Drops(v, w)
    ensures Sound(w)
  {
    hide Answered, Hand, Done, Ending, ReaderRecords, RelayRecords;
    assert forall j: nat :: Over(w, j) == (Over(v, j) || j in Hand(v.h)) && Waits(w, j) == (Waits(v, j) && j !in Hand(v.h));
  }

  // Steps.

  /** The host thread has taken no records. */
  predicate Plain(h: Relay) {
    !(h.Relayed? || h.Shut? || h.Drained? || h.Failing? || h.LastRequests? || h.LastTelling? || h.Ended?)
  }

  lemma PlainHand(h: Relay)
    ensures Plain(h) ==> Hand(h) == map[] && !Done(h) && !Ending(h)
  {
  }

  lemma PortalAnswers(s: State, a: PortalAct, t: State)
    requires PortalStep(s, a) == Some(t) && Locked(ViewOf(s))
    ensures var v, w := ViewOf(s), ViewOf(t); Moves(v, w) || Sends(v, w) || Recorded(v, w)
  {
    hide Hand, Done, Ending, Locked, Sends, Recorded, PortalRegion, Unopen, CloseIfDone;
    UnopenFrame(s);
    CloseFrame(s);
    match a {
      case Ask => AskMoves(s, t);
      case Send => SendAnswers(s, t);
      case Insert => InsertAnswers(s, t);
      case _ =>
    }
  }

  lemma UnopenFrame(s: State)
    ensures forall path :: ViewOf(Unopen(s, path)) == ViewOf(s)
  {
  }

  lemma CloseFrame(s: State)
    ensures var t := CloseIfDone(s); ViewOf(t) == ViewOf(s).(up := t.host.up) && (t.host.up ==> s.host.up)
  {
  }

  lemma AskMoves(s: State, t: State)
    requires PortalStep(s, Ask) == Some(t)
    ensures Moves(ViewOf(s), ViewOf(t))
  {
    hide Hand, Done, Ending;
  }

  lemma SendAnswers(s: State, t: State)
    requires PortalStep(s, Send) == Some(t) && Locked(ViewOf(s))
    ensures if Alive(s) then Sends(ViewOf(s), ViewOf(t)) else Moves(ViewOf(s), ViewOf(t))
  {
    hide Hand, Done, Ending;
  }

  lemma InsertAnswers(s: State, t: State)
    requires PortalStep(s, Insert) == Some(t) && Locked(ViewOf(s))
    ensures Recorded(ViewOf(s), ViewOf(t))
  {
    hide Hand, Done, Ending;
  }

  lemma OtherAnswers(s: State, a: OtherAct, t: State)
    requires OtherStep(s, a) == Some(t) && Locked(ViewOf(s))
    ensures match a
            case TalkSend(_) => if Alive(s) then Sends(ViewOf(s), ViewOf(t)) else Moves(ViewOf(s), ViewOf(t))
            case TalkInsert => Recorded(ViewOf(s), ViewOf(t))
            case _ => Moves(ViewOf(s), ViewOf(t))
  {
    hide Hand, Done, Ending;
  }

  lemma DrainAnswers(s: State, a: DrainAct, t: State)
    requires DrainStep(s, a) == Some(t) && Locked(ViewOf(s))
    ensures var v, w := ViewOf(s), ViewOf(t); Moves(v, w) || Sends(v, w) || Recorded(v, w)
  {
    hide DrainStep, Locked, Moves, Sends, Recorded;
    match a {
      case DrainSend => DrainSendAnswers(s, t);
      case DrainInsert => DrainInsertAnswers(s, t);
      case DrainAsk => DrainAskMoves(s, t);
      case LookUp => PassMoves(s, a, t);
      case DrainCheck(_) => PassMoves(s, a, t);
      case DrainClose => PassMoves(s, a, t);
      case _ => DrainMoves(s, a, t);
    }
  }

  lemma DrainMoves(s: State, a: DrainAct, t: State)
    requires DrainStep(s, a) == Some(t) && (a == Accept || a == Take || a == Next || a == GiveBack)
    ensures Moves(ViewOf(s), ViewOf(t))
  {
    hide Hand, Done, Ending;
    PlainHand(s.h);
    PlainHand(t.h);
  }

  lemma PassMoves(s: State, a: DrainAct, t: State)
    requires DrainStep(s, a) == Some(t) && (a == LookUp || a.DrainCheck? || a == DrainClose)
    ensures Moves(ViewOf(s), ViewOf(t))
  {
    hide Hand, Done, Ending;
    PlainHand(s.h);
    PlainHand(t.h);
  }

  lemma DrainAskMoves(s: State, t: State)
    requires DrainStep(s, DrainAsk) == Some(t)
    ensures Moves(ViewOf(s), ViewOf(t))
  {
    hide Hand, Done, Ending;
    PlainHand(s.h);
    PlainHand(t.h);
  }

  lemma DrainSendAnswers(s: State, t: State)
    requires DrainStep(s, DrainSend) == Some(t) && Locked(ViewOf(s))
    ensures if Alive(s) then Sends(ViewOf(s), ViewOf(t)) else Moves(ViewOf(s), ViewOf(t))
  {
    hide Hand, Done, Ending;
    PlainHand(s.h);
    PlainHand(t.h);
  }

  lemma DrainInsertAnswers(s: State, t: State)
    requires DrainStep(s, DrainInsert) == Some(t) && Locked(ViewOf(s))
    ensures Recorded(ViewOf(s), ViewOf(t))
  {
    hide Hand, Done, Ending;
    PlainHand(s.h);
    PlainHand(t.h);
  }

  lemma RelayAnswers(s: State, a: RelayAct, t: State)
    requires RelayStep(s, a) == Some(t)
    ensures var v, w := ViewOf(s), ViewOf(t); Moves(v, w) || TakesOne(v, w) || Answers(v, w) || Drops(v, w)
  {
    hide Taken, Dispatched, Hand, Done, Ending, TakesOne, Answers, Drops;
    PlainHand(s.h);
    PlainHand(t.h);
    match a {
      case Dispatch => DispatchAnswers(s, s.h.msg);
      case TakePending => TakenAnswers(s, s.h.reply);
      case Give => GiveAnswers(s, t);
      case _ =>
    }
  }

  lemma DispatchAnswers(s: State, m: HostMsg)
    requires s.h.Dispatching?
    ensures Moves(ViewOf(s), ViewOf(Dispatched(s, m)))
  {
    hide Hand, Done, Ending;
    PlainHand(s.h);
    PlainHand(Dispatched(s, m).h);
  }

  lemma TakenAnswers(s: State, m: HostMsg)
    requires m.Reply? && s.h.Relaying? && s.lock == Free
    ensures var v, w := ViewOf(s), ViewOf(Taken(s, m)); if m.serial in s.book.pending then TakesOne(v, w) else Moves(v, w)
  {
    hide Opened, Done, Ending;
    PlainHand(s.h);
    PlainHand(Waiting);
  }

  lemma GiveAnswers(s: State, t: State)
    requires RelayStep(s, Give) == Some(t)
    ensures if s.gone then Drops(ViewOf(s), ViewOf(t)) else Answers(ViewOf(s), ViewOf(t))
  {
  }

  lemma EndAnswers(s: State, a: EndAct, t: State)
    requires EndStep(s, a) == Some(t)
    ensures match a
            case DrainPending => TakesAll(ViewOf(s), ViewOf(t))
            case FailOne(_) => Answers(ViewOf(s), ViewOf(t))
            case CheckGone => if s.gone then Drops(ViewOf(s), ViewOf(t)) else Moves(ViewOf(s), ViewOf(t))
            case _ => Moves(ViewOf(s), ViewOf(t))
  {
  }

  lemma StepSound(s: State, a: Act, t: State)
    requires Sound(ViewOf(s)) && Step(s, a) == Some(t)
    ensures Sound(ViewOf(t))
  {
    hide PortalStep, OtherStep, DrainStep, RelayStep, EndStep, ViewOf, Locked, Accounted, Records, Once, Ends;
    hide Moves, Sends, Recorded, TakesOne, TakesAll, Answers, Drops;
    var v, w := ViewOf(s), ViewOf(t);
    match a {
      case OfPortal(b) => PortalAnswers(s, b, t);
      case OfOther(b) => OtherAnswers(s, b, t);
      case OfDrain(b) => DrainAnswers(s, b, t);
      case OfRelay(b) => RelayAnswers(s, b, t);
      case OfEnd(b) => EndAnswers(s, b, t);
    }
    if Moves(v, w) { MovesSound(v, w); }
    else if Sends(v, w) { SendsSound(v, w); }
    else if Recorded(v, w) { RecordedSound(v, w); }
    else if TakesOne(v, w) { TakesOneSound(v, w); }
    else if TakesAll(v, w) { TakesAllSound(v, w); }
    else if Answers(v, w) { AnswersSound(v, w); }
    else { DropsSound(v, w); }
  }

  lemma {:induction false} RunsAreSound(run: seq<State>, acts: seq<Act>, k: nat)
    requires IsRun(run, acts) && k < |run|
    ensures Sound(ViewOf(run[k]))
  {
    hide Step, Sound;
    if k == 0 {
      var app, owner, portalOwner :| run[0] == Start(app, owner, portalOwner);
      StartSound(app, owner, portalOwner);
    } else {
      RunsAreSound(run, acts, k - 1);
      assert Step(run[k - 1], acts[k - 1]) == Some(run[k - 1 + 1]);
      StepSound(run[k - 1], acts[k - 1], run[k]);
    }
  }

  // What that means.

  /** In every interleaving, a call is answered only if it was sent and asks
      for a reply, at most once, on the connection it came in on and with the
      caller's serial. */
  lemma AnsweredOnce(run: seq<State>, acts: seq<Act>, k: nat, i: nat)
    requires IsRun(run, acts) && k < |run| && i < |run[k].book.answers|
    ensures var book := run[k].book;
            var a := book.answers[i];
            && a.to in book.sent && book.sent[a.to].call.replies
            && a.via == book.sent[a.to].call.via && a.callerSerial == book.sent[a.to].call.serial
            && forall j | 0 <= j < |book.answers| && j != i :: book.answers[j].to != a.to
  {
    hide Step;
    RunsAreSound(run, acts, k);
  }

  /** A reply never overtakes the record of its call: when the host thread may
      look for it, it is there, unless the call is over. */
  lemma NoReplyOvertakes(run: seq<State>, acts: seq<Act>, k: nat)
    requires IsRun(run, acts) && k < |run|
    requires run[k].h.Relaying? && run[k].lock == Free && run[k].h.reply.Reply?
    requires run[k].h.reply.serial in run[k].book.sent && run[k].book.sent[run[k].h.reply.serial].call.replies
    ensures var s := run[k];
            s.h.reply.serial in s.book.pending <==> !Over(ViewOf(s), s.h.reply.serial)
  {
    hide Step, Answered;
    RunsAreSound(run, acts, k);
  }

  /** When the host connection has ended, every call sent that asks for a
      reply has been answered, unless the client was gone. */
  lemma EndAnswersAll(run: seq<State>, acts: seq<Act>, k: nat, serial: nat)
    requires IsRun(run, acts) && k < |run| && run[k].h == Ended && !run[k].gone
    requires serial in run[k].book.sent && run[k].book.sent[serial].call.replies
    ensures Answered(run[k].book.answers, serial)
  {
    hide Step, Answered;
    RunsAreSound(run, acts, k);
  }
}
