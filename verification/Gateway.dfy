/** One client of the gateway: the Portal reader, the readers of other names
    and the client's host thread, step by step. A step is what a thread does
    under one lock, or between two. */
module Gateway {
  import opened Wrappers

  type Name = string
  type Path = string

  /** The connection a call came in on. */
  datatype Via = Portal | Talk(i: nat)

  /** A call of the client's. `toPortal`: to the portal's name; `opens`: of the
      OpenURI interface; `closes`: closes the request at a path. */
  datatype Call = Call(
    id: nat, via: Via, serial: nat, replies: bool, toPortal: bool, opens: bool, closes: Option<Path>)

  /** A call read by the reader of another name, none of whose are the
      portal's. */
  datatype TalkCall = TalkCall(id: nat, serial: nat, replies: bool)

  function OfTalk(i: nat, c: TalkCall): Call {
    Call(c.id, Talk(i), c.serial, c.replies, false, false, None)
  }

  datatype Dest = WellKnown | Unique(name: Name)

  datatype Pending = Pending(callerSerial: nat, via: Via, opens: bool)

  /** A call as it went out on the host connection, and the client's standing
      then. */
  datatype Sent = Sent(call: Call, dest: Dest, identified: bool, accepted: Option<Name>)

  datatype Answer = Answer(to: nat, via: Via, callerSerial: nat)

  /** Who holds the lock of the pending calls from a send to its record. */
  datatype Lock = Free | ByPortal(serial: nat) | ByHost(serial: nat) | ByTalk(serial: nat, call: Call)

  /** Where passing on one call has got to. A held call looks up its client
      again. */
  datatype Job = LookingUp | Got | Go(dest: Dest) | Checked(dest: Dest) | Sending(dest: Dest) | Recording

  /** A message from the host bus. */
  datatype HostMsg =
    | Reply(serial: nat, ok: bool, sender: Option<Name>, handle: Option<Path>, decoded: bool)
    | Signal(fromOwner: bool, response: Option<Path>)
    | PortalOwner(owner: Option<Name>)
    | OtherMsg

  /** The Portal reader: what it has read, or the client's departure. */
  datatype Reader = Reading | Passing(call: Call, job: Job) | Removed | Departed

  /** The client's host thread. */
  datatype Relay =
    | Waiting
    | Dispatching(msg: HostMsg)
    | Registered(reply: HostMsg)
    | Taking
    | Draining(rest: seq<Call>)
    | Holding(call: Call, job: Job, rest: seq<Call>)
    | GivingBack(call: Call, rest: seq<Call>)
    | Relaying(reply: HostMsg)
    | Relayed(serial: nat, waiting: Pending)
    | Signalled
    | PortalLeft
    | Telling
    | Closing
    | Lost
    | Forgotten
    | Shut
    | Drained(left: map<nat, Pending>)
    | Failing(left: map<nat, Pending>)
    | LastRequests
    | LastTelling
    | Ended

  /** The client's standing with the portal. */
  datatype PortalState = PortalState(
    app: Option<string>, owner: Option<Name>, registering: Option<nat>, draining: bool, held: seq<Call>)

  /** Calls sent on the host connection by serial: those waiting for a reply,
      and, of all, what was sent, answered, and left unanswered as the client
      was gone. */
  datatype Book = Book(pending: map<nat, Pending>, sent: map<nat, Sent>, answers: seq<Answer>, dropped: set<nat>)

  /** Portal calls read and done with, and the name that accepted the latest
      registration. */
  datatype Log = Log(received: seq<Call>, handled: seq<Call>, accepted: Option<Name>)

  /** The host connection: not shut down, closed by the other end, and the
      next serial. */
  datatype HostConn = HostConn(up: bool, broken: bool, next: nat)

  /** `portalOwner`: the host's owner of the portal's name; `known`: in the
      map of clients; `talk`: what the reader of another name is about to
      send. */
  datatype State = State(
    portal: PortalState,
    portalOwner: Option<Name>,
    book: Book,
    lock: Lock,
    open: set<Path>,
    gone: bool,
    known: bool,
    host: HostConn,
    p: Reader,
    talk: map<nat, TalkCall>,
    h: Relay,
    log: Log)

  function Start(app: Option<string>, owner: Option<Name>, portalOwner: Option<Name>): State {
    var accepted := if app.Some? then owner else None;
    State(PortalState(app, accepted, None, false, []), portalOwner, Book(map[], map[], [], {}), Free, {},
          false, true, HostConn(true, false, 0), Reading, map[], Waiting, Log([], [], accepted))
  }

  predicate Alive(s: State) { s.host.up && !s.host.broken }

  // Passing on one call, by either thread.

  datatype Outcome = Pass(dest: Dest) | Kept | HandBack | Refused

  /** Under the portal lock: held behind others, sent on to the instance that
      knows the client, or after registering again. */
  function PortalRegion(s: State, c: Call, fromHeld: bool): (State, Outcome) {
    if !fromHeld && (s.portal.registering.Some? || s.portal.draining) then (s.(portal := s.portal.(held := s.portal.held + [c])), Kept)
    else if s.portal.app.None? then (s, Pass(WellKnown))
    else if s.portal.owner.Some? && s.portal.owner == s.portalOwner then (s, Pass(Unique(s.portal.owner.value)))
    else if !Alive(s) then (s, Refused)
    else
      var asked := s.(portal := s.portal.(registering := Some(s.host.next)), host := s.host.(next := s.host.next + 1));
      if fromHeld then (asked, HandBack) else (asked.(portal := asked.portal.(held := s.portal.held + [c])), Kept)
  }

  /** `c` is sent or answered. */
  function Handle(s: State, c: Call): State {
    if c.toPortal then s.(log := s.log.(handled := s.log.handled + [c])) else s
  }

  function Unopen(s: State, path: Option<Path>): State {
    if path.Some? then s.(open := s.open - {path.value}) else s
  }

  /** Sends under the lock of the pending calls. */
  function SendRegion(s: State, c: Call, dest: Dest, lock: Lock): State {
    Handle(s.(lock := lock, host := s.host.(next := s.host.next + 1),
              book := s.book.(sent := s.book.sent[s.host.next := Sent(c, dest, s.portal.app.Some?, s.log.accepted)])), c)
  }

  /** Records the call just sent, and lets go of the lock. */
  function Record(s: State, serial: nat, c: Call): State {
    s.(lock := Free,
       book := if c.replies then s.book.(pending := s.book.pending[serial := Pending(c.serial, c.via, c.opens)]) else s.book)
  }

  predicate OpensPending(pending: map<nat, Pending>) {
    exists k | k in pending :: pending[k].opens
  }

  /** Shuts the host connection of a client that has left and has nothing
      open, under the lock of the pending calls. */
  function CloseIfDone(s: State): State {
    if s.gone && !OpensPending(s.book.pending) && s.open == {} then s.(host := s.host.(up := false)) else s
  }

  // The Portal reader.

  datatype PortalAct =
    | Read(call: Call)
    | Ask
    | Check(forwards: bool)
    | CloseRequest
    | Send
    | Insert
    | Forget
    | Leave
    | Close

  function PortalStep(s: State, a: PortalAct): Option<State> {
    match a
    case Read(c) =>
      if s.p == Reading && s.known && c.via == Portal && (c.toPortal ==> c.id == |s.log.received|) then
        Some(s.(p := Passing(c, if c.toPortal then Got else Go(WellKnown)),
                log := if c.toPortal then s.log.(received := s.log.received + [c]) else s.log))
      else None
    case Ask =>
      if s.p.Passing? && s.p.job == Got then
        var (t, outcome) := PortalRegion(s, s.p.call, false);
        match outcome
        case Pass(dest) => Some(t.(p := Passing(s.p.call, Go(dest))))
        case Refused => Some(Handle(t, s.p.call).(p := Reading))
        case _ => Some(t.(p := Reading))
      else None
    case Check(forwards) =>
      if s.p.Passing? && s.p.job.Go? then
        Some(if forwards then s.(p := Passing(s.p.call, Checked(s.p.job.dest))) else Handle(s, s.p.call).(p := Reading))
      else None
    case CloseRequest =>
      if s.p.Passing? && s.p.job.Checked? then
        Some(Unopen(s, s.p.call.closes).(p := Passing(s.p.call, Sending(s.p.job.dest))))
      else None
    case Send =>
      if s.p.Passing? && s.p.job.Sending? && s.lock == Free then
        Some(if Alive(s) then
               SendRegion(s, s.p.call, s.p.job.dest, ByPortal(s.host.next)).(p := Passing(s.p.call, Recording))
             else Handle(s, s.p.call).(p := Reading))
      else None
    case Insert =>
      if s.p.Passing? && s.p.job == Recording && s.lock.ByPortal? then
        Some(Record(s, s.lock.serial, s.p.call).(p := Reading))
      else None
    case Forget => if s.p == Reading && s.known then Some(s.(known := false, p := Removed)) else None
    case Leave => if s.p == Removed then Some(s.(gone := true, p := Departed)) else None
    case Close => if s.p == Departed && s.lock == Free then Some(CloseIfDone(s).(p := Reading)) else None
  }

  // Readers of other names, and the host connection's other end.

  datatype OtherAct = TalkRead(i: nat, call: TalkCall) | TalkSend(i: nat) | TalkInsert | Break

  function OtherStep(s: State, a: OtherAct): Option<State> {
    match a
    case TalkRead(i, c) =>
      if s.known && i !in s.talk && !(s.lock.ByTalk? && s.lock.call.via == Talk(i)) then
        Some(s.(talk := s.talk[i := c]))
      else None
    case TalkSend(i) =>
      if i in s.talk && s.lock == Free then
        var c, t := OfTalk(i, s.talk[i]), s.(talk := s.talk - {i});
        Some(if Alive(s) then SendRegion(t, c, WellKnown, ByTalk(s.host.next, c)) else t)
      else None
    case TalkInsert =>
      if s.lock.ByTalk? then Some(Record(s, s.lock.serial, s.lock.call)) else None
    case Break => Some(s.(host := s.host.(broken := true)))
  }

  // The host thread passing on held calls.

  datatype DrainAct =
    | Accept
    | Take
    | Next
    | LookUp
    | DrainAsk
    | DrainCheck(forwards: bool)
    | DrainClose
    | DrainSend
    | DrainInsert
    | GiveBack

  function DrainStep(s: State, a: DrainAct): Option<State> {
    match a
    case Accept =>
      if s.h.Registered? && s.h.reply.Reply? then
        Some(if s.h.reply.ok then
               s.(h := Taking, log := s.log.(accepted := s.h.reply.sender),
                  portal := s.portal.(registering := None, draining := true, owner := s.h.reply.sender))
             else
               s.(h := Taking, portal := s.portal.(registering := None, draining := true, app := None, owner := None)))
      else None
    case Take =>
      if s.h == Taking then
        Some(if s.portal.held == [] then s.(portal := s.portal.(draining := false), h := Waiting)
             else s.(portal := s.portal.(held := []), h := Draining(s.portal.held)))
      else None
    case Next =>
      if s.h.Draining? then
        Some(if s.h.rest == [] then s.(h := Taking) else s.(h := Holding(s.h.rest[0], LookingUp, s.h.rest[1..])))
      else None
    case LookUp =>
      if s.h.Holding? && s.h.job == LookingUp then
        Some(if s.known then s.(h := Holding(s.h.call, Got, s.h.rest)) else Handle(s, s.h.call).(h := Draining(s.h.rest)))
      else None
    case DrainAsk =>
      if s.h.Holding? && s.h.job == Got then
        var (t, outcome) := PortalRegion(s, s.h.call, true);
        match outcome
        case Pass(dest) => Some(t.(h := Holding(s.h.call, Go(dest), s.h.rest)))
        case HandBack => Some(t.(h := GivingBack(s.h.call, s.h.rest)))
        case _ => Some(Handle(t, s.h.call).(h := Draining(s.h.rest)))
      else None
    case DrainCheck(forwards) =>
      if s.h.Holding? && s.h.job.Go? then
        Some(if forwards then s.(h := Holding(s.h.call, Checked(s.h.job.dest), s.h.rest))
             else Handle(s, s.h.call).(h := Draining(s.h.rest)))
      else None
    case DrainClose =>
      if s.h.Holding? && s.h.job.Checked? then
        var c := s.h.call;
        Some(Unopen(s, c.closes).(h := Holding(c, Sending(s.h.job.dest), s.h.rest)))
      else None
    case DrainSend =>
      if s.h.Holding? && s.h.job.Sending? && s.lock == Free then
        Some(if Alive(s) then
               SendRegion(s, s.h.call, s.h.job.dest, ByHost(s.host.next)).(h := Holding(s.h.call, Recording, s.h.rest))
             else Handle(s, s.h.call).(h := Draining(s.h.rest)))
      else None
    case DrainInsert =>
      if s.h.Holding? && s.h.job == Recording && s.lock.ByHost? then
        Some(Record(s, s.lock.serial, s.h.call).(h := Draining(s.h.rest)))
      else None
    case GiveBack =>
      if s.h.GivingBack? then
        Some(s.(portal := s.portal.(held := [s.h.call] + s.h.rest + s.portal.held, draining := false), h := Waiting))
      else None
  }

  // The host thread relaying what comes from the host bus.

  datatype RelayAct =
    | Receive(msg: HostMsg)
    | Dispatch
    | TakePending
    | Give
    | AfterSignal
    | EndRequests
    | Tell
    | HostClose

  function RelayStep(s: State, a: RelayAct): Option<State> {
    match a
    case Receive(m) =>
      if s.h == Waiting then
        Some(s.(h := if m.Reply? && !m.decoded then Relaying(m.(ok := false, handle := None)) else Dispatching(m)))
      else None
    case Dispatch =>
      if s.h.Dispatching? then Some(Dispatched(s, s.h.msg)) else None
    case TakePending =>
      if s.h.Relaying? && s.h.reply.Reply? && s.lock == Free then Some(Taken(s, s.h.reply)) else None
    case Give =>
      if s.h.Relayed? then
        Some(if s.gone then s.(book := s.book.(dropped := s.book.dropped + {s.h.serial}), h := Closing)
             else s.(book := s.book.(answers := s.book.answers + [AnswerTo(s.h.serial, s.h.waiting)]), h := Waiting))
      else None
    case AfterSignal => if s.h == Signalled then Some(s.(h := if s.gone then Closing else Waiting)) else None
    case EndRequests => if s.h == PortalLeft then Some(s.(open := {}, h := Telling)) else None
    case Tell => if s.h == Telling then Some(s.(h := Closing)) else None
    case HostClose => if s.h == Closing && s.lock == Free then Some(CloseIfDone(s).(h := Waiting)) else None
  }

  function Without(pending: map<nat, Pending>, k: nat): map<nat, Pending> {
    pending - {k}
  }

  /** The open requests once the reply to a call is there: an OpenURI call
      that succeeds opens the one it names. */
  function Opened(open: set<Path>, waiting: Pending, reply: HostMsg): set<Path>
    requires reply.Reply?
  {
    if waiting.opens && reply.ok && reply.handle.Some? then open + {reply.handle.value} else open
  }

  /** Takes the record of the call `m` replies to, if it has one, and records
      the request it opens, under the lock of the pending calls. */
  function Taken(s: State, m: HostMsg): State
    requires m.Reply?
  {
    if m.serial !in s.book.pending then s.(h := Waiting)
    else
      var waiting := s.book.pending[m.serial];
      s.(book := s.book.(pending := Without(s.book.pending, m.serial)), open := Opened(s.open, waiting, m),
         h := Relayed(m.serial, waiting))
  }

  function Dispatched(s: State, m: HostMsg): State {
    match m
    case Reply(serial, _, _, _, _) => s.(h := if s.portal.registering == Some(serial) then Registered(m) else Relaying(m))
    case Signal(fromOwner, response) => if fromOwner then Unopen(s, response).(h := Signalled) else s.(h := Waiting)
    case PortalOwner(owner) => s.(portalOwner := owner, h := PortalLeft)
    case OtherMsg => s.(h := Waiting)
  }

  function AnswerTo(k: nat, waiting: Pending): Answer {
    Answer(k, waiting.via, waiting.callerSerial)
  }

  // The host thread once its connection has ended.

  datatype EndAct = Fail | ForgetClient | Shutdown | DrainPending | CheckGone | FailOne(serial: nat) | FailedAll | LastEnd | LastTell

  function EndStep(s: State, a: EndAct): Option<State> {
    match a
    case Fail => if s.h == Waiting && !Alive(s) then Some(s.(h := Lost)) else None
    case ForgetClient => if s.h == Lost then Some(s.(known := false, h := Forgotten)) else None
    case Shutdown => if s.h == Forgotten then Some(s.(host := s.host.(up := false), h := Shut)) else None
    case DrainPending =>
      if s.h == Shut && s.lock == Free then Some(s.(book := s.book.(pending := map[]), h := Drained(s.book.pending))) else None
    case CheckGone =>
      if s.h.Drained? then
        Some(if s.gone then s.(book := s.book.(dropped := s.book.dropped + s.h.left.Keys), h := LastRequests)
             else s.(h := Failing(s.h.left)))
      else None
    case FailOne(k) =>
      if s.h.Failing? && k in s.h.left then
        Some(s.(book := s.book.(answers := s.book.answers + [AnswerTo(k, s.h.left[k])]), h := Failing(s.h.left - {k})))
      else None
    case FailedAll => if s.h.Failing? && s.h.left == map[] then Some(s.(h := LastRequests)) else None
    case LastEnd => if s.h == LastRequests then Some(s.(open := {}, h := LastTelling)) else None
    case LastTell => if s.h == LastTelling then Some(s.(h := Ended)) else None
  }

  // Runs.

  datatype Act = OfPortal(p: PortalAct) | OfOther(o: OtherAct) | OfDrain(d: DrainAct) | OfRelay(r: RelayAct) | OfEnd(e: EndAct)

  function Step(s: State, a: Act): Option<State> {
    match a
    case OfPortal(p) => PortalStep(s, p)
    case OfOther(o) => OtherStep(s, o)
    case OfDrain(d) => DrainStep(s, d)
    case OfRelay(r) => RelayStep(s, r)
    case OfEnd(e) => EndStep(s, e)
  }

  /** `run` is some interleaving of the threads. */
  ghost predicate IsRun(run: seq<State>, acts: seq<Act>) {
    && |run| == |acts| + 1
    && (exists app, owner, portalOwner :: run[0] == Start(app, owner, portalOwner))
    && forall i | 0 <= i < |acts| :: Step(run[i], acts[i]) == Some(run[i + 1])
  }
}
