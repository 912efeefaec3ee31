/** What each request of the bridge's and each event of the compositor's does
    to the object table. */
module WaylandProxy {
  import opened Wrappers
  import opened Bytes
  import opened WaylandWire
  import opened WaylandHistory
  import opened WaylandObjects

  /** The global name of the decoration manager the proxy offers. */
  const DECORATION_GLOBAL: u32 := MAX_ID

  const CLIENT_SIDE: u32 := 1
  const SERVER_SIDE: u32 := 2

  /** Opcodes of wl_registry.global and of the decoration's configure. */
  const GLOBAL: u16 := 0
  const CONFIGURE: u16 := 0

  /** What a request meets outside the table: whether the compositor's
      connection takes it, whether a frame keeps it from the compositor,
      whether the proxy could draw a frame; for a bind, the interface it
      names, and the interface and version the bridge was told. */
  datatype Env = Env(accepted: bool, swallowed: bool, framed: bool, named: Iface, offered: Option<(Iface, nat)>)

  // Requests.

  function DisplayRequest(t: Table, m: Message, d: RequestDesc, env: Env, managerName: seq<byte>): Result<Table, BadRequest>
    requires d.child.Some?
  {
    if |m.args| != 1 || !m.args[0].NewId? then Err(Malformed)
    else
      var id := m.args[0].n;
      if !FreeId(t, id) then Err(IdInUse)
      else if !env.accepted then Err(Gone)
      else
        var made := Attach(Ask(t, UpRequest(None, m.opcode, [ToNew])), id, d.child.value, 1, false);
        Ok(if d.child.value == WlRegistry && t.decorate
           then Say(made, id, GLOBAL, [Uint(DECORATION_GLOBAL), Str(Some(managerName)), Uint(1)])
           else made)
  }

  function Bind(t: Table, registry: Up, m: Message, env: Env): Result<Table, BadRequest> {
    if |m.args| != 4 || !m.args[0].Uint? || !m.args[1].Str? || m.args[1].s.None? || !m.args[2].Uint? || !m.args[3].NewId?
    then Err(Malformed)
    else
      var name, version, id := m.args[0].u, m.args[2].u, m.args[3].n;
      if !FreeId(t, id) then Err(IdInUse)
      else if t.decorate && name == DECORATION_GLOBAL then
        (if env.named != DecorationManagerV1 || version != 1 then Err(WrongGlobal)
         else Ok(Insert(t, id, Obj(DecorationManagerV1, version, DecorationManager, false))))
      else if env.offered.None? then Err(NotOffered)
      else
        var (global, most) := env.offered.value;
        if env.named != global || version == 0 || version > most then Err(WrongGlobal)
        else if !env.accepted || registry.Null? then Err(Gone)
        else
          var args := [Plain(m.args[0]), Plain(m.args[1]), Plain(m.args[2]), ToNew];
          Ok(Attach(Ask(t, UpRequest(Some(registry.n), m.opcode, args)), id, global, version, false))
  }

  /** A request being translated: its arguments so far, the object arguments
      the protocol still expects, whether one names an object that is gone,
      and the id it makes. */
  datatype Outgoing = Outgoing(args: seq<UpArg>, passed: seq<Passed>, dead: bool, child: Option<u32>)

  function Expected(passed: seq<Passed>): Passed {
    if passed == [] then Passed(None, false) else passed[0]
  }

  function Rest(passed: seq<Passed>): seq<Passed> {
    if passed == [] then [] else passed[1..]
  }

  function TranslateArg(t: Table, out: Outgoing, arg: Arg, child: Option<Iface>): Result<Outgoing, BadRequest> {
    match arg
    case Object(id) =>
      var left := Rest(out.passed);
      if id == 0 then
        (if !Expected(out.passed).nullable then Err(NullObject)
         else Ok(out.(args := out.args + [ToObject(Null)], passed := left)))
      else if id !in t.objects then Err(UnknownObject)
      else if !t.objects[id].kind.Upstream? then Err(OwnObject)
      else if Expected(out.passed).iface.Some? && Expected(out.passed).iface.value != t.objects[id].iface then
        Err(WrongInterface)
      else
        var up := t.objects[id].kind.up;
        Ok(out.(args := out.args + [ToObject(up)], passed := left, dead := out.dead || up.Null?))
    case NewId(id) =>
      if !FreeId(t, id) then Err(IdInUse)
      else if child.None? then Err(NoFixedInterface)
      else Ok(out.(args := out.args + [ToNew], child := Some(id)))
    case _ => Ok(out.(args := out.args + [Plain(arg)]))
  }

  function Translate(t: Table, out: Outgoing, args: seq<Arg>, child: Option<Iface>): (r: Result<Outgoing, BadRequest>)
    requires out.child.Some? ==> FreeId(t, out.child.value) && child.Some?
    ensures r.Ok? && r.value.child.Some? ==> FreeId(t, r.value.child.value) && child.Some?
    decreases |args|
  {
    if args == [] then Ok(out)
    else
      var next :- TranslateArg(t, out, args[0], child);
      Translate(t, next, args[1..], child)
  }

  /** A request dropped because an object it is on or names is gone makes
      an object that is gone too. */
  function ForwardRequest(t: Table, up: Up, m: Message, d: RequestDesc, env: Env): Result<Table, BadRequest>
    requires m.sender in t.objects
  {
    if env.swallowed then Ok(t)
    else
      var out :- Translate(t, Outgoing([], d.objects, false, None), m.args, d.child);
      var sent := env.accepted && up.Live? && !out.dead;
      var asked := if sent then Ask(t, UpRequest(Some(up.n), m.opcode, out.args)) else t;
      var version := t.objects[m.sender].version;
      var made :=
        if out.child.None? then asked
        else if sent then Attach(asked, out.child.value, d.child.value, version, d.makesToplevel)
        else Insert(asked, out.child.value, Obj(d.child.value, version, Upstream(Null), d.makesToplevel));
      Ok(if d.destructor then Destroy(made, m.sender, if sent then Some(up.n) else None) else made)
  }

  /** The bridge's object `id` goes, and `up` when that was destroyed. */
  function Destroy(t: Table, id: u32, up: Option<nat>): Table {
    var left := Remove(t, id);
    if up.Some? then left.(alive := left.alive - {up.value}) else left
  }

  function ManagerRequest(t: Table, m: Message): Result<Table, BadRequest> {
    if m.opcode == 0 && m.args == [] then Ok(Remove(t, m.sender))
    else if m.opcode == 1 && |m.args| == 2 && m.args[0].NewId? && m.args[1].Object? then
      var id, toplevel := m.args[0].n, m.args[1].o;
      if !FreeId(t, id) then Err(IdInUse)
      else if toplevel !in t.objects || !t.objects[toplevel].toplevel then Err(NotToplevel)
      else Ok(Insert(t, id, Obj(ToplevelDecorationV1, 1, Decoration(toplevel), false)))
    else Err(Malformed)
  }

  function DecorationRequest(t: Table, m: Message, env: Env): Result<Table, BadRequest> {
    if m.opcode == 0 && m.args == [] then Ok(Remove(t, m.sender))
    else if m.opcode == 1 && m.args == [Uint(CLIENT_SIDE)] then Ok(Say(t, m.sender, CONFIGURE, [Uint(CLIENT_SIDE)]))
    else if (m.opcode == 1 && m.args == [Uint(SERVER_SIDE)]) || (m.opcode == 2 && m.args == []) then
      Ok(Say(t, m.sender, CONFIGURE, [Uint(if env.framed then SERVER_SIDE else CLIENT_SIDE)]))
    else Err(Malformed)
  }

  /** Requests reach objects the table has, as the signatures come from it;
      both requests of the display name the interface of what they make. */
  function Request(t: Table, m: Message, d: RequestDesc, env: Env, managerName: seq<byte>): Result<Table, BadRequest>
    requires m.sender in t.objects && (t.objects[m.sender].kind.Display? ==> d.child.Some?)
  {
    var obj := t.objects[m.sender];
    if d.since > obj.version then Err(TooNew)
    else
      match obj.kind
      case Display => DisplayRequest(t, m, d, env, managerName)
      case DecorationManager => ManagerRequest(t, m)
      case Decoration(_) => DecorationRequest(t, m, env)
      case Upstream(up) => if obj.iface == WlRegistry then Bind(t, up, m, env) else ForwardRequest(t, up, m, d, env)
  }

  // Events.

  /** The bridge's id for an object of the compositor's; none for the
      proxy's own. */
  function BridgeId(t: Table, s: nat): Option<u32> {
    if s in t.alive && s < |t.data| && t.data[s].Forward? && t.data[s].bridge in t.objects
       && t.objects[t.data[s].bridge].kind == Upstream(Live(s))
    then Some(t.data[s].bridge)
    else None
  }

  /** An argument for the bridge, and whether it named an object the bridge
      does not know. */
  function BackArg(t: Table, arg: UpArg): (Arg, bool) {
    match arg
    case ToObject(Null) => (Object(0), false)
    case ToObject(Live(s)) => (Object(BridgeId(t, s).GetOr(0)), BridgeId(t, s).None?)
    case ToNew => (NewId(t.nextServerId), false)
    case Plain(a) => (a, false)
  }

  function Back(t: Table, args: seq<UpArg>): seq<Arg> {
    seq(|args|, i requires 0 <= i < |args| => BackArg(t, args[i]).0)
  }

  predicate Hides(t: Table, args: seq<UpArg>) {
    exists i | 0 <= i < |args| :: BackArg(t, args[i]).1
  }

  predicate HasNew(args: seq<UpArg>) {
    exists i | 0 <= i < |args| :: args[i].ToNew?
  }

  function NewChild(t: Table, iface: Iface, version: nat): Table
    requires t.nextServerId < MAX_ID
  {
    Attach(t.(nextServerId := t.nextServerId + 1), t.nextServerId, iface, version, false)
  }

  /** Events that create an object create one; those that destroy their
      sender create none. */
  ghost predicate WellFormedEvent(t: Table, from: nat, args: seq<UpArg>, d: Option<EventDesc>) {
    && from < |t.data| && t.data[from].Forward?
    && (forall i, j | 0 <= i < j < |args| :: !(args[i].ToNew? && args[j].ToNew?))
    && (forall i | 0 <= i < |args| && args[i].ToObject? && args[i].up.Live? :: args[i].up.n < |t.data|)
    && (d.Some? && d.value.destructor ==> !HasNew(args))
  }

  /** The compositor's event, from the object `from`. `pass` says whether an
      event goes to the bridge, given whether it names an object hidden from
      it. */
  function Event(t: Table, from: nat, opcode: u16, args: seq<UpArg>, d: Option<EventDesc>, pass: bool -> bool): Table
    requires from < |t.data| && t.data[from].Forward?
  {
    var id := t.data[from].bridge;
    if id !in t.objects || t.objects[id].kind != Upstream(Live(from)) || d.None? then Dropped(t, from, args, d)
    else if HasNew(args) && d.value.child.None? then Create(t, Discard)
    else if HasNew(args) && t.nextServerId == MAX_ID then Create(t, Discard).(failed := true)
    else
      var made := if HasNew(args) then NewChild(t, d.value.child.value, t.objects[id].version) else t;
      var told := if pass(Hides(t, args)) then Tell(made, id, from, opcode, Back(t, args)) else made;
      if d.value.destructor then Destroy(told, id, Some(from)) else told
  }

  function Tell(t: Table, id: u32, from: nat, opcode: u16, args: seq<Arg>): Table {
    t.(history := t.history + [Told(id, from, opcode, args)])
  }

  function Dropped(t: Table, from: nat, args: seq<UpArg>, d: Option<EventDesc>): Table {
    var left := if HasNew(args) then Create(t, Discard) else t;
    if d.Some? && d.value.destructor then left.(alive := left.alive - {from}) else left
  }

  // Every step keeps the table sound.

  lemma RequestSound(t: Table, m: Message, d: RequestDesc, env: Env, managerName: seq<byte>)
    requires Sound(t) && m.sender in t.objects && (t.objects[m.sender].kind.Display? ==> d.child.Some?)
    ensures var r := Request(t, m, d, env, managerName); r.Ok? ==> Sound(r.value)
  {
    hide Faithful, OwnerOf, Agrees, SoundHistory, DisplayRequest, Bind, ForwardRequest, ManagerRequest, DecorationRequest;
    match t.objects[m.sender].kind {
      case Display => DisplaySound(t, m, d, env, managerName);
      case DecorationManager => ManagerSound(t, m);
      case Decoration(_) => DecorationSound(t, m, env);
      case Upstream(up) =>
        BindSound(t, up, m, env);
        ForwardSound(t, up, m, d, env);
    }
  }

  lemma DisplaySound(t: Table, m: Message, d: RequestDesc, env: Env, managerName: seq<byte>)
    requires Sound(t) && d.child.Some?
    ensures var r := DisplayRequest(t, m, d, env, managerName); r.Ok? ==> Sound(r.value)
  {
    hide Sound;
    var r := DisplayRequest(t, m, d, env, managerName);
    if r.Ok? {
      var id, asked := m.args[0].n, Ask(t, UpRequest(None, m.opcode, [ToNew]));
      AskSound(t, UpRequest(None, m.opcode, [ToNew]));
      AttachSound(asked, id, d.child.value, 1, false);
      var made := Attach(asked, id, d.child.value, 1, false);
      if r.value != made {
        assert id != DISPLAY by { HasDisplay(t); }
        SaySound(made, id, GLOBAL, [Uint(DECORATION_GLOBAL), Str(Some(managerName)), Uint(1)]);
      }
    }
  }

  lemma HasDisplay(t: Table)
    requires Sound(t)
    ensures DISPLAY in t.objects
  {
  }

  lemma BindSound(t: Table, registry: Up, m: Message, env: Env)
    requires Sound(t)
    ensures var r := Bind(t, registry, m, env); r.Ok? ==> Sound(r.value)
  {
    hide Sound;
    var r := Bind(t, registry, m, env);
    if r.Ok? {
      var id, version := m.args[3].n, m.args[2].u;
      if t.decorate && m.args[0].u == DECORATION_GLOBAL {
        InsertFree(t, id, Obj(DecorationManagerV1, version, DecorationManager, false));
      } else {
        var args := [Plain(m.args[0]), Plain(m.args[1]), Plain(m.args[2]), ToNew];
        AskSound(t, UpRequest(Some(registry.n), m.opcode, args));
        AttachSound(Ask(t, UpRequest(Some(registry.n), m.opcode, args)), id, env.offered.value.0, version, false);
      }
    }
  }

  lemma AskSound(t: Table, request: UpRequest)
    requires Sound(t)
    ensures Sound(Ask(t, request))
  {
    hide Faithful, OwnerOf;
    assert forall b: u32 :: Agrees(t, b) ==> Agrees(Ask(t, request), b);
  }

  /** An object with none of the compositor's behind it. */
  lemma InsertFree(t: Table, id: u32, obj: Obj)
    requires Sound(t) && FreeId(t, id) && !obj.kind.Display? && FromUp(obj.kind).None?
    ensures Sound(Insert(t, id, obj))
  {
    hide SoundHistory;
    InsertSound(t, id, obj);
  }

  lemma ForwardSound(t: Table, up: Up, m: Message, d: RequestDesc, env: Env)
    requires Sound(t) && m.sender in t.objects && t.objects[m.sender].kind == Upstream(up)
    ensures var r := ForwardRequest(t, up, m, d, env); r.Ok? ==> Sound(r.value)
  {
    hide Sound, Insert, Create, Attach, Destroy;
    var r := ForwardRequest(t, up, m, d, env);
    if r.Ok? && !env.swallowed {
      var out := Translate(t, Outgoing([], d.objects, false, None), m.args, d.child).value;
      var sent := env.accepted && up.Live? && !out.dead;
      var request := UpRequest(Some(if up.Live? then up.n else 0), m.opcode, out.args);
      var asked := if sent then Ask(t, request) else t;
      AskSound(t, request);
      var version := t.objects[m.sender].version;
      MakesSound(asked, m.sender, up, d, out.child, sent, version);
    }
  }

  /** The object a request makes, and the one it destroys. */
  lemma MakesSound(t: Table, sender: u32, up: Up, d: RequestDesc, child: Option<u32>, sent: bool, version: nat)
    requires Sound(t) && sender in t.objects && t.objects[sender].kind == Upstream(up)
    requires sent ==> up.Live?
    requires child.Some? ==> d.child.Some? && FreeId(t, child.value)
    ensures var made :=
              if child.None? then t
              else if sent then Attach(t, child.value, d.child.value, version, d.makesToplevel)
              else Insert(t, child.value, Obj(d.child.value, version, Upstream(Null), d.makesToplevel));
            && Sound(made)
            && Sound(Destroy(made, sender, if sent then Some(up.n) else None))
  {
    hide Sound;
    var made := t;
    if child.Some? {
      if sent {
        made := Attach(t, child.value, d.child.value, version, d.makesToplevel);
        AttachSound(t, child.value, d.child.value, version, d.makesToplevel);
      } else {
        made := Insert(t, child.value, Obj(d.child.value, version, Upstream(Null), d.makesToplevel));
        InsertFree(t, child.value, Obj(d.child.value, version, Upstream(Null), d.makesToplevel));
      }
    }
    EndSound(made, sender, if sent then Some(up.n) else None);
  }

  lemma EndSound(t: Table, id: u32, up: Option<nat>)
    requires Sound(t) && id in t.objects && t.objects[id].kind.Upstream?
    requires up.Some? ==> t.objects[id].kind == Upstream(Live(up.value))
    ensures Sound(Destroy(t, id, up))
  {
    hide SoundHistory;
    RemoveSound(t, id);
    if up.Some? {
      DestroySound(Remove(t, id), up.value);
    }
  }

  lemma ManagerSound(t: Table, m: Message)
    requires Sound(t) && m.sender in t.objects && m.sender != DISPLAY
    ensures var r := ManagerRequest(t, m); r.Ok? ==> Sound(r.value)
  {
    hide Sound;
    if m.opcode == 0 && m.args == [] {
      RemoveSound(t, m.sender);
    } else if ManagerRequest(t, m).Ok? {
      InsertFree(t, m.args[0].n, Obj(ToplevelDecorationV1, 1, Decoration(m.args[1].o), false));
    }
  }

  lemma DecorationSound(t: Table, m: Message, env: Env)
    requires Sound(t) && m.sender in t.objects && m.sender != DISPLAY
    ensures var r := DecorationRequest(t, m, env); r.Ok? ==> Sound(r.value)
  {
    hide Sound;
    RemoveSound(t, m.sender);
    SaySound(t, m.sender, CONFIGURE, [Uint(CLIENT_SIDE)]);
    SaySound(t, m.sender, CONFIGURE, [Uint(SERVER_SIDE)]);
  }

  lemma EventSound(t: Table, from: nat, opcode: u16, args: seq<UpArg>, d: Option<EventDesc>, pass: bool -> bool)
    requires Sound(t) && WellFormedEvent(t, from, args, d)
    ensures Sound(Event(t, from, opcode, args, d, pass))
  {
    hide Sound, Back, Hides, HasNew, Insert, Create, Attach, Destroy;
    CreateSound(t, Discard);
    var id := t.data[from].bridge;
    if id !in t.objects || t.objects[id].kind != Upstream(Live(from)) || d.None? {
      DroppedSound(t, from, args, d);
    } else if HasNew(args) && d.value.child.None? {
    } else if HasNew(args) && t.nextServerId == MAX_ID {
      FailSound(Create(t, Discard));
    } else {
      if HasNew(args) {
        NewChildSound(t, d.value.child.value, t.objects[id].version);
      }
      var made := if HasNew(args) then NewChild(t, d.value.child.value, t.objects[id].version) else t;
      assert id in made.objects && made.objects[id] == t.objects[id] by {
        if HasNew(args) { Keeps(t, d.value.child.value, t.objects[id].version, id); }
      }
      ToldSound(made, id, from, opcode, Back(t, args));
      EndSound(made, id, Some(from));
      EndSound(Tell(made, id, from, opcode, Back(t, args)), id, Some(from));
    }
  }

  lemma DroppedSound(t: Table, from: nat, args: seq<UpArg>, d: Option<EventDesc>)
    requires Sound(t) && from < |t.data| && t.data[from].Forward?
    requires d.None? || t.data[from].bridge !in t.objects || t.objects[t.data[from].bridge].kind != Upstream(Live(from))
    ensures Sound(Dropped(t, from, args, d))
  {
    hide SoundHistory, HasNew;
    CreateSound(t, Discard);
    var left := if HasNew(args) then Create(t, Discard) else t;
    if d.Some? && d.value.destructor {
      assert forall b | b in left.objects :: FromUp(left.objects[b].kind) != Some(from);
      DestroySound(left, from);
    }
  }

  lemma FailSound(t: Table)
    requires Sound(t)
    ensures Sound(t.(failed := true))
  {
    hide Faithful, OwnerOf;
    assert forall b: u32 :: Agrees(t, b) ==> Agrees(t.(failed := true), b);
  }

  lemma NewChildSound(t: Table, iface: Iface, version: nat)
    requires Sound(t) && t.nextServerId < MAX_ID
    ensures Sound(NewChild(t, iface, version))
  {
    hide Sound, Attach;
    var bumped := t.(nextServerId := t.nextServerId + 1);
    BumpSound(t);
    NotBornYet(t);
    AttachNew(bumped, t.nextServerId, iface, version, false);
  }

  lemma BumpSound(t: Table)
    requires Sound(t) && t.nextServerId < MAX_ID
    ensures var bumped := t.(nextServerId := t.nextServerId + 1);
            Sound(bumped) && t.nextServerId !in bumped.objects && 0 < t.nextServerId < bumped.nextServerId
  {
    hide Faithful, OwnerOf;
    var bumped := t.(nextServerId := t.nextServerId + 1);
    assert forall b: u32 :: Agrees(t, b) ==> Agrees(bumped, b);
  }

  lemma Keeps(t: Table, iface: Iface, version: nat, id: u32)
    requires Sound(t) && t.nextServerId < MAX_ID && id in t.objects
    ensures var made := NewChild(t, iface, version); id in made.objects && made.objects[id] == t.objects[id]
  {
    hide SoundHistory;
  }

  lemma ToldSound(t: Table, id: u32, from: nat, opcode: u16, args: seq<Arg>)
    requires Sound(t) && id in t.objects && t.objects[id].kind == Upstream(Live(from))
    ensures Sound(Tell(t, id, from, opcode, args))
  {
    hide SoundHistory;
    TellSound(t, Told(id, from, opcode, args));
  }

  // Ids translate back.

  /** What a request names on the compositor's connection is what an event
      naming it gives back, and the other way round. */
  lemma NamesTranslateBack(t: Table, id: u32, s: nat)
    requires Sound(t)
    ensures BridgeId(t, s) == Some(id) <==> id in t.objects && t.objects[id].kind == Upstream(Live(s))
  {
    hide SoundHistory;
  }

  /** `up` is what an argument of a request becomes: an event would give it
      back as it was, unless it makes an object. */
  ghost predicate TranslatesBack(t: Table, arg: Arg, up: UpArg) {
    if arg.NewId? then up == ToNew else BackArg(t, up) == (arg, false)
  }

  /** A request that is not dropped names the same objects on both
      connections: each argument, as an event would give it back, is the
      bridge's own. */
  lemma {:induction false} ArgumentsTranslateBack(
    t: Table, out: Outgoing, args: seq<Arg>, child: Option<Iface>, k: nat)
    requires Sound(t) && (out.child.Some? ==> FreeId(t, out.child.value) && child.Some?)
    requires Translate(t, out, args, child).Ok? && !Translate(t, out, args, child).value.dead
    ensures !out.dead
    ensures var r := Translate(t, out, args, child).value;
            && |r.args| == |out.args| + |args| && r.args[..|out.args|] == out.args
            && (k < |args| ==> TranslatesBack(t, args[k], r.args[|out.args| + k]))
    decreases |args|
  {
    hide Sound, BackArg, FreeId;
    if args != [] {
      var next := TranslateArg(t, out, args[0], child).value;
      ArgumentsTranslateBack(t, next, args[1..], child, if k > 0 then k - 1 else 0);
      OneTranslatesBack(t, out, args[0], child);
      var r := Translate(t, out, args, child).value;
      assert r.args[..|out.args|] == r.args[..|next.args|][..|out.args|];
      assert r.args[|out.args|] == r.args[..|next.args|][|out.args|];
    }
  }

  lemma OneTranslatesBack(t: Table, out: Outgoing, arg: Arg, child: Option<Iface>)
    requires Sound(t) && TranslateArg(t, out, arg, child).Ok?
    ensures var next := TranslateArg(t, out, arg, child).value;
            && |next.args| == |out.args| + 1 && next.args[..|out.args|] == out.args
            && (out.dead ==> next.dead)
            && (!next.dead ==> TranslatesBack(t, arg, next.args[|out.args|]))
  {
    hide SoundHistory;
  }

  // Runs.

  datatype Step =
    | Asked(m: Message, rd: RequestDesc, env: Env, managerName: seq<byte>)
    | Happened(from: nat, opcode: u16, upArgs: seq<UpArg>, ed: Option<EventDesc>, pass: bool -> bool)
    /** The proxy makes or destroys an object of its own for a frame. */
    | FrameMade
    | FrameGone(s: nat)

  ghost predicate Possible(t: Table, step: Step) {
    match step
    case Asked(m, d, _, _) => m.sender in t.objects && (t.objects[m.sender].kind.Display? ==> d.child.Some?)
    case Happened(from, _, args, d, _) => WellFormedEvent(t, from, args, d)
    case FrameMade => true
    case FrameGone(s) => s < |t.data| && t.data[s] == Frame
  }

  ghost function After(t: Table, step: Step): Result<Table, BadRequest>
    requires Possible(t, step)
  {
    match step
    case Asked(m, d, env, name) => Request(t, m, d, env, name)
    case Happened(from, opcode, args, d, pass) => Ok(Event(t, from, opcode, args, d, pass))
    case FrameMade => Ok(Create(t, Frame))
    case FrameGone(s) => Ok(t.(alive := t.alive - {s}))
  }

  /** `run` is the tables of some run of the proxy, from its start. */
  ghost predicate IsRun(run: seq<Table>, steps: seq<Step>, decorate: bool) {
    && |run| == |steps| + 1 && run[0] == Start(decorate)
    && forall i | 0 <= i < |steps| :: Possible(run[i], steps[i]) && After(run[i], steps[i]) == Ok(run[i + 1])
  }

  /** In every reachable state the table maps ids to distinct live objects
      of the compositor's, and is what the history makes it. */
  lemma {:induction false} RunsAreSound(run: seq<Table>, steps: seq<Step>, decorate: bool, k: nat)
    requires IsRun(run, steps, decorate) && k < |run|
    ensures Sound(run[k])
  {
    hide Sound, Request, Event, WellFormedEvent;
    if k == 0 {
      StartSound(decorate);
    } else {
      RunsAreSound(run, steps, decorate, k - 1);
      StepSound(run[k - 1], steps[k - 1]);
    }
  }

  lemma SoundIsFaithful(t: Table)
    requires Sound(t)
    ensures Faithful(t.history)
  {
  }

  /** In every run, an event reaches only the bridge's object made with its
      sender, while the id is that object's, even after the id was freed and
      used again. */
  lemma RunsReachTheirObjects(run: seq<Table>, steps: seq<Step>, decorate: bool, k: nat, told: nat, born: nat)
    requires IsRun(run, steps, decorate) && k < |run|
    requires told < |run[k].history| && born < |run[k].history|
    requires var h := run[k].history; h[told].Told? && h[born].Born? && h[born].up == Some(h[told].from)
    ensures var h := run[k].history;
            && born < told && h[born].id == h[told].id
            && forall m | born < m < told :: !Ends(h[m], h[told].id) && !(h[m].Born? && h[m].id == h[told].id)
  {
    hide Possible, After, Sound;
    RunsAreSound(run, steps, decorate, k);
    SoundIsFaithful(run[k]);
    EventsReachTheirObject(run[k].history, told, born);
  }

  /** In every run, the bridge has been told once of each id it made that is
      no longer in the table, and never of one the proxy made. */
  lemma RunsBalance(run: seq<Table>, steps: seq<Step>, decorate: bool, k: nat, id: u32)
    requires IsRun(run, steps, decorate) && k < |run| && id != DISPLAY
    ensures var t := run[k];
            && (id < SERVER_ID_START ==> Births(t.history, id) == Deletes(t.history, id) + if id in t.objects then 1 else 0)
            && (id >= SERVER_ID_START ==> Deletes(t.history, id) == 0 && Births(t.history, id) <= 1)
  {
    hide Possible, After, SoundObjects;
    RunsAreSound(run, steps, decorate, k);
    assert Agrees(run[k], id);
    DeletesBalance(run[k].history, id);
  }

  lemma StepSound(t: Table, step: Step)
    requires Sound(t) && Possible(t, step)
    ensures After(t, step).Ok? ==> Sound(After(t, step).value)
  {
    hide Sound, Request, Event, WellFormedEvent;
    match step {
      case Asked(m, d, env, name) => RequestSound(t, m, d, env, name);
      case Happened(from, opcode, args, d, pass) => EventSound(t, from, opcode, args, d, pass);
      case FrameMade => CreateSound(t, Frame);
      case FrameGone(s) => FrameGoneSound(t, s);
    }
  }

  lemma FrameGoneSound(t: Table, s: nat)
    requires Sound(t) && s < |t.data| && t.data[s] == Frame
    ensures Sound(t.(alive := t.alive - {s}))
  {
    hide SoundHistory;
    DestroySound(t, s);
  }
}
