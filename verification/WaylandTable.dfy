/** The proxy between the bridge and the compositor, as it changes in
    place. */
module WaylandTable {
  import opened Wrappers
  import opened Bytes
  import opened WaylandWire
  import opened WaylandHistory
  import opened WaylandObjects
  import opened WaylandProxy

  class Proxy {
    const decorate: bool
    /** The name of the decoration manager's interface. */
    const managerName: seq<byte>
    var objects: map<u32, Obj>
    var nextServerId: u32
    var failed: bool
    /** The compositor's connection. */
    var data: seq<Data>
    var alive: set<nat>
    var requested: seq<UpRequest>
    /** What the bridge was sent. */
    var sent: seq<Message>
    ghost var history: History

    ghost function Now(): Table
      reads this
    {
      Table(decorate, objects, nextServerId, failed, data, alive, requested, history)
    }

    ghost predicate Valid()
      reads this
    {
      Sound(Now()) && sent == Messages(history)
    }

    constructor (decorate: bool, managerName: seq<byte>)
      ensures Valid() && Now() == Start(decorate) && this.managerName == managerName
    {
      this.decorate, this.managerName := decorate, managerName;
      objects := map[DISPLAY := Obj(WlDisplay, 1, Display, false)];
      nextServerId, failed := SERVER_ID_START, false;
      data, alive, requested, sent, history := [], {}, [], [], [];
      new;
      StartSound(decorate);
    }

    method CheckNewId(id: u32) returns (r: Result<(), BadRequest>)
      ensures r == if FreeId(Now(), id) then Ok(()) else Err(IdInUse)
    {
      if id == 0 || id >= SERVER_ID_START || id in objects {
        return Err(IdInUse);
      }
      return Ok(());
    }

    method Send(message: Message, ghost e: Happening)
      requires sent == Messages(history)
      requires Messages([e]) == [message]
      modifies this`sent, this`history
      ensures sent == old(sent) + [message] && sent == Messages(history)
      ensures Now() == old(Now()).(history := old(history) + [e])
    {
      MessagesAppend(history, e);
      sent := sent + [message];
      history := history + [e];
    }

    /** Takes `id` out, and tells the bridge when it made it. */
    method RemoveObject(id: u32)
      requires sent == Messages(history)
      modifies this`objects, this`sent, this`history
      ensures sent == Messages(history) && Now() == Remove(old(Now()), id)
    {
      hide Messages;
      OneDelete(id);
      objects := objects - {id};
      if id < SERVER_ID_START {
        Send(Message(DISPLAY, DELETE_ID, [Uint(id)]), Deleted(id));
      } else {
        MessagesAppend(history, Freed(id));
        assert sent + [] == sent;
        history := history + [Freed(id)];
      }
    }

    method InsertObject(id: u32, obj: Obj)
      requires sent == Messages(history)
      modifies this`objects, this`history
      ensures sent == Messages(history) && Now() == Insert(old(Now()), id, obj)
    {
      hide Messages;
      MessagesAppend(history, Born(id, FromUp(obj.kind)));
      OneBirth(id, FromUp(obj.kind));
      assert sent + [] == sent;
      objects := objects[id := obj];
      history := history + [Born(id, FromUp(obj.kind))];
    }

    /** The compositor's connection takes a request or event that makes an
        object. */
    method CreateUp(d: Data) returns (up: Up)
      modifies this`data, this`alive
      ensures Now() == Create(old(Now()), d) && up == Live(|old(data)|)
    {
      up := Live(|data|);
      alive := alive + {|data|};
      data := data + [d];
    }

    method Request(m: Message, d: RequestDesc, env: Env) returns (r: Result<(), BadRequest>)
      requires Valid() && m.sender in objects && (objects[m.sender].kind.Display? ==> d.child.Some?)
      modifies this
      ensures Valid()
      ensures match WaylandProxy.Request(old(Now()), m, d, env, managerName)
              case Ok(t) => r.Ok? && Now() == t
              case Err(e) => r == Err(e) && Now() == old(Now())
    {
      hide Sound, Messages, WaylandProxy.DisplayRequest, WaylandProxy.Bind, WaylandProxy.ForwardRequest;
      hide WaylandProxy.ManagerRequest, WaylandProxy.DecorationRequest;
      RequestSound(Now(), m, d, env, managerName);
      var obj := objects[m.sender];
      if d.since > obj.version {
        return Err(TooNew);
      }
      match obj.kind {
        case Display => r := DisplayRequest(m, d, env);
        case DecorationManager => r := ManagerRequest(m);
        case Decoration(_) => r := DecorationRequest(m, env);
        case Upstream(up) =>
          if obj.iface == WlRegistry {
            r := Bind(up, m, env);
          } else {
            r := ForwardRequest(up, m, d, env);
          }
      }
    }

    method DisplayRequest(m: Message, d: RequestDesc, env: Env) returns (r: Result<(), BadRequest>)
      requires sent == Messages(history) && d.child.Some?
      modifies this
      ensures sent == Messages(history)
      ensures match WaylandProxy.DisplayRequest(old(Now()), m, d, env, managerName)
              case Ok(t) => r.Ok? && Now() == t
              case Err(e) => r == Err(e) && Now() == old(Now())
    {
      hide Messages;
      if |m.args| != 1 || !m.args[0].NewId? {
        return Err(Malformed);
      }
      var child := m.args[0].n;
      var _ :- CheckNewId(child);
      if !env.accepted {
        return Err(Gone);
      }
      requested := requested + [UpRequest(None, m.opcode, [ToNew])];
      var up := CreateUp(Forward(child));
      InsertObject(child, Obj(d.child.value, 1, Upstream(up), false));
      if d.child.value == WlRegistry && decorate {
        var args := [Uint(DECORATION_GLOBAL), Str(Some(managerName)), Uint(1)];
        OneMessage(Own(child, GLOBAL, args));
        Send(Message(child, GLOBAL, args), Own(child, GLOBAL, args));
      }
      return Ok(());
    }

    method Bind(registry: Up, m: Message, env: Env) returns (r: Result<(), BadRequest>)
      requires sent == Messages(history)
      modifies this
      ensures sent == Messages(history)
      ensures match WaylandProxy.Bind(old(Now()), registry, m, env)
              case Ok(t) => r.Ok? && Now() == t
              case Err(e) => r == Err(e) && Now() == old(Now())
    {
      hide Messages;
      if |m.args| != 4 || !m.args[0].Uint? || !m.args[1].Str? || m.args[1].s.None? || !m.args[2].Uint? || !m.args[3].NewId? {
        return Err(Malformed);
      }
      var name, version, child := m.args[0].u, m.args[2].u, m.args[3].n;
      var _ :- CheckNewId(child);
      if decorate && name == DECORATION_GLOBAL {
        if env.named != DecorationManagerV1 || version != 1 {
          return Err(WrongGlobal);
        }
        InsertObject(child, Obj(DecorationManagerV1, version, DecorationManager, false));
        return Ok(());
      }
      if env.offered.None? {
        return Err(NotOffered);
      }
      var (global, most) := env.offered.value;
      if env.named != global || version == 0 || version > most {
        return Err(WrongGlobal);
      }
      if !env.accepted || registry.Null? {
        return Err(Gone);
      }
      requested := requested +
        [UpRequest(Some(registry.n), m.opcode, [Plain(m.args[0]), Plain(m.args[1]), Plain(m.args[2]), ToNew])];
      var up := CreateUp(Forward(child));
      InsertObject(child, Obj(global, version, Upstream(up), false));
      return Ok(());
    }

    /** Forwards a request, translating object ids. */
    method ForwardRequest(up: Up, m: Message, d: RequestDesc, env: Env) returns (r: Result<(), BadRequest>)
      requires sent == Messages(history) && m.sender in objects
      modifies this
      ensures sent == Messages(history)
      ensures match WaylandProxy.ForwardRequest(old(Now()), up, m, d, env)
              case Ok(t) => r.Ok? && Now() == t
              case Err(e) => r == Err(e) && Now() == old(Now())
    {
      hide Messages, Translate;
      if env.swallowed {
        return Ok(());
      }
      var version := objects[m.sender].version;
      var out :- TranslateArgs(m.args, d);
      var taken := env.accepted && up.Live? && !out.dead;
      if taken {
        requested := requested + [UpRequest(Some(up.n), m.opcode, out.args)];
      }
      if out.child.Some? {
        var to := Null;
        if taken {
          to := CreateUp(Forward(out.child.value));
        }
        InsertObject(out.child.value, Obj(d.child.value, version, Upstream(to), d.makesToplevel));
      }
      if d.destructor {
        RemoveObject(m.sender);
        if taken {
          alive := alive - {up.n};
        }
      }
      return Ok(());
    }

    method TranslateArgs(args: seq<Arg>, d: RequestDesc) returns (r: Result<Outgoing, BadRequest>)
      ensures r == Translate(Now(), Outgoing([], d.objects, false, None), args, d.child)
    {
      var out := Outgoing([], d.objects, false, None);
      assert args[0..] == args;
      for i := 0 to |args|
        invariant out.child.Some? ==> FreeId(Now(), out.child.value) && d.child.Some?
        invariant Translate(Now(), out, args[i..], d.child)
               == Translate(Now(), Outgoing([], d.objects, false, None), args, d.child)
      {
        assert args[i..][0] == args[i] && args[i..][1..] == args[i + 1..];
        match args[i] {
          case Object(id) =>
            var expected := Expected(out.passed);
            out := out.(passed := Rest(out.passed));
            if id == 0 {
              if !expected.nullable {
                return Err(NullObject);
              }
              out := out.(args := out.args + [ToObject(Null)]);
            } else {
              if id !in objects {
                return Err(UnknownObject);
              }
              var obj := objects[id];
              if !obj.kind.Upstream? {
                return Err(OwnObject);
              }
              if expected.iface.Some? && expected.iface.value != obj.iface {
                return Err(WrongInterface);
              }
              out := out.(args := out.args + [ToObject(obj.kind.up)], dead := out.dead || obj.kind.up.Null?);
            }
          case NewId(id) =>
            var _ :- CheckNewId(id);
            if d.child.None? {
              return Err(NoFixedInterface);
            }
            out := out.(args := out.args + [ToNew], child := Some(id));
          case _ =>
            out := out.(args := out.args + [Plain(args[i])]);
        }
      }
      return Ok(out);
    }

    method ManagerRequest(m: Message) returns (r: Result<(), BadRequest>)
      requires sent == Messages(history)
      modifies this
      ensures sent == Messages(history)
      ensures match WaylandProxy.ManagerRequest(old(Now()), m)
              case Ok(t) => r.Ok? && Now() == t
              case Err(e) => r == Err(e) && Now() == old(Now())
    {
      hide Messages;
      if m.opcode == 0 && m.args == [] {
        RemoveObject(m.sender);
      } else if m.opcode == 1 && |m.args| == 2 && m.args[0].NewId? && m.args[1].Object? {
        var id, toplevel := m.args[0].n, m.args[1].o;
        var _ :- CheckNewId(id);
        if toplevel !in objects || !objects[toplevel].toplevel {
          return Err(NotToplevel);
        }
        InsertObject(id, Obj(ToplevelDecorationV1, 1, Decoration(toplevel), false));
      } else {
        return Err(Malformed);
      }
      return Ok(());
    }

    method DecorationRequest(m: Message, env: Env) returns (r: Result<(), BadRequest>)
      requires sent == Messages(history)
      modifies this
      ensures sent == Messages(history)
      ensures match WaylandProxy.DecorationRequest(old(Now()), m, env)
              case Ok(t) => r.Ok? && Now() == t
              case Err(e) => r == Err(e) && Now() == old(Now())
    {
      hide Messages;
      var mode := SERVER_SIDE;
      if m.opcode == 0 && m.args == [] {
        RemoveObject(m.sender);
        return Ok(());
      } else if m.opcode == 1 && (m.args == [Uint(CLIENT_SIDE)] || m.args == [Uint(SERVER_SIDE)]) {
        mode := m.args[0].u;
      } else if !(m.opcode == 2 && m.args == []) {
        return Err(Malformed);
      }
      if mode == SERVER_SIDE && !env.framed {
        mode := CLIENT_SIDE;
      }
      OneMessage(Own(m.sender, CONFIGURE, [Uint(mode)]));
      Send(Message(m.sender, CONFIGURE, [Uint(mode)]), Own(m.sender, CONFIGURE, [Uint(mode)]));
      return Ok(());
    }

    /** Forwards an event to the bridge, when its sender is the bridge's. */
    method Event(from: nat, opcode: u16, args: seq<UpArg>, d: Option<EventDesc>, pass: bool -> bool)
      requires Valid() && WellFormedEvent(Now(), from, args, d)
      modifies this
      ensures Valid() && Now() == WaylandProxy.Event(old(Now()), from, opcode, args, d, pass)
    {
      hide Sound, Messages, WellFormedEvent, SoundObjects, SoundHistory, Attach;
      ghost var t := Now();
      EventSound(t, from, opcode, args, d, pass);
      assert from < |data| && data[from].Forward? by { SendsForward(t, from, args, d); }
      var id := data[from].bridge;
      if id !in objects || objects[id].kind != Upstream(Live(from)) || d.None? {
        if exists i | 0 <= i < |args| :: args[i].ToNew? {
          var _ := CreateUp(Discard);
        }
        if d.Some? && d.value.destructor {
          alive := alive - {from};
        }
        return;
      }
      var version := objects[id].version;
      var done, out, hidden := BackArgs(args, d.value, version, from);
      if !done {
        return;
      }
      if pass(hidden) {
        OneMessage(Told(id, from, opcode, out));
        Send(Message(id, opcode, out), Told(id, from, opcode, out));
      }
      if d.value.destructor {
        RemoveObject(id);
        alive := alive - {from};
      }
    }

    /** Translates an event's arguments and makes the object it creates,
        unless that cannot be. */
    method BackArgs(args: seq<UpArg>, d: EventDesc, version: nat, ghost from: nat)
      returns (done: bool, out: seq<Arg>, hidden: bool)
      requires Valid() && WellFormedEvent(Now(), from, args, Some(d))
      modifies this`objects, this`nextServerId, this`failed, this`data, this`alive, this`history
      ensures sent == Messages(history)
      ensures done == !(HasNew(args) && (d.child.None? || old(nextServerId) == MAX_ID))
      ensures done ==> out == Back(old(Now()), args) && hidden == Hides(old(Now()), args)
      ensures done ==> Now() == if HasNew(args) then NewChild(old(Now()), d.child.value, version) else old(Now())
      ensures !done ==> Now() == if d.child.None? then Create(old(Now()), Discard)
                                 else Create(old(Now()), Discard).(failed := true)
    {
      hide Sound, Messages, Attach, BackArg, BridgeId;
      ghost var t := Now();
      out, hidden := [], false;
      for i := 0 to |args|
        invariant sent == Messages(history)
        invariant HasNew(args[..i]) ==> d.child.Some? && t.nextServerId < MAX_ID
        invariant Now() == if HasNew(args[..i]) then NewChild(t, d.child.value, version) else t
        invariant out == Back(t, args[..i]) && hidden == Hides(t, args[..i])
      {
        Further(t, args, i);
        match args[i] {
          case ToNew =>
            assert !HasNew(args[..i]);
            if d.child.None? {
              var _ := CreateUp(Discard);
              return false, out, hidden;
            }
            var b := nextServerId;
            if b == MAX_ID {
              failed := true;
              var _ := CreateUp(Discard);
              return false, out, hidden;
            }
            nextServerId := b + 1;
            var up := CreateUp(Forward(b));
            InsertObject(b, Obj(d.child.value, version, Upstream(up), false));
            BackOne(t, args[i]);
            assert Now() == NewChild(t, d.child.value, version) by { Made(t, d.child.value, version); }
            out := out + [NewId(b)];
          case ToObject(Null) =>
            BackOne(t, args[i]);
            out := out + [Object(0)];
          case ToObject(Live(s)) =>
            var b := Named(s);
            BackOne(t, args[i]);
            if HasNew(args[..i]) {
              SameName(t, d.child.value, version, s);
            }
            out := out + [Object(b.GetOr(0))];
            hidden := hidden || b.None?;
          case Plain(a) =>
            BackOne(t, args[i]);
            out := out + [a];
        }
      }
      assert args[..|args|] == args;
      return true, out, hidden;
    }

    /** The bridge's id for an object of the compositor's. */
    method Named(s: nat) returns (b: Option<u32>)
      ensures b == BridgeId(Now(), s)
    {
      if s !in alive || s >= |data| {
        return None;
      }
      match data[s] {
        case Forward(bridge) =>
          if bridge in objects && objects[bridge].kind == Upstream(Live(s)) {
            return Some(bridge);
          }
          return None;
        case _ => return None;
      }
    }
  }

  lemma MessagesAppend(h: History, e: Happening)
    ensures Messages(h + [e]) == Messages(h) + Messages([e])
  {
    assert (h + [e])[..|h|] == h && [e][..0] == [];
  }

  lemma OneMessage(e: Happening)
    ensures e.Told? || e.Own? ==> Messages([e]) == [Message(e.id, e.opcode, e.args)]
  {
    assert [e][..0] == [];
  }

  lemma OneDelete(id: u32)
    ensures Messages([Deleted(id)]) == [Message(DISPLAY, DELETE_ID, [Uint(id)])]
    ensures Messages([Freed(id)]) == []
  {
    assert [Deleted(id)][..0] == [] && [Freed(id)][..0] == [];
  }

  lemma OneBirth(id: u32, up: Option<nat>)
    ensures Messages([Born(id, up)]) == []
  {
    assert [Born(id, up)][..0] == [];
  }

  lemma SendsForward(t: Table, from: nat, args: seq<UpArg>, d: Option<EventDesc>)
    requires WellFormedEvent(t, from, args, d)
    ensures from < |t.data| && t.data[from].Forward?
  {
  }

  lemma Made(t: Table, iface: Iface, version: nat)
    requires t.nextServerId < MAX_ID
    ensures NewChild(t, iface, version)
         == Insert(Create(t.(nextServerId := t.nextServerId + 1), Forward(t.nextServerId)), t.nextServerId,
                   Obj(iface, version, Upstream(Live(|t.data|)), false))
  {
  }

  /** One more argument of an event. */
  lemma Further(t: Table, args: seq<UpArg>, i: nat)
    requires i < |args|
    ensures HasNew(args[..i + 1]) == (HasNew(args[..i]) || args[i].ToNew?)
    ensures Back(t, args[..i + 1]) == Back(t, args[..i]) + [BackArg(t, args[i]).0]
    ensures Hides(t, args[..i + 1]) == (Hides(t, args[..i]) || BackArg(t, args[i]).1)
  {
    hide BackArg;
    var before, after := args[..i], args[..i + 1];
    assert after[i] == args[i] && forall k | 0 <= k < i :: before[k] == after[k];
    assert BackArg(t, after[i]).1 ==> Hides(t, after);
  }

  lemma BackOne(t: Table, arg: UpArg)
    ensures arg.ToNew? ==> BackArg(t, arg) == (NewId(t.nextServerId), false)
    ensures arg == ToObject(Null) ==> BackArg(t, arg) == (Object(0), false)
    ensures arg.ToObject? && arg.up.Live? ==>
              BackArg(t, arg) == (Object(BridgeId(t, arg.up.n).GetOr(0)), BridgeId(t, arg.up.n).None?)
    ensures arg.Plain? ==> BackArg(t, arg) == (arg.arg, false)
  {
  }

  /** A new object changes the name of no other. */
  lemma SameName(t: Table, iface: Iface, version: nat, s: nat)
    requires Sound(t) && t.nextServerId < MAX_ID && s < |t.data|
    ensures BridgeId(NewChild(t, iface, version), s) == BridgeId(t, s)
  {
    hide SoundHistory;
  }
}
