/** What goes from one side of the proxy to the other: which requests reach
    the compositor, which events the bridge, and with what in them. */
module WaylandForwarded {
  import opened Wrappers
  import opened Bytes
  import opened WaylandWire
  import opened WaylandHistory
  import opened WaylandObjects
  import opened WaylandProxy

  // Requests on objects of the compositor's.

  function ObjectsIn(args: seq<Arg>): nat {
    if args == [] then 0 else ObjectsIn(args[..|args| - 1]) + if args[|args| - 1].Object? then 1 else 0
  }

  /** What the protocol expects of the `n`th object argument. */
  function Wanted(d: RequestDesc, n: nat): Passed {
    if n < |d.objects| then d.objects[n] else Passed(None, false)
  }

  /** The proxy accepts the `k`th argument: a null object where one may be, a
      forwarded object of the interface asked for, a free id for a new one. */
  ghost predicate Fine(t: Table, args: seq<Arg>, k: nat, d: RequestDesc)
    requires k < |args|
  {
    match args[k]
    case Object(id) =>
      var e := Wanted(d, ObjectsIn(args[..k]));
      if id == 0 then e.nullable
      else
        id in t.objects && t.objects[id].kind.Upstream? && (e.iface.Some? ==> e.iface.value == t.objects[id].iface)
    case NewId(id) => 0 < id < 0xFF00_0000 && id !in t.objects && d.child.Some?
    case _ => true
  }

  /** `up` is what the compositor is told for `arg`: the object the bridge's
      stands for, or the argument as it is. */
  ghost predicate Carries(t: Table, arg: Arg, up: UpArg) {
    match arg
    case Object(id) =>
      if id == 0 then up == ToObject(Null)
      else id in t.objects && t.objects[id].kind.Upstream? && up == ToObject(t.objects[id].kind.up)
    case NewId(_) => up == ToNew
    case _ => up == Plain(arg)
  }

  /** An argument names an object that the compositor has destroyed. */
  ghost predicate Gone(t: Table, arg: Arg) {
    arg.Object? && arg.o in t.objects && arg.o != 0 && t.objects[arg.o].kind == Upstream(Null)
  }

  function LastNew(args: seq<Arg>): Option<u32> {
    if args == [] then None
    else if args[|args| - 1].NewId? then Some(args[|args| - 1].n)
    else LastNew(args[..|args| - 1])
  }

  /** `out` is what the first `i` arguments become. */
  ghost predicate Upto(t: Table, args: seq<Arg>, i: nat, d: RequestDesc, out: Outgoing)
    requires i <= |args|
  {
    && |out.args| == i && (forall k | 0 <= k < i :: Carries(t, args[k], out.args[k]))
    && (out.dead <==> exists k | 0 <= k < i :: Gone(t, args[k]))
    && out.child == LastNew(args[..i])
    && (out.child.Some? ==> FreeId(t, out.child.value) && d.child.Some?)
    && out.passed == (if ObjectsIn(args[..i]) <= |d.objects| then d.objects[ObjectsIn(args[..i])..] else [])
  }

  lemma OneMore(t: Table, args: seq<Arg>, i: nat, d: RequestDesc, out: Outgoing)
    requires i < |args| && Upto(t, args, i, d, out)
    ensures TranslateArg(t, out, args[i], d.child).Ok? <==> Fine(t, args, i, d)
    ensures Fine(t, args, i, d) ==> Upto(t, args, i + 1, d, TranslateArg(t, out, args[i], d.child).value)
  {
    hide Fine, TranslateArg, Upto;
    AcceptsExactly(t, args, i, d, out);
    WellChild(t, args, i, d, out);
    if Fine(t, args, i, d) {
      OneArgument(t, out, args[i], d.child);
      Advances(t, args, i, d, out, TranslateArg(t, out, args[i], d.child).value);
    }
  }

  /** One more argument is carried. */
  lemma Advances(t: Table, args: seq<Arg>, i: nat, d: RequestDesc, out: Outgoing, next: Outgoing)
    requires i < |args| && Upto(t, args, i, d, out) && |next.args| == i + 1 && next.args[..i] == out.args
    requires Carries(t, args[i], next.args[i]) && (next.dead <==> out.dead || Gone(t, args[i]))
    requires next.child == (if args[i].NewId? then Some(args[i].n) else out.child)
    requires args[i].NewId? ==> FreeId(t, args[i].n) && d.child.Some?
    requires next.passed == if args[i].Object? then Rest(out.passed) else out.passed
    ensures Upto(t, args, i + 1, d, next)
  {
    hide Carries, Gone, ObjectsIn, LastNew, FreeId;
    CountMore(args, i);
    RestOf(d.objects, ObjectsIn(args[..i]));
    forall k | 0 <= k < i + 1
      ensures Carries(t, args[k], next.args[k])
    {
      assert k < i ==> next.args[k] == next.args[..i][k];
    }
  }

  lemma RestOf(passed: seq<Passed>, n: nat)
    ensures Rest(if n <= |passed| then passed[n..] else []) == if n + 1 <= |passed| then passed[n + 1..] else []
  {
  }

  lemma AcceptsExactly(t: Table, args: seq<Arg>, i: nat, d: RequestDesc, out: Outgoing)
    requires i < |args| && Upto(t, args, i, d, out)
    ensures TranslateArg(t, out, args[i], d.child).Ok? <==> Fine(t, args, i, d)
  {
    hide Carries, Gone, LastNew;
  }

  lemma OneArgument(t: Table, out: Outgoing, arg: Arg, child: Option<Iface>)
    requires TranslateArg(t, out, arg, child).Ok?
    ensures var next := TranslateArg(t, out, arg, child).value;
            && |next.args| == |out.args| + 1 && next.args[..|out.args|] == out.args && Carries(t, arg, next.args[|out.args|])
            && (next.dead <==> out.dead || Gone(t, arg))
            && next.child == (if arg.NewId? then Some(arg.n) else out.child)
            && (arg.NewId? ==> FreeId(t, arg.n) && child.Some?)
            && next.passed == if arg.Object? then Rest(out.passed) else out.passed
  {
  }

  lemma CountMore(args: seq<Arg>, i: nat)
    requires i < |args|
    ensures ObjectsIn(args[..i + 1]) == ObjectsIn(args[..i]) + if args[i].Object? then 1 else 0
    ensures LastNew(args[..i + 1]) == if args[i].NewId? then Some(args[i].n) else LastNew(args[..i])
  {
    assert args[..i + 1][..i] == args[..i];
  }

  lemma {:induction false} TranslateFrom(t: Table, args: seq<Arg>, i: nat, d: RequestDesc, out: Outgoing)
    requires i <= |args| && Upto(t, args, i, d, out)
    ensures var r := Translate(t, out, args[i..], d.child);
            && (r.Ok? <==> forall k | i <= k < |args| :: Fine(t, args, k, d))
            && (r.Ok? ==> Upto(t, args, |args|, d, r.value))
    decreases |args| - i
  {
    hide Upto, Fine, TranslateArg;
    WellChild(t, args, i, d, out);
    if i < |args| {
      assert args[i..][0] == args[i] && args[i..][1..] == args[i + 1..];
      OneMore(t, args, i, d, out);
      if Fine(t, args, i, d) {
        TranslateFrom(t, args, i + 1, d, TranslateArg(t, out, args[i], d.child).value);
      }
    }
  }

  lemma WellChild(t: Table, args: seq<Arg>, i: nat, d: RequestDesc, out: Outgoing)
    requires i <= |args| && Upto(t, args, i, d, out)
    ensures |out.args| == i && (out.child.Some? ==> FreeId(t, out.child.value) && d.child.Some?)
  {
  }

  lemma TranslatesExactly(t: Table, args: seq<Arg>, d: RequestDesc)
    ensures var r := Translate(t, Outgoing([], d.objects, false, None), args, d.child);
            && (r.Ok? <==> forall k | 0 <= k < |args| :: Fine(t, args, k, d))
            && (r.Ok? ==> Upto(t, args, |args|, d, r.value))
  {
    hide Translate, Fine;
    assert args[0..] == args && args[..0] == [];
    TranslateFrom(t, args, 0, d, Outgoing([], d.objects, false, None));
  }

  /** The request goes on to the compositor: no frame keeps it, the connection
      takes it, and neither the object it is on nor one it names is gone. */
  ghost predicate GoesOn(t: Table, m: Message, env: Env) {
    && m.sender in t.objects && t.objects[m.sender].kind.Upstream? && t.objects[m.sender].kind.up.Live?
    && !env.swallowed && env.accepted && (forall k | 0 <= k < |m.args| :: !Gone(t, m.args[k]))
  }

  /** As it goes on: on the sender's own object, with its opcode and its
      arguments. */
  ghost predicate SameRequest(t: Table, m: Message, q: UpRequest) {
    && m.sender in t.objects && t.objects[m.sender].kind.Upstream?
    && q.sender.Some? && t.objects[m.sender].kind.up == Live(q.sender.value)
    && q.opcode == m.opcode && |q.args| == |m.args|
    && forall k | 0 <= k < |m.args| :: Carries(t, m.args[k], q.args[k])
  }

  /** What becomes of the bridge's objects and the messages it is sent. */
  ghost predicate ObjectsAfter(t: Table, m: Message, d: RequestDesc, went: bool, u: Table) {
    && (forall id: u32 :: id in u.objects <==>
          (id in t.objects || Some(id) == LastNew(m.args)) && !(d.destructor && id == m.sender))
    && (forall id | id in u.objects && id in t.objects :: u.objects[id] == t.objects[id])
    && (forall id | id in u.objects && id !in t.objects ::
          d.child.Some? && m.sender in t.objects
          && u.objects[id] ==
             Obj(d.child.value, t.objects[m.sender].version, Upstream(if went then Live(|t.data|) else Null), d.makesToplevel))
    && u.data == t.data + (if went && LastNew(m.args).Some? then [Forward(LastNew(m.args).value)] else [])
    && (forall s: nat :: s in u.alive <==>
          (s in t.alive || (went && LastNew(m.args).Some? && s == |t.data|))
          && !(went && d.destructor && m.sender in t.objects && t.objects[m.sender].kind == Upstream(Live(s))))
    && u.nextServerId == t.nextServerId && u.failed == t.failed && u.decorate == t.decorate
    && Messages(u.history) ==
       Messages(t.history) + (if d.destructor && m.sender < 0xFF00_0000 then [Message(1, 1, [Uint(m.sender)])] else [])
  }

  lemma OneMoreMessage(h: History, e: Happening)
    ensures e.Born? || e.Freed? ==> Messages(h + [e]) == Messages(h)
    ensures e.Deleted? ==> Messages(h + [e]) == Messages(h) + [Message(1, 1, [Uint(e.id)])]
    ensures e.Told? || e.Own? ==> Messages(h + [e]) == Messages(h) + [Message(e.id, e.opcode, e.args)]
  {
    assert (h + [e])[..|h|] == h;
  }

  /** A request on a compositor's object, of those forwarded, is refused exactly
      when an argument is not fine; else it goes on exactly when it should, as
      it is, and makes and destroys what the protocol says. */
  lemma ForwardsExactly(t: Table, up: Up, m: Message, d: RequestDesc, env: Env)
    requires Sound(t) && m.sender in t.objects && t.objects[m.sender].kind == Upstream(up)
    ensures var r := ForwardRequest(t, up, m, d, env);
            && (r.Ok? <==> env.swallowed || forall k | 0 <= k < |m.args| :: Fine(t, m.args, k, d))
            && (r.Ok? && env.swallowed ==> r.value == t)
            && (r.Ok? && !env.swallowed ==>
                  && (GoesOn(t, m, env) ==>
                        |r.value.requested| == |t.requested| + 1 && r.value.requested[..|t.requested|] == t.requested
                        && SameRequest(t, m, r.value.requested[|t.requested|]))
                  && (!GoesOn(t, m, env) ==> r.value.requested == t.requested)
                  && ObjectsAfter(t, m, d, GoesOn(t, m, env), r.value))
  {
    hide Sound, Translate, Fine, ObjectsAfter, Destroy, Attach, Insert;
    TranslatesExactly(t, m.args, d);
    var r := Translate(t, Outgoing([], d.objects, false, None), m.args, d.child);
    if !env.swallowed && r.Ok? {
      var sent := env.accepted && up.Live? && !r.value.dead;
      assert m.args[..|m.args|] == m.args;
      assert sent == GoesOn(t, m, env);
      var asked := if sent then Ask(t, UpRequest(Some(up.n), m.opcode, r.value.args)) else t;
      MakesAndEnds(t, asked, up, m, d, r.value.child, sent);
    }
  }

  /** The table once the object a request makes is there. */
  function Making(asked: Table, child: Option<u32>, d: RequestDesc, version: nat, sent: bool): Table
    requires child.Some? ==> d.child.Some?
  {
    if child.None? then asked
    else if sent then Attach(asked, child.value, d.child.value, version, d.makesToplevel)
    else Insert(asked, child.value, Obj(d.child.value, version, Upstream(Null), d.makesToplevel))
  }

  lemma MakesOne(t: Table, child: Option<u32>, d: RequestDesc, version: nat, sent: bool)
    requires child.Some? ==> d.child.Some?
    ensures var u := Making(t, child, d, version, sent);
            && u == t.(objects := u.objects, data := u.data, alive := u.alive, history := u.history)
            && u.objects == (if child.None? then t.objects
                             else t.objects[child.value := Obj(d.child.value, version, Upstream(if sent then Live(|t.data|) else Null),
                                                               d.makesToplevel)])
            && u.data == t.data + (if sent && child.Some? then [Forward(child.value)] else [])
            && u.alive == t.alive + (if sent && child.Some? then {|t.data|} else {})
            && Messages(u.history) == Messages(t.history)
  {
    hide Messages;
    assert t.data + [] == t.data;
    if child.Some? {
      OneMoreMessage(t.history, Born(child.value, if sent then Some(|t.data|) else None));
    }
  }

  lemma EndsOne(t: Table, id: u32, up: Option<nat>)
    ensures var u := Destroy(t, id, up);
            && u == t.(objects := t.objects - {id}, alive := u.alive, history := u.history)
            && u.alive == t.alive - (if up.Some? then {up.value} else {})
            && Messages(u.history) == Messages(t.history) + if id < 0xFF00_0000 then [Message(1, 1, [Uint(id)])] else []
  {
    hide Messages;
    OneMoreMessage(t.history, if id < SERVER_ID_START then Deleted(id) else Freed(id));
    assert Messages(t.history) + [] == Messages(t.history);
  }

  lemma MakesAndEnds(t: Table, asked: Table, up: Up, m: Message, d: RequestDesc, child: Option<u32>, sent: bool)
    requires m.sender in t.objects && t.objects[m.sender].kind == Upstream(up)
    requires asked == t.(requested := asked.requested) && (sent ==> up.Live?)
    requires child == LastNew(m.args) && (child.Some? ==> FreeId(t, child.value) && d.child.Some?)
    ensures var made := Making(asked, child, d, t.objects[m.sender].version, sent);
            var u := if d.destructor then Destroy(made, m.sender, if sent then Some(up.n) else None) else made;
            u.requested == asked.requested && ObjectsAfter(t, m, d, sent, u)
  {
    hide Messages, Making, Destroy;
    MakesOne(asked, child, d, t.objects[m.sender].version, sent);
    EndsOne(Making(asked, child, d, t.objects[m.sender].version, sent), m.sender, if sent then Some(up.n) else None);
    assert Messages(t.history) + [] == Messages(t.history);
  }

  // Requests on the other objects.

  ghost predicate FreshId(t: Table, id: u32) {
    0 < id < 0xFF00_0000 && id !in t.objects
  }

  /** `u` has one object more, and one request. */
  ghost predicate AsksFor(t: Table, id: u32, obj: Obj, q: UpRequest, u: Table) {
    && u.objects == t.objects[id := obj] && obj.kind == Upstream(Live(|t.data|)) && u.data == t.data + [Forward(id)]
    && u.requested == t.requested + [q]
  }

  /** Requests on the display go on with their opcode, and a registry begins
      with the proxy's own global when it decorates. */
  lemma DisplaysExactly(t: Table, m: Message, d: RequestDesc, env: Env, managerName: seq<byte>)
    requires d.child.Some?
    ensures var r := DisplayRequest(t, m, d, env, managerName);
            && (r.Ok? <==> env.accepted && exists id :: m.args == [NewId(id)] && FreshId(t, id))
            && (r.Ok? ==>
                  var id := m.args[0].n;
                  && AsksFor(t, id, Obj(d.child.value, 1, Upstream(Live(|t.data|)), false), UpRequest(None, m.opcode, [ToNew]), r.value)
                  && Messages(r.value.history) ==
                     Messages(t.history) + if d.child.value == WlRegistry && t.decorate
                                           then [Message(id, 0, [Uint(0xFFFF_FFFF), Str(Some(managerName)), Uint(1)])] else [])
  {
    hide Messages;
    var r := DisplayRequest(t, m, d, env, managerName);
    assert Messages(t.history) + [] == Messages(t.history);
    if r.Ok? {
      var id := m.args[0].n;
      assert m.args == [NewId(id)];
      var born := t.history + [Born(id, Some(|t.data|))];
      OneMoreMessage(t.history, Born(id, Some(|t.data|)));
      OneMoreMessage(born, Own(id, 0, [Uint(0xFFFF_FFFF), Str(Some(managerName)), Uint(1)]));
    }
  }

  /** A bind names a global and a version the bridge was offered, or the
      proxy's own in version 1; only the former goes on, as it is. */
  lemma BindsExactly(t: Table, registry: Up, m: Message, env: Env)
    ensures var r := Bind(t, registry, m, env);
            && (r.Ok? <==>
                  && |m.args| == 4 && m.args[0].Uint? && m.args[1].Str? && m.args[1].s.Some? && m.args[2].Uint?
                  && m.args[3].NewId? && FreshId(t, m.args[3].n)
                  && if t.decorate && m.args[0].u == 0xFFFF_FFFF then env.named == DecorationManagerV1 && m.args[2].u == 1
                     else
                       && env.offered.Some? && env.named == env.offered.value.0
                       && 1 <= m.args[2].u <= env.offered.value.1 && env.accepted && registry.Live?)
            && (r.Ok? ==>
                  var id, version := m.args[3].n, m.args[2].u;
                  && Messages(r.value.history) == Messages(t.history)
                  && if t.decorate && m.args[0].u == 0xFFFF_FFFF
                     then r.value == t.(objects := t.objects[id := Obj(DecorationManagerV1, 1, DecorationManager, false)],
                                        history := r.value.history)
                     else AsksFor(t, id, Obj(env.named, version, Upstream(Live(|t.data|)), false),
                                  UpRequest(Some(registry.n), m.opcode, [Plain(m.args[0]), Plain(m.args[1]), Plain(m.args[2]), ToNew]),
                                  r.value))
  {
    hide Messages;
    var r := Bind(t, registry, m, env);
    if r.Ok? {
      OneMoreMessage(t.history, Born(m.args[3].n, Some(|t.data|)));
      OneMoreMessage(t.history, Born(m.args[3].n, None));
    }
  }

  /** `id` goes, and the bridge is told when it had made it. */
  ghost predicate Ends1(t: Table, id: u32, u: Table) {
    && u == t.(objects := t.objects - {id}, history := u.history)
    && Messages(u.history) == Messages(t.history) + if id < 0xFF00_0000 then [Message(1, 1, [Uint(id)])] else []
  }

  lemma RemovesExactly(t: Table, id: u32)
    ensures Ends1(t, id, Remove(t, id))
  {
    hide Messages;
    OneMoreMessage(t.history, if id < SERVER_ID_START then Deleted(id) else Freed(id));
    assert Messages(t.history) + [] == Messages(t.history);
  }

  /** The proxy's own decoration manager: nothing goes on to the compositor. */
  lemma ManagesExactly(t: Table, m: Message)
    ensures var r := ManagerRequest(t, m);
            var destroys := m.opcode == 0 && m.args == [];
            var makes := exists id, top :: m.opcode == 1 && m.args == [NewId(id), Object(top)] && FreshId(t, id)
                                           && top in t.objects && t.objects[top].toplevel;
            && (r.Ok? <==> destroys || makes)
            && (destroys ==> Ends1(t, m.sender, r.value))
            && (makes ==>
                  var id, top := m.args[0].n, m.args[1].o;
                  && r.value == t.(objects := t.objects[id := Obj(ToplevelDecorationV1, 1, Decoration(top), false)],
                                   history := r.value.history)
                  && Messages(r.value.history) == Messages(t.history))
  {
    hide Messages;
    RemovesExactly(t, m.sender);
    if m.opcode == 1 && |m.args| == 2 && m.args[0].NewId? && m.args[1].Object? {
      assert m.args == [NewId(m.args[0].n), Object(m.args[1].o)];
      OneMoreMessage(t.history, Born(m.args[0].n, None));
    }
  }

  /** A decoration is told the mode in effect: the one asked for, the server's
      when none is, and the client's when no frame can be drawn. */
  lemma DecoratesExactly(t: Table, m: Message, env: Env)
    ensures var r := DecorationRequest(t, m, env);
            var destroys := m.opcode == 0 && m.args == [];
            var sets := m.opcode == 1 && (m.args == [Uint(1)] || m.args == [Uint(2)]);
            var unsets := m.opcode == 2 && m.args == [];
            && (r.Ok? <==> destroys || sets || unsets)
            && (destroys ==> Ends1(t, m.sender, r.value))
            && (sets || unsets ==>
                  && r.value == t.(history := r.value.history)
                  && Messages(r.value.history) ==
                     Messages(t.history)
                     + [Message(m.sender, 0, [Uint(if (sets && m.args[0].u == 1) || !env.framed then 1 else 2)])])
  {
    hide Messages;
    RemovesExactly(t, m.sender);
    OneMoreMessage(t.history, Own(m.sender, 0, [Uint(1)]));
    OneMoreMessage(t.history, Own(m.sender, 0, [Uint(2)]));
  }

  // Events.

  /** `arg` is what the bridge is told for `up`: its own object for one it
      knows, none for another, and the next id of the proxy's for a new one. */
  ghost predicate Tells(t: Table, up: UpArg, arg: Arg) {
    match up
    case ToNew => arg == NewId(t.nextServerId)
    case Plain(a) => arg == a
    case ToObject(Null) => arg == Object(0)
    case ToObject(Live(s)) =>
      if KnownAs(t, s) then arg.Object? && arg.o in t.objects && t.objects[arg.o].kind == Upstream(Live(s))
      else arg == Object(0)
  }

  /** One of the bridge's objects stands for the compositor's `s`. */
  ghost predicate KnownAs(t: Table, s: nat) {
    exists id | id in t.objects :: t.objects[id].kind == Upstream(Live(s))
  }

  lemma TellsExactly(t: Table, up: UpArg)
    requires Sound(t)
    ensures Tells(t, up, BackArg(t, up).0)
    ensures BackArg(t, up).1 <==> up.ToObject? && up.up.Live? && !KnownAs(t, up.up.n)
  {
    hide SoundHistory;
    if up.ToObject? && up.up.Live? {
      var s := up.up.n;
      forall id: u32
        ensures BridgeId(t, s) == Some(id) <==> id in t.objects && t.objects[id].kind == Upstream(Live(s))
      {
        NamesTranslateBack(t, id, s);
      }
    }
  }

  /** The event can go to the bridge: its sender stands behind one of the
      bridge's objects, the protocol has it, and an object it makes has an
      interface and an id. */
  ghost predicate Arrives(t: Table, id: u32, from: nat, args: seq<UpArg>, d: Option<EventDesc>) {
    && id in t.objects && t.objects[id].kind == Upstream(Live(from)) && d.Some?
    && (ToNew in args ==> d.value.child.Some? && t.nextServerId < 0xFFFF_FFFF)
  }

  /** The proxy has no id left for the object an event makes. */
  ghost predicate RunsOut(t: Table, id: u32, from: nat, args: seq<UpArg>, d: Option<EventDesc>) {
    && id in t.objects && t.objects[id].kind == Upstream(Live(from)) && d.Some?
    && ToNew in args && d.value.child.Some? && t.nextServerId == 0xFFFF_FFFF
  }

  ghost predicate NamesHidden(t: Table, args: seq<UpArg>) {
    exists i | 0 <= i < |args| :: args[i].ToObject? && args[i].up.Live? && !KnownAs(t, args[i].up.n)
  }

  /** The bridge is sent the event, on its own object and with its arguments,
      when it passes, and then that the object is gone. */
  ghost predicate SentOn(t: Table, id: u32, opcode: u16, args: seq<UpArg>, passes: bool, ends: bool, u: Table) {
    exists out: seq<Arg> ::
      && |out| == |args| && (forall i | 0 <= i < |args| :: Tells(t, args[i], out[i]))
      && Messages(u.history) ==
         Messages(t.history) + (if passes then [Message(id, opcode, out)] else [])
         + (if ends && id < 0xFF00_0000 then [Message(1, 1, [Uint(id)])] else [])
  }

  /** What an event that arrives leaves. */
  ghost predicate Delivered(t: Table, id: u32, from: nat, opcode: u16, args: seq<UpArg>, d: EventDesc, passes: bool, u: Table)
    requires id in t.objects && (ToNew in args ==> d.child.Some?)
  {
    && SentOn(t, id, opcode, args, passes, d.destructor, u)
    && u.objects ==
       (if ToNew in args
        then t.objects[t.nextServerId := Obj(d.child.value, t.objects[id].version, Upstream(Live(|t.data|)), false)]
        else t.objects) - (if d.destructor then {id} else {})
    && u.nextServerId == t.nextServerId + (if ToNew in args then 1 else 0)
    && u.data == t.data + (if ToNew in args then [Forward(t.nextServerId)] else [])
    && u.failed == t.failed
  }

  /** An event reaches the bridge exactly when it arrives and passes, as it is;
      it makes the object it names, with the sender's version, and destroys its
      sender when the protocol says so. Any other leaves the bridge alone. */
  lemma EventsExactly(t: Table, from: nat, opcode: u16, args: seq<UpArg>, d: Option<EventDesc>, pass: bool -> bool)
    requires Sound(t) && WellFormedEvent(t, from, args, d)
    ensures var u := Event(t, from, opcode, args, d, pass);
            var id := t.data[from].bridge;
            && u.requested == t.requested && u.decorate == t.decorate
            && (forall s: nat :: s in u.alive <==>
                  (s in t.alive || (ToNew in args && s == |t.data|)) && !(s == from && d.Some? && d.value.destructor))
            && (Arrives(t, id, from, args, d) ==> Delivered(t, id, from, opcode, args, d.value, pass(NamesHidden(t, args)), u))
            && (!Arrives(t, id, from, args, d) ==>
                  && u.objects == t.objects && u.history == t.history && u.nextServerId == t.nextServerId
                  && u.data == t.data + (if ToNew in args then [Discard] else [])
                  && (u.failed <==> t.failed || RunsOut(t, id, from, args, d)))
  {
    if Arrives(t, t.data[from].bridge, from, args, d) {
      hide *;
      SendsFrom(t, from, args, d);
      EventArrives(t, from, opcode, args, d, pass);
    } else {
      EventDrops(t, from, opcode, args, d, pass);
    }
  }

  lemma SendsFrom(t: Table, from: nat, args: seq<UpArg>, d: Option<EventDesc>)
    requires WellFormedEvent(t, from, args, d)
    ensures from < |t.data| && t.data[from].Forward?
  {
  }

  lemma EventDrops(t: Table, from: nat, opcode: u16, args: seq<UpArg>, d: Option<EventDesc>, pass: bool -> bool)
    requires WellFormedEvent(t, from, args, d) && !Arrives(t, t.data[from].bridge, from, args, d)
    ensures var u := Event(t, from, opcode, args, d, pass);
            && u == t.(data := u.data, alive := u.alive, failed := u.failed)
            && (forall s: nat :: s in u.alive <==>
                  (s in t.alive || (ToNew in args && s == |t.data|)) && !(s == from && d.Some? && d.value.destructor))
            && u.data == t.data + (if ToNew in args then [Discard] else [])
            && (u.failed <==> t.failed || RunsOut(t, t.data[from].bridge, from, args, d))
  {
    hide HasNew;
    NewIn(args);
    assert t.data + [] == t.data;
  }

  lemma EventArrives(t: Table, from: nat, opcode: u16, args: seq<UpArg>, d: Option<EventDesc>, pass: bool -> bool)
    requires Sound(t) && WellFormedEvent(t, from, args, d) && Arrives(t, t.data[from].bridge, from, args, d)
    ensures var u := Event(t, from, opcode, args, d, pass);
            && u.requested == t.requested && u.decorate == t.decorate
            && (forall s: nat :: s in u.alive <==>
                  (s in t.alive || (ToNew in args && s == |t.data|)) && !(s == from && d.Some? && d.value.destructor))
            && Delivered(t, t.data[from].bridge, from, opcode, args, d.value, pass(NamesHidden(t, args)), u)
  {
    hide Sound, BackArg, Messages, SentOn, KnownAs, NamesHidden, HasNew, Hides, Destroy, Tell, NewChild;
    var id := t.data[from].bridge;
    NewIn(args);
    HiddenIn(t, args);
    assert t.data + [] == t.data;
    var made := if ToNew in args then NewChild(t, d.value.child.value, t.objects[id].version) else t;
    if ToNew in args {
      MakesNew(t, d.value.child.value, t.objects[id].version);
    }
    Outgoes(t, made, id, from, opcode, args, pass(NamesHidden(t, args)), d.value.destructor);
    var told := if pass(NamesHidden(t, args)) then Tell(made, id, from, opcode, Back(t, args)) else made;
    TellsOne(made, id, from, opcode, Back(t, args));
    EndsOne(told, id, Some(from));
  }

  lemma NewIn(args: seq<UpArg>)
    ensures HasNew(args) <==> ToNew in args
  {
  }

  lemma MakesNew(t: Table, iface: Iface, version: nat)
    requires t.nextServerId < MAX_ID
    ensures var u := NewChild(t, iface, version);
            && u == t.(objects := t.objects[t.nextServerId := Obj(iface, version, Upstream(Live(|t.data|)), false)],
                       nextServerId := t.nextServerId + 1, data := t.data + [Forward(t.nextServerId)],
                       alive := t.alive + {|t.data|}, history := u.history)
            && Messages(u.history) == Messages(t.history)
  {
    hide Messages;
    OneMoreMessage(t.history, Born(t.nextServerId, Some(|t.data|)));
  }

  lemma TellsOne(t: Table, id: u32, from: nat, opcode: u16, args: seq<Arg>)
    ensures Tell(t, id, from, opcode, args) == t.(history := Tell(t, id, from, opcode, args).history)
  {
  }

  lemma HiddenIn(t: Table, args: seq<UpArg>)
    requires Sound(t)
    ensures Hides(t, args) <==> NamesHidden(t, args)
  {
    hide Sound, BackArg, KnownAs, Tells;
    forall i | 0 <= i < |args|
      ensures BackArg(t, args[i]).1 <==> args[i].ToObject? && args[i].up.Live? && !KnownAs(t, args[i].up.n)
    {
      TellsExactly(t, args[i]);
    }
  }

  lemma Outgoes(t: Table, made: Table, id: u32, from: nat, opcode: u16, args: seq<UpArg>, passes: bool, ends: bool)
    requires Sound(t) && Messages(made.history) == Messages(t.history)
    ensures var told := if passes then Tell(made, id, from, opcode, Back(t, args)) else made;
            SentOn(t, id, opcode, args, passes, ends, if ends then Destroy(told, id, Some(from)) else told)
  {
    hide Sound, BackArg, Messages, Tells;
    var out := Back(t, args);
    forall i | 0 <= i < |args|
      ensures Tells(t, args[i], out[i])
    {
      TellsExactly(t, args[i]);
    }
    OneMoreMessage(made.history, Told(id, from, opcode, out));
    var told := if passes then Tell(made, id, from, opcode, out) else made;
    OneMoreMessage(told.history, if id < SERVER_ID_START then Deleted(id) else Freed(id));
    var m := if passes then [Message(id, opcode, out)] else [];
    assert Messages(t.history) + [] == Messages(t.history);
    assert Messages(t.history) + m + [] == Messages(t.history) + m;
  }

  /** A request is too new exactly when its object's version does not have it. */
  lemma TooNewExactly(t: Table, m: Message, d: RequestDesc, env: Env, name: seq<byte>)
    requires m.sender in t.objects && (t.objects[m.sender].kind.Display? ==> d.child.Some?)
    ensures Request(t, m, d, env, name) == Err(TooNew) <==> t.objects[m.sender].version < d.since
  {
    hide Translate, FreeId;
    NeverTooNew(t, Outgoing([], d.objects, false, None), m.args, d.child);
  }

  lemma {:induction false} NeverTooNew(t: Table, out: Outgoing, args: seq<Arg>, child: Option<Iface>)
    requires out.child.Some? ==> FreeId(t, out.child.value) && child.Some?
    ensures Translate(t, out, args, child) != Err(TooNew)
    decreases |args|
  {
    if args != [] && TranslateArg(t, out, args[0], child).Ok? {
      NeverTooNew(t, TranslateArg(t, out, args[0], child).value, args[1..], child);
    }
  }

  // Runs.

  /** A request that is accepted goes on to the compositor. */
  ghost predicate GoesUp(t: Table, step: Step) {
    && step.Asked? && step.m.sender in t.objects
    && match t.objects[step.m.sender].kind
       case Display => true
       case Upstream(_) =>
         if t.objects[step.m.sender].iface == WlRegistry
         then !(t.decorate && step.m.args != [] && step.m.args[0] == Uint(0xFFFF_FFFF))
         else GoesOn(t, step.m, step.env)
       case _ => false
  }

  /** `q` is the bridge's request as the compositor gets it. */
  ghost predicate IsFor(t: Table, m: Message, q: UpRequest) {
    && q.opcode == m.opcode && |q.args| == |m.args|
    && (forall k | 0 <= k < |m.args| :: Carries(t, m.args[k], q.args[k]))
    && m.sender in t.objects
    && (t.objects[m.sender].kind.Upstream? ==> q.sender.Some? && t.objects[m.sender].kind.up == Live(q.sender.value))
    && (!t.objects[m.sender].kind.Upstream? ==> q.sender == None)
  }

  ghost predicate AsksNext(t: Table, step: Step, u: Table) {
    if GoesUp(t, step) then
      |u.requested| == |t.requested| + 1 && u.requested[..|t.requested|] == t.requested
      && IsFor(t, step.m, u.requested[|t.requested|])
    else u.requested == t.requested
  }

  lemma DisplayAsks(t: Table, m: Message, d: RequestDesc, env: Env, name: seq<byte>)
    requires m.sender in t.objects && t.objects[m.sender].kind.Display? && d.child.Some?
    requires DisplayRequest(t, m, d, env, name).Ok?
    ensures AsksNext(t, Asked(m, d, env, name), DisplayRequest(t, m, d, env, name).value)
  {
    hide Messages;
    DisplaysExactly(t, m, d, env, name);
    assert m.args == [NewId(m.args[0].n)];
  }

  lemma BindAsks(t: Table, m: Message, d: RequestDesc, env: Env, name: seq<byte>)
    requires m.sender in t.objects && t.objects[m.sender].kind.Upstream? && t.objects[m.sender].iface == WlRegistry
    requires Bind(t, t.objects[m.sender].kind.up, m, env).Ok?
    ensures AsksNext(t, Asked(m, d, env, name), Bind(t, t.objects[m.sender].kind.up, m, env).value)
  {
    hide Messages, Bind;
    BindsExactly(t, t.objects[m.sender].kind.up, m, env);
  }

  lemma OthersAsk(t: Table, m: Message, d: RequestDesc, env: Env, name: seq<byte>)
    requires Sound(t) && m.sender in t.objects && !t.objects[m.sender].kind.Display?
    requires Request(t, m, d, env, name).Ok?
    requires t.objects[m.sender].kind.Upstream? ==> t.objects[m.sender].iface != WlRegistry
    ensures AsksNext(t, Asked(m, d, env, name), Request(t, m, d, env, name).value)
  {
    hide Sound, Messages, ForwardRequest, ManagerRequest, DecorationRequest, Carries, Fine, ObjectsAfter, Gone;
    if t.objects[m.sender].kind.Upstream? {
      ForwardsExactly(t, t.objects[m.sender].kind.up, m, d, env);
    } else {
      ManagesExactly(t, m);
      DecoratesExactly(t, m, env);
    }
  }

  lemma StepAsks(t: Table, step: Step)
    requires Sound(t) && Possible(t, step) && After(t, step).Ok?
    ensures AsksNext(t, step, After(t, step).value)
  {
    hide Sound, AsksNext, DisplayRequest, Bind, ForwardRequest, ManagerRequest, DecorationRequest, Event, WellFormedEvent;
    match step {
      case Asked(m, d, env, name) =>
        if t.objects[m.sender].kind.Display? {
          DisplayAsks(t, m, d, env, name);
        } else if t.objects[m.sender].kind.Upstream? && t.objects[m.sender].iface == WlRegistry {
          BindAsks(t, m, d, env, name);
        } else {
          OthersAsk(t, m, d, env, name);
        }
      case Happened(from, opcode, args, d, pass) => EventAsksNothing(t, from, opcode, args, d, pass, step);
      case _ => NothingAsked(t, step);
    }
  }

  lemma EventAsksNothing(
    t: Table, from: nat, opcode: u16, args: seq<UpArg>, d: Option<EventDesc>, pass: bool -> bool, step: Step)
    requires Sound(t) && WellFormedEvent(t, from, args, d) && step.Happened?
    ensures AsksNext(t, step, Event(t, from, opcode, args, d, pass))
  {
    hide Sound, Event, Delivered, Arrives;
    EventsExactly(t, from, opcode, args, d, pass);
  }

  lemma NothingAsked(t: Table, step: Step)
    requires Possible(t, step) && (step.FrameMade? || step.FrameGone?)
    ensures AsksNext(t, step, After(t, step).value)
  {
  }

  /** The steps before `k` whose requests go on, in order. */
  ghost function Which(run: seq<Table>, steps: seq<Step>, k: nat): (r: seq<nat>)
    requires k <= |steps| && |run| == |steps| + 1
    ensures forall i: nat :: i in r <==> i < k && GoesUp(run[i], steps[i])
    ensures forall j | 0 <= j < |r| :: r[j] < k && GoesUp(run[r[j]], steps[r[j]])
    ensures forall i, j | 0 <= i < j < |r| :: r[i] < r[j]
  {
    if k == 0 then []
    else if GoesUp(run[k - 1], steps[k - 1]) then Which(run, steps, k - 1) + [k - 1]
    else Which(run, steps, k - 1)
  }

  /** `requested` is the requests of the steps `which`, one each. */
  ghost predicate Matches(run: seq<Table>, steps: seq<Step>, which: seq<nat>, requested: seq<UpRequest>) {
    && |requested| == |which|
    && forall j | 0 <= j < |which| ::
         which[j] < |steps| && which[j] < |run| && steps[which[j]].Asked?
         && IsFor(run[which[j]], steps[which[j]].m, requested[j])
  }

  /** In every run, what the compositor was sent for the bridge is the bridge's
      requests that go on, in order: each on the object the bridge's stands
      for, with its opcode, and with every argument translated. */
  lemma {:induction false} RequestsGoOnInOrder(run: seq<Table>, steps: seq<Step>, decorate: bool, k: nat)
    requires IsRun(run, steps, decorate) && k < |run|
    ensures Matches(run, steps, Which(run, steps, k), run[k].requested)
  {
    hide Sound, AsksNext, After, Possible, IsFor, GoesUp, Which, Matches;
    if k == 0 {
      NothingYet(run, steps, decorate);
    } else {
      RequestsGoOnInOrder(run, steps, decorate, k - 1);
      RunsAreSound(run, steps, decorate, k - 1);
      assert After(run[k - 1], steps[k - 1]) == Ok(run[k - 1 + 1]);
      StepAsks(run[k - 1], steps[k - 1]);
      GrowsBy(run, steps, k);
    }
  }

  lemma NothingYet(run: seq<Table>, steps: seq<Step>, decorate: bool)
    requires |run| == |steps| + 1
    ensures Matches(run, steps, Which(run, steps, 0), Start(decorate).requested)
  {
  }

  lemma GrowsBy(run: seq<Table>, steps: seq<Step>, k: nat)
    requires 0 < k < |run| == |steps| + 1 && AsksNext(run[k - 1], steps[k - 1], run[k])
    requires Matches(run, steps, Which(run, steps, k - 1), run[k - 1].requested)
    ensures Matches(run, steps, Which(run, steps, k), run[k].requested)
  {
    hide IsFor, GoesUp;
    var before, after := run[k - 1].requested, run[k].requested;
    GoingUpIsAsked(run[k - 1], steps[k - 1]);
    assert forall j | 0 <= j < |before| :: GoesUp(run[k - 1], steps[k - 1]) ==> after[j] == after[..|before|][j];
  }

  lemma GoingUpIsAsked(t: Table, step: Step)
    ensures GoesUp(t, step) ==> step.Asked?
  {
  }
}
