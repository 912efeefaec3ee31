/** The object table: every object of the bridge's, what it stands for on the
    compositor's connection, and how each request and event changes it. */
module WaylandObjects {
  import opened Wrappers
  import opened Bytes
  import opened WaylandWire
  import opened WaylandHistory

  datatype Iface = WlDisplay | WlRegistry | DecorationManagerV1 | ToplevelDecorationV1 | OtherIface(n: nat)

  /** An object on the compositor's connection, none of which is ever used
      twice. */
  datatype Up = Null | Live(n: nat)

  datatype Kind = Display | Upstream(up: Up) | DecorationManager | Decoration(toplevel: u32)

  datatype Obj = Obj(iface: Iface, version: nat, kind: Kind, toplevel: bool)

  /** The data of an object on the compositor's connection. `Frame`: the
      proxy's own. */
  datatype Data = Forward(bridge: u32) | Discard | Frame

  /** An argument on the compositor's connection. */
  datatype UpArg = Plain(arg: Arg) | ToObject(up: Up) | ToNew

  /** A request on the display has no sender. */
  datatype UpRequest = UpRequest(sender: Option<nat>, opcode: u16, args: seq<UpArg>)

  datatype BadRequest =
    | TooNew | Malformed | IdInUse | NullObject | UnknownObject | OwnObject | WrongInterface
    | NoFixedInterface | NotOffered | WrongGlobal | NotToplevel | Gone

  /** An object argument a request takes: of which interface, when one is
      named, and whether it may be null. */
  datatype Passed = Passed(iface: Option<Iface>, nullable: bool)

  /** What the protocol says of a request. */
  datatype RequestDesc = RequestDesc(
    since: nat, objects: seq<Passed>, child: Option<Iface>, destructor: bool, makesToplevel: bool)

  datatype EventDesc = EventDesc(child: Option<Iface>, destructor: bool)

  /** `data`: of every object ever made on the compositor's connection;
      `alive`: those neither side has destroyed; `requested`: what the
      compositor was sent for the bridge. */
  datatype Table = Table(
    decorate: bool,
    objects: map<u32, Obj>,
    nextServerId: u32,
    failed: bool,
    data: seq<Data>,
    alive: set<nat>,
    requested: seq<UpRequest>,
    history: History)

  function Start(decorate: bool): Table {
    Table(decorate, map[DISPLAY := Obj(WlDisplay, 1, Display, false)], SERVER_ID_START, false, [], {}, [], [])
  }

  // Single changes.

  function FromUp(kind: Kind): Option<nat> {
    if kind.Upstream? && kind.up.Live? then Some(kind.up.n) else None
  }

  function Insert(t: Table, id: u32, obj: Obj): Table {
    t.(objects := t.objects[id := obj], history := t.history + [Born(id, FromUp(obj.kind))])
  }

  function Ask(t: Table, request: UpRequest): Table {
    t.(requested := t.requested + [request])
  }

  function Create(t: Table, data: Data): Table {
    t.(data := t.data + [data], alive := t.alive + {|t.data|})
  }

  /** Takes `id` out of the table and, when the bridge made it, tells the
      bridge that it is free again. */
  function Remove(t: Table, id: u32): Table {
    t.(objects := t.objects - {id},
       history := t.history + [if id < SERVER_ID_START then Deleted(id) else Freed(id)])
  }

  function Say(t: Table, id: u32, opcode: u16, args: seq<Arg>): Table {
    t.(history := t.history + [Own(id, opcode, args)])
  }

  predicate FreeId(t: Table, id: u32) {
    0 < id < SERVER_ID_START && id !in t.objects
  }

  /** Makes an object on the compositor's connection, and the bridge's
      object forwarded to it. */
  function Attach(t: Table, id: u32, iface: Iface, version: nat, toplevel: bool): Table {
    Insert(Create(t, Forward(id)), id, Obj(iface, version, Upstream(Live(|t.data|)), toplevel))
  }

  // What holds in every reachable state.

  /** Every id of the bridge's but the display stands for an object of its
      own on the compositor's connection, still there and with events for
      this id, or for none. */
  ghost predicate SoundObjects(t: Table) {
    && DISPLAY in t.objects
    && (forall b | b in t.objects :: b > 0 && b < t.nextServerId && (t.objects[b].kind.Display? <==> b == DISPLAY))
    && SERVER_ID_START <= t.nextServerId
    && (forall b | b in t.objects :: FromUp(t.objects[b].kind).Some? ==>
          var s := FromUp(t.objects[b].kind).value;
          s in t.alive && s < |t.data| && t.data[s] == Forward(b))
    && (forall s | s in t.alive :: s < |t.data|)
  }

  /** The table is what the history makes it. */
  ghost predicate Agrees(t: Table, b: u32) {
    && (b in t.objects <==> OwnerOf(t.history, b).Some?)
    && (b in t.objects ==> t.history[OwnerOf(t.history, b).value].up == FromUp(t.objects[b].kind))
  }

  ghost predicate SoundHistory(t: Table) {
    && Faithful(t.history)
    && (forall b: u32 :: b != DISPLAY ==> Agrees(t, b))
    && (forall e | e in t.history && e.Born? ::
          && (e.id < t.nextServerId)
          && (e.up.Some? ==> e.up.value < |t.data| && t.data[e.up.value] == Forward(e.id)))
  }

  ghost predicate Sound(t: Table) {
    SoundObjects(t) && SoundHistory(t)
  }

  lemma StartSound(decorate: bool)
    ensures Sound(Start(decorate))
  {
  }

  /** No two of the bridge's objects stand for the same one of the
      compositor's. */
  lemma Distinct(t: Table, a: u32, b: u32)
    requires Sound(t) && a in t.objects && b in t.objects
    requires FromUp(t.objects[a].kind).Some? && FromUp(t.objects[a].kind) == FromUp(t.objects[b].kind)
    ensures a == b
  {
    hide SoundHistory;
  }

  lemma CreateSound(t: Table, data: Data)
    requires Sound(t)
    ensures Sound(Create(t, data))
  {
    hide Faithful, OwnerOf;
    var u := Create(t, data);
    assert forall b: u32 :: Agrees(t, b) ==> Agrees(u, b);
  }

  lemma SaySound(t: Table, id: u32, opcode: u16, args: seq<Arg>)
    requires Sound(t) && id in t.objects && id != DISPLAY
    ensures Sound(Say(t, id, opcode, args))
  {
    TellSound(t, Own(id, opcode, args));
  }

  /** An event changes nothing but the history. */
  lemma TellSound(t: Table, e: Happening)
    requires Sound(t) && (e.Own? || e.Told?) && e.id in t.objects && e.id != DISPLAY
    requires e.Told? ==> FromUp(t.objects[e.id].kind) == Some(e.from)
    ensures Sound(t.(history := t.history + [e]))
  {
    var u := t.(history := t.history + [e]);
    assert Agrees(t, e.id);
    assert u.history[..|t.history|] == t.history;
    assert forall b: u32 :: Agrees(t, b) ==> Agrees(u, b);
  }

  lemma InsertSound(t: Table, id: u32, obj: Obj)
    requires Sound(t) && id !in t.objects && !obj.kind.Display? && 0 < id < t.nextServerId
    requires id >= SERVER_ID_START ==> !BornBefore(t.history, id)
    requires FromUp(obj.kind).Some? ==>
               var s := FromUp(obj.kind).value;
               s in t.alive && s < |t.data| && t.data[s] == Forward(id) && !BornFrom(t.history, s)
    ensures Sound(Insert(t, id, obj))
  {
    hide Faithful, Faithful1, Agrees, SoundObjects, OwnerOf;
    NotDisplay(t, id);
    InsertObjects(t, id, obj);
    InsertAgrees(t, id, obj);
    MayBeBorn(t, id, obj);
    FaithfulNext(t.history, Born(id, FromUp(obj.kind)));
    OneMoreBorn(t, id, obj);
  }

  lemma NotDisplay(t: Table, id: u32)
    requires SoundHistory(t) && SoundObjects(t) && id !in t.objects && id > 0
    ensures id > DISPLAY && Agrees(t, id)
  {
    hide Faithful, Agrees;
  }

  lemma InsertObjects(t: Table, id: u32, obj: Obj)
    requires SoundObjects(t) && id !in t.objects && !obj.kind.Display? && 0 < id < t.nextServerId
    requires FromUp(obj.kind).Some? ==>
               var s := FromUp(obj.kind).value;
               s in t.alive && s < |t.data| && t.data[s] == Forward(id)
    ensures SoundObjects(Insert(t, id, obj))
  {
  }

  lemma InsertAgrees(t: Table, id: u32, obj: Obj)
    requires Sound(t)
    ensures forall b: u32 :: b != DISPLAY ==> Agrees(Insert(t, id, obj), b)
  {
    hide Faithful, SoundObjects;
    var u := Insert(t, id, obj);
    assert u.history[..|t.history|] == t.history;
    forall b: u32 | b != DISPLAY
      ensures Agrees(u, b)
    {
      assert Agrees(t, b);
    }
  }

  lemma MayBeBorn(t: Table, id: u32, obj: Obj)
    requires Agrees(t, id) && id !in t.objects && id > DISPLAY
    requires id >= SERVER_ID_START ==> !BornBefore(t.history, id)
    requires FromUp(obj.kind).Some? ==> !BornFrom(t.history, FromUp(obj.kind).value)
    ensures Faithful1(t.history, Born(id, FromUp(obj.kind)))
  {
    hide OwnerOf, BornBefore, BornFrom;
  }

  lemma FaithfulNext(h: History, e: Happening)
    requires Faithful(h) && Faithful1(h, e)
    ensures Faithful(h + [e])
  {
    hide Faithful1;
    assert (h + [e])[..|h|] == h;
  }

  lemma OneMoreBorn(t: Table, id: u32, obj: Obj)
    ensures forall e :: e in Insert(t, id, obj).history <==> e in t.history || e == Born(id, FromUp(obj.kind))
  {
  }

  lemma RemoveSound(t: Table, id: u32)
    requires Sound(t) && id in t.objects && id != DISPLAY
    ensures Sound(Remove(t, id))
  {
    var u := Remove(t, id);
    assert Agrees(t, id);
    assert u.history[..|t.history|] == t.history;
    assert forall b: u32 :: b != id && Agrees(t, b) ==> Agrees(u, b);
    assert Agrees(u, id);
  }

  /** What the compositor's side of `id` was is gone too. */
  lemma DestroySound(t: Table, s: nat)
    requires Sound(t)
    requires forall b | b in t.objects :: FromUp(t.objects[b].kind) != Some(s)
    ensures Sound(t.(alive := t.alive - {s}))
  {
    hide Faithful, OwnerOf;
    var u := t.(alive := t.alive - {s});
    assert forall b: u32 :: Agrees(t, b) ==> Agrees(u, b);
  }

  lemma AttachNew(t: Table, id: u32, iface: Iface, version: nat, toplevel: bool)
    requires Sound(t) && id !in t.objects && 0 < id < t.nextServerId
    requires id >= SERVER_ID_START ==> !BornBefore(t.history, id)
    ensures Sound(Attach(t, id, iface, version, toplevel))
  {
    hide Faithful, OwnerOf;
    CreateSound(t, Forward(id));
    NotBornYet(t);
    InsertSound(Create(t, Forward(id)), id, Obj(iface, version, Upstream(Live(|t.data|)), toplevel));
  }

  lemma AttachSound(t: Table, id: u32, iface: Iface, version: nat, toplevel: bool)
    requires Sound(t) && FreeId(t, id)
    ensures Sound(Attach(t, id, iface, version, toplevel))
  {
    hide SoundHistory;
    AttachNew(t, id, iface, version, toplevel);
  }

  lemma NotBornYet(t: Table)
    requires Sound(t)
    ensures !BornFrom(t.history, |t.data|)
    ensures forall b: u32 :: b >= t.nextServerId ==> !BornBefore(t.history, b)
  {
    hide Faithful, Agrees, SoundObjects;
  }
}
