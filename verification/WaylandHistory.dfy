/** What the bridge sees of its objects over time: ids made, freed and used
    again, and the events sent for them. */
module WaylandHistory {
  import opened Wrappers
  import opened Bytes
  import opened WaylandWire

  const DISPLAY: u32 := 1
  const SERVER_ID_START: u32 := 0xFF00_0000
  const MAX_ID: u32 := 0xFFFF_FFFF

  /** wl_display.delete_id. */
  const DELETE_ID: u16 := 1

  /** `up` is the object on the compositor's connection, `from` the one an
      event came from. */
  datatype Happening =
    | Born(id: u32, up: Option<nat>)
    | Deleted(id: u32)
    | Freed(id: u32)
    | Told(id: u32, from: nat, opcode: u16, args: seq<Arg>)
    | Own(id: u32, opcode: u16, args: seq<Arg>)

  type History = seq<Happening>

  predicate Ends(e: Happening, id: u32) {
    (e.Deleted? || e.Freed?) && e.id == id
  }

  /** When the object that has `id` now was made. */
  function OwnerOf(h: History, id: u32): (j: Option<nat>)
    ensures j.Some? ==> j.value < |h| && h[j.value].Born? && h[j.value].id == id
    ensures j.Some? ==> forall m | j.value < m < |h| :: !Ends(h[m], id) && !(h[m].Born? && h[m].id == id)
  {
    if h == [] then None
    else
      var n := |h| - 1;
      if h[n].Born? && h[n].id == id then Some(n)
      else if Ends(h[n], id) then None
      else OwnerOf(h[..n], id)
  }

  ghost predicate BornFrom(h: History, from: nat) {
    exists i | 0 <= i < |h| :: h[i].Born? && h[i].up == Some(from)
  }

  ghost predicate BornBefore(h: History, id: u32) {
    exists i | 0 <= i < |h| :: h[i].Born? && h[i].id == id
  }

  /** What may happen next: only a free id is taken, an id of the proxy's
      only once, only objects the bridge has are freed, and an event goes out
      only for the object made with its sender. */
  ghost predicate Faithful1(h: History, e: Happening) {
    match e
    case Born(id, up) =>
      && id > DISPLAY && OwnerOf(h, id).None?
      && (id >= SERVER_ID_START ==> !BornBefore(h, id))
      && (up.Some? ==> !BornFrom(h, up.value))
    case Deleted(id) => id < SERVER_ID_START && OwnerOf(h, id).Some?
    case Freed(id) => id >= SERVER_ID_START && OwnerOf(h, id).Some?
    case Told(id, from, _, _) => OwnerOf(h, id).Some? && h[OwnerOf(h, id).value].up == Some(from)
    case Own(id, _, _) => OwnerOf(h, id).Some?
  }

  ghost predicate Faithful(h: History) {
    h != [] ==> Faithful(h[..|h| - 1]) && Faithful1(h[..|h| - 1], h[|h| - 1])
  }

  lemma {:induction false} FaithfulAt(h: History, k: nat)
    requires Faithful(h) && k < |h|
    ensures Faithful1(h[..k], h[k])
    decreases |h|
  {
    hide Faithful1;
    if k < |h| - 1 {
      FaithfulAt(h[..|h| - 1], k);
      assert h[..|h| - 1][..k] == h[..k];
    }
  }

  /** An event reaches only the object made with its sender: it goes to that
      object's id, after it was made, and while the id is that object's,
      whether or not it was ever freed and used again. */
  lemma EventsReachTheirObject(h: History, k: nat, i: nat)
    requires Faithful(h) && k < |h| && i < |h|
    requires h[k].Told? && h[i].Born? && h[i].up == Some(h[k].from)
    ensures i < k && h[i].id == h[k].id
    ensures forall m | i < m < k :: !Ends(h[m], h[k].id) && !(h[m].Born? && h[m].id == h[k].id)
  {
    hide Faithful, OwnerOf;
    FaithfulAt(h, k);
    var j := OwnerOf(h[..k], h[k].id).value;
    assert h[..k][j] == h[j];
    MadeOnce(h, i, j);
    forall m | j < m < k
      ensures !Ends(h[m], h[k].id) && !(h[m].Born? && h[m].id == h[k].id)
    {
      assert h[m] == h[..k][m];
    }
  }

  lemma MadeOnce(h: History, i: nat, j: nat)
    requires Faithful(h) && i < |h| && j < |h|
    requires h[i].Born? && h[j].Born? && h[i].up.Some? && h[i].up == h[j].up
    ensures i == j
  {
    hide Faithful, OwnerOf;
    if i < j {
      assert h[..j][i] == h[i];
      FaithfulAt(h, j);
    } else if j < i {
      assert h[..i][j] == h[j];
      FaithfulAt(h, i);
    }
  }

  function Births(h: History, id: u32): nat {
    if h == [] then 0
    else Births(h[..|h| - 1], id) + if h[|h| - 1].Born? && h[|h| - 1].id == id then 1 else 0
  }

  function Deletes(h: History, id: u32): nat {
    if h == [] then 0
    else Deletes(h[..|h| - 1], id) + if h[|h| - 1] == Deleted(id) then 1 else 0
  }

  /** The bridge is told once of every id it made that is free again, and
      never of one the proxy made, which is never made again. */
  lemma {:induction false} DeletesBalance(h: History, id: u32)
    requires Faithful(h)
    ensures id < SERVER_ID_START ==> Births(h, id) == Deletes(h, id) + if OwnerOf(h, id).Some? then 1 else 0
    ensures id >= SERVER_ID_START ==> Deletes(h, id) == 0 && Births(h, id) == if BornBefore(h, id) then 1 else 0
  {
    if h != [] {
      DeletesBalance(h[..|h| - 1], id);
      BornBeforeNext(h, id);
    }
  }

  lemma BornBeforeNext(h: History, id: u32)
    requires h != []
    ensures BornBefore(h, id) <==> BornBefore(h[..|h| - 1], id) || (h[|h| - 1].Born? && h[|h| - 1].id == id)
  {
    var n := |h| - 1;
    if BornBefore(h[..n], id) {
      var i :| 0 <= i < n && h[..n][i].Born? && h[..n][i].id == id;
      assert h[i].Born?;
    }
    if BornBefore(h, id) && !(h[n].Born? && h[n].id == id) {
      var i :| 0 <= i < |h| && h[i].Born? && h[i].id == id;
      assert h[..n][i].Born?;
    }
  }

  /** What of it the bridge is sent. */
  function Messages(h: History): seq<Message> {
    if h == [] then []
    else
      var n := |h| - 1;
      Messages(h[..n]) +
      match h[n]
      case Deleted(id) => [Message(DISPLAY, DELETE_ID, [Uint(id)])]
      case Told(id, _, opcode, args) => [Message(id, opcode, args)]
      case Own(id, opcode, args) => [Message(id, opcode, args)]
      case _ => []
  }
}
