/** Which input events pass, told from what the interfaces send. */
module WaylandInput {
  import opened Wrappers
  import opened Bytes
  import opened WaylandWire
  import opened WaylandFocus

  // Touch: events with their arguments by name.

  /** `surface`: as the bridge knows it, or hidden from it. */
  datatype TouchEvent =
    | TouchDown(serial: u32, time: u32, surface: Option<u32>, id: i32, x: i32, y: i32)
    | TouchUp(serial: u32, time: u32, id: i32)
    | TouchMotion(time: u32, id: i32, x: i32, y: i32)
    | TouchFrame
    | TouchCancel
    | TouchShape(id: i32, major: i32, minor: i32)
    | TouchOrientation(id: i32, angle: i32)

  /** As it is sent. */
  function Sent(e: TouchEvent): Event {
    match e
    case TouchDown(serial, time, surface, id, x, y) =>
      Event(Down, surface.None?, [Uint(serial), Uint(time), Object(surface.GetOr(0)), Int(id), Fixed(x), Fixed(y)])
    case TouchUp(serial, time, id) => Event(Up, false, [Uint(serial), Uint(time), Int(id)])
    case TouchMotion(time, id, x, y) => Event(Motion, false, [Uint(time), Int(id), Fixed(x), Fixed(y)])
    case TouchFrame => Event(Frame, false, [])
    case TouchCancel => Event(Cancel, false, [])
    case TouchShape(id, major, minor) => Event(Shape, false, [Int(id), Fixed(major), Fixed(minor)])
    case TouchOrientation(id, angle) => Event(Orientation, false, [Int(id), Fixed(angle)])
  }

  function AllSent(events: seq<TouchEvent>): (r: seq<Event>)
    ensures |r| == |events| && forall i | 0 <= i < |events| :: r[i] == Sent(events[i])
  {
    seq(|events|, i requires 0 <= i < |events| => Sent(events[i]))
  }

  /** The touch point went down on a hidden surface and has not been lifted. */
  ghost predicate OnHidden(events: seq<TouchEvent>, i: nat, id: i32)
    requires i <= |events|
  {
    exists j | 0 <= j < i ::
      && events[j].TouchDown? && events[j].surface.None? && events[j].id == id
      && forall k | j < k < i :: !(events[k].TouchUp? && events[k].id == id) && !events[k].TouchCancel?
  }

  lemma OnHiddenExactly(events: seq<TouchEvent>, i: nat, id: i32)
    requires i <= |events|
    ensures PointHidden(AllSent(events), i, id) <==> OnHidden(events, i, id)
  {
    hide Sent, AllSent, Point;
    forall j | 0 <= j < i
      ensures AllSent(events)[j].name == Down && AllSent(events)[j].hidden && Point(AllSent(events)[j]) == id <==>
              events[j].TouchDown? && events[j].surface.None? && events[j].id == id
      ensures AllSent(events)[j].name == Up && Point(AllSent(events)[j]) == id <==> events[j].TouchUp? && events[j].id == id
      ensures AllSent(events)[j].name == Cancel <==> events[j].TouchCancel?
    {
      SentAs(events[j]);
    }
    if OnHidden(events, i, id) {
      var j :| 0 <= j < i && events[j].TouchDown? && events[j].surface.None? && events[j].id == id
               && forall k | j < k < i :: !(events[k].TouchUp? && events[k].id == id) && !events[k].TouchCancel?;
      assert forall k | j < k < i ::
          !(AllSent(events)[k].name == Up && Point(AllSent(events)[k]) == id) && AllSent(events)[k].name != Cancel;
    }
    if PointHidden(AllSent(events), i, id) {
      var j :| 0 <= j < i && AllSent(events)[j].name == Down && AllSent(events)[j].hidden && Point(AllSent(events)[j]) == id
               && forall k | j < k < i ::
                    !(AllSent(events)[k].name == Up && Point(AllSent(events)[k]) == id) && AllSent(events)[k].name != Cancel;
      assert forall k | j < k < i :: !(events[k].TouchUp? && events[k].id == id) && !events[k].TouchCancel?;
    }
  }

  lemma SentAs(e: TouchEvent)
    ensures Sent(e).name == Down <==> e.TouchDown?
    ensures e.TouchDown? ==> Point(Sent(e)) == e.id && (Sent(e).hidden <==> e.surface.None?)
    ensures Sent(e).name == Up <==> e.TouchUp?
    ensures e.TouchUp? ==> Point(Sent(e)) == e.id
    ensures Sent(e).name == Cancel <==> e.TouchCancel?
  {
  }

  /** A touch on a surface hidden from the bridge is kept from it from when it
      goes down until it is lifted or all are cancelled, and nothing else is. */
  lemma TouchPassesExactly(events: seq<TouchEvent>, i: nat)
    requires i < |events|
    ensures var passes := Passes(Touch, AllSent(events), i);
            match events[i]
            case TouchDown(_, _, surface, _, _, _) => passes <==> surface.Some?
            case TouchUp(_, _, id) => passes <==> !OnHidden(events, i, id)
            case TouchMotion(_, id, _, _) => passes <==> !OnHidden(events, i, id)
            case TouchShape(id, _, _) => passes <==> !OnHidden(events, i, id)
            case TouchOrientation(id, _) => passes <==> !OnHidden(events, i, id)
            case TouchCancel => passes
            case TouchFrame =>
              passes <==> exists j | 0 <= j < i ::
                Passes(Touch, AllSent(events), j) && forall k | j <= k < i :: !events[k].TouchFrame?
  {
    hide OnHidden, PointHidden, AllSent, FocusHidden;
    PassesExactly(Touch, AllSent(events), i);
    var e := events[i];
    if e.TouchFrame? {
      hide Passes;
      assert forall k | 0 <= k < i :: AllSent(events)[k].name == Frame <==> events[k].TouchFrame?;
    } else if e.TouchUp? || e.TouchMotion? || e.TouchShape? || e.TouchOrientation? {
      OnHiddenExactly(events, i, e.id);
    }
  }

  // The interfaces whose events follow a focus.

  /** The last event that moved the focus took it to a hidden surface. */
  ghost predicate HiddenFocus(events: seq<Event>, i: nat)
    requires i <= |events|
  {
    exists j | 0 <= j < i ::
      && (events[j].name == Enter || events[j].name == ProximityIn) && events[j].hidden
      && forall k | j < k < i :: events[k].name !in {Enter, ProximityIn, Leave, ProximityOut}
  }

  lemma HiddenFocusExactly(events: seq<Event>, i: nat)
    requires i <= |events|
    ensures FocusHidden(events, i) <==> HiddenFocus(events, i)
  {
    if FocusHidden(events, i) {
      var j :| 0 <= j < i && Gains(events[j]) && events[j].hidden
               && forall k | j < k < i :: !Gains(events[k]) && !Loses(events[k]);
      assert forall k | j < k < i :: events[k].name !in {Enter, ProximityIn, Leave, ProximityOut} by {
        assert forall k | j < k < i :: !Gains(events[k]) && !Loses(events[k]);
      }
    }
    if HiddenFocus(events, i) {
      var j :| 0 <= j < i && (events[j].name == Enter || events[j].name == ProximityIn) && events[j].hidden
               && forall k | j < k < i :: events[k].name !in {Enter, ProximityIn, Leave, ProximityOut};
      assert forall k | j < k < i :: !Gains(events[k]) && !Loses(events[k]);
    }
  }

  /** The events each interface sends about the surface with the focus. */
  ghost predicate FollowsFocus(input: Input, name: Name) {
    || name == Leave || name == ProximityOut || input == Pointer
    || (input == DataDevice && name in {Motion, Drop})
    || (input == TabletTool && name in {Motion, Pressure, Distance, Tilt, Rotation, Slider, Wheel, Button, Down, Up})
  }

  /** While the focus is on a hidden surface what follows it is kept from the
      bridge; of the rest, what names no hidden object passes. */
  lemma FocusPassesExactly(input: Input, events: seq<Event>, i: nat)
    requires i < |events| && input != Touch
    ensures var passes, e := Passes(input, events, i), events[i];
            if e.name == Frame then
              passes <==> exists j | 0 <= j < i ::
                Passes(input, events, j) && forall k | j <= k < i :: events[k].name != Frame
            else if e.name == Enter || e.name == ProximityIn then passes <==> !e.hidden
            else if FollowsFocus(input, e.name) then passes <==> !HiddenFocus(events, i)
            else passes <==> !e.hidden
  {
    hide FocusHidden, HiddenFocus, Passes, PointHidden;
    PassesExactly(input, events, i);
    HiddenFocusExactly(events, i);
  }
}
