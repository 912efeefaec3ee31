/** Which input events go on to the bridge. Events on a surface it does not
    know (a title bar) are kept from it, with those that follow until the
    focus or the touch point leaves that surface. */
module WaylandFocus {
  import opened WaylandWire

  /** The interfaces whose input events go to one surface at a time. */
  datatype Input = Pointer | Touch | DataDevice | TabletTool

  /** Event names the filter tells apart. */
  datatype Name =
    | Enter | ProximityIn | Leave | ProximityOut | Frame
    | Down | Up | Motion | Shape | Orientation | Cancel | Drop
    | Pressure | Distance | Tilt | Rotation | Slider | Wheel | Button
    | Other

  /** `hidden`: the event names an object the bridge does not know. */
  datatype Event = Event(name: Name, hidden: bool, args: seq<Arg>)

  function IntAt(args: seq<Arg>, i: nat): int {
    if i < |args| && args[i].Int? then args[i].i else 0
  }

  /** The touch point an event of a touch device is about. */
  function Point(e: Event): int {
    match e.name
    case Down => IntAt(e.args, 3)
    case Up => IntAt(e.args, 2)
    case Motion => IntAt(e.args, 1)
    case _ => IntAt(e.args, 0)
  }

  predicate OfPoint(input: Input, e: Event) {
    input == Touch && (e.name.Up? || e.name.Motion? || e.name.Shape? || e.name.Orientation?)
  }

  predicate Gains(e: Event) { e.name.Enter? || e.name.ProximityIn? }

  predicate Loses(e: Event) { e.name.Leave? || e.name.ProximityOut? }

  /** Events that belong to the surface with the focus. */
  predicate OfFocus(input: Input, e: Event) {
    match input
    case Pointer => e.name != Frame && !Gains(e)
    case Touch => Loses(e)
    case DataDevice => Loses(e) || e.name.Motion? || e.name.Drop?
    case TabletTool =>
      || Loses(e) || e.name.Motion? || e.name.Pressure? || e.name.Distance? || e.name.Tilt? || e.name.Rotation?
      || e.name.Slider? || e.name.Wheel? || e.name.Button? || e.name.Down? || e.name.Up?
  }

  datatype State = State(hidden: bool, pending: bool, touches: seq<int>)

  const START := State(false, false, [])

  function Without(touches: seq<int>, id: int): (left: seq<int>)
    ensures forall t :: t in left <==> t in touches && t != id
  {
    if touches == [] then []
    else if touches[0] == id then Without(touches[1..], id)
    else [touches[0]] + Without(touches[1..], id)
  }

  /** The filter's answer to one event, and its state after it. */
  function Answer(input: Input, s: State, e: Event): (State, bool) {
    if e.name == Frame then (s.(pending := false), s.pending) else
      var (next, forward) :=
        if Gains(e) then (s.(hidden := e.hidden), !e.hidden)
        else if Loses(e) then (s.(hidden := false), !s.hidden)
        else if OfFocus(input, e) then (s, !s.hidden)
        else if input == Touch && e.name == Down then
          (if e.hidden then s.(touches := s.touches + [Point(e)]) else s, !e.hidden)
        else if input == Touch && e.name == Cancel then (s.(touches := []), true)
        else if OfPoint(input, e) then
          (if e.name == Up then s.(touches := Without(s.touches, Point(e))) else s, Point(e) !in s.touches)
        else (s, !e.hidden);
      (if forward then next.(pending := true) else next, forward)
  }

  class Focus {
    var hidden: bool
    var pending: bool
    var touches: seq<int>

    ghost function Now(): State
      reads this
    {
      State(hidden, pending, touches)
    }

    constructor ()
      ensures Now() == START
    {
      hidden, pending, touches := false, false, [];
    }

    method Pass(input: Input, event: Name, named: bool, args: seq<Arg>) returns (forward: bool)
      modifies this
      ensures (Now(), forward) == Answer(input, old(Now()), Event(event, named, args))
    {
      hide IntAt, Without;
      match (input, event) {
        case (_, Enter) | (_, ProximityIn) =>
          hidden := named;
          forward := !named;
        case (_, Leave) | (_, ProximityOut) =>
          forward := !hidden;
          hidden := false;
        case (_, Frame) =>
          forward := pending;
          pending := false;
        case (Touch, Down) =>
          if named {
            touches := touches + [IntAt(args, 3)];
          }
          forward := !named;
        case (Touch, Up) =>
          var id := IntAt(args, 2);
          forward := id !in touches;
          touches := Without(touches, id);
        case (Touch, Motion) => forward := IntAt(args, 1) !in touches;
        case (Touch, Shape) | (Touch, Orientation) => forward := IntAt(args, 0) !in touches;
        case (Touch, Cancel) =>
          touches := [];
          forward := true;
        case (Pointer, _) => forward := !hidden;
        case (DataDevice, Motion) | (DataDevice, Drop) => forward := !hidden;
        case (TabletTool, Motion) | (TabletTool, Pressure) | (TabletTool, Distance) | (TabletTool, Tilt)
           | (TabletTool, Rotation) | (TabletTool, Slider) | (TabletTool, Wheel) | (TabletTool, Button)
           | (TabletTool, Down) | (TabletTool, Up) => forward := !hidden;
        case _ => forward := !named;
      }
      if forward && event != Frame {
        pending := true;
      }
    }
  }

  // What the protocols promise of the events of one device.

  /** Where the focus is: nowhere, on a surface, or on one that was dropped
      on, which need not be left before the next is entered. */
  datatype Place = Out | In | Dropped

  /** The focus, the touch points that are down, and whether anything came
      since the last frame. */
  datatype Track = Track(place: Place, down: set<int>, grouped: bool)

  const FRESH := Track(Out, {}, false)

  /** Whether the protocol lets `e` come now. */
  predicate Allowed(input: Input, t: Track, e: Event) {
    && (e.name == Frame ==> t.grouped)
    && (Gains(e) ==> t.place != In)
    && (Loses(e) ==> t.place != Out)
    && (OfFocus(input, e) && !Loses(e) ==> t.place == In)
    && (OfPoint(input, e) ==> Point(e) in t.down)
    && (input == Touch && e.name == Down ==> Point(e) !in t.down)
  }

  function Moved(input: Input, t: Track, e: Event): Track {
    Track(
      if Gains(e) then In
      else if Loses(e) then Out
      else if input == DataDevice && e.name == Drop then Dropped
      else t.place,
      if input != Touch then t.down
      else if e.name == Down then t.down + {Point(e)}
      else if e.name == Up then t.down - {Point(e)}
      else if e.name == Cancel then {}
      else t.down,
      e.name != Frame)
  }

  function TrackAfter(input: Input, events: seq<Event>): Track {
    if events == [] then FRESH
    else Moved(input, TrackAfter(input, events[..|events| - 1]), events[|events| - 1])
  }

  /** Every event comes where the protocol lets it: enters and leaves
      alternate, motion and the like come only within a focus or a touch,
      touch points go down once, and a frame ends something. */
  predicate Conforms(input: Input, events: seq<Event>) {
    events != [] ==>
      && Conforms(input, events[..|events| - 1])
      && Allowed(input, TrackAfter(input, events[..|events| - 1]), events[|events| - 1])
  }

  // The filter over a sequence of events.

  function After(input: Input, events: seq<Event>): State {
    if events == [] then START
    else Answer(input, After(input, events[..|events| - 1]), events[|events| - 1]).0
  }

  /** Whether the event at `i` goes to the bridge. */
  predicate Passes(input: Input, events: seq<Event>, i: nat)
    requires i < |events|
  {
    Answer(input, After(input, events[..i]), events[i]).1
  }

  function Forwarded(input: Input, events: seq<Event>): seq<Event> {
    if events == [] then []
    else
      var n := |events| - 1;
      Forwarded(input, events[..n]) + if Passes(input, events, n) then [events[n]] else []
  }

  /** How what was forwarded stands to what came. */
  ghost predicate Follows(t: Track, s: State, out: Track) {
    && s.pending == out.grouped
    && (forall id :: id in s.touches ==> id in t.down)
    && out.down == (set id | id in t.down && id !in s.touches)
    && (if s.hidden then t.place != Out && out.place != In
        else out.place == t.place || (t.place == Out && out.place == Dropped))
  }

  lemma FollowsOne(input: Input, t: Track, s: State, out: Track, e: Event)
    requires Follows(t, s, out) && Allowed(input, t, e)
    ensures Answer(input, s, e).1 ==> Allowed(input, out, e)
    ensures Follows(Moved(input, t, e), Answer(input, s, e).0,
                    if Answer(input, s, e).1 then Moved(input, out, e) else out)
  {
  }

  /** What goes to the bridge conforms whenever what came does. */
  lemma {:induction false} ForwardedConforms(input: Input, events: seq<Event>)
    requires Conforms(input, events)
    ensures Conforms(input, Forwarded(input, events))
    ensures Follows(TrackAfter(input, events), After(input, events), TrackAfter(input, Forwarded(input, events)))
  {
    hide Answer, Allowed, Moved, Follows;
    if events == [] {
      Beginning();
    } else {
      var n := |events| - 1;
      var before, e := events[..n], events[n];
      ForwardedConforms(input, before);
      var out := Forwarded(input, before);
      FollowsOne(input, TrackAfter(input, before), After(input, before), TrackAfter(input, out), e);
      if Passes(input, events, n) {
        assert (out + [e])[..|out|] == out;
      } else {
        assert out + [] == out;
      }
    }
  }

  lemma Beginning()
    ensures Follows(FRESH, START, FRESH)
  {
  }

  // Which events pass, told from the events alone.

  /** The last event before `i` that moved the focus took it to a surface
      the bridge does not know. */
  ghost predicate FocusHidden(events: seq<Event>, i: nat)
    requires i <= |events|
  {
    exists j | 0 <= j < i ::
      && Gains(events[j]) && events[j].hidden
      && forall k | j < k < i :: !Gains(events[k]) && !Loses(events[k])
  }

  /** The touch point went down on a surface the bridge does not know. */
  ghost predicate PointHidden(events: seq<Event>, i: nat, id: int)
    requires i <= |events|
  {
    exists j | 0 <= j < i ::
      && events[j].name == Down && events[j].hidden && Point(events[j]) == id
      && forall k | j < k < i :: !(events[k].name == Up && Point(events[k]) == id) && events[k].name != Cancel
  }

  /** Something passed since the last frame. */
  ghost predicate Unframed(input: Input, events: seq<Event>, i: nat)
    requires i <= |events|
  {
    exists j | 0 <= j < i ::
      Passes(input, events, j) && forall k | j <= k < i :: events[k].name != Frame
  }

  /** An event is for the bridge: on no surface hidden from it, and for a
      frame, one that ends something the bridge was sent. */
  ghost predicate ForBridge(input: Input, events: seq<Event>, i: nat)
    requires i < |events|
  {
    var e := events[i];
    if e.name == Frame then Unframed(input, events, i)
    else if OfFocus(input, e) then !FocusHidden(events, i)
    else if OfPoint(input, e) then !PointHidden(events, i, Point(e))
    else if input == Touch && e.name == Cancel then true
    else !e.hidden
  }

  lemma {:induction false} StateTells(input: Input, events: seq<Event>, i: nat)
    requires i <= |events|
    ensures After(input, events[..i]).hidden <==> FocusHidden(events, i)
    ensures After(input, events[..i]).pending <==> Unframed(input, events, i)
    ensures input == Touch ==>
              forall id :: id in After(input, events[..i]).touches <==> PointHidden(events, i, id)
  {
    hide *;
    if i == 0 {
      NothingYet(input, events);
    } else {
      var n := i - 1;
      StateTells(input, events, n);
      OneMore(input, events, n);
      FocusNext(events, n);
      UnframedNext(input, events, n);
      forall id | input == Touch
        ensures id in After(input, events[..i]).touches <==> PointHidden(events, i, id)
      {
        PointNext(events, n, id);
      }
    }
  }

  lemma NothingYet(input: Input, events: seq<Event>)
    ensures After(input, events[..0]) == START
    ensures !FocusHidden(events, 0) && !Unframed(input, events, 0) && forall id :: !PointHidden(events, 0, id)
    ensures !START.hidden && !START.pending && START.touches == []
  {
  }

  /** What one event does to each part of the state. */
  lemma OneMore(input: Input, events: seq<Event>, n: nat)
    requires n < |events|
    ensures var s, next, e := After(input, events[..n]), After(input, events[..n + 1]), events[n];
            && next.hidden == (if Gains(e) then e.hidden else s.hidden && !Loses(e))
            && next.pending == (e.name != Frame && (s.pending || Passes(input, events, n)))
            && (input == Touch ==>
                  forall id :: id in next.touches <==>
                    if e.name == Down && e.hidden && Point(e) == id then true
                    else id in s.touches && e.name != Cancel && !(e.name == Up && Point(e) == id))
  {
    hide Point;
    assert events[..n + 1][..n] == events[..n];
  }

  lemma FocusNext(events: seq<Event>, n: nat)
    requires n < |events|
    ensures FocusHidden(events, n + 1) <==>
            if Gains(events[n]) then events[n].hidden else FocusHidden(events, n) && !Loses(events[n])
  {
    hide Gains, Loses;
    if FocusHidden(events, n) && !Gains(events[n]) && !Loses(events[n]) {
      var j :| 0 <= j < n && Gains(events[j]) && events[j].hidden
               && forall k | j < k < n :: !Gains(events[k]) && !Loses(events[k]);
      assert forall k | j < k < n + 1 :: !Gains(events[k]) && !Loses(events[k]);
    }
  }

  lemma UnframedNext(input: Input, events: seq<Event>, n: nat)
    requires n < |events|
    ensures Unframed(input, events, n + 1) <==>
            events[n].name != Frame && (Unframed(input, events, n) || Passes(input, events, n))
  {
    hide Passes;
    if Unframed(input, events, n) && events[n].name != Frame {
      var j :| 0 <= j < n && Passes(input, events, j) && forall k | j <= k < n :: events[k].name != Frame;
      assert forall k | j <= k < n + 1 :: events[k].name != Frame;
    }
  }

  lemma PointNext(events: seq<Event>, n: nat, id: int)
    requires n < |events|
    ensures PointHidden(events, n + 1, id) <==>
            var e := events[n];
            if e.name == Down && e.hidden && Point(e) == id then true
            else PointHidden(events, n, id) && e.name != Cancel && !(e.name == Up && Point(e) == id)
  {
    hide Point;
    if PointHidden(events, n, id) && events[n].name != Cancel && !(events[n].name == Up && Point(events[n]) == id) {
      var j :| 0 <= j < n && events[j].name == Down && events[j].hidden && Point(events[j]) == id
               && forall k | j < k < n :: !(events[k].name == Up && Point(events[k]) == id) && events[k].name != Cancel;
      assert forall k | j < k < n + 1 :: !(events[k].name == Up && Point(events[k]) == id) && events[k].name != Cancel;
    }
  }

  /** Nothing on a hidden surface passes and everything else does; a frame
      passes exactly when something passed since the last one. */
  lemma PassesExactly(input: Input, events: seq<Event>, i: nat)
    requires i < |events|
    ensures Passes(input, events, i) <==> ForBridge(input, events, i)
  {
    hide FocusHidden, PointHidden, Unframed, After;
    StateTells(input, events, i);
  }
}
