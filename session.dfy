/** The pole/zero editing session: two ordered lists of points and an
    optional drag selection, changed by three mouse-event handlers.

    The handlers are given twice. The functions AfterPress, AfterMotion and
    AfterRelease say what each event does to a Snapshot of the session; the
    methods of class EditSession change the session's fields step by step,
    as the editor's handlers do, and are proved to agree with the functions. */
module Session {
  import opened Geometry
  import opened HitTest

  /** Which of the two lists a point belongs to. */
  datatype Kind = Pole | Zero

  function Other(k: Kind): Kind {
    match k
    case Pole => Zero
    case Zero => Pole
  }

  /** The modifier key of an event. The editor compares the key with the
      exact names 'control' and 'shift'; no key, any other key and any
      combination (such as Ctrl and Shift together) are OtherKey. */
  datatype Key = Control | Shift | OtherKey

  /** A mouse event: whether it is over the pole/zero axes, its position in
      the plane (meaningless when it is not), the button number (1 left,
      2 middle, 3 right, 0 none) and the modifier key. */
  datatype MouseEvent = MouseEvent(inAxes: bool, pos: Point, button: nat, key: Key)

  const LeftButton: nat := 1
  const RightButton: nat := 3

  /** The list a plain press of this button adds to, or Shift-press removes
      from. */
  function ButtonKind(button: nat): (k: Option<Kind>)
    ensures k == Some(Pole) <==> button == LeftButton
    ensures k == Some(Zero) <==> button == RightButton
  {
    if button == LeftButton then Some(Pole)
    else if button == RightButton then Some(Zero)
    else None
  }

  /** A drag selection: the list and the index of the point being dragged. */
  datatype Drag = Drag(kind: Kind, index: nat)

  /** The whole state of a session. */
  datatype Snapshot = Snapshot(poles: seq<Point>, zeros: seq<Point>, drag: Option<Drag>) {

    function Points(k: Kind): seq<Point> {
      match k
      case Pole => poles
      case Zero => zeros
    }

    /** This snapshot with the list of kind k replaced by l. */
    function WithPoints(k: Kind, l: seq<Point>): (r: Snapshot)
      ensures r.Points(k) == l && r.Points(Other(k)) == Points(Other(k))
      ensures r.drag == drag
    {
      match k
      case Pole => this.(poles := l)
      case Zero => this.(zeros := l)
    }
  }

  /** The drag target of a Ctrl-press at p: the first pole within the pick
      radius; only when there is none, the first zero within it. */
  function PickForDrag(s: Snapshot, p: Point): (r: Option<Drag>)
    ensures r.Some? ==> r.value.index < |s.Points(r.value.kind)|
    ensures r.Some? ==> Within(s.Points(r.value.kind)[r.value.index], p)
    ensures r.None? <==> FirstWithin(s.poles, p).None? && FirstWithin(s.zeros, p).None?
    ensures (r.Some? && r.value.kind == Pole) <==> FirstWithin(s.poles, p).Some?
    ensures r.Some? ==> Some(r.value.index) == FirstWithin(s.Points(r.value.kind), p)
  {
    match FirstWithin(s.poles, p)
    case Some(i) => Some(Drag(Pole, i))
    case None =>
      match FirstWithin(s.zeros, p)
      case Some(i) => Some(Drag(Zero, i))
      case None => None
  }

  /** The effect of a button press. Ctrl is tested before the button, so a
      Ctrl-press of any button only looks for a drag target. */
  function AfterPress(s: Snapshot, e: MouseEvent): Snapshot {
    if !e.inAxes then s
    else if e.key == Control then
      match PickForDrag(s, e.pos)
      case Some(d) => s.(drag := Some(d))
      case None => s
    else
      match ButtonKind(e.button)
      case None => s
      case Some(k) =>
        var l := s.Points(k);
        if e.key == Shift then
          if |l| > 0 then s.WithPoints(k, RemoveAt(l, ArgMinFirst(l, e.pos))) else s
        else
          s.WithPoints(k, l + [e.pos])
  }

  /** Whether the press handler reaches its redraw: every press over the axes
      does, except a Ctrl-press that starts a drag, which returns early. */
  predicate PressRedraws(s: Snapshot, e: MouseEvent) {
    e.inAxes && !(e.key == Control && PickForDrag(s, e.pos).Some?)
  }

  /** Whether a motion event moves the dragged point: a drag is active, Ctrl
      is held, the pointer is over the axes and the drag index is inside its
      list (otherwise the list assignment fails before anything changes). */
  predicate MotionMoves(s: Snapshot, e: MouseEvent) {
    s.drag.Some? && e.key == Control && e.inAxes
    && s.drag.value.index < |s.Points(s.drag.value.kind)|
  }

  /** The effect of a motion event: the dragged point moves to the pointer. */
  function AfterMotion(s: Snapshot, e: MouseEvent): Snapshot {
    if MotionMoves(s, e) then
      var d := s.drag.value;
      s.WithPoints(d.kind, s.Points(d.kind)[d.index := e.pos])
    else s
  }

  /** The effect of a button release: the drag ends, whatever the event. */
  function AfterRelease(s: Snapshot, e: MouseEvent): Snapshot {
    s.(drag := None)
  }

  /** The three kinds of event the session reacts to. */
  datatype Event = Press(m: MouseEvent) | Motion(m: MouseEvent) | Release(m: MouseEvent)

  function Step(s: Snapshot, ev: Event): Snapshot {
    match ev
    case Press(e) => AfterPress(s, e)
    case Motion(e) => AfterMotion(s, e)
    case Release(e) => AfterRelease(s, e)
  }

  /** The state after a stream of events, delivered one at a time. */
  function Run(s: Snapshot, evs: seq<Event>): Snapshot
    decreases |evs|
  {
    if evs == [] then s else Run(Step(s, evs[0]), evs[1..])
  }

  /** The live session. The lists are changed in place by append, pop and
      index assignment; the drag selection is set and cleared. */
  class EditSession {
    var poles: seq<Point>
    var zeros: seq<Point>
    var drag: Option<Drag>

    /** A new session: no poles, no zeros, no drag. */
    constructor ()
      ensures View() == Snapshot([], [], None)
    {
      poles, zeros, drag := [], [], None;
    }

    function View(): Snapshot
      reads this
    {
      Snapshot(poles, zeros, drag)
    }

    /** The press handler; returns whether it asks for a redraw. */
    method OnPress(e: MouseEvent) returns (redraw: bool)
      modifies this
      ensures View() == AfterPress(old(View()), e)
      ensures redraw == PressRedraws(old(View()), e)
    {
      if !e.inAxes {
        return false;
      }
      var p := e.pos;
      if e.key == Control {
        var i := FindFirstWithin(poles, p);
        if i.Some? {
          drag := Some(Drag(Pole, i.value));
          return false;
        }
        var j := FindFirstWithin(zeros, p);
        if j.Some? {
          drag := Some(Drag(Zero, j.value));
          return false;
        }
      } else if e.button == LeftButton {
        if e.key == Shift {
          if |poles| > 0 {
            poles := RemoveAt(poles, ArgMinFirst(poles, p));
          }
        } else {
          poles := poles + [p];
        }
      } else if e.button == RightButton {
        if e.key == Shift {
          if |zeros| > 0 {
            zeros := RemoveAt(zeros, ArgMinFirst(zeros, p));
          }
        } else {
          zeros := zeros + [p];
        }
      }
      return true;
    }

    /** The motion handler; returns whether it asks for a redraw. */
    method OnMotion(e: MouseEvent) returns (redraw: bool)
      modifies this
      ensures View() == AfterMotion(old(View()), e)
      ensures redraw == MotionMoves(old(View()), e)
    {
      if drag.None? || e.key != Control {
        return false;
      }
      if !e.inAxes {
        return false;
      }
      var d := drag.value;
      if d.kind == Pole {
        if d.index >= |poles| {
          return false;
        }
        poles := poles[d.index := e.pos];
      } else {
        if d.index >= |zeros| {
          return false;
        }
        zeros := zeros[d.index := e.pos];
      }
      return true;
    }

    /** The release handler: it clears the drag and ignores the event. */
    method OnRelease(e: MouseEvent)
      modifies this
      ensures View() == AfterRelease(old(View()), e)
    {
      drag := None;
    }
  }
}
