/** What the three handlers promise, stated over Snapshot values and proved
    from the definitions in module Session. */
module SessionProperties {
  import opened Geometry
  import opened HitTest
  import opened Session

  // ---------------------------------------------------------------------
  // Press
  // ---------------------------------------------------------------------

  /** A press outside the pole/zero axes is ignored entirely. */
  lemma PressOutsideAxesIsIgnored(s: Snapshot, e: MouseEvent)
    requires !e.inAxes
    ensures AfterPress(s, e) == s
    ensures !PressRedraws(s, e)
  {
  }

  /** Ctrl is tested before the button: a Ctrl-press does the same whichever
      button it is made with. */
  lemma CtrlPressIgnoresButton(s: Snapshot, e: MouseEvent, b: nat)
    requires e.key == Control
    ensures AfterPress(s, e) == AfterPress(s, e.(button := b))
    ensures PressRedraws(s, e) == PressRedraws(s, e.(button := b))
  {
  }

  /** A Ctrl-press never changes the lists. */
  lemma CtrlPressKeepsLists(s: Snapshot, e: MouseEvent)
    requires e.key == Control
    ensures AfterPress(s, e).poles == s.poles
    ensures AfterPress(s, e).zeros == s.zeros
  {
  }

  /** A Ctrl-press within the pick radius of pole i, and of no earlier pole,
      starts dragging pole i, whatever zeros are near; it does not redraw. */
  lemma CtrlPressOnPole(s: Snapshot, e: MouseEvent, i: nat)
    requires e.inAxes && e.key == Control
    requires i < |s.poles| && Within(s.poles[i], e.pos)
    requires forall j :: 0 <= j < i ==> !Within(s.poles[j], e.pos)
    ensures AfterPress(s, e) == s.(drag := Some(Drag(Pole, i)))
    ensures !PressRedraws(s, e)
  {
  }

  /** When no pole is within the pick radius, a Ctrl-press within it of
      zero i, and of no earlier zero, starts dragging zero i. */
  lemma CtrlPressOnZero(s: Snapshot, e: MouseEvent, i: nat)
    requires e.inAxes && e.key == Control
    requires forall j :: 0 <= j < |s.poles| ==> !Within(s.poles[j], e.pos)
    requires i < |s.zeros| && Within(s.zeros[i], e.pos)
    requires forall j :: 0 <= j < i ==> !Within(s.zeros[j], e.pos)
    ensures AfterPress(s, e) == s.(drag := Some(Drag(Zero, i)))
    ensures !PressRedraws(s, e)
  {
  }

  /** A Ctrl-press near no point leaves the drag selection as it was (it is
      not cleared) and falls through to the redraw. */
  lemma CtrlPressMiss(s: Snapshot, e: MouseEvent)
    requires e.inAxes && e.key == Control
    requires forall j :: 0 <= j < |s.poles| ==> !Within(s.poles[j], e.pos)
    requires forall j :: 0 <= j < |s.zeros| ==> !Within(s.zeros[j], e.pos)
    ensures AfterPress(s, e) == s
    ensures PressRedraws(s, e)
  {
  }

  /** When a pole and a zero are both within the pick radius, the pole is
      the one dragged. */
  lemma CtrlPressPrefersPoles(s: Snapshot, e: MouseEvent, i: nat, j: nat)
    requires e.inAxes && e.key == Control
    requires i < |s.poles| && Within(s.poles[i], e.pos)
    requires j < |s.zeros| && Within(s.zeros[j], e.pos)
    ensures AfterPress(s, e).drag.Some?
    ensures AfterPress(s, e).drag.value.kind == Pole
  {
  }

  /** A left press (right press) with neither Ctrl nor Shift appends the
      point to the poles (zeros); nothing else changes. */
  lemma PlainPressAppends(s: Snapshot, e: MouseEvent, k: Kind)
    requires e.inAxes && e.key == OtherKey && ButtonKind(e.button) == Some(k)
    ensures AfterPress(s, e).Points(k) == s.Points(k) + [e.pos]
    ensures |AfterPress(s, e).Points(k)| == |s.Points(k)| + 1
    ensures forall j :: 0 <= j < |s.Points(k)| ==> AfterPress(s, e).Points(k)[j] == s.Points(k)[j]
    ensures AfterPress(s, e).Points(Other(k)) == s.Points(Other(k))
    ensures AfterPress(s, e).drag == s.drag
    ensures PressRedraws(s, e)
  {
  }

  /** A Shift-press of the left (right) button on a non-empty list of poles
      (zeros) removes exactly one point, at the first index of least
      distance to the click; the rest keep their order, and the other list
      and the drag selection do not change. */
  lemma ShiftPressRemovesNearest(s: Snapshot, e: MouseEvent, k: Kind)
    requires e.inAxes && e.key == Shift && ButtonKind(e.button) == Some(k)
    requires |s.Points(k)| > 0
    ensures exists i: nat :: IsFirstNearest(s.Points(k), e.pos, i)
                     && AfterPress(s, e).Points(k) == s.Points(k)[..i] + s.Points(k)[i + 1..]
    ensures |AfterPress(s, e).Points(k)| == |s.Points(k)| - 1
    ensures multiset(AfterPress(s, e).Points(k)) <= multiset(s.Points(k))
    ensures AfterPress(s, e).Points(Other(k)) == s.Points(Other(k))
    ensures AfterPress(s, e).drag == s.drag
    ensures PressRedraws(s, e)
  {
    var l := s.Points(k);
    var i := ArgMinFirst(l, e.pos);
    var r := RemoveAt(l, i);
    assert AfterPress(s, e).Points(k) == r;
    assert r == l[..i] + l[i + 1..];
  }

  /** A Shift-press on an empty list changes nothing, but still redraws. */
  lemma ShiftPressOnEmptyIsNoOp(s: Snapshot, e: MouseEvent, k: Kind)
    requires e.inAxes && e.key == Shift && ButtonKind(e.button) == Some(k)
    requires |s.Points(k)| == 0
    ensures AfterPress(s, e) == s
    ensures PressRedraws(s, e) == true
  {
  }

  /** Without Ctrl, a press of a button other than left and right changes
      nothing. */
  lemma OtherButtonIsIgnored(s: Snapshot, e: MouseEvent)
    requires e.key != Control && e.button != LeftButton && e.button != RightButton
    ensures AfterPress(s, e) == s
  {
  }

  /** Adding a point and then Shift-pressing at the same place with the same
      button gives the list back, when the new point is strictly closer to
      itself than to any point already there. */
  lemma AddThenRemoveRestores(s: Snapshot, p: Point, button: nat, k: Kind)
    requires ButtonKind(button) == Some(k)
    requires forall j :: 0 <= j < |s.Points(k)| ==> DistSq(s.Points(k)[j], p) > 0.0
    ensures AfterPress(AfterPress(s, MouseEvent(true, p, button, OtherKey)),
                       MouseEvent(true, p, button, Shift)) == s
  {
    var l := s.Points(k);
    var t := AfterPress(s, MouseEvent(true, p, button, OtherKey));
    assert t.Points(k) == l + [p];
    // the added point is at distance zero from the click, every other one
    // at positive distance, so it is the first nearest
    assert DistSq(p, p) == 0.0;
    var m := ArgMinFirst(l + [p], p);
    assert (l + [p])[|l|] == p;
    assert m == |l|;
    assert RemoveAt(l + [p], m) == l;
    assert AfterPress(t, MouseEvent(true, p, button, Shift)) == t.WithPoints(k, l);
  }

  // ---------------------------------------------------------------------
  // Motion and release
  // ---------------------------------------------------------------------

  /** A drag index points into its list. */
  predicate DragInRange(s: Snapshot) {
    s.drag.Some? ==> s.drag.value.index < |s.Points(s.drag.value.kind)|
  }

  /** A motion event that moves overwrites only the dragged element of the
      dragged list: lengths, other elements, the other list and the drag
      selection stay as they were. */
  lemma MotionMovesOnlyDragged(s: Snapshot, e: MouseEvent, k: Kind, i: nat)
    requires s.drag == Some(Drag(k, i)) && i < |s.Points(k)|
    requires e.key == Control && e.inAxes
    ensures AfterMotion(s, e).Points(k)[i] == e.pos
    ensures |AfterMotion(s, e).Points(k)| == |s.Points(k)|
    ensures forall j :: 0 <= j < |s.Points(k)| && j != i ==> AfterMotion(s, e).Points(k)[j] == s.Points(k)[j]
    ensures AfterMotion(s, e).Points(Other(k)) == s.Points(Other(k))
    ensures AfterMotion(s, e).drag == s.drag
    ensures DragInRange(AfterMotion(s, e))
  {
  }

  /** A motion event with no drag, without Ctrl or outside the axes changes
      nothing and does not redraw. */
  lemma MotionIsIgnored(s: Snapshot, e: MouseEvent)
    requires s.drag.None? || e.key != Control || !e.inAxes
    ensures AfterMotion(s, e) == s
    ensures !MotionMoves(s, e)
  {
  }

  /** A motion event changes the session only when it moves a point; the
      redraw accompanies every change. */
  lemma MotionChangeRedraws(s: Snapshot, e: MouseEvent)
    ensures AfterMotion(s, e) != s ==> MotionMoves(s, e)
  {
  }

  /** Every press that changes a list asks for a redraw. */
  lemma PressChangeRedraws(s: Snapshot, e: MouseEvent)
    ensures AfterPress(s, e).poles != s.poles || AfterPress(s, e).zeros != s.zeros
            ==> PressRedraws(s, e)
  {
  }

  /** A release clears the drag whatever the event, and keeps both lists. */
  lemma ReleaseClearsDrag(s: Snapshot, e: MouseEvent)
    ensures AfterRelease(s, e).drag.None?
    ensures AfterRelease(s, e).poles == s.poles
    ensures AfterRelease(s, e).zeros == s.zeros
  {
  }

  /** A drag index that is in range stays in range through motion, release,
      and every press other than a Shift-press. */
  lemma DragStaysInRange(s: Snapshot, ev: Event)
    requires DragInRange(s)
    requires ev.Press? ==> ev.m.key != Shift
    ensures DragInRange(Step(s, ev))
  {
  }

  /** A Shift-press during a drag can leave the drag index past the end of
      its list; a Ctrl-motion then changes nothing. */
  lemma RemovalCanStrandDrag()
    ensures var s := Snapshot([Point(0.0, 0.0)], [], Some(Drag(Pole, 0)));
            var t := AfterPress(s, MouseEvent(true, Point(0.5, 0.5), LeftButton, Shift));
            && t.poles == []
            && t.drag == Some(Drag(Pole, 0))
            && !DragInRange(t)
            && AfterMotion(t, MouseEvent(true, Point(0.2, 0.2), 0, Control)) == t
  {
  }

  /** A Shift-press during a drag shifts the indices after the removed point,
      so the selection moves on to the next point of the list. */
  lemma RemovalRetargetsDrag()
    ensures var s := Snapshot([Point(0.0, 0.0), Point(1.0, 0.0)], [], Some(Drag(Pole, 0)));
            var t := AfterPress(s, MouseEvent(true, Point(0.0, 0.0), LeftButton, Shift));
            var u := AfterMotion(t, MouseEvent(true, Point(0.5, 0.5), 0, Control));
            u.poles == [Point(0.5, 0.5)]
  {
  }

  // ---------------------------------------------------------------------
  // Event streams
  // ---------------------------------------------------------------------

  lemma {:induction false} RunAppend(s: Snapshot, a: seq<Event>, b: seq<Event>)
    ensures Run(s, a + b) == Run(Run(s, a), b)
    decreases |a|
  {
    if a == [] {
      assert a + b == b;
    } else {
      assert (a + b)[0] == a[0];
      assert (a + b)[1..] == a[1..] + b;
      RunAppend(Step(s, a[0]), a[1..], b);
    }
  }

  /** Any number of motion events during a drag of point i of list k change
      at most that point: the length of the list, its other points, the
      other list and the drag selection are kept. */
  lemma {:induction false} MotionsKeepAllButDragged(s: Snapshot, evs: seq<Event>, k: Kind, i: nat)
    requires s.drag == Some(Drag(k, i)) && i < |s.Points(k)|
    requires forall n :: 0 <= n < |evs| ==> evs[n].Motion?
    ensures Run(s, evs).drag == s.drag
    ensures |Run(s, evs).Points(k)| == |s.Points(k)|
    ensures forall j :: 0 <= j < |s.Points(k)| && j != i ==> Run(s, evs).Points(k)[j] == s.Points(k)[j]
    ensures Run(s, evs).Points(Other(k)) == s.Points(Other(k))
    decreases |evs|
  {
    if evs != [] {
      var t := Step(s, evs[0]);
      assert t == AfterMotion(s, evs[0].m);
      MotionsKeepAllButDragged(t, evs[1..], k, i);
    }
  }

  /** A whole drag: a Ctrl-press that picks point i of list k, any number of
      motion events, then a release. Afterwards the drag is over, the other
      list is as it was, and in the dragged list only point i may differ. */
  lemma DragSession(s: Snapshot, press: MouseEvent, moves: seq<Event>, release: MouseEvent, k: Kind, i: nat)
    requires press.inAxes && press.key == Control
    requires PickForDrag(s, press.pos) == Some(Drag(k, i))
    requires forall n :: 0 <= n < |moves| ==> moves[n].Motion?
    ensures var r := Run(s, [Press(press)] + moves + [Release(release)]);
            && r.drag.None?
            && |r.Points(k)| == |s.Points(k)|
            && (forall j :: 0 <= j < |s.Points(k)| && j != i ==> r.Points(k)[j] == s.Points(k)[j])
            && r.Points(Other(k)) == s.Points(Other(k))
  {
    var t := AfterPress(s, press);
    assert t == s.(drag := Some(Drag(k, i)));
    assert Run(s, [Press(press)]) == t;
    RunAppend(s, [Press(press)], moves);
    RunAppend(s, [Press(press)] + moves, [Release(release)]);
    MotionsKeepAllButDragged(t, moves, k, i);
    var u := Run(t, moves);
    assert Run(u, [Release(release)]) == AfterRelease(u, release);
  }

  // ---------------------------------------------------------------------
  // Pick radius
  // ---------------------------------------------------------------------

  /** Two instances of the strict pick radius, against the origin: a point
      at distance 0.1 is not hit, one at distance 0.09 is. */
  lemma PickRadiusExamples()
    ensures FirstWithin([Point(0.1, 0.0)], Point(0.0, 0.0)) == None
    ensures FirstWithin([Point(0.0, 0.09)], Point(0.0, 0.0)) == Some(0)
  {
  }
}
