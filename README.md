# Pole/zero editing session

A Dafny model of the editing core of an interactive pole-zero plot. The user
places poles and zeros of a discrete-time transfer function on a complex-plane
plot. A plain left click adds a pole and a plain right click adds a zero.
Shift with a click removes the nearest pole or zero. Ctrl with a click picks a
point, which then follows Ctrl-held mouse motion until the button is released.

The session state is two ordered lists of complex points, `poles` and `zeros`,
plus an optional drag selection (which list, which index). Three event
handlers change that state: press, motion and release.

Files:

- `geometry.dfy` (module `Geometry`): points as pairs of reals, the squared
  distance, and the pick test within radius 0.1. Lemmas show that comparing
  squared distances gives the same answers as comparing distances, both for the
  radius test and for the "nearest" ordering.
- `hit_test.dfy` (module `HitTest`): the first-match hit test, as a
  specification function `FirstWithin` and as the editor's scanning loop
  `FindFirstWithin`. Also the argmin with first-index tie-break `ArgMinFirst`,
  and removal at an index `RemoveAt`.
- `session.dfy` (module `Session`): events, the `Snapshot` value, and the
  functions `AfterPress`, `AfterMotion` and `AfterRelease`, which say what each
  event does. The class `EditSession` holds the fields that the handlers update
  in place. Its methods `OnPress`, `OnMotion` and `OnRelease` are proved to
  agree with those functions. `Run` folds a stream of events.
- `properties.dfy` (module `SessionProperties`): lemmas stating what each
  handler promises, and what a whole drag (press, motions, release) does.

Modelling decisions:

- The source's `dragging_item` and `dragging_type` are always set together and
  cleared together, so they become one `Option<Drag>`.
- The key is `Control`, `Shift` or `OtherKey`. The code compares the key with
  the exact names `'control'` and `'shift'`. No key, any other key, and
  Ctrl+Shift held together are all `OtherKey`.
- The button is a number: 1 is left, 3 is right, and 0 means no button.
- Each handler returns whether it reaches its redraw call (`update_plot`).
  A Ctrl-press that starts a drag returns before the redraw. A Ctrl-press that
  hits nothing, a middle-button press, and a Shift-press on an empty list all
  still redraw.
- A motion whose drag index is past the end of its list changes nothing and
  does not redraw. The source's index assignment fails with an index error
  there, before anything is written. This can only happen after a Shift-press
  that removes a point during a drag; `RemovalCanStrandDrag` and
  `RemovalRetargetsDrag` show both consequences.
- Where a reader might expect otherwise, the model follows the code:
  - The drag hit test picks the FIRST point within the radius, not the nearest
    one (UI1.py:50-59).
  - A Ctrl-press behaves the same for every button (UI1.py:48 is tested before
    UI1.py:60).
  - A Ctrl-press that hits nothing does not clear an existing drag selection.
  - Presses are handled the same way whether or not a drag is in progress.

## Model

| member | source | states |
|---|---|---|
| `Geometry.WithinIsPickTest` | UI1.py:51-56 | for the Euclidean distance d of two points, the source's test d < 0.1 holds exactly when the squared-distance test `Within` holds |
| `Geometry.DistanceOrder` | UI1.py:63-64 | for one pair of points, comparing their distances to a common point gives the same order (and the same ties) as comparing their squared distances; `HitTest.ArgMinOverDistances` lifts this to the whole list |
| `Geometry.DistSqSymmetric` | UI1.py:51 | the distance between a and b equals the distance between b and a, as `abs(pole - click_point)` and `abs(click_point - p)` are used interchangeably |
| `HitTest.FirstWithin` | UI1.py:50-59 | returns an index that is in range, within the pick radius, and preceded by no index within it; returns None exactly when no point is within the radius |
| `HitTest.FindFirstWithin` | UI1.py:50-54 | the in-order scan with early return yields exactly `FirstWithin` of the list and the click point |
| `HitTest.ArgMinFirst` | UI1.py:63-64 | on a non-empty list, returns an index holding a point of least distance to the click, with no earlier index as close (numpy argmin tie-break) |
| `HitTest.ArgMinOverDistances` | UI1.py:63-64 | for the source's list of Euclidean distances from each point to the click, `ArgMinFirst` is the first index of its least value, which is what argmin of that list returns |
| `HitTest.FirstWithinOverDistances` | UI1.py:50-59 | over the same distance list, `FirstWithin` finds the lowest index whose distance is below 0.1, and finds none exactly when every distance is at least 0.1 |
| `HitTest.PickRadiusIsStrict` | UI1.py:51-56 | for every pair of points, a point at squared distance exactly 0.01 (distance 0.1) is not hit, and every point closer than that is |
| `HitTest.FirstNearestUnique` | UI1.py:64 | at most one index is the first nearest, so the index that pop removes is determined |
| `HitTest.RemoveAt` | UI1.py:64 | pop at index i shortens the list by one, keeps the order of the points before and after i, and removes exactly the one occurrence s[i] from the multiset |
| `Session.ButtonKind` | UI1.py:60-73 | button 1 selects the poles and button 3 the zeros; every other button selects neither |
| `Session.PickForDrag` | UI1.py:48-59 | a drag target, when there is one, indexes a point in range of its list and within the pick radius of the press, at the first such index of that list; there is none exactly when no pole and no zero is within the radius; the target is a pole exactly when some pole is within it |
| `Session.EditSession.constructor` | UI1.py:6-11 | a new session has no poles, no zeros and no drag |
| `Session.EditSession.OnPress` | UI1.py:40-75 | the new state is `AfterPress` of the old state and the event; the redraw flag is set exactly when the handler reaches `update_plot` |
| `Session.EditSession.OnMotion` | UI1.py:78-94 | the new state is `AfterMotion` of the old state and the event; the redraw flag is set exactly when a point was moved |
| `Session.EditSession.OnRelease` | UI1.py:97-100 | the new state is `AfterRelease` of the old state: the drag is cleared |
| `SessionProperties.PressOutsideAxesIsIgnored` | UI1.py:42-43 | a press outside the axes changes neither list nor the drag, and does not redraw |
| `SessionProperties.CtrlPressIgnoresButton` | UI1.py:48-60 | a Ctrl-press has the same effect and the same redraw whichever button is pressed |
| `SessionProperties.CtrlPressKeepsLists` | UI1.py:48-59 | a Ctrl-press never changes the poles or the zeros |
| `SessionProperties.CtrlPressOnPole` | UI1.py:50-54 | with pole i the lowest-indexed pole within 0.1 of the press, the drag becomes (pole, i), nothing else changes, and there is no redraw |
| `SessionProperties.CtrlPressOnZero` | UI1.py:55-59 | when no pole is within 0.1, with zero i the lowest-indexed zero within it, the drag becomes (zero, i), nothing else changes, and there is no redraw |
| `SessionProperties.CtrlPressMiss` | UI1.py:48-59 | a Ctrl-press near no pole and no zero leaves the whole state, including an existing drag, unchanged, and redraws |
| `SessionProperties.CtrlPressPrefersPoles` | UI1.py:50-59 | when both a pole and a zero are within the radius, the pole is selected |
| `SessionProperties.PlainPressAppends` | UI1.py:65-73 | a plain left (right) press appends the point to the poles (zeros): length plus one, earlier points unchanged, the other list and the drag unchanged, and a redraw |
| `SessionProperties.ShiftPressRemovesNearest` | UI1.py:61-71 | a Shift-left (right) press on non-empty poles (zeros) removes exactly the point at the first index of least distance; the rest keep their order, and the other list and the drag are unchanged |
| `SessionProperties.ShiftPressOnEmptyIsNoOp` | UI1.py:61-71 | a Shift-press on an empty list changes nothing but still redraws |
| `SessionProperties.OtherButtonIsIgnored` | UI1.py:60-73 | without Ctrl, a press of a button other than 1 or 3 changes nothing |
| `SessionProperties.AddThenRemoveRestores` | UI1.py:61-73 | appending a point and then Shift-pressing at it with the same button restores the state, when every point already in that list is at positive distance from it |
| `SessionProperties.MotionMovesOnlyDragged` | UI1.py:85-92 | a Ctrl motion over the axes during a drag with an in-range index overwrites exactly that element; lengths, other elements, the other list and the drag are unchanged, and the index stays in range |
| `SessionProperties.MotionIsIgnored` | UI1.py:80-83 | a motion with no drag, without Ctrl or outside the axes changes nothing and does not redraw |
| `SessionProperties.MotionChangeRedraws` | UI1.py:89-94 | a motion event that changes the state always redraws |
| `SessionProperties.PressChangeRedraws` | UI1.py:60-75 | a press that changes either list always redraws |
| `SessionProperties.ReleaseClearsDrag` | UI1.py:97-100 | a release clears the drag whatever the event and keeps both lists |
| `SessionProperties.DragStaysInRange` | UI1.py:48-100 | an in-range drag index stays in range through motion, release and every press except a Shift-press |
| `SessionProperties.RemovalCanStrandDrag` | UI1.py:61-64 | a Shift-press during a drag can leave the drag index past the end of its list; a later Ctrl motion then changes nothing |
| `SessionProperties.RemovalRetargetsDrag` | UI1.py:61-64 | a Shift-press during a drag shifts the indices, so a later Ctrl motion moves a different point |
| `SessionProperties.MotionsKeepAllButDragged` | UI1.py:78-94 | any number of motion events during a drag keep the drag, the other list, the length of the dragged list and every point but the dragged one |
| `SessionProperties.DragSession` | UI1.py:48-100 | a Ctrl-press on point i, any motions, then a release: the drag is over, the other list is unchanged, and only point i of the dragged list may differ |
| `SessionProperties.PickRadiusExamples` | UI1.py:51 | against the origin, the point (0.1, 0) is not hit and the point (0, 0.09) is |

## Left out

- Plotting, markers, the unit circle, the redraw itself (`update_plot`), the
  "Compute TF" button, event wiring and the event loop (UI1.py:14-37,
  UI1.py:103-105, UI1.py:115-124). These are toolkit plumbing. The model keeps
  only whether a handler asks for a redraw.
- `compute_tf` (UI1.py:108-112). It hands the roots to SciPy's `zpk2tf` and
  prints the coefficients. That is foreign floating-point numerics and console
  output, and the code shown does not define the conversion itself.
- Floating point and `np.abs`. Points have exact real coordinates. Distances
  are compared squared, with the pick radius squared (0.01). The lemmas in
  `Geometry` show this gives the same answers as comparing the distances.
- The handlers' event-key strings. They are abstracted into the `Key`
  enumeration.
- What the toolkit does with the index error raised by a motion with a stale
  drag index. The model records only that nothing changes.
- The lists are immutable sequences that the class's methods reassign. Their
  aliasing with the plotting code (one list object shared by reference) is not
  modelled.
- Rejecting events with non-finite coordinates. The code does not do this,
  and exact reals have no non-finite values.
