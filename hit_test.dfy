/** Searches and edits over one ordered list of points (the poles or the
    zeros): the first-match hit test of a drag start, the index of the point
    nearest to a click, and removal at an index. */
module HitTest {
  import opened Geometry

  datatype Option<T> = None | Some(value: T)

  /** The lowest index whose point lies within the pick radius of p, or None
      when no point of s does. */
  function FirstWithin(s: seq<Point>, p: Point): (r: Option<nat>)
    ensures r.Some? ==> r.value < |s| && Within(s[r.value], p)
    ensures r.Some? ==> forall j :: 0 <= j < r.value ==> !Within(s[j], p)
    ensures r.None? <==> forall j :: 0 <= j < |s| ==> !Within(s[j], p)
  {
    if |s| == 0 then None
    else if Within(s[0], p) then Some(0)
    else
      match FirstWithin(s[1..], p)
      case None => None
      case Some(k) => Some(k + 1)
  }

  /** The hit test as the editor runs it: scan the list in order and stop at
      the first point within the pick radius. */
  method FindFirstWithin(s: seq<Point>, p: Point) returns (r: Option<nat>)
    ensures r == FirstWithin(s, p)
  {
    var i := 0;
    while i < |s|
      invariant 0 <= i <= |s|
      invariant forall j :: 0 <= j < i ==> !Within(s[j], p)
    {
      if Within(s[i], p) {
        return Some(i);
      }
      i := i + 1;
    }
    return None;
  }

  /** Index i of s holds a point nearest to p, and no earlier index does. */
  predicate IsFirstNearest(s: seq<Point>, p: Point, i: nat) {
    && i < |s|
    && (forall j :: 0 <= j < |s| ==> DistSq(s[i], p) <= DistSq(s[j], p))
    && (forall j :: 0 <= j < i ==> DistSq(s[i], p) < DistSq(s[j], p))
  }

  /** At most one index is the first nearest one. */
  lemma FirstNearestUnique(s: seq<Point>, p: Point, i: nat, k: nat)
    requires IsFirstNearest(s, p, i) && IsFirstNearest(s, p, k)
    ensures i == k
  {
    var di, dk := DistSq(s[i], p), DistSq(s[k], p);
    assert di <= dk && dk <= di;
  }

  /** The first index at which the distance to p is smallest, as an argmin
      over the list of distances returns it. */
  function ArgMinFirst(s: seq<Point>, p: Point): (k: nat)
    requires |s| > 0
    ensures IsFirstNearest(s, p, k)
  {
    if |s| == 1 then 0
    else
      var k := ArgMinFirst(s[..|s| - 1], p);
      if DistSq(s[|s| - 1], p) < DistSq(s[k], p) then |s| - 1 else k
  }

  /** Index i of a list of reals holds its least value, and no earlier index
      does: what numpy's argmin returns. */
  predicate IsFirstMin(ds: seq<real>, i: nat) {
    && i < |ds|
    && (forall j :: 0 <= j < |ds| ==> ds[i] <= ds[j])
    && (forall j :: 0 <= j < i ==> ds[i] < ds[j])
  }

  /** ds is the list of Euclidean distances from the points of s to p, as
      the editor builds it before taking the argmin. */
  predicate IsDistanceList(s: seq<Point>, p: Point, ds: seq<real>) {
    && |ds| == |s|
    && forall j :: 0 <= j < |s| ==> ds[j] >= 0.0 && ds[j] * ds[j] == DistSq(s[j], p)
  }

  /** Two entries of a distance list compare as the squared distances do. */
  lemma OrderAt(s: seq<Point>, p: Point, ds: seq<real>, a: nat, b: nat)
    requires IsDistanceList(s, p, ds) && a < |s| && b < |s|
    ensures ds[a] < ds[b] <==> DistSq(s[a], p) < DistSq(s[b], p)
    ensures ds[a] == ds[b] <==> DistSq(s[a], p) == DistSq(s[b], p)
  {
    DistanceOrder(s[a], s[b], p, ds[a], ds[b]);
  }

  /** An entry of a distance list passes the editor's test exactly when its
      point is Within the pick radius. */
  lemma PickTestAt(s: seq<Point>, p: Point, ds: seq<real>, j: nat)
    requires IsDistanceList(s, p, ds) && j < |s|
    ensures ds[j] < PickRadius <==> Within(s[j], p)
  {
    WithinIsPickTest(s[j], p, ds[j]);
  }

  /** The argmin over squared distances is the argmin over the list of
      Euclidean distances. */
  lemma ArgMinOverDistances(s: seq<Point>, p: Point, ds: seq<real>)
    requires |s| > 0 && IsDistanceList(s, p, ds)
    ensures IsFirstMin(ds, ArgMinFirst(s, p))
  {
    var k := ArgMinFirst(s, p);
    forall j | 0 <= j < |s|
      ensures ds[k] <= ds[j] && (j < k ==> ds[k] < ds[j])
    {
      OrderAt(s, p, ds, k, j);
    }
  }

  /** The first-match search over squared distances finds the same index as
      the editor's test, Euclidean distance below 0.1, applied in order. */
  lemma FirstWithinOverDistances(s: seq<Point>, p: Point, ds: seq<real>)
    requires IsDistanceList(s, p, ds)
    ensures FirstWithin(s, p).Some? ==> ds[FirstWithin(s, p).value] < PickRadius
    ensures FirstWithin(s, p).Some? ==>
              forall j :: 0 <= j < FirstWithin(s, p).value ==> ds[j] >= PickRadius
    ensures FirstWithin(s, p).None? <==> forall j :: 0 <= j < |s| ==> ds[j] >= PickRadius
  {
    forall j | 0 <= j < |s|
      ensures ds[j] < PickRadius <==> Within(s[j], p)
    {
      PickTestAt(s, p, ds, j);
    }
  }

  /** The pick radius is strict: a point at distance exactly 0.1 is not hit,
      and every point closer than that is. */
  lemma PickRadiusIsStrict(q: Point, p: Point)
    ensures DistSq(q, p) == PickRadiusSquared ==> FirstWithin([q], p) == None
    ensures DistSq(q, p) < PickRadiusSquared ==> FirstWithin([q], p) == Some(0)
  {
  }

  /** s with the element at index i taken out; the others keep their order. */
  function RemoveAt(s: seq<Point>, i: nat): (r: seq<Point>)
    requires i < |s|
    ensures |r| == |s| - 1
    ensures forall j :: 0 <= j < i ==> r[j] == s[j]
    ensures forall j :: i <= j < |r| ==> r[j] == s[j + 1]
    ensures multiset(r) + multiset{s[i]} == multiset(s)
  {
    assert s == s[..i] + [s[i]] + s[i + 1..];
    s[..i] + s[i + 1..]
  }
}
