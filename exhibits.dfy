/**
 * Exhibits: the snapshot of the artwork entities' positions and the
 * nearest-exhibit selection over it.
 *
 * Positions are integer triples and distances are compared squared;
 * `DistanceOrder` shows that `dist < best` and `dist <= maxDistance` on the
 * non-negative roots decide the same as on the squares.
 */
module Exhibits {
  import opened JsValues

  datatype Point = Point(x: int, y: int, z: int)

  /** A scene element as far as this system looks at it: the position of its
      `object3D`, absent when the element has no `object3D` or no position. */
  datatype Element = Element(position: Option<Point>)

  /** An entry of `state.displays`: a creature id and a copy of a position. */
  datatype Display = Display(id: string, position: Point)

  /** One row of the fixed entity-to-creature table. */
  datatype MappingEntry = MappingEntry(entityId: string, creatureId: string)

  const Mapping: seq<MappingEntry> := [
    MappingEntry("artwork1", "artwork1"),
    MappingEntry("artwork2", "artwork2"),
    MappingEntry("artwork3", "artwork3"),
    MappingEntry("artwork4", "artwork4"),
    MappingEntry("artwork5", "artwork5"),
    MappingEntry("artwork6", "artwork6"),
    MappingEntry("artwork7", "artwork7")
  ]

  // ---------------------------------------------------------------------
  // map(...).filter(Boolean)

  /** `filter(Boolean)` over the results of a `map` that yields null for the
      entries it drops. */
  function Compact<T>(s: seq<Option<T>>): (r: seq<T>)
    ensures |r| <= |s|
  {
    if s == [] then []
    else (if s[0].Some? then [s[0].value] else []) + Compact(s[1..])
  }

  /** The position in `s` that the `i`-th kept value came from. */
  function SomeIndex<T>(s: seq<Option<T>>, i: nat): (k: nat)
    requires i < |Compact(s)|
    ensures k < |s| && s[k] == Some(Compact(s)[i])
    decreases |s|
  {
    if s[0].Some? then
      if i == 0 then 0 else 1 + SomeIndex(s[1..], i - 1)
    else 1 + SomeIndex(s[1..], i)
  }

  /** The place in the result that a kept position of `s` goes to. */
  function RankOf<T>(s: seq<Option<T>>, k: nat): (i: nat)
    requires k < |s| && s[k].Some?
    ensures i < |Compact(s)| && SomeIndex(s, i) == k
    decreases |s|
  {
    if k == 0 then 0
    else if s[0].Some? then 1 + RankOf(s[1..], k - 1)
    else RankOf(s[1..], k - 1)
  }

  /** The filter keeps the order of the entries it keeps. */
  lemma {:induction false} SomeIndexIncreasing<T>(s: seq<Option<T>>, i: nat, j: nat)
    requires i < j < |Compact(s)|
    ensures SomeIndex(s, i) < SomeIndex(s, j)
    decreases |s|
  {
    if s[0].Some? {
      if i > 0 {
        SomeIndexIncreasing(s[1..], i - 1, j - 1);
      }
    } else {
      SomeIndexIncreasing(s[1..], i, j);
    }
  }

  /** The `map` step of `populateDisplaysFromScene` for one table row: the
      element looked up by id, dropped if absent or without a position. */
  function Lookup(scene: map<string, Element>, m: MappingEntry): (r: Option<Display>)
  {
    if m.entityId in scene && scene[m.entityId].position.Some?
    then Some(Display(m.creatureId, scene[m.entityId].position.value))
    else None
  }

  function Lookups(scene: map<string, Element>): seq<Option<Display>>
  {
    seq(|Mapping|, k requires 0 <= k < |Mapping| => Lookup(scene, Mapping[k]))
  }

  /** The displays snapshotted from a scene. */
  function DisplaysFromScene(scene: map<string, Element>): (r: seq<Display>)
    ensures |r| <= |Mapping| == 7
  {
    Compact(Lookups(scene))
  }

  /** The snapshot keeps the rows of the table in order, exactly those whose
      element has a position, each with the row's creature id and the
      element's position. */
  lemma SnapshotFaithful(scene: map<string, Element>)
    ensures forall i :: 0 <= i < |DisplaysFromScene(scene)| ==>
      var k := SomeIndex(Lookups(scene), i);
      var m := Mapping[k];
      && m.entityId in scene
      && scene[m.entityId].position == Some(DisplaysFromScene(scene)[i].position)
      && DisplaysFromScene(scene)[i].id == m.creatureId
    ensures forall i, j :: 0 <= i < j < |DisplaysFromScene(scene)| ==>
      SomeIndex(Lookups(scene), i) < SomeIndex(Lookups(scene), j)
    ensures forall k :: 0 <= k < |Mapping| ==>
      (Lookups(scene)[k].Some? <==> Mapping[k].entityId in scene && scene[Mapping[k].entityId].position.Some?)
    ensures forall k :: 0 <= k < |Mapping| && Lookups(scene)[k].Some? ==>
      var i := RankOf(Lookups(scene), k);
      i < |DisplaysFromScene(scene)| &&
      DisplaysFromScene(scene)[i] ==
        Display(Mapping[k].creatureId, scene[Mapping[k].entityId].position.value)
  {
    var s := Lookups(scene);
    forall i, j | 0 <= i < j < |Compact(s)|
      ensures SomeIndex(s, i) < SomeIndex(s, j)
    {
      SomeIndexIncreasing(s, i, j);
    }
  }

  // ---------------------------------------------------------------------
  // findNearestExhibit

  /** `n * n` for a natural number, written as a sum of odd numbers so that
      the proofs about the scan stay within linear arithmetic. */
  function SqNat(n: nat): nat {
    if n == 0 then 0 else SqNat(n - 1) + 2 * n - 1
  }

  /** `n * n`. */
  function Sq(n: int): nat {
    SqNat(if n < 0 then -n else n)
  }

  lemma {:induction false} SqIsSquare(n: int)
    ensures Sq(n) == n * n
  {
    var m: nat := if n < 0 then -n else n;
    SqNatIsSquare(m);
    assert m * m == n * n;
  }

  lemma {:induction false} SqNatIsSquare(n: nat)
    ensures SqNat(n) == n * n
  {
    if n > 0 {
      SqNatIsSquare(n - 1);
    }
  }

  /** `distanceTo` gives the non-negative root of the squared distance. For
      such roots `r` and `s` of `u` and `v`, comparing `r` with `s` (as in
      `dist < nearestDist` and `dist <= maxDistance`) decides the same as
      comparing `u` with `v`, which is the comparison the model makes. */
  lemma DistanceOrder(r: real, s: real, u: nat, v: nat)
    requires 0.0 <= r && 0.0 <= s
    requires r * r == u as real && s * s == v as real
    ensures r < s <==> u < v
    ensures r <= s <==> u <= v
  {
    if r < s {
      SquaresIncrease(r, s);
    } else if s < r {
      SquaresIncrease(s, r);
    }
  }

  lemma SquaresIncrease(a: real, b: real)
    requires 0.0 <= a < b
    ensures a * a < b * b
  {
    var aa, ab, bb := a * a, a * b, b * b;
    assert aa <= ab;
    assert ab < bb;
  }

  /** Squared Euclidean distance. */
  function Dist2(a: Point, b: Point): nat {
    Sq(a.x - b.x) + Sq(a.y - b.y) + Sq(a.z - b.z)
  }

  /** The squared distance of each display from `p`, in list order. */
  function Dists(ds: seq<Display>, p: Point): seq<nat> {
    seq(|ds|, i requires 0 <= i < |ds| => Dist2(ds[i].position, p))
  }

  /** `dist <= maxDistance`, squared. */
  predicate InRange(d: Display, p: Point, maxDistance: nat) {
    Dist2(d.position, p) <= Sq(maxDistance)
  }

  /** The best distance seen so far; `Infinity` before any candidate. */
  datatype Bound = Infinity | Finite(d2: nat)

  /** `dist < nearestDist`, squared. */
  predicate Below(d2: nat, b: Bound) {
    b.Infinity? || d2 < b.d2
  }

  /** The index the left-to-right scan over the squared distances `d` ends
      on: an entry replaces the current best only when it is strictly closer
      and within the squared radius `limit`. */
  function ScanIndex(d: seq<nat>, limit: nat): (r: Option<nat>)
    ensures r.Some? ==> r.value < |d| && d[r.value] <= limit
    decreases |d|
  {
    if d == [] then None
    else
      var best := ScanIndex(d[..|d| - 1], limit);
      var bound := if best.Some? then Finite(d[best.value]) else Infinity;
      if Below(d[|d| - 1], bound) && d[|d| - 1] <= limit
      then Some(|d| - 1) else best
  }

  /** Entry `i` is within the limit, no entry within the limit is smaller,
      and every entry within the limit before it is strictly larger. */
  ghost predicate IsLeastAt(d: seq<nat>, limit: nat, i: int) {
    && 0 <= i < |d|
    && d[i] <= limit
    && (forall j :: 0 <= j < |d| && d[j] <= limit ==> d[i] <= d[j])
    && (forall j :: 0 <= j < i && d[j] <= limit ==> d[i] < d[j])
  }

  /** At most one entry is the least in that sense: ties go to the earliest. */
  lemma LeastAtUnique(d: seq<nat>, limit: nat, i: int, j: int)
    requires IsLeastAt(d, limit, i) && IsLeastAt(d, limit, j)
    ensures i == j
  {
  }

  /** The scan finds nothing exactly when no entry is within the limit, and
      otherwise finds the least entry within it, the earliest on ties. */
  lemma {:induction false} ScanIndexCorrect(d: seq<nat>, limit: nat)
    ensures ScanIndex(d, limit).None? <==> forall j :: 0 <= j < |d| ==> d[j] > limit
    ensures ScanIndex(d, limit).Some? ==> IsLeastAt(d, limit, ScanIndex(d, limit).value)
    decreases |d|
  {
    if d != [] {
      var init := d[..|d| - 1];
      ScanIndexCorrect(init, limit);
      assert forall j :: 0 <= j < |init| ==> init[j] == d[j];
    }
  }

  /** `findNearestExhibit` on a list of displays: the scan over their
      squared distances with the squared radius. */
  function NearestIndex(ds: seq<Display>, p: Point, maxDistance: nat): (r: Option<nat>)
    ensures r.Some? ==> r.value < |ds| && InRange(ds[r.value], p, maxDistance)
  {
    ScanIndex(Dists(ds, p), Sq(maxDistance))
  }

  /** The display the scan returns, if any. */
  function Nearest(ds: seq<Display>, p: Point, maxDistance: nat): (r: Option<Display>)
    ensures r.Some? ==> r.value in ds && InRange(r.value, p, maxDistance)
  {
    match NearestIndex(ds, p, maxDistance)
    case None => None
    case Some(i) => Some(ds[i])
  }

  /** Display `i` is in range, no in-range display is strictly closer, and
      every in-range display before it is strictly farther. */
  ghost predicate IsNearestAt(ds: seq<Display>, p: Point, maxDistance: nat, i: int) {
    && 0 <= i < |ds|
    && InRange(ds[i], p, maxDistance)
    && (forall j :: 0 <= j < |ds| && InRange(ds[j], p, maxDistance) ==>
          Dist2(ds[i].position, p) <= Dist2(ds[j].position, p))
    && (forall j :: 0 <= j < i && InRange(ds[j], p, maxDistance) ==>
          Dist2(ds[i].position, p) < Dist2(ds[j].position, p))
  }

  /** The scan finds no display exactly when none is within the radius (an
      empty list included), and otherwise finds the nearest one within it,
      the earliest on ties. */
  lemma NearestIndexCorrect(ds: seq<Display>, p: Point, maxDistance: nat)
    ensures NearestIndex(ds, p, maxDistance).None? <==>
            forall j :: 0 <= j < |ds| ==> !InRange(ds[j], p, maxDistance)
    ensures NearestIndex(ds, p, maxDistance).Some? ==>
            IsNearestAt(ds, p, maxDistance, NearestIndex(ds, p, maxDistance).value)
  {
    var d := Dists(ds, p);
    ScanIndexCorrect(d, Sq(maxDistance));
    assert forall j :: 0 <= j < |ds| ==> d[j] == Dist2(ds[j].position, p);
  }

  /** Two displays that are both the nearest in that sense are the same. */
  lemma NearestAtUnique(ds: seq<Display>, p: Point, maxDistance: nat, i: int, k: int)
    requires IsNearestAt(ds, p, maxDistance, i) && IsNearestAt(ds, p, maxDistance, k)
    ensures i == k
  {
  }

  /** `Nearest` gives no display exactly when none is within the radius,
      and otherwise the nearest one, the earliest on ties. */
  lemma NearestIsNearest(ds: seq<Display>, p: Point, maxDistance: nat)
    ensures Nearest(ds, p, maxDistance).None? <==>
            forall j :: 0 <= j < |ds| ==> !InRange(ds[j], p, maxDistance)
    ensures forall i :: IsNearestAt(ds, p, maxDistance, i) ==> Nearest(ds, p, maxDistance) == Some(ds[i])
  {
    NearestIndexCorrect(ds, p, maxDistance);
    forall i | IsNearestAt(ds, p, maxDistance, i)
      ensures Nearest(ds, p, maxDistance) == Some(ds[i])
    {
      NearestAtUnique(ds, p, maxDistance, i, NearestIndex(ds, p, maxDistance).value);
    }
  }

  const Origin := Point(0, 0, 0)

  /** Four exhibits, at distances 9, 3, 7 and 5 from the origin. */
  const FourExhibits := [Display("a", Point(9, 0, 0)), Display("b", Point(3, 0, 0)),
                         Display("c", Point(0, 7, 0)), Display("d", Point(0, 0, 5))]

  lemma FourExhibitDistances()
    ensures Dists(FourExhibits, Origin) == [81, 9, 49, 25]
  {
  }

  /** With radius 7 the exhibit at distance 3 is found; the one at 9 is out
      of range. */
  lemma NearestAmongFour()
    ensures Nearest(FourExhibits, Origin, 7) == Some(Display("b", Point(3, 0, 0)))
  {
    FourExhibitDistances();
    assert ScanIndex([81, 9, 49, 25], Sq(7)) == Some(1);
  }

  /** Two exhibits at the same distance 4 from the origin. */
  const TiedExhibits := [Display("a", Point(0, 4, 0)), Display("b", Point(4, 0, 0))]

  lemma TiedExhibitDistances()
    ensures Dists(TiedExhibits, Origin) == [16, 16]
  {
  }

  /** Of two exhibits at the same distance, the earlier one is found. */
  lemma NearestTieGoesToEarlier()
    ensures Nearest(TiedExhibits, Origin, 7) == Some(Display("a", Point(0, 4, 0)))
  {
    TiedExhibitDistances();
    assert ScanIndex([16, 16], Sq(7)) == Some(0);
  }

  // ---------------------------------------------------------------------
  // getPlayerPosition

  /** `state.playerRig || document.querySelector("#rig")`, then its position:
      a rig set from outside replaces the scene's rig even when it has no
      position. */
  function PlayerPosition(playerRig: Option<Element>, sceneRig: Option<Element>): (r: Option<Point>)
    ensures playerRig.Some? ==> r == playerRig.value.position
    ensures playerRig.None? && sceneRig.Some? ==> r == sceneRig.value.position
    ensures playerRig.None? && sceneRig.None? ==> r.None?
  {
    var rig := if playerRig.Some? then playerRig else sceneRig;
    if rig.Some? then rig.value.position else None
  }
}
