/**
 * Spatial separator of the mesh analyzer
 * (client/src/utils/stlAnalyzer.js, computeComponentBoundingBox,
 * calculateMinDistanceBetweenBoxes and boxToBoxDistance).
 *
 * Distances are kept squared: the source's Math.sqrt is monotone, so the
 * closest pair and every comparison with a threshold are the same on
 * squared values compared with the squared threshold.
 */
module Boxes {
  import opened Geometry
  import opened Wrappers

  /** Axis-aligned bounding box. */
  datatype Box = Box(minX: real, minY: real, minZ: real, maxX: real, maxY: real, maxZ: real)

  function Min(a: real, b: real): real { if a <= b then a else b }

  function Max(a: real, b: real): real { if a >= b then a else b }

  predicate Contains(b: Box, p: Point) {
    b.minX <= p.x <= b.maxX && b.minY <= p.y <= b.maxY && b.minZ <= p.z <= b.maxZ
  }

  /** The degenerate box of a single point. */
  function PointBox(p: Point): Box {
    Box(p.x, p.y, p.z, p.x, p.y, p.z)
  }

  /** One step of the running Math.min / Math.max update. */
  function Extend(b: Box, p: Point): Box {
    Box(Min(b.minX, p.x), Min(b.minY, p.y), Min(b.minZ, p.z),
        Max(b.maxX, p.x), Max(b.maxY, p.y), Max(b.maxZ, p.z))
  }

  /** The corners of the listed triangles, in the order the source visits them. */
  function ComponentVertices(comp: seq<nat>, tris: seq<Triangle>): (ps: seq<Point>)
    requires forall i :: 0 <= i < |comp| ==> comp[i] < |tris|
    ensures |ps| == 3 * |comp|
    ensures forall i, u: nat :: 0 <= i < |comp| && u < 3 ==> ps[3 * i + u] == Corner(tris[comp[i]], u)
  {
    if |comp| == 0 then []
    else
      var t := tris[comp[|comp| - 1]];
      ComponentVertices(comp[..|comp| - 1], tris) + [t.a, t.b, t.c]
  }

  /**
   * The running bounds over a non-empty list of points: they contain every
   * point, and each of the six bounds is attained by one of the points.
   */
  function BoundsOf(ps: seq<Point>): (b: Box)
    requires |ps| > 0
    ensures forall i :: 0 <= i < |ps| ==> Contains(b, ps[i])
    ensures exists i :: 0 <= i < |ps| && b.minX == ps[i].x
    ensures exists i :: 0 <= i < |ps| && b.minY == ps[i].y
    ensures exists i :: 0 <= i < |ps| && b.minZ == ps[i].z
    ensures exists i :: 0 <= i < |ps| && b.maxX == ps[i].x
    ensures exists i :: 0 <= i < |ps| && b.maxY == ps[i].y
    ensures exists i :: 0 <= i < |ps| && b.maxZ == ps[i].z
  {
    if |ps| == 1 then PointBox(ps[0])
    else Extend(BoundsOf(ps[..|ps| - 1]), ps[|ps| - 1])
  }

  /**
   * computeComponentBoundingBox (lines 196-212): a box containing every
   * corner of every triangle of the component.
   */
  function ComponentBox(comp: seq<nat>, tris: seq<Triangle>): (b: Box)
    requires |comp| > 0 && forall i :: 0 <= i < |comp| ==> comp[i] < |tris|
    ensures forall i, u: nat :: 0 <= i < |comp| && u < 3 ==> Contains(b, Corner(tris[comp[i]], u))
  {
    var ps := ComponentVertices(comp, tris);
    var b := BoundsOf(ps);
    assert forall i, u: nat :: 0 <= i < |comp| && u < 3 ==> ps[3 * i + u] == Corner(tris[comp[i]], u);
    b
  }

  /** inner lies within outer on every axis. */
  predicate Within(inner: Box, outer: Box) {
    && outer.minX <= inner.minX && inner.maxX <= outer.maxX
    && outer.minY <= inner.minY && inner.maxY <= outer.maxY
    && outer.minZ <= inner.minZ && inner.maxZ <= outer.maxZ
  }

  /** The component box is the smallest one: any box holding all its corners holds it. */
  lemma ComponentBoxIsSmallest(comp: seq<nat>, tris: seq<Triangle>, outer: Box)
    requires |comp| > 0 && forall i :: 0 <= i < |comp| ==> comp[i] < |tris|
    requires forall i, u: nat :: 0 <= i < |comp| && u < 3 ==> Contains(outer, Corner(tris[comp[i]], u))
    ensures Within(ComponentBox(comp, tris), outer)
  {
    var ps := ComponentVertices(comp, tris);
    forall k | 0 <= k < |ps|
      ensures Contains(outer, ps[k])
    {
      var i, u := k / 3, k % 3;
      assert k == 3 * i + u;
      assert ps[k] == Corner(tris[comp[i]], u);
    }
  }

  /** Gap between two intervals along one axis; 0 when they overlap or touch. */
  function AxisGap(minA: real, maxA: real, minB: real, maxB: real): real {
    Max(0.0, Max(minA - maxB, minB - maxA))
  }

  /** The boxes overlap or touch on every axis. */
  predicate Overlap(b1: Box, b2: Box) {
    && b1.minX <= b2.maxX && b2.minX <= b1.maxX
    && b1.minY <= b2.maxY && b2.minY <= b1.maxY
    && b1.minZ <= b2.maxZ && b2.minZ <= b1.maxZ
  }

  function Square(r: real): real {
    r * r
  }

  lemma SquareOfPositive(r: real)
    requires r > 0.0
    ensures Square(r) > 0.0
  {
    calc {
      Square(r);
    ==
      r * r;
    >
      0.0 * r;
    ==
      0.0;
    }
  }

  lemma SquareOfNegated(r: real)
    ensures Square(-r) == Square(r)
  {
    calc {
      Square(-r);
    ==
      (-r) * (-r);
    ==
      r * r;
    }
  }

  /** A square is never negative, and zero only for zero. */
  lemma SquarePositive(r: real)
    ensures Square(r) >= 0.0
    ensures Square(r) == 0.0 <==> r == 0.0
  {
    if r > 0.0 {
      SquareOfPositive(r);
    } else if r < 0.0 {
      SquareOfPositive(-r);
      SquareOfNegated(r);
    }
  }

  /** Squared gap between two intervals along one axis. */
  function AxisGapSq(minA: real, maxA: real, minB: real, maxB: real): (d: real)
    ensures d >= 0.0
    ensures d == 0.0 <==> minA <= maxB && minB <= maxA
  {
    var g := AxisGap(minA, maxA, minB, maxB);
    SquarePositive(g);
    Square(g)
  }

  /**
   * boxToBoxDistance (lines 234-242), squared: never negative, and zero
   * exactly when the boxes overlap or touch on all three axes.
   */
  function BoxDistanceSq(b1: Box, b2: Box): (d: real)
    ensures d >= 0.0
    ensures d == 0.0 <==> Overlap(b1, b2)
  {
    AxisGapSq(b1.minX, b1.maxX, b2.minX, b2.maxX)
    + AxisGapSq(b1.minY, b1.maxY, b2.minY, b2.maxY)
    + AxisGapSq(b1.minZ, b1.maxZ, b2.minZ, b2.maxZ)
  }

  /** The distance does not depend on the order of the two boxes. */
  lemma BoxDistanceSymmetric(b1: Box, b2: Box)
    ensures BoxDistanceSq(b1, b2) == BoxDistanceSq(b2, b1)
  {
  }

  function DiffSq(a: real, b: real): real {
    Square(a - b)
  }

  /** Squared Euclidean distance between two points. */
  function SqDist(p: Point, q: Point): real {
    DiffSq(p.x, q.x) + DiffSq(p.y, q.y) + DiffSq(p.z, q.z)
  }

  lemma SquareMonotone(a: real, r: real)
    requires 0.0 <= a && (a <= r || a <= -r)
    ensures Square(a) <= Square(r)
  {
    if a <= r {
      calc {
        Square(a);
      ==
        a * a;
      <=
        a * r;
      <=
        r * r;
      ==
        Square(r);
      }
    } else {
      calc {
        Square(a);
      ==
        a * a;
      <=
        a * (-r);
      <=
        (-r) * (-r);
      ==
        Square(-r);
      }
      SquareOfNegated(r);
    }
  }

  /** Along one axis, the gap of two intervals is at most the distance of any two of their points. */
  lemma AxisGapBelowDiff(minA: real, maxA: real, minB: real, maxB: real, x: real, y: real)
    requires minA <= x <= maxA && minB <= y <= maxB
    ensures AxisGapSq(minA, maxA, minB, maxB) <= DiffSq(x, y)
  {
    SquareMonotone(AxisGap(minA, maxA, minB, maxB), x - y);
  }

  /** The box distance never exceeds the distance between any two points of the boxes. */
  lemma BoxDistanceLowerBound(b1: Box, b2: Box, p: Point, q: Point)
    requires Contains(b1, p) && Contains(b2, q)
    ensures BoxDistanceSq(b1, b2) <= SqDist(p, q)
  {
    AxisGapBelowDiff(b1.minX, b1.maxX, b2.minX, b2.maxX, p.x, q.x);
    AxisGapBelowDiff(b1.minY, b1.maxY, b2.minY, b2.maxY, p.y, q.y);
    AxisGapBelowDiff(b1.minZ, b1.maxZ, b2.minZ, b2.maxZ, p.z, q.z);
  }

  /** m is the smallest distance over all pairs of distinct boxes, and some pair attains it. */
  ghost predicate LeastPairDistance(boxes: seq<Box>, m: real) {
    && (forall i, j :: 0 <= i < j < |boxes| ==> m <= BoxDistanceSq(boxes[i], boxes[j]))
    && (exists i, j :: 0 <= i < j < |boxes| && m == BoxDistanceSq(boxes[i], boxes[j]))
  }

  /** The pair (i, j), i < j, comes before (i', j') in the double loop's order. */
  predicate PairBefore(i: int, j: int, i': int, j': int) {
    i < i' || (i == i' && j < j')
  }

  /** m is the least distance over the pairs (i', j') that come before (i, j), witnessed by (wi, wj). */
  ghost predicate MinSoFar(boxes: seq<Box>, i: int, j: int, m: Option<real>, wi: int, wj: int) {
    BoundSoFar(boxes, i, j, m) && Witnessed(boxes, m, wi, wj)
  }

  /** m is None before the first pair and otherwise at most the distance of every pair before (i, j). */
  ghost predicate BoundSoFar(boxes: seq<Box>, i: int, j: int, m: Option<real>) {
    && (m.None? <==> (i == 0 && j == 1) || |boxes| < 2)
    && (m.Some? ==> forall i', j' :: 0 <= i' < j' < |boxes| && PairBefore(i', j', i, j) ==>
                     m.value <= BoxDistanceSq(boxes[i'], boxes[j']))
  }

  /** The pair (wi, wj) attains m. */
  ghost predicate Witnessed(boxes: seq<Box>, m: Option<real>, wi: int, wj: int) {
    m.Some? ==> 0 <= wi < wj < |boxes| && m.value == BoxDistanceSq(boxes[wi], boxes[wj])
  }

  /** The inner loop of calculateMinDistanceBetweenBoxes: every pair (i, j) with j > i. */
  method ScanRow(boxes: seq<Box>, i: nat, m: Option<real>, ghost wi: int, ghost wj: int)
    returns (m': Option<real>, ghost wi': int, ghost wj': int)
    requires i < |boxes|
    requires MinSoFar(boxes, i, i + 1, m, wi, wj)
    ensures BoundSoFar(boxes, i + 1, i + 2, m')
    ensures Witnessed(boxes, m', wi', wj')
  {
    m', wi', wj' := m, wi, wj;
    var j := i + 1;
    while j < |boxes|
      invariant i + 1 <= j <= |boxes|
      invariant MinSoFar(boxes, i, j, m', wi', wj')
    {
      m', wi', wj' := CompareNext(boxes, i, j, m', wi', wj');
      j := j + 1;
    }
    RowDone(boxes, i, m', wi', wj');
  }

  /** One turn of the inner loop: the pair (i, j) replaces the minimum when it is strictly closer. */
  method CompareNext(boxes: seq<Box>, i: nat, j: nat, m: Option<real>, ghost wi: int, ghost wj: int)
    returns (m': Option<real>, ghost wi': int, ghost wj': int)
    requires i < j < |boxes| && MinSoFar(boxes, i, j, m, wi, wj)
    ensures BoundSoFar(boxes, i, j + 1, m')
    ensures Witnessed(boxes, m', wi', wj')
  {
    var dist := BoxDistanceSq(boxes[i], boxes[j]);
    m', wi', wj' := m, wi, wj;
    if m.None? || dist < m.value {
      m' := Some(dist);
      wi', wj' := i, j;
    }
    ScanStep(boxes, i, j, m, wi, wj, m', wi', wj');
  }

  /** One comparison of the inner loop keeps the running minimum exact. */
  lemma ScanStep(boxes: seq<Box>, i: nat, j: nat, m: Option<real>, wi: int, wj: int,
                 m': Option<real>, wi': int, wj': int)
    requires i < j < |boxes| && MinSoFar(boxes, i, j, m, wi, wj)
    requires var dist := BoxDistanceSq(boxes[i], boxes[j]);
             if m.None? || dist < m.value then m' == Some(dist) && wi' == i && wj' == j
             else m' == m && wi' == wi && wj' == wj
    ensures MinSoFar(boxes, i, j + 1, m', wi', wj')
  {
    forall i', j' | 0 <= i' < j' < |boxes| && PairBefore(i', j', i, j + 1)
      ensures m'.value <= BoxDistanceSq(boxes[i'], boxes[j'])
    {
      if PairBefore(i', j', i, j) {
        assert m.Some?;
      }
    }
  }

  /** The running minimum after row i covers every pair before (i + 1, i + 2). */
  lemma RowDone(boxes: seq<Box>, i: nat, m: Option<real>, wi: int, wj: int)
    requires i < |boxes| && MinSoFar(boxes, i, |boxes|, m, wi, wj)
    ensures MinSoFar(boxes, i + 1, i + 2, m, wi, wj)
  {
    assert forall i', j' :: 0 <= i' < j' < |boxes| && PairBefore(i', j', i + 1, i + 2) ==> PairBefore(i', j', i, |boxes|);
  }

  /**
   * calculateMinDistanceBetweenBoxes (lines 217-228), squared. None stands
   * for the source's Infinity, returned when there is no pair at all;
   * otherwise the result is the smallest distance over all pairs.
   */
  method MinDistanceBetweenBoxes(boxes: seq<Box>) returns (m: Option<real>)
    ensures m.None? <==> |boxes| < 2
    ensures m.Some? ==> LeastPairDistance(boxes, m.value)
  {
    m := None;
    ghost var wi, wj := 0, 0;
    var i := 0;
    while i < |boxes|
      invariant 0 <= i <= |boxes|
      invariant MinSoFar(boxes, i, i + 1, m, wi, wj)
    {
      m, wi, wj := ScanRow(boxes, i, m, wi, wj);
      i := i + 1;
    }
  }

  /** The reported minimum is zero exactly when some two boxes overlap or touch. */
  lemma MinDistanceZeroIffOverlap(boxes: seq<Box>, m: real)
    requires LeastPairDistance(boxes, m)
    ensures m >= 0.0
    ensures m == 0.0 <==> exists i, j :: 0 <= i < j < |boxes| && Overlap(boxes[i], boxes[j])
  {
    var i, j :| 0 <= i < j < |boxes| && m == BoxDistanceSq(boxes[i], boxes[j]);
    if exists i', j' :: 0 <= i' < j' < |boxes| && Overlap(boxes[i'], boxes[j']) {
      var i', j' :| 0 <= i' < j' < |boxes| && Overlap(boxes[i'], boxes[j']);
      assert m <= BoxDistanceSq(boxes[i'], boxes[j']);
    }
  }
}
