/**
 * Points, triangles and tolerant vertex identity of the mesh analyzer
 * (client/src/utils/stlAnalyzer.js, extractTriangles and vertexKey).
 *
 * Coordinates are exact reals. A vertex key snaps each coordinate to the
 * integer grid of pitch VertexTolerance, rounding half-way cases upwards as
 * JavaScript's Math.round does.
 */
module Geometry {

  /** Tolerance under which two coordinates are considered identical. */
  const VertexTolerance: real := 0.0001

  /** Scale factor applied before rounding, 1 / VertexTolerance. */
  const Precision: real := 1.0 / VertexTolerance

  datatype Point = Point(x: real, y: real, z: real)

  /** Three corners in the order the position buffer lists them. */
  datatype Triangle = Triangle(a: Point, b: Point, c: Point)

  /** Canonical grid cell of a point; the source renders it as the string "x,y,z". */
  datatype VertexKey = VertexKey(x: int, y: int, z: int)

  /** Corner i (0, 1 or 2) of a triangle. */
  function Corner(t: Triangle, i: nat): Point
    requires i < 3
  {
    if i == 0 then t.a else if i == 1 then t.b else t.c
  }

  /** Math.round: the nearest integer, with halves rounded towards +infinity. */
  function Round(r: real): (n: int)
    ensures r - 0.5 < n as real <= r + 0.5
  {
    (r + 0.5).Floor
  }

  /** vertexKey: each coordinate scaled by Precision and rounded. */
  function KeyOf(p: Point): (k: VertexKey)
    ensures p.x * Precision - 0.5 < k.x as real <= p.x * Precision + 0.5
    ensures p.y * Precision - 0.5 < k.y as real <= p.y * Precision + 0.5
    ensures p.z * Precision - 0.5 < k.z as real <= p.z * Precision + 0.5
  {
    VertexKey(Round(p.x * Precision), Round(p.y * Precision), Round(p.z * Precision))
  }

  /** The rounding rule has exactly one answer: the integer whose half-open cell holds r. */
  lemma RoundUnique(r: real, n: int)
    requires r - 0.5 < n as real <= r + 0.5
    ensures Round(r) == n
  {
  }

  /** Points that share a key lie strictly within the tolerance of each other on every axis. */
  lemma SameKeyWithinTolerance(p: Point, q: Point)
    requires KeyOf(p) == KeyOf(q)
    ensures -VertexTolerance < p.x - q.x < VertexTolerance
    ensures -VertexTolerance < p.y - q.y < VertexTolerance
    ensures -VertexTolerance < p.z - q.z < VertexTolerance
  {
    var k := KeyOf(p);
    assert -1.0 < p.x * Precision - q.x * Precision < 1.0;
    assert -1.0 < p.y * Precision - q.y * Precision < 1.0;
    assert -1.0 < p.z * Precision - q.z * Precision < 1.0;
  }

  /** A point already on the tolerance grid keys to its own grid coordinates. */
  lemma GridPointKey(i: int, j: int, k: int)
    ensures KeyOf(Point(i as real * VertexTolerance, j as real * VertexTolerance, k as real * VertexTolerance))
            == VertexKey(i, j, k)
  {
    var p := Point(i as real * VertexTolerance, j as real * VertexTolerance, k as real * VertexTolerance);
    assert p.x * Precision == i as real;
    assert p.y * Precision == j as real;
    assert p.z * Precision == k as real;
    RoundUnique(p.x * Precision, i);
    RoundUnique(p.y * Precision, j);
    RoundUnique(p.z * Precision, k);
  }

  /**
   * Bucketing is not a tolerance test: two points 0.00002 apart on one axis,
   * on either side of a cell boundary, receive different keys.
   */
  lemma CloseAcrossBoundaryGetDifferentKeys()
    ensures var p, q := Point(0.00004, 0.0, 0.0), Point(0.00006, 0.0, 0.0);
            -VertexTolerance < p.x - q.x < VertexTolerance && KeyOf(p) != KeyOf(q)
  {
    var p, q := Point(0.00004, 0.0, 0.0), Point(0.00006, 0.0, 0.0);
    RoundUnique(p.x * Precision, 0);
    RoundUnique(q.x * Precision, 1);
  }

  /**
   * extractTriangles: consecutive runs of three positions form one triangle.
   * The position attribute of a parsed STL always holds a multiple of three vertices.
   */
  function ExtractTriangles(position: seq<Point>): (tris: seq<Triangle>)
    requires |position| % 3 == 0
    ensures |tris| == |position| / 3
    ensures forall i :: 0 <= i < |tris| ==>
              tris[i] == Triangle(position[3 * i], position[3 * i + 1], position[3 * i + 2])
  {
    if |position| == 0 then []
    else [Triangle(position[0], position[1], position[2])] + ExtractTriangles(position[3..])
  }

  /** The positions of a triangle list, three per triangle, in order. */
  function Positions(tris: seq<Triangle>): (ps: seq<Point>)
    ensures |ps| == 3 * |tris|
  {
    if |tris| == 0 then []
    else [tris[0].a, tris[0].b, tris[0].c] + Positions(tris[1..])
  }

  /** Extraction loses nothing: flattening the triangles gives back the position buffer. */
  lemma {:induction false} ExtractRoundTrip(position: seq<Point>)
    requires |position| % 3 == 0
    ensures Positions(ExtractTriangles(position)) == position
    decreases |position|
  {
    if |position| > 0 {
      ExtractRoundTrip(position[3..]);
      assert position == position[..3] + position[3..];
    }
  }

  /** And extraction of a flattened list gives back the triangles. */
  lemma {:induction false} PositionsRoundTrip(tris: seq<Triangle>)
    ensures ExtractTriangles(Positions(tris)) == tris
  {
    if |tris| > 0 {
      PositionsRoundTrip(tris[1..]);
      var ps := Positions(tris);
      assert ps[3..] == Positions(tris[1..]);
      assert tris == [tris[0]] + tris[1..];
    }
  }
}
