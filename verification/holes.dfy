/**
 * Hole detector of the mesh analyzer
 * (client/src/utils/stlAnalyzer.js, edgeKey and detectHoles).
 *
 * An edge is the unordered pair of the vertex keys of its two ends. Each
 * face contributes its three edges, and an edge's count is its number of
 * occurrences among them. An edge that occurs once is open, and any open
 * edge means the mesh has holes. A degenerate face, with two corners on one
 * key, contributes the same edge twice.
 */
module Holes {
  import opened Geometry

  /** An edge with its two vertex keys in normalised order, lo first. */
  datatype Edge = Edge(lo: VertexKey, hi: VertexKey)

  datatype HoleReport = HoleReport(hasHoles: bool, openEdgeCount: nat, totalEdgeCount: nat)

  /** Total order used to normalise the two ends of an edge. */
  predicate KeyLess(k1: VertexKey, k2: VertexKey) {
    || k1.x < k2.x
    || (k1.x == k2.x && k1.y < k2.y)
    || (k1.x == k2.x && k1.y == k2.y && k1.z < k2.z)
  }

  /** The edge between two points, the same whichever end comes first. */
  function EdgeKey(p: Point, q: Point): (e: Edge)
    ensures !KeyLess(e.hi, e.lo)
    ensures {e.lo, e.hi} == {KeyOf(p), KeyOf(q)}
  {
    var k1, k2 := KeyOf(p), KeyOf(q);
    if KeyLess(k1, k2) then Edge(k1, k2) else Edge(k2, k1)
  }

  /** Direction does not matter. */
  lemma EdgeKeySymmetric(p: Point, q: Point)
    ensures EdgeKey(p, q) == EdgeKey(q, p)
  {
  }

  /** Two edges are the same exactly when they join the same two vertex keys. */
  lemma EdgeKeyIdentity(p: Point, q: Point, r: Point, s: Point)
    ensures EdgeKey(p, q) == EdgeKey(r, s) <==> {KeyOf(p), KeyOf(q)} == {KeyOf(r), KeyOf(s)}
  {
    var e, f := EdgeKey(p, q), EdgeKey(r, s);
    if {KeyOf(p), KeyOf(q)} == {KeyOf(r), KeyOf(s)} {
      assert {e.lo, e.hi} == {f.lo, f.hi};
      assert e.lo in {f.lo, f.hi} && e.hi in {f.lo, f.hi};
      assert f.lo in {e.lo, e.hi} && f.hi in {e.lo, e.hi};
    }
  }

  /** The three edges of a face: (a, b), (b, c), (c, a). */
  function TriangleEdges(t: Triangle): seq<Edge> {
    [EdgeKey(t.a, t.b), EdgeKey(t.b, t.c), EdgeKey(t.c, t.a)]
  }

  /** Every edge of every face, face by face, with repetitions. */
  function AllEdges(tris: seq<Triangle>): (es: seq<Edge>)
    ensures |es| == 3 * |tris|
  {
    if |tris| == 0 then [] else AllEdges(tris[..|tris| - 1]) + TriangleEdges(tris[|tris| - 1])
  }

  /** Number of occurrences of an edge among the faces' three edges each. */
  ghost function Multiplicity(tris: seq<Triangle>, e: Edge): nat {
    multiset(AllEdges(tris))[e]
  }

  ghost function DistinctEdges(tris: seq<Triangle>): set<Edge> {
    set e | e in AllEdges(tris)
  }

  /** Edges that occur exactly once among the faces' edges. */
  ghost function OpenEdges(tris: seq<Triangle>): set<Edge> {
    set e | e in AllEdges(tris) && Multiplicity(tris, e) == 1
  }

  /** Every edge occurs exactly twice among the faces' edges (for proper faces: is shared by two faces). */
  ghost predicate Watertight(tris: seq<Triangle>) {
    forall e :: e in AllEdges(tris) ==> Multiplicity(tris, e) == 2
  }

  /** counts holds, for each edge of s, how often it occurs in s, and nothing else. */
  ghost predicate Tally(counts: map<Edge, nat>, s: seq<Edge>) {
    && (forall e :: e in counts <==> e in s)
    && (forall e :: e in counts ==> counts[e] == multiset(s)[e])
  }

  /** One `edgeCount.set(edge, (edgeCount.get(edge) || 0) + 1)` step. */
  function Bump(counts: map<Edge, nat>, e: Edge): map<Edge, nat> {
    var n := if e in counts then counts[e] else 0;
    counts[e := n + 1]
  }

  /** Bumping an edge keeps the tally exact for the sequence extended by that edge. */
  lemma BumpTally(counts: map<Edge, nat>, s: seq<Edge>, e: Edge)
    requires Tally(counts, s)
    ensures Tally(Bump(counts, e), s + [e])
  {
    assert multiset(s + [e]) == multiset(s) + multiset{e};
  }

  /**
   * The edge-count map of detectHoles. The source walks the faces and, inside
   * each, its three edges; that is one walk along AllEdges.
   */
  method CountEdges(es: seq<Edge>) returns (counts: map<Edge, nat>)
    ensures Tally(counts, es)
  {
    counts := map[];
    var i := 0;
    while i < |es|
      invariant 0 <= i <= |es|
      invariant Tally(counts, es[..i])
    {
      BumpTally(counts, es[..i], es[i]);
      counts := Bump(counts, es[i]);
      assert es[..i + 1] == es[..i] + [es[i]];
      i := i + 1;
    }
    assert es[..|es|] == es;
  }

  /** Keys among `keys` whose count is exactly one. */
  ghost function Singles(counts: map<Edge, nat>, keys: set<Edge>): set<Edge> {
    set e | e in keys && e in counts && counts[e] == 1
  }

  /** The second pass of detectHoles: how many edges occur once. */
  method CountOpenEdges(counts: map<Edge, nat>) returns (open: nat)
    ensures open == |Singles(counts, counts.Keys)|
  {
    open := 0;
    var rest := counts.Keys;
    ghost var seen: set<Edge> := {};
    while rest != {}
      invariant rest + seen == counts.Keys && rest !! seen
      invariant open == |Singles(counts, seen)|
      decreases rest
    {
      var e :| e in rest;
      if counts[e] == 1 {
        assert Singles(counts, seen + {e}) == Singles(counts, seen) + {e};
        open := open + 1;
      } else {
        assert Singles(counts, seen + {e}) == Singles(counts, seen);
      }
      rest := rest - {e};
      seen := seen + {e};
    }
  }

  /** A sequence has at most as many distinct elements as entries. */
  lemma {:induction false} DistinctAtMost(s: seq<Edge>)
    ensures |set e | e in s| <= |s|
  {
    if |s| > 0 {
      var s' := s[..|s| - 1];
      DistinctAtMost(s');
      assert (set e | e in s) == (set e | e in s') + {s[|s| - 1]};
    }
  }

  lemma SubsetSize<T>(a: set<T>, b: set<T>)
    requires a <= b
    ensures |a| <= |b|
  {
    assert b == a + (b - a);
  }

  /** What a tally says about distinct and single-use edges. */
  lemma TallyKeys(counts: map<Edge, nat>, s: seq<Edge>)
    requires Tally(counts, s)
    ensures counts.Keys == set e | e in s
    ensures Singles(counts, counts.Keys) == set e | e in s && multiset(s)[e] == 1
    ensures Singles(counts, counts.Keys) <= counts.Keys
  {
  }

  /** The report for a list of edges with repetitions. */
  method Summarise(es: seq<Edge>) returns (r: HoleReport)
    ensures r.totalEdgeCount == |set e | e in es|
    ensures r.openEdgeCount == |set e | e in es && multiset(es)[e] == 1|
    ensures r.hasHoles <==> r.openEdgeCount > 0
    ensures r.openEdgeCount <= r.totalEdgeCount <= |es|
  {
    var counts := CountEdges(es);
    var open := CountOpenEdges(counts);
    TallyKeys(counts, es);
    DistinctAtMost(es);
    SubsetSize(Singles(counts, counts.Keys), counts.Keys);
    r := HoleReport(open > 0, open, |counts.Keys|);
  }

  /**
   * detectHoles (lines 261-294): the number of distinct edges, the number of
   * edges that occur exactly once among the faces' edges, and whether there
   * is any such edge.
   */
  method DetectHoles(tris: seq<Triangle>) returns (r: HoleReport)
    ensures r.totalEdgeCount == |DistinctEdges(tris)|
    ensures r.openEdgeCount == |OpenEdges(tris)|
    ensures r.hasHoles <==> OpenEdges(tris) != {}
    ensures r.openEdgeCount <= r.totalEdgeCount <= 3 * |tris|
  {
    r := Summarise(AllEdges(tris));
    assert OpenEdges(tris) == set e | e in AllEdges(tris) && multiset(AllEdges(tris))[e] == 1;
  }

  /** A closed mesh has no open edge. */
  lemma WatertightHasNoHoles(tris: seq<Triangle>)
    requires Watertight(tris)
    ensures OpenEdges(tris) == {}
  {
  }

  /** A face whose corners have three different keys has three different edges. */
  lemma ProperTriangleEdges(t: Triangle)
    requires KeyOf(t.a) != KeyOf(t.b) && KeyOf(t.b) != KeyOf(t.c) && KeyOf(t.c) != KeyOf(t.a)
    ensures TriangleEdges(t)[0] != TriangleEdges(t)[1]
    ensures TriangleEdges(t)[1] != TriangleEdges(t)[2]
    ensures TriangleEdges(t)[2] != TriangleEdges(t)[0]
  {
    EdgeKeyIdentity(t.a, t.b, t.b, t.c);
    EdgeKeyIdentity(t.b, t.c, t.c, t.a);
    EdgeKeyIdentity(t.c, t.a, t.a, t.b);
    assert KeyOf(t.a) !in {KeyOf(t.b), KeyOf(t.c)};
    assert KeyOf(t.b) !in {KeyOf(t.c), KeyOf(t.a)};
    assert KeyOf(t.c) !in {KeyOf(t.a), KeyOf(t.b)};
  }

  /** A lone face is all boundary: its three edges are open. */
  lemma LoneTriangleHasThreeOpenEdges(t: Triangle)
    requires KeyOf(t.a) != KeyOf(t.b) && KeyOf(t.b) != KeyOf(t.c) && KeyOf(t.c) != KeyOf(t.a)
    ensures |DistinctEdges([t])| == 3
    ensures |OpenEdges([t])| == 3
  {
    ProperTriangleEdges(t);
    var es := TriangleEdges(t);
    assert [t][..0] == [];
    assert AllEdges([t]) == es;
    assert DistinctEdges([t]) == {es[0], es[1], es[2]};
    assert multiset(es)[es[0]] == 1 && multiset(es)[es[1]] == 1 && multiset(es)[es[2]] == 1;
    assert OpenEdges([t]) == {es[0], es[1], es[2]};
  }
}
