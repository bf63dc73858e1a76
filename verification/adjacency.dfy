/**
 * Adjacency builder of the mesh analyzer
 * (client/src/utils/stlAnalyzer.js, buildAdjacencyMap).
 *
 * Two triangles are adjacent when they share a vertex key. The source first
 * buckets the triangle indices by vertex key, then links every two entries
 * of each bucket. A triangle whose corners repeat a key appears twice in that
 * bucket and is therefore linked to itself.
 */
module Adjacency {
  import opened Geometry

  /** Triangle index to the set of adjacent triangle indices. */
  type AdjacencyMap = map<nat, set<nat>>

  /** The indices 0 .. n-1. */
  function Below(n: nat): (s: set<nat>)
    ensures forall i: nat :: i in s <==> i < n
  {
    if n == 0 then {} else Below(n - 1) + {n - 1}
  }

  /**
   * Vertex occurrence p is corner p % 3 of triangle p / 3; the source visits
   * occurrences in exactly this order.
   */
  function KeyAt(tris: seq<Triangle>, p: nat): VertexKey
    requires p < 3 * |tris|
  {
    KeyOf(Corner(tris[p / 3], p % 3))
  }

  /**
   * Triangles a and b share a vertex key through two different corner
   * occurrences. For a == b this means the triangle repeats a key.
   */
  ghost predicate SharesVertex(tris: seq<Triangle>, a: nat, b: nat) {
    && a < |tris| && b < |tris|
    && exists u: nat, v: nat :: u < 3 && v < 3 && (a != b || u != v)
         && KeyOf(Corner(tris[a], u)) == KeyOf(Corner(tris[b], v))
  }

  /** The adjacency relation the source is meant to compute, as a map over all triangle indices. */
  ghost function AdjacencyGraph(tris: seq<Triangle>): AdjacencyMap {
    map a | a in Below(|tris|) :: set b | b in Below(|tris|) && SharesVertex(tris, a, b)
  }

  /** The vertex key of every corner occurrence, in visiting order (`vertexKey(v)` at line 132). */
  function OccurrenceKeys(tris: seq<Triangle>): (ks: seq<VertexKey>)
    ensures |ks| == 3 * |tris|
    ensures forall p :: 0 <= p < |ks| ==> ks[p] == KeyAt(tris, p)
  {
    seq(3 * |tris|, p requires 0 <= p < 3 * |tris| => KeyAt(tris, p))
  }

  /** Occurrence numbers of key k among the first n occurrences, ascending. */
  ghost function Slots(ks: seq<VertexKey>, k: VertexKey, n: nat): seq<nat>
    requires n <= |ks|
  {
    if n == 0 then []
    else Slots(ks, k, n - 1) + (if ks[n - 1] == k then [n - 1] else [])
  }

  /** Triangle index of every occurrence number. */
  function TriangleOf(s: seq<nat>): (r: seq<nat>)
    ensures |r| == |s|
    ensures forall i :: 0 <= i < |s| ==> r[i] == s[i] / 3
  {
    seq(|s|, i requires 0 <= i < |s| => s[i] / 3)
  }

  lemma TriangleOfAppend(s: seq<nat>, p: nat)
    ensures TriangleOf(s + [p]) == TriangleOf(s) + [p / 3]
  {
    assert TriangleOf(s + [p]) == TriangleOf(s) + [p / 3];
  }

  /** Slots holds exactly the occurrences of k below n, strictly ascending. */
  lemma {:induction false} SlotsFacts(ks: seq<VertexKey>, k: VertexKey, n: nat)
    requires n <= |ks|
    ensures forall i :: 0 <= i < |Slots(ks, k, n)| ==> Slots(ks, k, n)[i] < n && ks[Slots(ks, k, n)[i]] == k
    ensures forall i, j :: 0 <= i < j < |Slots(ks, k, n)| ==> Slots(ks, k, n)[i] < Slots(ks, k, n)[j]
  {
    if n > 0 {
      SlotsFacts(ks, k, n - 1);
    }
  }

  /** Two different positions of a bucket hold triangles a and b. */
  ghost predicate LinkedIn(m: seq<nat>, a: nat, b: nat) {
    exists x, y :: 0 <= x < |m| && 0 <= y < |m| && x != y && m[x] == a && m[y] == b
  }

  /** The pairs x < y of a bucket the double loop has linked once its outer index reaches i. */
  ghost predicate LinkedBelow(m: seq<nat>, a: nat, b: nat, i: int) {
    exists x, y :: 0 <= x < i && x < y < |m| && ((m[x] == a && m[y] == b) || (m[x] == b && m[y] == a))
  }

  /** ... and additionally the pairs (i, y) with y < j. */
  ghost predicate LinkedUpTo(m: seq<nat>, a: nat, b: nat, i: int, j: int) {
    || LinkedBelow(m, a, b, i)
    || (0 <= i < |m| && exists y :: i < y < j && y < |m| && ((m[i] == a && m[y] == b) || (m[i] == b && m[y] == a)))
  }

  lemma LinkedBelowAll(m: seq<nat>, a: nat, b: nat)
    ensures LinkedBelow(m, a, b, |m|) <==> LinkedIn(m, a, b)
  {
    if LinkedIn(m, a, b) {
      var x, y :| 0 <= x < |m| && 0 <= y < |m| && x != y && m[x] == a && m[y] == b;
      if x < y {
        assert 0 <= x < |m| && x < y < |m| && m[x] == a && m[y] == b;
      } else {
        assert 0 <= y < |m| && y < x < |m| && m[y] == b && m[x] == a;
      }
    }
  }

  /** The buckets of the first phase: for each key, the triangle of each of its occurrences, in order. */
  ghost predicate IsBucketMap(ks: seq<VertexKey>, buckets: map<VertexKey, seq<nat>>) {
    BucketsUpTo(ks, buckets, |ks|)
  }

  /** The buckets after visiting the first p occurrences. */
  ghost predicate BucketsUpTo(ks: seq<VertexKey>, buckets: map<VertexKey, seq<nat>>, p: nat)
    requires p <= |ks|
  {
    && (forall k :: k in buckets ==> buckets[k] == TriangleOf(Slots(ks, k, p)) && |buckets[k]| > 0)
    && (forall k :: k !in buckets ==> Slots(ks, k, p) == [])
  }

  /** Lines 131-134: create the key's list if missing, then append the triangle index. */
  function AddOccurrence(buckets: map<VertexKey, seq<nat>>, key: VertexKey, t: nat): map<VertexKey, seq<nat>> {
    buckets[key := (if key in buckets then buckets[key] else []) + [t]]
  }

  /** Visiting corner u of triangle t appends t to its key's bucket and to no other. */
  lemma BucketStep(ks: seq<VertexKey>, buckets: map<VertexKey, seq<nat>>, t: nat, u: nat)
    requires 3 * t + u < |ks| && u < 3 && BucketsUpTo(ks, buckets, 3 * t + u)
    ensures BucketsUpTo(ks, AddOccurrence(buckets, ks[3 * t + u], t), 3 * t + u + 1)
  {
    var p := 3 * t + u;
    var key := ks[p];
    TriangleOfAppend(Slots(ks, key, p), p);
    assert p / 3 == t;
    var b' := AddOccurrence(buckets, key, t);
    forall k | k in b'
      ensures b'[k] == TriangleOf(Slots(ks, k, p + 1)) && |b'[k]| > 0
    {
      if k != key {
        assert Slots(ks, k, p + 1) == Slots(ks, k, p);
      }
    }
    forall k | k !in b'
      ensures Slots(ks, k, p + 1) == []
    {
      assert Slots(ks, k, p + 1) == Slots(ks, k, p);
    }
  }

  /**
   * First phase (lines 126-137): for every vertex key, the indices of the
   * triangles using it, one entry per corner occurrence, in visiting order.
   */
  method VertexToTriangles(n: nat, ks: seq<VertexKey>) returns (buckets: map<VertexKey, seq<nat>>)
    requires |ks| == 3 * n
    ensures IsBucketMap(ks, buckets)
  {
    buckets := map[];
    var t := 0;
    while t < n
      invariant t <= n
      invariant BucketsUpTo(ks, buckets, 3 * t)
    {
      var u := 0;
      while u < 3
        invariant u <= 3
        invariant BucketsUpTo(ks, buckets, 3 * t + u)
      {
        BucketStep(ks, buckets, t, u);
        buckets := AddOccurrence(buckets, ks[3 * t + u], t);
        u := u + 1;
      }
      t := t + 1;
    }
  }

  /**
   * Second phase for one bucket (lines 148-153): every pair of positions
   * i < j is linked in both directions.
   */
  method LinkBucket(adj: AdjacencyMap, m: seq<nat>) returns (adj': AdjacencyMap)
    requires forall i :: 0 <= i < |m| ==> m[i] in adj
    ensures adj'.Keys == adj.Keys
    ensures forall a, b :: a in adj ==> (b in adj'[a] <==> b in adj[a] || LinkedIn(m, a, b))
  {
    adj' := adj;
    var i := 0;
    while i < |m|
      invariant 0 <= i <= |m|
      invariant adj'.Keys == adj.Keys
      invariant forall a, b :: a in adj ==> (b in adj'[a] <==> b in adj[a] || LinkedBelow(m, a, b, i))
    {
      var j := i + 1;
      while j < |m|
        invariant i + 1 <= j <= |m|
        invariant adj'.Keys == adj.Keys
        invariant forall a, b :: a in adj ==> (b in adj'[a] <==> b in adj[a] || LinkedUpTo(m, a, b, i, j))
      {
        adj' := adj'[m[i] := adj'[m[i]] + {m[j]}];
        adj' := adj'[m[j] := adj'[m[j]] + {m[i]}];
        forall a, b | a in adj
          ensures b in adj'[a] <==> b in adj[a] || LinkedUpTo(m, a, b, i, j + 1)
        {
          if LinkedUpTo(m, a, b, i, j + 1) && !LinkedUpTo(m, a, b, i, j) {
            var y :| i < y < j + 1 && y < |m| && ((m[i] == a && m[y] == b) || (m[i] == b && m[y] == a));
            assert y == j;
          }
        }
        j := j + 1;
      }
      forall a, b | a in adj
        ensures b in adj'[a] <==> b in adj[a] || LinkedBelow(m, a, b, i + 1)
      {
        if LinkedUpTo(m, a, b, i, j) {
          if !LinkedBelow(m, a, b, i) {
            var y :| i < y < j && y < |m| && ((m[i] == a && m[y] == b) || (m[i] == b && m[y] == a));
            assert 0 <= i < i + 1 && i < y < |m|;
          }
        }
        if LinkedBelow(m, a, b, i + 1) && !LinkedBelow(m, a, b, i) {
          var x, y :| 0 <= x < i + 1 && x < y < |m| && ((m[x] == a && m[y] == b) || (m[x] == b && m[y] == a));
          assert x == i;
        }
      }
      i := i + 1;
    }
    forall a, b | a in adj
      ensures b in adj'[a] <==> b in adj[a] || LinkedIn(m, a, b)
    {
      LinkedBelowAll(m, a, b);
    }
  }

  /** The key bucket k links a and b through two different corners carrying key k. */
  ghost predicate SharesKey(tris: seq<Triangle>, k: VertexKey, a: nat, b: nat) {
    && a < |tris| && b < |tris|
    && exists u: nat, v: nat :: u < 3 && v < 3 && (a != b || u != v)
         && KeyOf(Corner(tris[a], u)) == k && KeyOf(Corner(tris[b], v)) == k
  }

  /** Occurrence 3a + u is corner u of triangle a. */
  lemma OccurrenceOf(tris: seq<Triangle>, a: nat, u: nat)
    requires a < |tris| && u < 3
    ensures 3 * a + u < 3 * |tris| && (3 * a + u) / 3 == a && (3 * a + u) % 3 == u
    ensures KeyAt(tris, 3 * a + u) == KeyOf(Corner(tris[a], u))
  {
  }

  /** Every link of bucket k comes from two different corners carrying key k. */
  lemma LinkedInBucketSound(tris: seq<Triangle>, k: VertexKey, a: nat, b: nat)
    requires LinkedIn(TriangleOf(Slots(OccurrenceKeys(tris), k, 3 * |tris|)), a, b)
    ensures SharesKey(tris, k, a, b)
  {
    var ks := OccurrenceKeys(tris);
    var p, q := SlotsSound(ks, k, 3 * |tris|, a, b);
    var u, v := p % 3, q % 3;
    assert KeyAt(tris, p) == k && KeyAt(tris, q) == k;
    assert u < 3 && v < 3 && (a != b || u != v)
           && KeyOf(Corner(tris[a], u)) == k && KeyOf(Corner(tris[b], v)) == k;
  }

  /** A link of bucket k comes from two different occurrences of key k. */
  lemma SlotsSound(ks: seq<VertexKey>, k: VertexKey, n: nat, a: nat, b: nat) returns (p: nat, q: nat)
    requires n <= |ks| && LinkedIn(TriangleOf(Slots(ks, k, n)), a, b)
    ensures p < n && q < n && p != q && ks[p] == k && ks[q] == k && p / 3 == a && q / 3 == b
  {
    var s := Slots(ks, k, n);
    var m := TriangleOf(s);
    SlotsFacts(ks, k, n);
    var x, y :| 0 <= x < |m| && 0 <= y < |m| && x != y && m[x] == a && m[y] == b;
    p, q := s[x], s[y];
    assert p != q by {
      if x < y { assert s[x] < s[y]; } else { assert s[y] < s[x]; }
    }
  }

  /** Every occurrence of key k below n is listed in Slots. */
  lemma {:induction false} SlotsComplete(ks: seq<VertexKey>, k: VertexKey, n: nat, p: nat)
    requires n <= |ks| && p < n && ks[p] == k
    ensures exists x :: 0 <= x < |Slots(ks, k, n)| && Slots(ks, k, n)[x] == p
  {
    if p < n - 1 {
      SlotsComplete(ks, k, n - 1, p);
      var x :| 0 <= x < |Slots(ks, k, n - 1)| && Slots(ks, k, n - 1)[x] == p;
      assert Slots(ks, k, n)[x] == p;
    } else {
      assert Slots(ks, k, n)[|Slots(ks, k, n - 1)|] == p;
    }
  }

  /** Every two different corners carrying key k are linked by bucket k. */
  lemma LinkedInBucketComplete(tris: seq<Triangle>, k: VertexKey, a: nat, b: nat)
    requires SharesKey(tris, k, a, b)
    ensures LinkedIn(TriangleOf(Slots(OccurrenceKeys(tris), k, 3 * |tris|)), a, b)
  {
    var ks := OccurrenceKeys(tris);
    var u: nat, v: nat :| u < 3 && v < 3 && (a != b || u != v)
                         && KeyOf(Corner(tris[a], u)) == k && KeyOf(Corner(tris[b], v)) == k;
    OccurrenceOf(tris, a, u);
    OccurrenceOf(tris, b, v);
    SlotsLinked(ks, k, 3 * |tris|, 3 * a + u, 3 * b + v);
  }

  /** Two different occurrences of key k put their triangles in one bucket. */
  lemma SlotsLinked(ks: seq<VertexKey>, k: VertexKey, n: nat, p: nat, q: nat)
    requires n <= |ks| && p < n && q < n && p != q && ks[p] == k && ks[q] == k
    ensures LinkedIn(TriangleOf(Slots(ks, k, n)), p / 3, q / 3)
  {
    var s := Slots(ks, k, n);
    SlotsComplete(ks, k, n, p);
    SlotsComplete(ks, k, n, q);
    var x :| 0 <= x < |s| && s[x] == p;
    var y :| 0 <= y < |s| && s[y] == q;
    assert x != y && TriangleOf(s)[x] == p / 3 && TriangleOf(s)[y] == q / 3;
  }

  /** Lines 141-143: an empty neighbour set for every triangle index. */
  method EmptyAdjacency(n: nat) returns (adj: AdjacencyMap)
    ensures adj.Keys == Below(n)
    ensures forall a :: a in adj ==> adj[a] == {}
  {
    adj := map[];
    var t := 0;
    while t < n
      invariant t <= n
      invariant adj.Keys == Below(t)
      invariant forall a :: a in adj ==> adj[a] == {}
    {
      adj := adj[t := {}];
      t := t + 1;
    }
  }

  /**
   * buildAdjacencyMap (lines 124-157): the map has an entry for every
   * triangle index and links exactly the triangles sharing a vertex key.
   */
  method BuildAdjacencyMap(tris: seq<Triangle>) returns (adj: AdjacencyMap)
    ensures adj == AdjacencyGraph(tris)
  {
    var ks := OccurrenceKeys(tris);
    var buckets := VertexToTriangles(|tris|, ks);
    adj := EmptyAdjacency(|tris|);
    var remaining := buckets.Keys;
    ghost var done: set<VertexKey> := {};
    while remaining != {}
      invariant remaining + done == buckets.Keys && remaining !! done
      invariant adj.Keys == Below(|tris|)
      invariant forall a, b :: a in adj ==> (b in adj[a] <==> exists k :: k in done && LinkedIn(buckets[k], a, b))
      decreases remaining
    {
      var k :| k in remaining;
      SlotsFacts(ks, k, 3 * |tris|);
      adj := LinkBucket(adj, buckets[k]);
      remaining := remaining - {k};
      done := done + {k};
    }
    forall a: nat, b: nat | a in adj
      ensures b in adj[a] <==> b < |tris| && SharesVertex(tris, a, b)
    {
      BucketLinkIffShares(tris, buckets, a, b);
    }
    GraphExtensional(tris, adj);
  }

  /** Two triangles are linked by some bucket exactly when they share a vertex key. */
  lemma BucketLinkIffShares(tris: seq<Triangle>, buckets: map<VertexKey, seq<nat>>, a: nat, b: nat)
    requires IsBucketMap(OccurrenceKeys(tris), buckets) && a < |tris|
    ensures (exists k :: k in buckets && LinkedIn(buckets[k], a, b)) <==> b < |tris| && SharesVertex(tris, a, b)
  {
    if exists k :: k in buckets && LinkedIn(buckets[k], a, b) {
      var k :| k in buckets && LinkedIn(buckets[k], a, b);
      LinkedInBucketSound(tris, k, a, b);
    }
    if b < |tris| && SharesVertex(tris, a, b) {
      var u: nat, v: nat :| u < 3 && v < 3 && (a != b || u != v)
                           && KeyOf(Corner(tris[a], u)) == KeyOf(Corner(tris[b], v));
      var k := KeyOf(Corner(tris[a], u));
      assert SharesKey(tris, k, a, b);
      LinkedInBucketComplete(tris, k, a, b);
      assert k in buckets;
    }
  }

  /** A map over all triangle indices linking exactly the triangles that share a key is the adjacency graph. */
  lemma GraphExtensional(tris: seq<Triangle>, adj: AdjacencyMap)
    requires adj.Keys == Below(|tris|)
    requires forall a: nat, b: nat :: a in adj ==> (b in adj[a] <==> b < |tris| && SharesVertex(tris, a, b))
    ensures adj == AdjacencyGraph(tris)
  {
    var g := AdjacencyGraph(tris);
    assert adj.Keys == g.Keys;
    forall a | a in adj
      ensures adj[a] == g[a]
    {
      assert forall b :: b in adj[a] <==> b in g[a];
    }
  }

  /** Adjacency is symmetric: sharing a key is a symmetric relation. */
  lemma AdjacencySymmetric(tris: seq<Triangle>, a: nat, b: nat)
    requires a in AdjacencyGraph(tris) && b in AdjacencyGraph(tris)[a]
    ensures b in AdjacencyGraph(tris) && a in AdjacencyGraph(tris)[b]
  {
    var u: nat, v: nat :| u < 3 && v < 3 && (a != b || u != v)
                         && KeyOf(Corner(tris[a], u)) == KeyOf(Corner(tris[b], v));
    assert v < 3 && u < 3 && (b != a || v != u) && KeyOf(Corner(tris[b], v)) == KeyOf(Corner(tris[a], u));
  }

  /** Two distinct triangles with a common vertex key are adjacent, in both directions. */
  lemma SharedCornerAdjacent(tris: seq<Triangle>, a: nat, u: nat, b: nat, v: nat)
    requires a < |tris| && b < |tris| && a != b && u < 3 && v < 3
    requires KeyOf(Corner(tris[a], u)) == KeyOf(Corner(tris[b], v))
    ensures b in AdjacencyGraph(tris)[a] && a in AdjacencyGraph(tris)[b]
  {
    assert SharesVertex(tris, a, b);
    assert SharesVertex(tris, b, a) by {
      assert v < 3 && u < 3 && (b != a || v != u) && KeyOf(Corner(tris[b], v)) == KeyOf(Corner(tris[a], u));
    }
  }

  /** A triangle is linked to itself exactly when two of its corners share a key. */
  lemma SelfLoopIffRepeatedKey(tris: seq<Triangle>, a: nat)
    requires a < |tris|
    ensures a in AdjacencyGraph(tris)[a] <==>
            (var t := tris[a]; KeyOf(t.a) == KeyOf(t.b) || KeyOf(t.b) == KeyOf(t.c) || KeyOf(t.a) == KeyOf(t.c))
  {
    var t := tris[a];
    if a in AdjacencyGraph(tris)[a] {
      var u: nat, v: nat :| u < 3 && v < 3 && u != v && KeyOf(Corner(t, u)) == KeyOf(Corner(t, v));
    }
    if KeyOf(t.a) == KeyOf(t.b) {
      assert KeyOf(Corner(t, 0)) == KeyOf(Corner(t, 1));
    } else if KeyOf(t.b) == KeyOf(t.c) {
      assert KeyOf(Corner(t, 1)) == KeyOf(Corner(t, 2));
    } else if KeyOf(t.a) == KeyOf(t.c) {
      assert KeyOf(Corner(t, 0)) == KeyOf(Corner(t, 2));
    }
  }
}
