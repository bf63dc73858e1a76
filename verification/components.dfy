/**
 * Component finder of the mesh analyzer
 * (client/src/utils/stlAnalyzer.js, findConnectedComponents).
 *
 * Breadth-first search over the adjacency map, seeded from the lowest
 * unvisited triangle index until every index is visited. The source iterates
 * a JavaScript Set in insertion order; here the neighbours of a triangle are
 * taken in an unspecified order, so the order of indices inside a component
 * is not fixed, while membership, count and seed order are.
 */
module Components {
  import opened Adjacency

  /** Every key and every neighbour of the map is a triangle index below n. */
  ghost predicate WellFormed(n: nat, adj: AdjacencyMap) {
    forall a :: a in adj ==> a < n && forall b :: b in adj[a] ==> b < n
  }

  ghost predicate Symmetric(adj: AdjacencyMap) {
    forall a, b :: a in adj && b in adj[a] ==> b in adj && a in adj[b]
  }

  /** A non-empty walk along adjacency links. */
  ghost predicate IsPath(adj: AdjacencyMap, p: seq<nat>) {
    && |p| > 0
    && forall i :: 0 <= i < |p| - 1 ==> p[i] in adj && p[i + 1] in adj[p[i]]
  }

  ghost predicate Reachable(adj: AdjacencyMap, s: nat, t: nat) {
    exists p :: IsPath(adj, p) && p[0] == s && p[|p| - 1] == t
  }

  function Elems(s: seq<nat>): set<nat> {
    set x | x in s
  }

  /** All triangle indices held by a list of components. */
  ghost function Members(comps: seq<seq<nat>>): set<nat> {
    if |comps| == 0 then {} else Members(comps[..|comps| - 1]) + Elems(comps[|comps| - 1])
  }

  ghost predicate Distinct(s: seq<nat>) {
    forall i, j :: 0 <= i < j < |s| ==> s[i] != s[j]
  }

  /** Components are non-empty, repeat no index, and share no index. */
  ghost predicate Separate(comps: seq<seq<nat>>) {
    && (forall c :: 0 <= c < |comps| ==> |comps[c]| > 0 && Distinct(comps[c]))
    && (forall c, d, x :: 0 <= c < d < |comps| && x in comps[c] ==> x !in comps[d])
  }

  /** Every index 0 .. n-1 lies in exactly one component, and nothing else does. */
  ghost predicate Partition(n: nat, comps: seq<seq<nat>>) {
    Separate(comps) && Members(comps) == Below(n)
  }

  /**
   * Each component starts with its seed, its least index, which was the
   * lowest index not covered by the components before it.
   */
  ghost predicate SeededInOrder(comps: seq<seq<nat>>) {
    && (forall c :: 0 <= c < |comps| ==> |comps[c]| > 0)
    && forall c :: 0 <= c < |comps| ==>
      && (forall x :: x in comps[c] ==> comps[c][0] <= x)
      && (forall x: nat :: x < comps[c][0] ==> x in Members(comps[..c]))
      && (forall d :: 0 <= d < c ==> comps[d][0] < comps[c][0])
  }

  /** No link leaves the components found so far: those of a prefix are closed under adjacency. */
  ghost predicate PrefixClosed(adj: AdjacencyMap, comps: seq<seq<nat>>) {
    forall c, x :: 0 <= c < |comps| && x in comps[c] && x in adj ==> adj[x] <= Members(comps[..c + 1])
  }

  /** Every index of a component is reachable from the component's seed. */
  ghost predicate FromSeed(adj: AdjacencyMap, comps: seq<seq<nat>>) {
    forall c, x :: 0 <= c < |comps| && x in comps[c] ==> Reachable(adj, comps[c][0], x)
  }

  lemma {:induction false} MembersIff(comps: seq<seq<nat>>, x: nat)
    ensures x in Members(comps) <==> exists c :: 0 <= c < |comps| && x in comps[c]
  {
    if |comps| > 0 {
      var init := comps[..|comps| - 1];
      MembersIff(init, x);
      if x in Members(init) {
        var c :| 0 <= c < |init| && x in init[c];
        assert x in comps[c];
      }
    }
  }

  lemma MembersAppend(comps: seq<seq<nat>>, comp: seq<nat>)
    ensures Members(comps + [comp]) == Members(comps) + Elems(comp)
    ensures forall c :: 0 <= c <= |comps| ==> (comps + [comp])[..c] == comps[..c]
  {
    assert (comps + [comp])[..|comps|] == comps;
  }

  lemma PathExtend(adj: AdjacencyMap, p: seq<nat>, y: nat)
    requires IsPath(adj, p) && p[|p| - 1] in adj && y in adj[p[|p| - 1]]
    ensures IsPath(adj, p + [y])
  {
  }

  /** Appending a component disjoint from the previous ones keeps them separate. */
  lemma AppendSeparate(comps: seq<seq<nat>>, comp: seq<nat>)
    requires Separate(comps)
    requires |comp| > 0 && Distinct(comp) && Elems(comp) !! Members(comps)
    ensures Separate(comps + [comp])
  {
    var comps' := comps + [comp];
    forall c, d, x | 0 <= c < d < |comps'| && x in comps'[c]
      ensures x !in comps'[d]
    {
      if d == |comps| {
        MembersIff(comps, x);
      }
    }
  }

  /** Appending the component seeded at the lowest uncovered index keeps the seed order. */
  lemma AppendSeeded(comps: seq<seq<nat>>, comp: seq<nat>, start: nat)
    requires SeededInOrder(comps)
    requires forall x: nat :: x < start ==> x in Members(comps)
    requires forall c :: 0 <= c < |comps| ==> |comps[c]| > 0 && comps[c][0] < start
    requires |comp| > 0 && comp[0] == start && forall x :: x in comp ==> start <= x
    ensures SeededInOrder(comps + [comp])
  {
    MembersAppend(comps, comp);
  }

  /** Appending a component whose links stay inside what is covered keeps prefixes closed. */
  lemma AppendClosed(adj: AdjacencyMap, comps: seq<seq<nat>>, comp: seq<nat>)
    requires PrefixClosed(adj, comps)
    requires forall x :: x in comp && x in adj ==> adj[x] <= Members(comps) + Elems(comp)
    ensures PrefixClosed(adj, comps + [comp])
  {
    var comps' := comps + [comp];
    MembersAppend(comps, comp);
    assert comps'[..|comps| + 1] == comps';
    forall c, x | 0 <= c < |comps'| && x in comps'[c] && x in adj
      ensures adj[x] <= Members(comps'[..c + 1])
    {
      if c < |comps| {
        assert comps'[..c + 1] == comps[..c + 1];
      }
    }
  }

  /** Appending a component whose members all have a path from its seed keeps FromSeed. */
  lemma AppendFromSeed(adj: AdjacencyMap, comps: seq<seq<nat>>, comp: seq<nat>, paths: map<nat, seq<nat>>)
    requires FromSeed(adj, comps)
    requires |comp| > 0
    requires forall x :: x in comp ==> x in paths && IsPath(adj, paths[x])
                                       && paths[x][0] == comp[0] && paths[x][|paths[x]| - 1] == x
    ensures FromSeed(adj, comps + [comp])
  {
    var comps' := comps + [comp];
    forall c, x | 0 <= c < |comps'| && x in comps'[c]
      ensures Reachable(adj, comps'[c][0], x)
    {
      if c == |comps| {
        var p := paths[x];
        assert IsPath(adj, p) && p[0] == comps'[c][0] && p[|p| - 1] == x;
      }
    }
  }

  lemma DistinctConcat(s: seq<nat>, t: seq<nat>)
    requires Distinct(s) && Distinct(t) && Elems(s) !! Elems(t)
    ensures Distinct(s + t)
  {
    var u := s + t;
    forall i, j | 0 <= i < j < |u|
      ensures u[i] != u[j]
    {
      if i < |s| <= j {
        assert u[i] in Elems(s) && u[j] == t[j - |s|] && u[j] in Elems(t);
      } else if |s| <= i {
        assert u[i] == t[i - |s|] && u[j] == t[j - |s|];
      }
    }
  }

  /**
   * The neighbour loop of lines 178-184 part-way through, `done` being the
   * neighbours of `current` handled so far: each of them is visited, those
   * that were not visited before are queued once in handling order, and the
   * path of each is the current triangle's path plus one link.
   */
  ghost predicate Visiting(adj: AdjacencyMap, current: nat, visited: set<nat>, queue: seq<nat>,
                           paths: map<nat, seq<nat>>, done: set<nat>,
                           visited': set<nat>, queue': seq<nat>, paths': map<nat, seq<nat>>) {
    Queued(visited, queue, done, visited', queue') && Traced(adj, current, visited, paths, visited', paths')
  }

  /** The visible effect of the loop: `done` is visited, and what was new is queued once each. */
  ghost predicate Queued(visited: set<nat>, queue: seq<nat>, done: set<nat>, visited': set<nat>, queue': seq<nat>) {
    && visited' == visited + done
    && |queue'| >= |queue| && queue'[..|queue|] == queue
    && Elems(queue'[|queue|..]) == visited' - visited && Distinct(queue'[|queue|..])
  }

  /** The paths behind it: each newly visited triangle is reached from the seed of `current`'s path. */
  ghost predicate Traced(adj: AdjacencyMap, current: nat, visited: set<nat>, paths: map<nat, seq<nat>>,
                         visited': set<nat>, paths': map<nat, seq<nat>>) {
    && current in paths && |paths[current]| > 0
    && (forall x :: x in paths ==> x in paths' && paths'[x] == paths[x])
    && paths'.Keys <= paths.Keys + visited'
    && (forall x :: x in visited' - visited ==>
          (x in paths' && IsPath(adj, paths'[x]) && paths'[x][0] == paths[current][0] && paths'[x][|paths'[x]| - 1] == x))
  }

  /** The neighbours of a triangle; none for an index without an entry. */
  function NeighborsOf(adj: AdjacencyMap, t: nat): set<nat> {
    if t in adj then adj[t] else {}
  }

  /** What the neighbour loop achieves once every neighbour of `current` is handled. */
  ghost predicate NeighborsVisited(adj: AdjacencyMap, current: nat, visited: set<nat>, queue: seq<nat>,
                                   paths: map<nat, seq<nat>>,
                                   visited': set<nat>, queue': seq<nat>, paths': map<nat, seq<nat>>) {
    Visiting(adj, current, visited, queue, paths, NeighborsOf(adj, current), visited', queue', paths')
  }

  /** The neighbour loop of lines 178-184. */
  method VisitNeighbors(adj: AdjacencyMap, current: nat, visited: set<nat>, queue: seq<nat>,
                        ghost paths: map<nat, seq<nat>>)
    returns (visited': set<nat>, queue': seq<nat>, ghost paths': map<nat, seq<nat>>)
    requires current in paths && IsPath(adj, paths[current]) && paths[current][|paths[current]| - 1] == current
    requires paths.Keys <= visited
    ensures Queued(visited, queue, NeighborsOf(adj, current), visited', queue')
    ensures Traced(adj, current, visited, paths, visited', paths')
  {
    var neighbors := NeighborsOf(adj, current);
    var rest := neighbors;
    visited', queue', paths' := visited, queue, paths;
    assert queue'[|queue|..] == [];
    while rest != {}
      invariant rest <= neighbors
      invariant Visiting(adj, current, visited, queue, paths, neighbors - rest, visited', queue', paths')
      decreases rest
    {
      var nb :| nb in rest;
      visited', queue', paths' := VisitOne(adj, current, visited, queue, paths, neighbors - rest, nb, visited', queue', paths');
      assert neighbors - rest + {nb} == neighbors - (rest - {nb});
      rest := rest - {nb};
    }
  }

  /** One turn of the neighbour loop: an unvisited neighbour is marked, queued and given its path. */
  method VisitOne(adj: AdjacencyMap, current: nat, ghost visited: set<nat>, ghost queue: seq<nat>,
                  ghost paths: map<nat, seq<nat>>, ghost done: set<nat>, nb: nat,
                  vis: set<nat>, q: seq<nat>, ghost ps: map<nat, seq<nat>>)
    returns (vis': set<nat>, q': seq<nat>, ghost ps': map<nat, seq<nat>>)
    requires current in paths && IsPath(adj, paths[current]) && paths[current][|paths[current]| - 1] == current
    requires paths.Keys <= visited
    requires nb in NeighborsOf(adj, current) && nb !in done
    requires Visiting(adj, current, visited, queue, paths, done, vis, q, ps)
    ensures Queued(visited, queue, done + {nb}, vis', q')
    ensures Traced(adj, current, visited, paths, vis', ps')
  {
    vis', q', ps' := vis + {nb}, q, ps;
    if nb !in vis {
      ghost var added := q[|queue|..];
      assert nb !in Elems(added) && nb !in paths;
      q' := q + [nb];
      assert q'[|queue|..] == added + [nb];
      PathExtend(adj, paths[current], nb);
      ps' := ps[nb := paths[current] + [nb]];
      assert Elems(q'[|queue|..]) == Elems(added) + {nb};
    }
  }

  /**
   * The invariant of the search loop: `order` (done, then queued) lists
   * without repetition exactly what this search has visited, seed first, and
   * every done triangle has all its neighbours visited.
   */
  ghost predicate Exploring(n: nat, adj: AdjacencyMap, start: nat, visited: set<nat>,
                            comp: seq<nat>, queue: seq<nat>, visited': set<nat>, paths: map<nat, seq<nat>>) {
    var order := comp + queue;
    && visited' == visited + Elems(order)
    && visited !! Elems(order)
    && Distinct(order) && |order| > 0 && order[0] == start
    && (forall x :: x in order ==> start <= x < n)
    && (forall x :: x in comp && x in adj ==> adj[x] <= visited')
    && (forall x :: x in order ==> x in paths && IsPath(adj, paths[x]) && paths[x][0] == start && paths[x][|paths[x]| - 1] == x)
    && paths.Keys <= visited'
  }

  /** Moving the head of the queue to the component and queueing its new neighbours keeps the invariant. */
  lemma ExploreStep(n: nat, adj: AdjacencyMap, start: nat, visited: set<nat>,
                    comp: seq<nat>, queue: seq<nat>, vis: set<nat>, paths: map<nat, seq<nat>>,
                    vis': set<nat>, queue': seq<nat>, paths': map<nat, seq<nat>>)
    requires WellFormed(n, adj)
    requires forall x: nat :: x < start ==> x in visited
    requires Exploring(n, adj, start, visited, comp, queue, vis, paths) && |queue| > 0
    requires NeighborsVisited(adj, queue[0], vis, queue[1..], paths, vis', queue', paths')
    ensures Exploring(n, adj, start, visited, comp + [queue[0]], queue', vis', paths')
    ensures queue[0] < n && queue[0] !in Elems(comp)
  {
    var current := queue[0];
    var order := comp + queue;
    var added := queue'[|queue| - 1..];
    OrderStep(comp, queue, queue');
    assert current in order;
    forall i | 0 <= i < |comp|
      ensures comp[i] != current
    {
      assert order[i] == comp[i];
    }
    forall x | x in added
      ensures start <= x < n && x !in visited && x !in Elems(order)
    {
      assert x in vis' - vis;
      assert current in adj && x in adj[current];
    }
    DistinctConcat(order, added);
  }

  /** The component grown by the head of the queue, then the rest of the queue, is the old order plus the new tail. */
  lemma OrderStep(comp: seq<nat>, queue: seq<nat>, queue': seq<nat>)
    requires |queue| > 0 && |queue'| >= |queue| - 1 && queue'[..|queue| - 1] == queue[1..]
    ensures (comp + [queue[0]]) + queue' == (comp + queue) + queue'[|queue| - 1..]
    ensures Elems((comp + [queue[0]]) + queue') == Elems(comp + queue) + Elems(queue'[|queue| - 1..])
    ensures (comp + queue)[|comp|] == queue[0]
  {
    assert queue' == queue[1..] + queue'[|queue| - 1..];
    assert (comp + [queue[0]]) + queue[1..] == comp + queue;
  }

  /**
   * One breadth-first search of lines 170-185, seeded at the lowest
   * unvisited index: it visits exactly the new component, lists each of its
   * triangles once with the seed first, and leaves no link of it unvisited.
   */
  method ExploreComponent(n: nat, adj: AdjacencyMap, start: nat, visited: set<nat>)
    returns (comp: seq<nat>, visited': set<nat>, ghost paths: map<nat, seq<nat>>)
    requires WellFormed(n, adj)
    requires start < n && start !in visited
    requires forall x :: x in visited ==> x < n
    requires forall x: nat :: x < start ==> x in visited
    ensures |comp| > 0 && comp[0] == start && Distinct(comp)
    ensures visited' == visited + Elems(comp) && visited !! Elems(comp)
    ensures forall x :: x in comp ==> start <= x < n
    ensures forall x :: x in comp && x in adj ==> adj[x] <= visited'
    ensures forall x :: x in comp ==> x in paths && IsPath(adj, paths[x])
                                      && paths[x][0] == start && paths[x][|paths[x]| - 1] == x
  {
    comp := [];
    var queue: seq<nat> := [start];
    visited' := visited + {start};
    paths := map[start := [start]];
    assert comp + queue == [start];
    while |queue| > 0
      invariant Exploring(n, adj, start, visited, comp, queue, visited', paths)
      decreases Below(n) - Elems(comp)
    {
      comp, queue, visited', paths := ExploreOnce(n, adj, start, visited, comp, queue, visited', paths);
    }
    ExploreDone(n, adj, start, visited, comp, queue, visited', paths);
  }

  /** One turn of the search loop: the head of the queue joins the component and its new neighbours are queued. */
  method ExploreOnce(n: nat, adj: AdjacencyMap, start: nat, ghost visited: set<nat>,
                     comp: seq<nat>, queue: seq<nat>, vis: set<nat>, ghost paths: map<nat, seq<nat>>)
    returns (comp': seq<nat>, queue': seq<nat>, vis': set<nat>, ghost paths': map<nat, seq<nat>>)
    requires WellFormed(n, adj)
    requires forall x: nat :: x < start ==> x in visited
    requires Exploring(n, adj, start, visited, comp, queue, vis, paths) && |queue| > 0
    ensures Exploring(n, adj, start, visited, comp', queue', vis', paths')
    ensures Below(n) - Elems(comp') < Below(n) - Elems(comp)
  {
    var current := queue[0];
    HeadReady(n, adj, start, visited, comp, queue, vis, paths);
    vis', queue', paths' := VisitNeighbors(adj, current, vis, queue[1..], paths);
    ExploreStep(n, adj, start, visited, comp, queue, vis, paths, vis', queue', paths');
    comp' := comp + [current];
    assert Elems(comp') == Elems(comp) + {current};
    assert current in Below(n) - Elems(comp);
  }

  /** The head of the queue has a path from the seed, and every triangle with a path is visited. */
  lemma HeadReady(n: nat, adj: AdjacencyMap, start: nat, visited: set<nat>,
                  comp: seq<nat>, queue: seq<nat>, vis: set<nat>, paths: map<nat, seq<nat>>)
    requires Exploring(n, adj, start, visited, comp, queue, vis, paths) && |queue| > 0
    ensures queue[0] in paths && IsPath(adj, paths[queue[0]]) && paths[queue[0]][|paths[queue[0]]| - 1] == queue[0]
    ensures paths.Keys <= vis
  {
    assert (comp + queue)[|comp|] == queue[0];
  }

  /** With the queue empty, the invariant is the search's postcondition. */
  lemma ExploreDone(n: nat, adj: AdjacencyMap, start: nat, visited: set<nat>,
                    comp: seq<nat>, queue: seq<nat>, vis: set<nat>, paths: map<nat, seq<nat>>)
    requires Exploring(n, adj, start, visited, comp, queue, vis, paths) && |queue| == 0
    ensures |comp| > 0 && comp[0] == start && Distinct(comp)
    ensures vis == visited + Elems(comp) && visited !! Elems(comp)
    ensures forall x :: x in comp ==> start <= x < n
    ensures forall x :: x in comp && x in adj ==> adj[x] <= vis
    ensures forall x :: x in comp ==> x in paths && IsPath(adj, paths[x])
                                      && paths[x][0] == start && paths[x][|paths[x]| - 1] == x
  {
    assert comp + queue == comp;
  }

  /**
   * findConnectedComponents (lines 162-191). The result partitions the
   * triangle indices, its components are seeded in increasing order, no
   * adjacency link leaves the components found so far, and every member of
   * a component is reachable from its seed.
   */
  method FindConnectedComponents(n: nat, adj: AdjacencyMap) returns (comps: seq<seq<nat>>)
    requires WellFormed(n, adj)
    ensures Partition(n, comps)
    ensures SeededInOrder(comps)
    ensures PrefixClosed(adj, comps)
    ensures FromSeed(adj, comps)
  {
    var visited: set<nat> := {};
    comps := [];
    var start := 0;
    while start < n
      invariant start <= n && Scanning(n, adj, start, visited, comps)
    {
      visited, comps := ScanOnce(n, adj, start, visited, comps);
      start := start + 1;
    }
    ScanDone(n, adj, visited, comps);
  }

  /** One turn of the outer loop (lines 167-188): an uncovered index seeds a new component, a covered one is passed over. */
  method ScanOnce(n: nat, adj: AdjacencyMap, start: nat, visited: set<nat>, comps: seq<seq<nat>>)
    returns (visited': set<nat>, comps': seq<seq<nat>>)
    requires WellFormed(n, adj)
    requires start < n && Scanning(n, adj, start, visited, comps)
    ensures Scanning(n, adj, start + 1, visited', comps')
    ensures start in visited ==> visited' == visited && comps' == comps
    ensures start !in visited ==> |comps'| == |comps| + 1 && comps'[..|comps|] == comps && comps'[|comps|][0] == start
  {
    if start in visited {
      SkipVisited(n, adj, start, visited, comps);
      return visited, comps;
    }
    var comp, vis, paths := ExploreComponent(n, adj, start, visited);
    AddComponent(n, adj, start, visited, comps, comp, vis, paths);
    visited', comps' := vis, comps + [comp];
    assert comps'[..|comps|] == comps;
  }

  /** With every index scanned, the outer invariant is the search's postcondition. */
  lemma ScanDone(n: nat, adj: AdjacencyMap, visited: set<nat>, comps: seq<seq<nat>>)
    requires Scanning(n, adj, n, visited, comps)
    ensures Partition(n, comps) && SeededInOrder(comps) && PrefixClosed(adj, comps) && FromSeed(adj, comps)
  {
    assert Members(comps) == Below(n);
  }

  /** The outer loop's invariant: the components seeded below start, and what they cover. */
  ghost predicate Scanning(n: nat, adj: AdjacencyMap, start: nat, visited: set<nat>, comps: seq<seq<nat>>) {
    && visited == Members(comps)
    && (forall x :: x in visited ==> x < n)
    && (forall x: nat :: x < start ==> x in visited)
    && Separate(comps) && SeededInOrder(comps) && PrefixClosed(adj, comps) && FromSeed(adj, comps)
    && (forall c :: 0 <= c < |comps| ==> comps[c][0] < start)
  }

  /** An index already covered opens no new component. */
  lemma SkipVisited(n: nat, adj: AdjacencyMap, start: nat, visited: set<nat>, comps: seq<seq<nat>>)
    requires Scanning(n, adj, start, visited, comps) && start in visited
    ensures Scanning(n, adj, start + 1, visited, comps)
  {
  }

  /** The component explored from an uncovered index extends the partition. */
  lemma AddComponent(n: nat, adj: AdjacencyMap, start: nat, visited: set<nat>, comps: seq<seq<nat>>,
                     comp: seq<nat>, visited': set<nat>, paths: map<nat, seq<nat>>)
    requires Scanning(n, adj, start, visited, comps) && start < n && start !in visited
    requires |comp| > 0 && comp[0] == start && Distinct(comp)
    requires visited' == visited + Elems(comp) && visited !! Elems(comp)
    requires forall x :: x in comp ==> start <= x < n
    requires forall x :: x in comp && x in adj ==> adj[x] <= visited'
    requires forall x :: x in comp ==> x in paths && IsPath(adj, paths[x])
                                       && paths[x][0] == start && paths[x][|paths[x]| - 1] == x
    ensures Scanning(n, adj, start + 1, visited', comps + [comp])
  {
    AppendSeparate(comps, comp);
    AppendSeeded(comps, comp, start);
    AppendClosed(adj, comps, comp);
    AppendFromSeed(adj, comps, comp, paths);
    MembersAppend(comps, comp);
  }

  /** What FindConnectedComponents guarantees, bundled for the lemmas below. */
  ghost predicate ComponentsOf(n: nat, adj: AdjacencyMap, comps: seq<seq<nat>>) {
    Partition(n, comps) && SeededInOrder(comps) && PrefixClosed(adj, comps) && FromSeed(adj, comps)
  }

  /** A partition of a non-empty index range has a component. */
  lemma SomeComponent(n: nat, comps: seq<seq<nat>>)
    requires Partition(n, comps) && n > 0
    ensures |comps| > 0
  {
    assert 0 in Members(comps);
  }

  /** Every index below n lies in exactly one component. */
  lemma ExactlyOneComponent(n: nat, comps: seq<seq<nat>>, x: nat)
    requires Partition(n, comps) && x < n
    ensures exists c :: 0 <= c < |comps| && x in comps[c]
    ensures forall c, d :: 0 <= c < |comps| && 0 <= d < |comps| && x in comps[c] && x in comps[d] ==> c == d
  {
    MembersIff(comps, x);
  }

  /** Components hold triangle indices only. */
  lemma IndicesInRange(n: nat, comps: seq<seq<nat>>)
    requires Partition(n, comps)
    ensures forall c, k :: 0 <= c < |comps| && 0 <= k < |comps[c]| ==> comps[c][k] < n
  {
    forall c, k | 0 <= c < |comps| && 0 <= k < |comps[c]|
      ensures comps[c][k] < n
    {
      MembersIff(comps, comps[c][k]);
    }
  }

  /** An index covered by the first k components lies in one of them. */
  lemma InPrefix(comps: seq<seq<nat>>, k: nat, y: nat) returns (d: nat)
    requires k <= |comps| && y in Members(comps[..k])
    ensures d < k && y in comps[d]
  {
    MembersIff(comps[..k], y);
    d :| 0 <= d < k && y in comps[..k][d];
  }

  /** With a symmetric map, the two ends of a link always share a component. */
  lemma AdjacentSameComponent(n: nat, adj: AdjacencyMap, comps: seq<seq<nat>>, c: nat, x: nat, y: nat)
    requires Symmetric(adj) && ComponentsOf(n, adj, comps)
    requires c < |comps| && x in comps[c] && x in adj && y in adj[x]
    ensures y in comps[c]
  {
    ClosedLink(adj, comps, c, x, y);
  }

  /** The same, from the two properties it rests on. */
  lemma ClosedLink(adj: AdjacencyMap, comps: seq<seq<nat>>, c: nat, x: nat, y: nat)
    requires Symmetric(adj) && Separate(comps) && PrefixClosed(adj, comps)
    requires c < |comps| && x in comps[c] && x in adj && y in adj[x]
    ensures y in comps[c]
  {
    LinkStaysInPrefix(adj, comps, c, x, y);
    var d := InPrefix(comps, c + 1, y);
    if d < c {
      assert y in adj && x in adj[y];
      LinkStaysInPrefix(adj, comps, d, y, x);
      var e := InPrefix(comps, d + 1, x);
      NotInTwo(comps, e, c, x);
    }
  }

  /** A link from a member of component c ends among the first c + 1 components. */
  lemma LinkStaysInPrefix(adj: AdjacencyMap, comps: seq<seq<nat>>, c: nat, x: nat, y: nat)
    requires PrefixClosed(adj, comps)
    requires c < |comps| && x in comps[c] && x in adj && y in adj[x]
    ensures y in Members(comps[..c + 1])
  {
  }

  /** Separate components share no index. */
  lemma NotInTwo(comps: seq<seq<nat>>, c: nat, d: nat, x: nat)
    requires Separate(comps) && c < d < |comps| && x in comps[c]
    ensures x !in comps[d]
  {
  }

  /** ... and so, transitively, does every chain of links. */
  lemma {:induction false} PathStaysInComponent(n: nat, adj: AdjacencyMap, comps: seq<seq<nat>>, c: nat, p: seq<nat>)
    requires Symmetric(adj) && ComponentsOf(n, adj, comps)
    requires c < |comps| && IsPath(adj, p) && p[0] in comps[c]
    ensures p[|p| - 1] in comps[c]
    decreases |p|
  {
    if |p| > 1 {
      AdjacentSameComponent(n, adj, comps, c, p[0], p[1]);
      assert IsPath(adj, p[1..]);
      PathStaysInComponent(n, adj, comps, c, p[1..]);
    }
  }

  function Reverse(p: seq<nat>): (r: seq<nat>)
    ensures |r| == |p| && forall i :: 0 <= i < |p| ==> r[i] == p[|p| - 1 - i]
  {
    seq(|p|, i requires 0 <= i < |p| => p[|p| - 1 - i])
  }

  lemma ReversePath(adj: AdjacencyMap, p: seq<nat>)
    requires Symmetric(adj) && IsPath(adj, p)
    ensures IsPath(adj, Reverse(p))
  {
    var r := Reverse(p);
    forall i | 0 <= i < |r| - 1
      ensures r[i] in adj && r[i + 1] in adj[r[i]]
    {
      var k := |p| - 2 - i;
      assert r[i] == p[k + 1] && r[i + 1] == p[k];
    }
  }

  lemma JoinPaths(adj: AdjacencyMap, p: seq<nat>, q: seq<nat>)
    requires IsPath(adj, p) && IsPath(adj, q) && p[|p| - 1] == q[0]
    ensures IsPath(adj, p + q[1..]) && (p + q[1..])[0] == p[0] && (p + q[1..])[|p + q[1..]| - 1] == q[|q| - 1]
  {
    var r := p + q[1..];
    forall i | 0 <= i < |r| - 1
      ensures r[i] in adj && r[i + 1] in adj[r[i]]
    {
      if i >= |p| - 1 {
        var k := i - |p| + 1;
        assert r[i] == q[k] && r[i + 1] == q[k + 1];
      }
    }
  }

  /**
   * With a symmetric map the components are exactly the connected
   * components: y shares x's component iff y is reachable from x.
   */
  lemma SameComponentIffReachable(n: nat, adj: AdjacencyMap, comps: seq<seq<nat>>, c: nat, x: nat, y: nat)
    requires Symmetric(adj) && ComponentsOf(n, adj, comps)
    requires c < |comps| && x in comps[c]
    ensures y in comps[c] <==> Reachable(adj, x, y)
  {
    if Reachable(adj, x, y) {
      var p :| IsPath(adj, p) && p[0] == x && p[|p| - 1] == y;
      PathStaysInComponent(n, adj, comps, c, p);
    }
    if y in comps[c] {
      var s := comps[c][0];
      var px :| IsPath(adj, px) && px[0] == s && px[|px| - 1] == x;
      var py :| IsPath(adj, py) && py[0] == s && py[|py| - 1] == y;
      ReversePath(adj, px);
      JoinPaths(adj, Reverse(px), py);
      var p := Reverse(px) + py[1..];
      assert IsPath(adj, p) && p[0] == x && p[|p| - 1] == y;
    }
  }

  /**
   * For a non-empty mesh, the search yields a single component exactly when
   * every triangle is reachable from triangle 0.
   */
  lemma OneComponentIffConnected(n: nat, adj: AdjacencyMap, comps: seq<seq<nat>>)
    requires n > 0 && Symmetric(adj) && ComponentsOf(n, adj, comps)
    ensures |comps| >= 1
    ensures |comps| == 1 <==> forall t: nat :: t < n ==> Reachable(adj, 0, t)
  {
    MembersIff(comps, 0);
    assert 0 in Below(n);
    var c0 :| 0 <= c0 < |comps| && 0 in comps[c0];
    assert 0 !in Members(comps[..0]);
    assert comps[0][0] == 0;
    assert 0 in comps[0];
    if |comps| == 1 {
      forall t: nat | t < n
        ensures Reachable(adj, 0, t)
      {
        MembersIff(comps, t);
      }
    } else {
      var t := comps[1][0];
      assert t in comps[1];
      assert t !in comps[0];
      assert t in Members(comps) by { MembersIff(comps, t); }
      SameComponentIffReachable(n, adj, comps, 0, 0, t);
      assert t < n && !Reachable(adj, 0, t);
    }
  }
}
