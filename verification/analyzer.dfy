/**
 * Verdict of the mesh analyzer
 * (client/src/utils/stlAnalyzer.js, analyzeSTLGeometry and analyzeSTLComplete).
 *
 * The two feature flags read from the environment are a Config parameter.
 * The position attribute of the parsed geometry is `None` when it is
 * missing: reading it is then the exception both entry points catch.
 */
module Analyzer {
  import opened Wrappers
  import opened Geometry
  import opened Adjacency
  import opened Components
  import opened Boxes
  import opened Holes

  datatype Status = SingleObject | SeparatedObjects | AssembledObjects | AnalysisError

  datatype Action = Allow | Warn | Block

  /**
   * Result of analyzeSTLGeometry. minDistanceSq is the square of the
   * source's minDistance, present only when there are several components.
   */
  datatype Analysis = Analysis(status: Status, components: nat, minDistanceSq: Option<real>, action: Action)

  /** Result of analyzeSTLComplete: the analysis, its action escalated, and the hole report or null. */
  datatype CompleteAnalysis = CompleteAnalysis(analysis: Analysis, holes: Option<HoleReport>)

  datatype Config = Config(multiObjectDetection: bool, holeDetection: bool)

  /** Components further apart than this, in mm, are separate objects. */
  const SeparationThreshold: real := 1.0

  /** Below this many triangles a mesh is taken as one object without analysis. */
  const MinTriangles: nat := 4

  const SingleObjectAllowed: Analysis := Analysis(SingleObject, 1, None, Allow)

  const AnalysisFailed: Analysis := Analysis(AnalysisError, 1, None, Allow)

  /** The action each status carries in analyzeSTLGeometry. */
  function StatusAction(s: Status): Action {
    match s
    case SingleObject => Allow
    case AnalysisError => Allow
    case AssembledObjects => Warn
    case SeparatedObjects => Block
  }

  /** Step 7: several components, decided on the minimum distance between their boxes. */
  function Verdict(count: nat, minSq: real): Analysis {
    if minSq > Square(SeparationThreshold) then Analysis(SeparatedObjects, count, Some(minSq), Block)
    else Analysis(AssembledObjects, count, Some(minSq), Warn)
  }

  /** Comparing squares decides the same as comparing the distances themselves. */
  lemma ThresholdOnSquares(d: real)
    requires d >= 0.0
    ensures d > SeparationThreshold <==> Square(d) > Square(SeparationThreshold)
  {
    if d > SeparationThreshold {
      calc {
        Square(d);
      ==
        d * d;
      >
        1.0 * d;
      >
        1.0 * 1.0;
      ==
        Square(SeparationThreshold);
      }
    } else {
      SquareMonotone(d, SeparationThreshold);
    }
  }

  ghost predicate ValidPosition(position: Option<seq<Point>>) {
    position.Some? ==> |position.value| % 3 == 0
  }

  /** Every component is non-empty and holds indices of triangles in tris. */
  ghost predicate Indexes(comps: seq<seq<nat>>, tris: seq<Triangle>) {
    forall c :: 0 <= c < |comps| ==> |comps[c]| > 0 && forall k :: 0 <= k < |comps[c]| ==> comps[c][k] < |tris|
  }

  /** The bounding box of each component. */
  function ComponentBoxes(comps: seq<seq<nat>>, tris: seq<Triangle>): (boxes: seq<Box>)
    requires Indexes(comps, tris)
    ensures |boxes| == |comps|
    ensures forall c :: 0 <= c < |comps| ==> boxes[c] == ComponentBox(comps[c], tris)
  {
    seq(|comps|, c requires 0 <= c < |comps| => ComponentBox(comps[c], tris))
  }

  /**
   * What analyzeSTLGeometry answers for a configuration and a position
   * attribute, comps being the connected components it found.
   */
  ghost predicate IsAnalysisOf(cfg: Config, position: Option<seq<Point>>, comps: seq<seq<nat>>, a: Analysis)
    requires ValidPosition(position)
  {
    if !cfg.multiObjectDetection then a == SingleObjectAllowed
    else if position.None? then a == AnalysisFailed
    else
      var tris := ExtractTriangles(position.value);
      if |tris| < MinTriangles then a == SingleObjectAllowed
      else
        && ComponentsOf(|tris|, AdjacencyGraph(tris), comps)
        && Indexes(comps, tris)
        && if |comps| == 1 then a == SingleObjectAllowed
           else
             && a.minDistanceSq.Some?
             && LeastPairDistance(ComponentBoxes(comps, tris), a.minDistanceSq.value)
             && a == Verdict(|comps|, a.minDistanceSq.value)
  }

  /** The adjacency graph is a well-formed symmetric map over the triangle indices. */
  lemma GraphFacts(tris: seq<Triangle>)
    ensures WellFormed(|tris|, AdjacencyGraph(tris))
    ensures Symmetric(AdjacencyGraph(tris))
  {
    var adj := AdjacencyGraph(tris);
    forall a, b | a in adj && b in adj[a]
      ensures b in adj && a in adj[b]
    {
      AdjacencySymmetric(tris, a, b);
    }
  }

  /** Steps 5 to 7: boxes, their least distance, and the verdict on it. */
  method JudgeComponents(tris: seq<Triangle>, comps: seq<seq<nat>>) returns (a: Analysis)
    requires Indexes(comps, tris) && |comps| >= 2
    ensures a.minDistanceSq.Some?
    ensures LeastPairDistance(ComponentBoxes(comps, tris), a.minDistanceSq.value)
    ensures a == Verdict(|comps|, a.minDistanceSq.value)
  {
    var boxes := ComponentBoxes(comps, tris);
    var m := MinDistanceBetweenBoxes(boxes);
    a := Verdict(|comps|, m.value);
  }

  /**
   * analyzeSTLGeometry (lines 24-87): detection off, a missing position
   * attribute or fewer than four triangles short-cut the analysis; otherwise
   * triangles are extracted, linked, grouped into components and, if there
   * are several, judged on the least distance between their boxes.
   */
  method AnalyzeSTLGeometry(cfg: Config, position: Option<seq<Point>>) returns (a: Analysis, comps: seq<seq<nat>>)
    requires ValidPosition(position)
    ensures IsAnalysisOf(cfg, position, comps, a)
  {
    comps := [];
    if !cfg.multiObjectDetection {
      return SingleObjectAllowed, comps;
    }
    if position.None? {
      return AnalysisFailed, comps;
    }
    var tris := ExtractTriangles(position.value);
    if |tris| < MinTriangles {
      return SingleObjectAllowed, comps;
    }
    var adj := BuildAdjacencyMap(tris);
    GraphFacts(tris);
    var found := FindConnectedComponents(|tris|, adj);
    comps := found;
    IndicesInRange(|tris|, found);
    if |found| == 1 {
      return SingleObjectAllowed, comps;
    }
    assert 0 in Members(found);
    a := JudgeComponents(tris, found);
  }

  /** Holes raise `allow` to `warn`; `warn` and `block` stay. */
  function Escalate(action: Action, hasHoles: bool): Action {
    if hasHoles && action != Block then Warn else action
  }

  /** Severity order of actions. */
  function Rank(a: Action): nat {
    match a
    case Allow => 0
    case Warn => 1
    case Block => 2
  }

  /**
   * The escalated action is the more severe of the original one and `warn`
   * when there are holes: it never downgrades, keeps `block`, and leaves
   * the action alone without holes.
   */
  lemma EscalateIsMax(action: Action, hasHoles: bool)
    ensures var floor := if hasHoles then Rank(Warn) else Rank(Allow);
            Rank(Escalate(action, hasHoles)) == if Rank(action) >= floor then Rank(action) else floor
    ensures Rank(Escalate(action, hasHoles)) >= Rank(action)
    ensures Escalate(action, hasHoles) == Block <==> action == Block
    ensures !hasHoles ==> Escalate(action, hasHoles) == action
  {
  }

  /** The hole report detectHoles gives for tris. */
  ghost predicate IsHoleReportOf(tris: seq<Triangle>, r: HoleReport) {
    && r.totalEdgeCount == |DistinctEdges(tris)|
    && r.openEdgeCount == |OpenEdges(tris)|
    && (r.hasHoles <==> OpenEdges(tris) != {})
  }

  /**
   * What analyzeSTLComplete answers: the base analysis, and when hole
   * detection is on and the position attribute is there, the hole report
   * with the action escalated by it.
   */
  ghost predicate IsCompleteAnalysisOf(cfg: Config, position: Option<seq<Point>>, comps: seq<seq<nat>>, c: CompleteAnalysis)
    requires ValidPosition(position)
  {
    var base := c.analysis.(action := StatusAction(c.analysis.status));
    && IsAnalysisOf(cfg, position, comps, base)
    && if !cfg.holeDetection || position.None? then
         c.holes == None && c.analysis == base
       else
         && c.holes.Some?
         && IsHoleReportOf(ExtractTriangles(position.value), c.holes.value)
         && c.analysis.action == Escalate(base.action, c.holes.value.hasHoles)
  }

  /** The analyses analyzeSTLGeometry can return at all. */
  ghost predicate Attainable(a: Analysis) {
    || a == SingleObjectAllowed
    || a == AnalysisFailed
    || (a.components >= 2 && a.minDistanceSq.Some? && a == Verdict(a.components, a.minDistanceSq.value))
  }

  /** Every answer is attainable, and it is an error exactly when the position attribute is missing. */
  lemma AnalysisAttainable(cfg: Config, position: Option<seq<Point>>, comps: seq<seq<nat>>, a: Analysis)
    requires ValidPosition(position) && IsAnalysisOf(cfg, position, comps, a)
    ensures Attainable(a)
    ensures a.status == AnalysisError <==> cfg.multiObjectDetection && position.None?
  {
    if cfg.multiObjectDetection && position.Some? {
      var tris := ExtractTriangles(position.value);
      if |tris| >= MinTriangles && |comps| != 1 {
        SomeComponent(|tris|, comps);
      }
    }
  }

  /**
   * The action of an analysis is the one its status carries; one object or
   * an error comes with no distance, several objects with one.
   */
  lemma ActionFollowsStatus(a: Analysis)
    requires Attainable(a)
    ensures a.action == StatusAction(a.status)
    ensures a.status == SingleObject || a.status == AnalysisError ==> a.components == 1 && a.minDistanceSq == None
    ensures a.status == SeparatedObjects || a.status == AssembledObjects ==> a.components >= 2 && a.minDistanceSq.Some?
  {
  }

  /**
   * analyzeSTLComplete (lines 300-330): the base analysis, then, if hole
   * detection is on, the hole report of the same triangles and the action
   * escalated by it; a missing position attribute gives no report.
   */
  method AnalyzeSTLComplete(cfg: Config, position: Option<seq<Point>>) returns (c: CompleteAnalysis, comps: seq<seq<nat>>)
    requires ValidPosition(position)
    ensures IsCompleteAnalysisOf(cfg, position, comps, c)
  {
    var base;
    base, comps := AnalyzeSTLGeometry(cfg, position);
    AnalysisAttainable(cfg, position, comps, base);
    ActionFollowsStatus(base);
    if !cfg.holeDetection || position.None? {
      return CompleteAnalysis(base, None), comps;
    }
    var tris := ExtractTriangles(position.value);
    var report := DetectHoles(tris);
    c := CompleteAnalysis(base.(action := Escalate(base.action, report.hasHoles)), Some(report));
    assert c.analysis.(action := StatusAction(c.analysis.status)) == base;
  }

  /** Every triangle can be reached from triangle 0 along shared vertices. */
  ghost predicate Connected(tris: seq<Triangle>) {
    forall t: nat :: t < |tris| ==> Reachable(AdjacencyGraph(tris), 0, t)
  }

  /** With four or more triangles, the mesh is one object exactly when it is connected. */
  lemma SingleObjectIffConnected(cfg: Config, position: Option<seq<Point>>, comps: seq<seq<nat>>, a: Analysis)
    requires ValidPosition(position) && IsAnalysisOf(cfg, position, comps, a)
    requires cfg.multiObjectDetection && position.Some?
    requires |ExtractTriangles(position.value)| >= MinTriangles
    ensures a.status == SingleObject <==> Connected(ExtractTriangles(position.value))
  {
    var tris := ExtractTriangles(position.value);
    GraphFacts(tris);
    OneComponentIffConnected(|tris|, AdjacencyGraph(tris), comps);
  }

  /**
   * Separated objects really are apart: any corner of a triangle of one
   * component is further than the threshold from any corner of a triangle
   * of another.
   */
  lemma SeparatedMeansApart(cfg: Config, position: Option<seq<Point>>, comps: seq<seq<nat>>, a: Analysis,
                            c: nat, d: nat, x: nat, y: nat, u: nat, v: nat)
    requires ValidPosition(position) && IsAnalysisOf(cfg, position, comps, a)
    requires a.status == SeparatedObjects
    requires c < d < |comps| && x < |comps[c]| && y < |comps[d]| && u < 3 && v < 3
    ensures position.Some?
    ensures var tris := ExtractTriangles(position.value);
            SqDist(Corner(tris[comps[c][x]], u), Corner(tris[comps[d][y]], v)) > Square(SeparationThreshold)
  {
    var tris := ExtractTriangles(position.value);
    var boxes := ComponentBoxes(comps, tris);
    var p, q := Corner(tris[comps[c][x]], u), Corner(tris[comps[d][y]], v);
    assert Contains(boxes[c], p) && Contains(boxes[d], q);
    BoxDistanceLowerBound(boxes[c], boxes[d], p, q);
  }

  /** Assembled objects have two components, c and d, whose boxes come within the threshold. */
  lemma AssembledMeansClose(cfg: Config, position: Option<seq<Point>>, comps: seq<seq<nat>>, a: Analysis)
    returns (c: nat, d: nat)
    requires ValidPosition(position) && IsAnalysisOf(cfg, position, comps, a)
    requires a.status == AssembledObjects
    ensures position.Some? && Indexes(comps, ExtractTriangles(position.value))
    ensures c < d < |comps|
    ensures var boxes := ComponentBoxes(comps, ExtractTriangles(position.value));
            BoxDistanceSq(boxes[c], boxes[d]) <= Square(SeparationThreshold)
  {
    assert cfg.multiObjectDetection && position.Some?;
    var tris := ExtractTriangles(position.value);
    assert |tris| >= MinTriangles && |comps| != 1;
    var m := a.minDistanceSq.value;
    assert a == Verdict(|comps|, m);
    var boxes := ComponentBoxes(comps, tris);
    assert LeastPairDistance(boxes, m);
    c, d :| 0 <= c < d < |boxes| && m == BoxDistanceSq(boxes[c], boxes[d]);
  }

  /** Hole detection runs on any mesh with a position attribute, however few its triangles. */
  lemma LoneTriangleIsWarned(cfg: Config, t: Triangle, comps: seq<seq<nat>>, c: CompleteAnalysis)
    requires KeyOf(t.a) != KeyOf(t.b) && KeyOf(t.b) != KeyOf(t.c) && KeyOf(t.c) != KeyOf(t.a)
    requires cfg.holeDetection
    requires ValidPosition(Some(Positions([t]))) && IsCompleteAnalysisOf(cfg, Some(Positions([t])), comps, c)
    ensures c.analysis.status == SingleObject
    ensures c.analysis.action == Warn
    ensures c.holes.Some? && c.holes.value.openEdgeCount == 3
  {
    PositionsRoundTrip([t]);
    LoneTriangleHasThreeOpenEdges(t);
  }
}
