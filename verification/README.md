# Print-shop upload gate and instant quote, in Dafny

This project models the core of a 3D-printing web shop's client: the mesh
analyzer that decides whether an uploaded STL file is one printable object
(client/src/utils/stlAnalyzer.js), the verification gate of the two-step
upload page built on it (client/src/App.js), and the instant quote: the
price breakdown of the calculator (client/src/components/PriceCalculator.js)
and the shipping tariff (client/src/config/pricing.js).

The analyzer works in the following steps:

- It cuts the position buffer into triangles.
- It gives every corner a vertex key by snapping each coordinate to a
  0.0001 grid, with JavaScript's `Math.round`.
- It links triangles that share a key.
- A breadth-first search groups the linked triangles into connected
  components.
- With several components, it compares the least distance between their
  axis-aligned bounding boxes with 1 mm:
  - further apart is `separated_objects`, and the action is `block`;
  - otherwise it is `assembled_objects`, and the action is `warn`.
- It counts how often each edge occurs among the faces' three edges each.
  An edge that occurs once is open: any open edge means the mesh has holes,
  which raises `allow` to `warn`.

The page turns the verdict into a check status (PASS, WARN or FAIL) and a
quote eligibility (ALLOWED or QUOTE_ONLY).

Modules, one per file:

| file | module | models |
|---|---|---|
| wrappers.dfy | Wrappers | `Option` |
| geometry.dfy | Geometry | points, triangles, `vertexKey`, `extractTriangles` |
| adjacency.dfy | Adjacency | `buildAdjacencyMap`, both phases |
| components.dfy | Components | `findConnectedComponents` and its breadth-first search |
| boxes.dfy | Boxes | `computeComponentBoundingBox`, `boxToBoxDistance`, `calculateMinDistanceBetweenBoxes` |
| holes.dfy | Holes | `edgeKey`, `detectHoles` |
| analyzer.dfy | Analyzer | `analyzeSTLGeometry`, `analyzeSTLComplete` |
| app.dfy | App | the upload page as a transition function over its state |
| pricing.dfy | Pricing | the tables, `estimateWeight`, `getShippingPrice` |
| quote.dfy | Quote | `isOversized`, `priceDetails`, the reset on a technology change |

Modelling choices:

- **Coordinates and prices are exact reals.** `Math.round(x)` is
  `floor(x + 1/2)`, and a vertex key is a triple of integers. The source's
  key, the string "x,y,z", is injective on such triples.
- **Distances are kept squared.** `Math.sqrt` is monotone and non-negative.
  So comparing a squared distance with the squared threshold decides the
  same as the source's comparison (`ThresholdOnSquares`). The least squared
  distance is attained by the same pair of boxes.
- **The two feature flags are parameters.** `REACT_APP_ENABLE_MULTI_OBJECT_DETECTION`
  and `REACT_APP_ENABLE_HOLE_DETECTION` are read from the environment at
  load time; here they are the `Config` parameter of the analyzer.
- **A missing position attribute is `None`.** Reading it throws in the
  source, and both entry points catch the exception.
- **The page is a pure function `Next(state, event)`.** A verification is
  two events: the call, which marks the file CHECKING, and the completion
  after the `await`, which carries the outcome (the complete analysis or a
  thrown error). Reading the file, `STLLoader` and the analyzer call are
  folded into that outcome. The file input and the demo link stay live
  while a verification runs, so other events can come between the two.
  The completion does not look at the selected file again. A clean verdict
  can therefore land after the demo cube was loaded and the page reset
  from step 2, giving PASS and ALLOWED with no file. It can also land after
  another file was chosen, which Continue then loads as verified
  (`App.StaleVerdictLands`).
- **The eligibility is a recorded verdict, not a gate.** The page passes
  `quoteEligibility` to the calculator (App.js:577), but `PriceCalculator`
  takes only the volume, the dimensions and the checkout callback
  (PriceCalculator.js:49). So the calculator prices a part whatever the
  eligibility, and `Quote.Price` does not depend on it. The model states
  when the page sets ALLOWED or QUOTE_ONLY, not what that allows.
- **With fewer than four triangles**, `analyzeSTLGeometry` allows the file
  without analysis; `analyzeSTLComplete` still runs hole detection on it,
  so a lone triangle is escalated to `warn` (`Analyzer.LoneTriangleIsWarned`).

## Model

| member | source | states |
|---|---|---|
| Geometry.KeyOf | client/src/utils/stlAnalyzer.js:111-118 | each key coordinate is an integer within half a grid step of the coordinate scaled by 1/0.0001, rounding halves upwards |
| Geometry.RoundUnique | client/src/utils/stlAnalyzer.js:114-116 | `Math.round` has exactly one answer: the integer n with r − ½ < n ≤ r + ½ |
| Geometry.SameKeyWithinTolerance | client/src/utils/stlAnalyzer.js:111-118 | two points with the same key are strictly within the 0.0001 tolerance of each other on every axis |
| Geometry.GridPointKey | client/src/utils/stlAnalyzer.js:111-118 | a point lying on the 0.0001 grid gets its own grid coordinates as key |
| Geometry.CloseAcrossBoundaryGetDifferentKeys | client/src/utils/stlAnalyzer.js:111-118 | keys bucket points rather than test tolerance: two points 0.00002 apart on either side of a cell boundary get different keys |
| Geometry.ExtractTriangles | client/src/utils/stlAnalyzer.js:92-106 | there are count/3 triangles, and triangle i is made of positions 3i, 3i+1 and 3i+2, in that order |
| Geometry.ExtractRoundTrip | client/src/utils/stlAnalyzer.js:92-106 | flattening the extracted triangles gives back the position buffer |
| Geometry.PositionsRoundTrip | client/src/utils/stlAnalyzer.js:92-106 | extracting the flattened list of any triangles gives back those triangles |
| Adjacency.BucketStep | client/src/utils/stlAnalyzer.js:131-135 | visiting one corner appends its triangle to its key's list, creating the list if needed, and touches no other list |
| Adjacency.VertexToTriangles | client/src/utils/stlAnalyzer.js:126-137 | each key occurring in the mesh has a non-empty list holding, in visiting order, the triangle of each corner carrying it; keys that do not occur have no list |
| Adjacency.LinkBucket | client/src/utils/stlAnalyzer.js:148-153 | one list's double loop adds exactly the links between the triangles at two different positions of the list, in both directions, and adds no index |
| Adjacency.EmptyAdjacency | client/src/utils/stlAnalyzer.js:142-144 | there is an empty neighbour set for every triangle index and for nothing else |
| Adjacency.BuildAdjacencyMap | client/src/utils/stlAnalyzer.js:124-157 | the map equals the adjacency graph: every index has an entry, and b is a neighbour of a exactly when two different corner occurrences of a and b carry the same key |
| Adjacency.BucketLinkIffShares | client/src/utils/stlAnalyzer.js:147-154 | some key's list links a and b exactly when a and b share a vertex key at two different corners |
| Adjacency.LinkedInBucketSound | client/src/utils/stlAnalyzer.js:147-153 | every link a list makes comes from two different corner occurrences with the list's key |
| Adjacency.LinkedInBucketComplete | client/src/utils/stlAnalyzer.js:129-153 | any two different corner occurrences with the same key get their triangles linked by that key's list |
| Adjacency.AdjacencySymmetric | client/src/utils/stlAnalyzer.js:150-151 | adjacency is symmetric |
| Adjacency.SharedCornerAdjacent | client/src/utils/stlAnalyzer.js:124-157 | two different triangles with a common vertex key are neighbours of each other |
| Adjacency.SelfLoopIffRepeatedKey | client/src/utils/stlAnalyzer.js:148-153 | a triangle is its own neighbour exactly when two of its corners have the same key (a degenerate face) |
| Components.VisitNeighbors | client/src/utils/stlAnalyzer.js:178-184 | every neighbour of the current triangle ends up visited; those not visited before are queued once each; each of them is reachable from the search's seed |
| Components.VisitOne | client/src/utils/stlAnalyzer.js:180-183 | one neighbour is marked visited and, if it was new, queued once with a path from the seed |
| Components.ExploreStep | client/src/utils/stlAnalyzer.js:174-185 | moving the head of the queue into the component and queueing its new neighbours keeps the search's invariant; the head was not yet in the component |
| Components.ExploreOnce | client/src/utils/stlAnalyzer.js:175-184 | one turn of the search keeps its invariant and adds a new index to the component |
| Components.ExploreComponent | client/src/utils/stlAnalyzer.js:169-185 | the component starts with its seed and has no repeats; it holds only indices not visited before, and those are exactly what gets marked visited; every neighbour of a member is visited; every member is reachable from the seed |
| Components.FindConnectedComponents | client/src/utils/stlAnalyzer.js:162-191 | the components partition 0..n−1; each seed is the least index not covered by earlier components; no link leaves the components found so far; every member is reachable from its seed |
| Components.ScanOnce | client/src/utils/stlAnalyzer.js:166-188 | one turn of the outer loop keeps its invariant (the components so far are separate, seeded in order, closed under links and reachable from their seeds, and cover every index below the next one); a covered index changes nothing, an uncovered one appends a component seeded at it |
| Components.AddComponent | client/src/utils/stlAnalyzer.js:166-188 | adding the component searched from an uncovered index keeps the outer loop's invariant |
| Components.ExactlyOneComponent | client/src/utils/stlAnalyzer.js:162-191 | every triangle index lies in exactly one component |
| Components.AdjacentSameComponent | client/src/utils/stlAnalyzer.js:162-191 | with a symmetric map, the two ends of a link are in the same component |
| Components.PathStaysInComponent | client/src/utils/stlAnalyzer.js:162-191 | with a symmetric map, a chain of links never leaves its component |
| Components.SameComponentIffReachable | client/src/utils/stlAnalyzer.js:162-191 | with a symmetric map, y is in x's component exactly when y is reachable from x: the components are the connected components |
| Components.OneComponentIffConnected | client/src/utils/stlAnalyzer.js:162-191 | for n > 0 there is at least one component, and exactly one when every index is reachable from 0 |
| Boxes.BoundsOf | client/src/utils/stlAnalyzer.js:197-209 | the running min/max bounds contain every point, and each of the six bounds is a coordinate of some point |
| Boxes.ComponentBox | client/src/utils/stlAnalyzer.js:196-212 | the box contains every corner of every triangle of the component |
| Boxes.ComponentBoxIsSmallest | client/src/utils/stlAnalyzer.js:196-212 | any box containing all those corners contains the component's box |
| Boxes.AxisGapSq | client/src/utils/stlAnalyzer.js:236-238 | the squared gap along one axis is never negative, and is zero exactly when the two intervals overlap or touch |
| Boxes.BoxDistanceSq | client/src/utils/stlAnalyzer.js:234-242 | the squared distance is never negative, and is zero exactly when the boxes overlap or touch on all three axes |
| Boxes.BoxDistanceSymmetric | client/src/utils/stlAnalyzer.js:234-242 | the distance does not depend on the order of the two boxes |
| Boxes.BoxDistanceLowerBound | client/src/utils/stlAnalyzer.js:234-242 | the box distance is at most the distance between any point of one box and any point of the other |
| Boxes.CompareNext | client/src/utils/stlAnalyzer.js:222-223 | after pair (i, j), the running minimum is the least distance over all pairs visited so far, attained by one of them |
| Boxes.ScanRow | client/src/utils/stlAnalyzer.js:221-224 | after row i, the running minimum covers every pair whose first box is i or before |
| Boxes.MinDistanceBetweenBoxes | client/src/utils/stlAnalyzer.js:217-228 | the result is `Infinity` (None) exactly when there are fewer than two boxes; otherwise it is the least distance over all pairs, attained by some pair |
| Boxes.MinDistanceZeroIffOverlap | client/src/utils/stlAnalyzer.js:217-242 | the least distance is zero exactly when some two boxes overlap or touch |
| Holes.EdgeKey | client/src/utils/stlAnalyzer.js:248-253 | an edge's two ends are the keys of its two points, stored in normalised order |
| Holes.EdgeKeySymmetric | client/src/utils/stlAnalyzer.js:248-253 | edge(A, B) equals edge(B, A) |
| Holes.EdgeKeyIdentity | client/src/utils/stlAnalyzer.js:248-253 | two edges are equal exactly when they join the same unordered pair of vertex keys |
| Holes.BumpTally | client/src/utils/stlAnalyzer.js:276-278 | one increment keeps the edge counts equal to the occurrence counts of the edges seen so far |
| Holes.CountEdges | client/src/utils/stlAnalyzer.js:263-279 | the map holds exactly the edges that occur, each with its number of occurrences |
| Holes.CountOpenEdges | client/src/utils/stlAnalyzer.js:282-287 | the result is the number of edges whose count is one |
| Holes.Summarise | client/src/utils/stlAnalyzer.js:261-294 | on an edge list: the number of distinct edges and the number used once, with holes exactly when that is positive; open ≤ total ≤ the list's length |
| Holes.DetectHoles | client/src/utils/stlAnalyzer.js:261-294 | the total is the number of distinct edges and the open count the number of edges that occur exactly once among the faces' three edges each; the mesh has holes exactly when some edge is open; open ≤ total ≤ 3·faces |
| Holes.WatertightHasNoHoles | client/src/utils/stlAnalyzer.js:261-294 | a mesh whose every edge occurs exactly twice among the faces' edges has no open edge |
| Holes.ProperTriangleEdges | client/src/utils/stlAnalyzer.js:270-274 | a face with three different corner keys has three different edges |
| Holes.LoneTriangleHasThreeOpenEdges | client/src/utils/stlAnalyzer.js:261-294 | a single proper face has three distinct edges, all of them open |
| Analyzer.ThresholdOnSquares | client/src/utils/stlAnalyzer.js:62 | for a non-negative distance, being over the 1 mm threshold is the same as its square being over the squared threshold |
| Analyzer.JudgeComponents | client/src/utils/stlAnalyzer.js:53-76 | with two or more components, the answer carries the least box distance over all pairs and the verdict on it |
| Analyzer.AnalyzeSTLGeometry | client/src/utils/stlAnalyzer.js:24-87 | the answer is the one the function's branches prescribe for this configuration and position buffer, computed over the connected components of the adjacency graph |
| Analyzer.AnalysisAttainable | client/src/utils/stlAnalyzer.js:24-87 | the answer is one object with `allow`, the error with `allow`, or a verdict on two or more components; it is `analysis_error` exactly when detection is on and the position attribute is missing |
| Analyzer.ActionFollowsStatus | client/src/utils/stlAnalyzer.js:24-87 | single or error means `allow`, one component and no distance; separated means `block` and assembled means `warn`, each with two or more components and a distance |
| Analyzer.EscalateIsMax | client/src/utils/stlAnalyzer.js:314-319 | the final action is the more severe of the base action and, with holes, `warn`: it never downgrades, keeps `block`, and changes nothing without holes |
| Analyzer.AnalyzeSTLComplete | client/src/utils/stlAnalyzer.js:300-330 | the base analysis, plus a hole report and the escalated action when hole detection is on and the position attribute exists; otherwise no report |
| Analyzer.SingleObjectIffConnected | client/src/utils/stlAnalyzer.js:24-52 | with multi-object detection on, a position attribute and four or more triangles, the status is `single_object` exactly when every triangle is reachable from triangle 0 |
| Analyzer.SeparatedMeansApart | client/src/utils/stlAnalyzer.js:62-69 | for `separated_objects`, any corner in one component is more than 1 mm from any corner in another |
| Analyzer.AssembledMeansClose | client/src/utils/stlAnalyzer.js:70-76 | for `assembled_objects`, some two components have boxes within 1 mm |
| Analyzer.LoneTriangleIsWarned | client/src/utils/stlAnalyzer.js:300-330 | with hole detection on, one proper triangle is `single_object` but ends with `warn` and three open edges |
| App.BlockFails | client/src/App.js:96-100 | when a running verification completes, `block` gives FAIL, QUOTE_ONLY and the multi-object modal, and stores the analysis |
| App.WarnOrHolesWarn | client/src/App.js:101-107 | otherwise `warn` or holes give WARN and QUOTE_ONLY; the assembly modal opens only for assembled objects |
| App.AssemblyModalOnlyForAssembled | client/src/App.js:101-107 | a completion opens the assembly modal exactly when a verification was running, it lands in the WARN branch, and the objects are assembled |
| App.PassIffAllowWithoutHoles | client/src/App.js:96-113 | when a running verification completes, PASS comes exactly from `allow` without holes, and ALLOWED comes exactly with PASS |
| App.FailureFailsClosed | client/src/App.js:114-120 | when a running verification completes, a thrown error gives WARN, QUOTE_ONLY and the error record |
| App.VerifyNeedsFile | client/src/App.js:76-79 | a call without a selected file changes nothing; with one, the status becomes CHECKING, one more verification is running, and nothing else changes |
| App.FinishSettles | client/src/App.js:81-120 | a completion with no verification running changes nothing; otherwise the status is settled to PASS, WARN or FAIL, and the file, step and loaded model are left as they are now |
| App.AnalyzerErrorPasses | client/src/App.js:96-113 | a missing position attribute is caught by the analyzer as `analysis_error`/`allow`, so its completion gives PASS and ALLOWED |
| App.AcceptedIff | client/src/App.js:66-67 | a name is accepted exactly when its last four characters, ASCII-lower-cased, are ".stl" or ".obj" |
| App.AcceptedExamples | client/src/App.js:66-67 | upper- and mixed-case extensions are accepted |
| App.RejectedExamples | client/src/App.js:66-67 | another extension, a missing name or no file are refused |
| App.SelectFileResets | client/src/App.js:65-73 | an accepted file is selected, with PENDING and the analysis cleared, keeping step and eligibility; a refused one changes nothing |
| App.ResetRestoresInitial | client/src/App.js:240-259 | reset returns the page to step 1 with nothing selected or loaded, PENDING, QUOTE_ONLY and both modals closed; verifications still running are not cancelled |
| App.OnlyRoutesToAllowed | client/src/App.js:109-113 | eligibility becomes ALLOWED only by the completion of a running verification with `allow` and no holes, or by the demo cube |
| App.StaleVerdictLands | client/src/App.js:76-121 | a clean verdict completing after the demo cube was loaded and the page reset gives PASS and ALLOWED with no file selected; completing after another file was chosen, it gives that file PASS and ALLOWED, and Continue loads it |
| App.EventsKeepConsistent | client/src/App.js:96-120 | every event keeps the invariant that a settled status (PASS, WARN or FAIL) has ALLOWED exactly when it is PASS |
| App.TracesKeepConsistent | client/src/App.js:96-120 | from the initial page, after any sequence of events, a settled status (PASS, WARN or FAIL) has ALLOWED exactly when it is PASS; PENDING and CHECKING are unconstrained |
| App.AllowedOutlastsPass | client/src/App.js:65-73 | after a clean verification, selecting another file sets PENDING but keeps ALLOWED: the eligibility can outlast the PASS it came from |
| Pricing.Find | client/src/config/pricing.js:302 | `find` gives nothing exactly when no element matches, and otherwise the first matching element |
| Pricing.EstimateWeightLinear | client/src/config/pricing.js:295-298 | the weight estimate is additive and monotone, non-negative for non-negative volumes, and one quarter of the volume |
| Pricing.BilledWeight | client/src/config/pricing.js:306 | the billed weight is at least 200 g and at least the weight plus 100 g, and equals one of the two |
| Pricing.CarrierOf | client/src/config/pricing.js:302 | a carrier found has the requested id; none is found exactly when no carrier has it |
| Pricing.IncreasingIsAscending | client/src/config/pricing.js:205-251 | tiers increasing from one to the next increase between any two |
| Pricing.CarrierTiered | client/src/config/pricing.js:205-251 | every carrier's tiers have strictly increasing weights and prices, ending at 30000 g |
| Pricing.CarrierIdsDistinct | client/src/config/pricing.js:205-251 | no two carriers share an id |
| Pricing.KnownCarrier | client/src/config/pricing.js:302 | looking up a configured carrier's id finds that carrier |
| Pricing.FirstRateOnAscending | client/src/config/pricing.js:308 | on an ascending table, no tier is found exactly above the last tier's weight; otherwise the tier found is the first one covering the weight |
| Pricing.FirstRateMonotone | client/src/config/pricing.js:308 | on an ascending table, a lighter parcel always has a tier if a heavier one does, and never a dearer one |
| Pricing.UnknownCarrierHasNoPrice | client/src/config/pricing.js:302-303 | an id other than the three carriers' gives null |
| Pricing.ShippingNoneIffTooHeavy | client/src/config/pricing.js:301-310 | for a known carrier, the price is null exactly when the billed weight exceeds 30000 g |
| Pricing.ShippingFirstCoveringTier | client/src/config/pricing.js:301-310 | a known carrier's price is that of the first tier whose maximum covers the billed weight |
| Pricing.ShippingMonotone | client/src/config/pricing.js:301-310 | for one carrier, a lighter parcel is priced if a heavier one is, and never costs more |
| Quote.IsOversized | client/src/components/PriceCalculator.js:59-63 | oversized exactly when dimensions are present and some side exceeds the technology's build volume |
| Quote.SlaFitImpliesFdmFit | client/src/config/pricing.js:38-147 | whatever fits the resin printer fits the filament printer, and a 300 mm cube shows the converse fails |
| Quote.SmallerPartsFit | client/src/components/PriceCalculator.js:59-63 | a part no larger on any side than a fitting one fits too |
| Quote.FinishingFee | client/src/components/PriceCalculator.js:90-92 | no fee without post-processing; otherwise 15 € exactly below 100 cm³ and 25 € exactly from 100 cm³ |
| Quote.MaterialOf | client/src/components/PriceCalculator.js:78 | a material found belongs to the technology and has the chosen id; none is found exactly when no material has it |
| Quote.QualityOf | client/src/components/PriceCalculator.js:79 | the same for qualities |
| Quote.DeliveryOf | client/src/components/PriceCalculator.js:80 | the same for delivery options |
| Quote.TablesAreSane | client/src/config/pricing.js:38-193 | every material price is positive and every quality and delivery multiplier is at least one |
| Quote.PricedIff | client/src/components/PriceCalculator.js:73-84 | a price is computed exactly when the volume is positive, the part fits and material, quality and delivery all resolve; otherwise the answer is the all-zero breakdown |
| Quote.BreakdownFacts | client/src/components/PriceCalculator.js:86-98 | over sensible entries: print price positive, delivery extra never negative and zero exactly for multiplier one, total = print × multiplier + finishing |
| Quote.PricedFromTables | client/src/components/PriceCalculator.js:73-107 | when both guards pass, the price is the breakdown of the resolved entries, which are sensible |
| Quote.PriceBreakdown | client/src/components/PriceCalculator.js:73-107 | when both guards pass, a price is computed, with a positive print price, a non-negative delivery extra that is zero exactly for multiplier one, and a total at least print plus finishing |
| Quote.BreakdownMonotone | client/src/components/PriceCalculator.js:86-98 | over sensible entries, a larger volume never gives a smaller total |
| Quote.PriceMonotoneInVolume | client/src/components/PriceCalculator.js:73-107 | for one selection and part that is priced, a larger volume is also priced and never costs less |
| Quote.FinishingIsAdded | client/src/components/PriceCalculator.js:90-98 | post-processing adds the flat fee to the total and changes neither print price nor delivery extra |
| Quote.PostProcessingAddsFlatFee | client/src/components/PriceCalculator.js:73-107 | ticking post-processing on a priced part adds exactly 15 € or 25 € to the total and nothing else |
| Quote.DefaultLookups | client/src/components/PriceCalculator.js:50-54 | the initial selection resolves to PLA at 0.025 €/cm³, normal quality ×1.1 and standard delivery ×1.0 |
| Quote.DefaultPrice | client/src/components/PriceCalculator.js:50-107 | with the initial selection, a fitting part of v cm³ costs 0.0275·v with no extras |
| Quote.TechChangeResolves | client/src/components/PriceCalculator.js:66-70 | after the reset, material and quality always resolve in the new technology, so the quote depends only on the delivery choice |
| Quote.StaleMaterialPricesNothing | client/src/components/PriceCalculator.js:66-84 | until the reset runs, switching from the default to resin leaves a material the resin table lacks, and nothing is priced |

## Left out

- Floating point: coordinates, distances and prices are exact reals. Rounding error in `v.x * precision`, in `Math.sqrt` and in the price arithmetic is not modelled, and neither is `toFixed(2)`, which formats the reported minimum distance.
- Geometry.ExtractTriangles: requires a position count that is a multiple of three, which is what STLLoader produces; with a partial trailing triangle the source reads undefined coordinates as NaN, which exact reals cannot express.
- A NaN or non-numeric volume in the calculator; volume is `None` (null, undefined or 0) or a real.
- JavaScript `Set`/`Map` iteration order: neighbour sets are sets and the search picks the next neighbour arbitrarily. Component membership, count and seed order are fixed; the order inside a component is not.
- The ±Infinity start values of `computeComponentBoundingBox`: components are never empty, so the box is the bounds of at least one point.
- Adjacency.BuildAdjacencyMap: computes every corner's key before bucketing instead of during the visit; the buckets are the same.
- Holes.EdgeKey: orders the two keys lexicographically on the integer triple rather than by JavaScript string comparison; only the unordered pair, which decides edge identity, is observable.
- Reading the file (`arrayBuffer`), `STLLoader.parse` and the analyzer call: a completion arrives with their outcome, which the model does not tie to the file the call was made for.
- App.Next: accepts every event in every state, while the page offers each control only in some: Verify only with a file and PENDING (App.js:401-405), Continue only after PASS, WARN or FAIL (:456-463), the demo link only on step 1, and reset only on step 2 and the success page (:302, :542, :548). The safety lemmas (App.OnlyRoutesToAllowed, App.EventsKeepConsistent, App.TracesKeepConsistent) therefore hold a fortiori for the page, and the trace lemma App.StaleVerdictLands uses only events the page offers at that point.
- App.ContinueStep: Continue is one step, though handleContinueToStep2 awaits `selectedFile.arrayBuffer()` (App.js:128) before it sets the step and the model; a reset or demo load landing inside that await, and the Continue then overwriting it, is not modelled.
- The viewer's dimensions and volume (`setVolume`) and the current view (`setCurrentView`): they belong to the configurator and checkout, not to the verification gate.
- React hooks and render timing: the page is a transition function, the calculator a pure function of its inputs. The one-render delay of the material reset is stated by Quote.StaleMaterialPricesNothing.
- The demo cube's binary STL writer (handleDemoLoad, lines 156-226 of App.js): only its state changes are modelled.
- Checkout, order, mailto and quote-request views, and the server, are outside this core.
- `toLowerCase` beyond ASCII: only 'A'..'Z' are lowered.
- `TECHNOLOGIES[selectedTech]` with a key other than FDM or SLA: the calculator only offers the two, so the choice is a two-valued type.
- Quote.PriceBreakdown: does not restate the multiplicative form of the total (total = print × multiplier + finishing); that equation is proved about the breakdown itself in Quote.BreakdownFacts.
