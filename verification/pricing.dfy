/**
 * Price tables and shipping rules (client/src/config/pricing.js).
 *
 * Amounts are exact reals: euros for prices, grams for weights, mm for
 * sizes, cm³ for volumes. Float rounding of the source is not modelled.
 */
module Pricing {
  import opened Wrappers

  datatype Size3 = Size3(x: real, y: real, z: real)

  datatype Material = Material(id: string, price: real)

  datatype Quality = Quality(id: string, multiplier: real)

  datatype Technology = Technology(id: string, maxSize: Size3, materials: seq<Material>, qualities: seq<Quality>)

  datatype DeliveryOption = DeliveryOption(id: string, multiplier: real)

  /** One shipping tier: parcels up to maxWeight grams cost price. */
  datatype Rate = Rate(maxWeight: real, price: real)

  datatype Carrier = Carrier(id: string, rates: seq<Rate>)

  /** FDM_CONFIG (lines 38-97): build volume, materials in €/cm³, quality multipliers. */
  const Fdm: Technology := Technology(
    "fdm", Size3(300.0, 300.0, 300.0),
    [Material("PLA", 0.025), Material("PETG", 0.028), Material("ABS", 0.03)],
    [Quality("fine", 1.2), Quality("normal", 1.1), Quality("draft", 1.0)])

  /** SLA_CONFIG (lines 102-147). */
  const Sla: Technology := Technology(
    "sla", Size3(250.0, 160.0, 250.0),
    [Material("standard", 0.2)],
    [Quality("ultra", 1.8), Quality("fine", 1.3), Quality("normal", 1.0)])

  /** POST_PROCESSING_CONFIG (lines 152-161): finishing costs SmallPrice below SmallThreshold cm³, LargePrice from it. */
  const SmallThreshold: real := 100.0
  const SmallPrice: real := 15.0
  const LargePrice: real := 25.0

  /** DELIVERY_CONFIG (lines 166-193): multipliers on the print price. */
  const DeliveryOptions: seq<DeliveryOption> :=
    [DeliveryOption("standard", 1.0), DeliveryOption("express", 1.3), DeliveryOption("urgent", 1.5)]

  /** Assumed density of a printed part, in g/cm³ (line 203). */
  const AverageDensity: real := 0.25

  /** SHIPPING_CONFIG carriers (lines 205-251). */
  const MondialRelay: Carrier :=
    Carrier("mondial_relay", [Rate(500.0, 5.40), Rate(1000.0, 7.10), Rate(2000.0, 8.30),
                              Rate(5000.0, 10.20), Rate(10000.0, 15.00), Rate(30000.0, 30.00)])
  const Colissimo: Carrier :=
    Carrier("colissimo", [Rate(500.0, 9.00), Rate(1000.0, 10.20), Rate(2000.0, 12.90),
                          Rate(5000.0, 18.00), Rate(10000.0, 26.40), Rate(30000.0, 45.60)])
  const Chronopost: Carrier :=
    Carrier("chronopost", [Rate(500.0, 18.00), Rate(1000.0, 21.60), Rate(2000.0, 26.40),
                           Rate(5000.0, 33.60), Rate(10000.0, 45.60), Rate(30000.0, 66.00)])

  const Carriers: seq<Carrier> := [MondialRelay, Colissimo, Chronopost]

  /** Packaging added to every parcel, and the least weight billed, in grams (line 306). */
  const PackagingWeight: real := 100.0
  const MinBilledWeight: real := 200.0

  /** Heaviest parcel any carrier takes, in grams. */
  const MaxParcelWeight: real := 30000.0

  /**
   * Array.prototype.find: the first element satisfying p, or nothing when
   * none does.
   */
  function Find<T>(s: seq<T>, p: T -> bool): (r: Option<T>)
    ensures r.None? <==> forall i :: 0 <= i < |s| ==> !p(s[i])
    ensures r.Some? ==> exists i :: 0 <= i < |s| && s[i] == r.value && p(s[i]) && forall j :: 0 <= j < i ==> !p(s[j])
  {
    if |s| == 0 then None
    else if p(s[0]) then Some(s[0])
    else
      var r := Find(s[1..], p);
      FindShift(s, p, r);
      r
  }

  /** A first match in the tail of s, after a head that fails p, is a first match in s. */
  lemma FindShift<T>(s: seq<T>, p: T -> bool, r: Option<T>)
    requires |s| > 0 && !p(s[0])
    requires r.Some? ==> exists i :: 0 <= i < |s| - 1 && s[1..][i] == r.value && p(s[1..][i])
                                     && forall j :: 0 <= j < i ==> !p(s[1..][j])
    ensures r.Some? ==> exists i :: 0 <= i < |s| && s[i] == r.value && p(s[i]) && forall j :: 0 <= j < i ==> !p(s[j])
  {
    if r.Some? {
      var i :| 0 <= i < |s| - 1 && s[1..][i] == r.value && p(s[1..][i]) && forall j :: 0 <= j < i ==> !p(s[1..][j]);
      assert s[i + 1] == r.value && forall j :: 0 <= j < i + 1 ==> !p(s[j]);
    }
  }

  /** estimateWeight (lines 295-298): grams for a volume in cm³. */
  function EstimateWeight(volumeCm3: real): real {
    volumeCm3 * AverageDensity
  }

  /** The estimate is additive, grows with the volume, and is never negative for a real volume. */
  lemma EstimateWeightLinear(a: real, b: real)
    ensures EstimateWeight(a + b) == EstimateWeight(a) + EstimateWeight(b)
    ensures a <= b ==> EstimateWeight(a) <= EstimateWeight(b)
    ensures a >= 0.0 ==> EstimateWeight(a) >= 0.0
    ensures EstimateWeight(4.0 * a) == a
  {
  }

  /** `Math.max(weightGrams + 100, 200)`: the weight actually billed. */
  function BilledWeight(w: real): (b: real)
    ensures b >= MinBilledWeight && b >= w + PackagingWeight
    ensures b == MinBilledWeight || b == w + PackagingWeight
  {
    if w + PackagingWeight >= MinBilledWeight then w + PackagingWeight else MinBilledWeight
  }

  /** The tier of the first rate whose maxWeight covers the weight. */
  function FirstRate(rates: seq<Rate>, w: real): Option<Rate> {
    Find(rates, (r: Rate) => w <= r.maxWeight)
  }

  /** `SHIPPING_CARRIERS.find(c => c.id === carrierId)` (line 302). */
  function CarrierOf(carrierId: string): (r: Option<Carrier>)
    ensures r.Some? ==> r.value in Carriers && r.value.id == carrierId
    ensures r.None? <==> forall c :: c in Carriers ==> c.id != carrierId
  {
    Find(Carriers, (c: Carrier) => c.id == carrierId)
  }

  /** getShippingPrice (lines 301-310): null for an unknown carrier or a parcel too heavy for every tier. */
  function ShippingPrice(carrierId: string, weightGrams: real): Option<real> {
    match CarrierOf(carrierId)
    case None => None
    case Some(carrier) =>
      match FirstRate(carrier.rates, BilledWeight(weightGrams))
      case None => None
      case Some(rate) => Some(rate.price)
  }

  /** A rate table whose weights and prices both strictly increase. */
  ghost predicate Ascending(rates: seq<Rate>) {
    forall i, j :: 0 <= i < j < |rates| ==> rates[i].maxWeight < rates[j].maxWeight && rates[i].price < rates[j].price
  }

  /** Each tier is heavier and dearer than the one before it. */
  predicate Increasing(rates: seq<Rate>) {
    |rates| < 2 || (rates[0].maxWeight < rates[1].maxWeight && rates[0].price < rates[1].price && Increasing(rates[1..]))
  }

  /** Steps up between neighbouring tiers make every later tier heavier and dearer. */
  lemma {:induction false} IncreasingIsAscending(rates: seq<Rate>)
    requires Increasing(rates)
    ensures Ascending(rates)
  {
    if |rates| >= 2 {
      IncreasingIsAscending(rates[1..]);
      forall i, j | 0 <= i < j < |rates|
        ensures rates[i].maxWeight < rates[j].maxWeight && rates[i].price < rates[j].price
      {
        if i > 0 {
          assert rates[1..][i - 1] == rates[i] && rates[1..][j - 1] == rates[j];
        } else if j > 1 {
          assert rates[1..][0] == rates[1] && rates[1..][j - 1] == rates[j];
        }
      }
    }
  }

  /** A usable rate table: ascending, non-empty, and ending at MaxParcelWeight. */
  ghost predicate Tiered(rates: seq<Rate>) {
    Ascending(rates) && |rates| > 0 && rates[|rates| - 1].maxWeight == MaxParcelWeight
  }

  /** No two carriers share an id. */
  lemma CarrierIdsDistinct()
    ensures forall k, l :: 0 <= k < l < |Carriers| ==> Carriers[k].id != Carriers[l].id
  {
    assert Carriers[0].id[0] == 'm' && Carriers[1].id[0] == 'c' && Carriers[2].id[0] == 'c';
    assert Carriers[1].id[1] == 'o' && Carriers[2].id[1] == 'h';
  }

  /** Every carrier's table is usable. */
  lemma CarrierTiered(c: Carrier)
    requires c in Carriers
    ensures Tiered(c.rates)
  {
    if c == MondialRelay {
      MondialRelayTiered();
    } else if c == Colissimo {
      ColissimoTiered();
    } else {
      ChronopostTiered();
    }
  }

  /** The three tables, checked one at a time. */
  lemma MondialRelayTiered()
    ensures Tiered(MondialRelay.rates)
  {
    assert Increasing(MondialRelay.rates);
    IncreasingIsAscending(MondialRelay.rates);
  }

  lemma ColissimoTiered()
    ensures Tiered(Colissimo.rates)
  {
    assert Increasing(Colissimo.rates);
    IncreasingIsAscending(Colissimo.rates);
  }

  lemma ChronopostTiered()
    ensures Tiered(Chronopost.rates)
  {
    assert Increasing(Chronopost.rates);
    IncreasingIsAscending(Chronopost.rates);
  }

  /** Looking up a configured carrier by its id finds that carrier. */
  lemma KnownCarrier(k: nat)
    requires k < |Carriers|
    ensures CarrierOf(Carriers[k].id) == Some(Carriers[k])
  {
    CarrierIdsDistinct();
    var id := Carriers[k].id;
    var p := (c: Carrier) => c.id == id;
    assert p(Carriers[k]);
    var i :| 0 <= i < |Carriers| && Carriers[i] == CarrierOf(id).value && p(Carriers[i])
             && forall j :: 0 <= j < i ==> !p(Carriers[j]);
    assert i == k;
  }

  /** On an ascending table, the tier found is exactly the one covering the weight. */
  lemma FirstRateOnAscending(rates: seq<Rate>, w: real)
    requires Ascending(rates) && |rates| > 0
    ensures FirstRate(rates, w).None? <==> w > rates[|rates| - 1].maxWeight
    ensures FirstRate(rates, w).Some? ==>
              exists i :: 0 <= i < |rates| && FirstRate(rates, w).value == rates[i]
                          && w <= rates[i].maxWeight && (i == 0 || rates[i - 1].maxWeight < w)
  {
    var r := FirstRate(rates, w);
    if r.None? {
      assert !(w <= rates[|rates| - 1].maxWeight);
    } else {
      var i :| 0 <= i < |rates| && rates[i] == r.value && w <= rates[i].maxWeight
               && forall j :: 0 <= j < i ==> !(w <= rates[j].maxWeight);
      if i > 0 {
        assert !(w <= rates[i - 1].maxWeight);
      }
    }
  }

  /** On an ascending table, a heavier parcel is never cheaper, and a lighter one always has a tier if a heavier one does. */
  lemma FirstRateMonotone(rates: seq<Rate>, w1: real, w2: real)
    requires Ascending(rates) && w1 <= w2 && FirstRate(rates, w2).Some?
    ensures FirstRate(rates, w1).Some?
    ensures FirstRate(rates, w1).value.price <= FirstRate(rates, w2).value.price
  {
    var p1 := (r: Rate) => w1 <= r.maxWeight;
    var p2 := (r: Rate) => w2 <= r.maxWeight;
    var j :| 0 <= j < |rates| && rates[j] == FirstRate(rates, w2).value && p2(rates[j])
             && forall k :: 0 <= k < j ==> !p2(rates[k]);
    assert p1(rates[j]);
    var i :| 0 <= i < |rates| && rates[i] == FirstRate(rates, w1).value && p1(rates[i])
             && forall k :: 0 <= k < i ==> !p1(rates[k]);
    if j < i {
      assert false;
    }
  }

  /** Only the three configured carriers have prices. */
  lemma UnknownCarrierHasNoPrice(carrierId: string, w: real)
    requires carrierId != "mondial_relay" && carrierId != "colissimo" && carrierId != "chronopost"
    ensures ShippingPrice(carrierId, w).None?
  {
    assert forall c :: c in Carriers ==> c.id != carrierId;
  }

  /** For a known carrier, there is no price exactly when the billed weight exceeds the last tier. */
  lemma ShippingNoneIffTooHeavy(k: nat, w: real)
    requires k < |Carriers|
    ensures ShippingPrice(Carriers[k].id, w).None? <==> BilledWeight(w) > MaxParcelWeight
  {
    var c := Carriers[k];
    KnownCarrier(k);
    CarrierTiered(c);
    FirstRateOnAscending(c.rates, BilledWeight(w));
  }

  /** For a known carrier, the price is that of the first tier covering the billed weight. */
  lemma ShippingFirstCoveringTier(k: nat, w: real)
    requires k < |Carriers|
    requires ShippingPrice(Carriers[k].id, w).Some?
    ensures exists i :: 0 <= i < |Carriers[k].rates|
                        && ShippingPrice(Carriers[k].id, w).value == Carriers[k].rates[i].price
                        && BilledWeight(w) <= Carriers[k].rates[i].maxWeight
                        && (i == 0 || Carriers[k].rates[i - 1].maxWeight < BilledWeight(w))
  {
    var c := Carriers[k];
    KnownCarrier(k);
    CarrierTiered(c);
    FirstRateOnAscending(c.rates, BilledWeight(w));
  }

  /** For the same carrier, a heavier parcel is never cheaper. */
  lemma ShippingMonotone(carrierId: string, w1: real, w2: real)
    requires w1 <= w2 && ShippingPrice(carrierId, w2).Some?
    ensures ShippingPrice(carrierId, w1).Some?
    ensures ShippingPrice(carrierId, w1).value <= ShippingPrice(carrierId, w2).value
  {
    var c := CarrierOf(carrierId).value;
    CarrierTiered(c);
    FirstRateMonotone(c.rates, BilledWeight(w1), BilledWeight(w2));
  }
}
