/**
 * The instant quote of the price calculator
 * (client/src/components/PriceCalculator.js): the oversize check, the
 * price breakdown, and the reset of material and quality when the
 * technology changes.
 */
module Quote {
  import opened Wrappers
  import opened Pricing

  /** The keys of TECHNOLOGIES; the UI offers only these two. */
  datatype TechChoice = FDM | SLA

  /** What the customer has chosen in the calculator. */
  datatype Selection = Selection(tech: TechChoice, material: string, quality: string, postProcessing: bool, delivery: string)

  /** The four amounts shown, plus the delivery multiplier, present only when a price was computed. */
  datatype PriceDetails = PriceDetails(printPrice: real, finishingPrice: real, deliveryExtra: real, totalPrice: real,
                                       deliveryMultiplier: Option<real>)

  /** The all-zero breakdown shown when there is nothing to price. */
  const NoPrice := PriceDetails(0.0, 0.0, 0.0, 0.0, None)

  /** Initial state of the calculator (lines 50-54). */
  const DefaultSelection := Selection(FDM, "PLA", "normal", false, "standard")

  /** `TECHNOLOGIES[selectedTech]` (pricing.js lines 263-282). */
  function TechOf(c: TechChoice): (t: Technology)
    ensures |t.materials| > 0
  {
    match c
    case FDM => Fdm
    case SLA => Sla
  }

  /** A part fits a build volume when no side is longer than the volume's. */
  predicate Fits(d: Size3, max: Size3) {
    d.x <= max.x && d.y <= max.y && d.z <= max.z
  }

  /** isOversized (lines 59-63): no dimensions is never oversized; otherwise any side over the limit is. */
  function IsOversized(dims: Option<Size3>, tech: Technology): (r: bool)
    ensures r <==> dims.Some? && !Fits(dims.value, tech.maxSize)
  {
    match dims
    case None => false
    case Some(d) => d.x > tech.maxSize.x || d.y > tech.maxSize.y || d.z > tech.maxSize.z
  }

  /** Every part that fits the resin printer fits the filament printer; the converse fails. */
  lemma SlaFitImpliesFdmFit(d: Size3)
    ensures !IsOversized(Some(d), Sla) ==> !IsOversized(Some(d), Fdm)
    ensures !IsOversized(Some(Size3(300.0, 300.0, 300.0)), Fdm) && IsOversized(Some(Size3(300.0, 300.0, 300.0)), Sla)
  {
  }

  /** A part no larger on any side than one that fits also fits. */
  lemma SmallerPartsFit(d: Size3, e: Size3, tech: Technology)
    requires d.x <= e.x && d.y <= e.y && d.z <= e.z
    ensures IsOversized(Some(d), tech) ==> IsOversized(Some(e), tech)
  {
  }

  /** Finishing fee for a part of the given volume (lines 90-92). */
  function FinishingFee(postProcessing: bool, volume: real): (f: real)
    ensures !postProcessing ==> f == 0.0
    ensures postProcessing ==> (f == SmallPrice <==> volume < SmallThreshold)
    ensures postProcessing ==> (f == LargePrice <==> volume >= SmallThreshold)
  {
    if !postProcessing then 0.0
    else if volume < SmallThreshold then SmallPrice
    else LargePrice
  }

  /** `tech.materials.find(m => m.id === selectedMaterial)` (line 78). */
  function MaterialOf(sel: Selection): (r: Option<Material>)
    ensures r.Some? ==> r.value in TechOf(sel.tech).materials && r.value.id == sel.material
    ensures r.None? <==> forall m :: m in TechOf(sel.tech).materials ==> m.id != sel.material
  {
    Find(TechOf(sel.tech).materials, (m: Material) => m.id == sel.material)
  }

  /** `tech.qualities.find(q => q.id === selectedQuality)` (line 79). */
  function QualityOf(sel: Selection): (r: Option<Quality>)
    ensures r.Some? ==> r.value in TechOf(sel.tech).qualities && r.value.id == sel.quality
    ensures r.None? <==> forall q :: q in TechOf(sel.tech).qualities ==> q.id != sel.quality
  {
    Find(TechOf(sel.tech).qualities, (q: Quality) => q.id == sel.quality)
  }

  /** `DELIVERY_OPTIONS.find(d => d.id === selectedDelivery)` (line 80). */
  function DeliveryOf(sel: Selection): (r: Option<DeliveryOption>)
    ensures r.Some? ==> r.value in DeliveryOptions && r.value.id == sel.delivery
    ensures r.None? <==> forall d :: d in DeliveryOptions ==> d.id != sel.delivery
  {
    Find(DeliveryOptions, (d: DeliveryOption) => d.id == sel.delivery)
  }

  /** The selection names an entry of each table it is looked up in. */
  predicate Resolves(sel: Selection) {
    MaterialOf(sel).Some? && QualityOf(sel).Some? && DeliveryOf(sel).Some?
  }

  /** The breakdown of lines 86-106 for resolved table entries. */
  function Breakdown(v: real, m: Material, q: Quality, d: DeliveryOption, postProcessing: bool): PriceDetails {
    var printPrice := v * m.price * q.multiplier;
    var finishingPrice := FinishingFee(postProcessing, v);
    var deliveryExtra := printPrice * (d.multiplier - 1.0);
    PriceDetails(printPrice, finishingPrice, deliveryExtra, printPrice + finishingPrice + deliveryExtra, Some(d.multiplier))
  }

  /** The two guards of priceDetails (lines 74-76 and 82-84) both pass. */
  predicate Priced(sel: Selection, volume: Option<real>, dims: Option<Size3>) {
    volume.Some? && volume.value > 0.0 && !IsOversized(dims, TechOf(sel.tech)) && Resolves(sel)
  }

  /** priceDetails (lines 73-107). */
  function Price(sel: Selection, volume: Option<real>, dims: Option<Size3>): PriceDetails {
    if !Priced(sel, volume, dims) then NoPrice
    else Breakdown(volume.value, MaterialOf(sel).value, QualityOf(sel).value, DeliveryOf(sel).value, sel.postProcessing)
  }

  /** Table values that make every price sensible: positive material prices, multipliers of at least one. */
  ghost predicate SaneTables(t: Technology) {
    && (forall m :: m in t.materials ==> m.price > 0.0)
    && (forall q :: q in t.qualities ==> q.multiplier >= 1.0)
    && (forall d :: d in DeliveryOptions ==> d.multiplier >= 1.0)
  }

  lemma TablesAreSane(c: TechChoice)
    ensures SaneTables(TechOf(c))
  {
  }

  lemma MulPositive(a: real, b: real)
    requires a > 0.0 && b > 0.0
    ensures a * b > 0.0
  {
    calc {
      a * b;
    >  { assert b > 0.0; }
      0.0 * b;
    }
  }

  lemma MulMonotone(a: real, b: real, c: real)
    requires a <= b && c >= 0.0
    ensures a * c <= b * c
  {
    calc {
      b * c - a * c;
    ==
      (b - a) * c;
    >= { assert b - a >= 0.0; }
      0.0 * c;
    }
  }

  lemma MulZeroIff(a: real, b: real)
    requires a != 0.0
    ensures a * b == 0.0 <==> b == 0.0
  {
  }

  /**
   * A price is computed exactly when there is a positive volume, the part
   * fits, and the selection resolves; in every other case the breakdown is
   * all zeros.
   */
  lemma PricedIff(sel: Selection, volume: Option<real>, dims: Option<Size3>)
    ensures Price(sel, volume, dims).deliveryMultiplier.Some? <==>
              volume.Some? && volume.value > 0.0 && !IsOversized(dims, TechOf(sel.tech)) && Resolves(sel)
    ensures Price(sel, volume, dims).deliveryMultiplier.None? ==> Price(sel, volume, dims) == NoPrice
  {
  }

  /**
   * A breakdown over sensible table entries: the printing cost is positive,
   * the delivery surcharge scales only the printing cost and is zero exactly
   * for a multiplier of one.
   */
  lemma BreakdownFacts(v: real, m: Material, q: Quality, d: DeliveryOption, postProcessing: bool)
    requires v > 0.0 && m.price > 0.0 && q.multiplier >= 1.0 && d.multiplier >= 1.0
    ensures var p := Breakdown(v, m, q, d, postProcessing);
            && p.printPrice > 0.0
            && p.deliveryExtra >= 0.0
            && p.totalPrice >= p.printPrice + p.finishingPrice
            && p.totalPrice == p.printPrice * d.multiplier + p.finishingPrice
            && (p.deliveryExtra == 0.0 <==> d.multiplier == 1.0)
  {
    MulPositive(v, m.price);
    MulPositive(v * m.price, q.multiplier);
    var printed := v * m.price * q.multiplier;
    MulMonotone(0.0, printed, d.multiplier - 1.0);
    MulZeroIff(printed, d.multiplier - 1.0);
    assert printed + printed * (d.multiplier - 1.0) == printed * d.multiplier;
  }

  /** A computed price is the breakdown of sensible table entries. */
  lemma PricedFromTables(sel: Selection, volume: Option<real>, dims: Option<Size3>)
    requires Priced(sel, volume, dims)
    ensures volume.Some? && volume.value > 0.0 && Resolves(sel)
    ensures var m, q, d := MaterialOf(sel).value, QualityOf(sel).value, DeliveryOf(sel).value;
            && Price(sel, volume, dims) == Breakdown(volume.value, m, q, d, sel.postProcessing)
            && m.price > 0.0 && q.multiplier >= 1.0 && d.multiplier >= 1.0
  {
    TablesAreSane(sel.tech);
  }

  /** A computed price is positive, and its delivery surcharge is never negative and is zero exactly for standard-speed multipliers of one. */
  lemma PriceBreakdown(sel: Selection, volume: Option<real>, dims: Option<Size3>)
    requires Priced(sel, volume, dims)
    ensures var p := Price(sel, volume, dims);
            && p.deliveryMultiplier.Some?
            && p.printPrice > 0.0
            && p.deliveryExtra >= 0.0
            && p.totalPrice >= p.printPrice + p.finishingPrice
            && (p.deliveryExtra == 0.0 <==> p.deliveryMultiplier.value == 1.0)
  {
    PricedFromTables(sel, volume, dims);
    BreakdownFacts(volume.value, MaterialOf(sel).value, QualityOf(sel).value, DeliveryOf(sel).value, sel.postProcessing);
  }

  /** Over sensible table entries, a larger volume never gives a smaller total. */
  lemma BreakdownMonotone(v1: real, v2: real, m: Material, q: Quality, d: DeliveryOption, postProcessing: bool)
    requires 0.0 < v1 <= v2 && m.price > 0.0 && q.multiplier >= 1.0 && d.multiplier >= 1.0
    ensures Breakdown(v1, m, q, d, postProcessing).totalPrice <= Breakdown(v2, m, q, d, postProcessing).totalPrice
  {
    MulMonotone(v1, v2, m.price);
    MulMonotone(v1 * m.price, v2 * m.price, q.multiplier);
    MulMonotone(v1 * m.price * q.multiplier, v2 * m.price * q.multiplier, d.multiplier - 1.0);
  }

  /** For a fixed selection and part, a larger volume is priced too, and never costs less. */
  lemma PriceMonotoneInVolume(sel: Selection, v1: real, v2: real, dims: Option<Size3>)
    requires v1 <= v2
    requires Priced(sel, Some(v1), dims)
    ensures Price(sel, Some(v2), dims).deliveryMultiplier.Some?
    ensures Price(sel, Some(v1), dims).totalPrice <= Price(sel, Some(v2), dims).totalPrice
  {
    PricedFromTables(sel, Some(v1), dims);
    PricedIff(sel, Some(v2), dims);
    PricedFromTables(sel, Some(v2), dims);
    BreakdownMonotone(v1, v2, MaterialOf(sel).value, QualityOf(sel).value, DeliveryOf(sel).value, sel.postProcessing);
  }

  /** Ticking post-processing adds exactly the flat finishing fee and changes nothing else. */
  lemma PostProcessingAddsFlatFee(sel: Selection, volume: Option<real>, dims: Option<Size3>)
    requires Priced(sel, volume, dims)
    ensures var without, with := Price(sel.(postProcessing := false), volume, dims),
                                 Price(sel.(postProcessing := true), volume, dims);
            && with.printPrice == without.printPrice
            && with.deliveryExtra == without.deliveryExtra
            && with.totalPrice == without.totalPrice + (if volume.value < SmallThreshold then SmallPrice else LargePrice)
  {
    var off, on := sel.(postProcessing := false), sel.(postProcessing := true);
    assert MaterialOf(on) == MaterialOf(off) && QualityOf(on) == QualityOf(off) && DeliveryOf(on) == DeliveryOf(off);
    PricedFromTables(off, volume, dims);
    PricedIff(on, volume, dims);
    PricedFromTables(on, volume, dims);
    var m, q, d := MaterialOf(off).value, QualityOf(off).value, DeliveryOf(off).value;
    FinishingIsAdded(volume.value, m, q, d);
  }

  /** The finishing fee enters the total additively and touches no other amount. */
  lemma FinishingIsAdded(v: real, m: Material, q: Quality, d: DeliveryOption)
    ensures var without, with := Breakdown(v, m, q, d, false), Breakdown(v, m, q, d, true);
            && with.printPrice == without.printPrice
            && with.deliveryExtra == without.deliveryExtra
            && with.totalPrice == without.totalPrice + (if v < SmallThreshold then SmallPrice else LargePrice)
  {
  }

  /** The default selection prices a fitting part at 0.0275 €/cm³ (PLA, normal quality, standard delivery). */
  lemma DefaultPrice(v: real, dims: Option<Size3>)
    requires v > 0.0 && !IsOversized(dims, Fdm)
    ensures Price(DefaultSelection, Some(v), dims) == PriceDetails(v * 0.0275, 0.0, 0.0, v * 0.0275, Some(1.0))
  {
    DefaultLookups();
  }

  /** The default selection resolves to PLA, normal quality and standard delivery. */
  lemma DefaultLookups()
    ensures MaterialOf(DefaultSelection) == Some(Material("PLA", 0.025))
    ensures QualityOf(DefaultSelection) == Some(Quality("normal", 1.1))
    ensures DeliveryOf(DefaultSelection) == Some(DeliveryOption("standard", 1.0))
  {
    assert Fdm.materials[0].id == "PLA";
    assert Fdm.qualities[1].id == "normal" && Fdm.qualities[0].id != "normal";
    assert DeliveryOptions[0].id == "standard";
  }

  /** The effect of lines 66-70: a new technology resets the material to its first and the quality to "normal". */
  function OnTechChange(sel: Selection, tech: TechChoice): Selection {
    sel.(tech := tech, material := TechOf(tech).materials[0].id, quality := "normal")
  }

  /**
   * After the reset, material and quality always resolve in the new
   * technology's tables, so the quote depends only on the delivery choice.
   */
  lemma TechChangeResolves(sel: Selection, tech: TechChoice)
    ensures var s := OnTechChange(sel, tech);
            Resolves(s) <==> DeliveryOf(sel).Some?
    ensures OnTechChange(sel, tech).postProcessing == sel.postProcessing
    ensures OnTechChange(sel, tech).delivery == sel.delivery
  {
    var s := OnTechChange(sel, tech);
    assert TechOf(tech).materials[0] in TechOf(tech).materials;
    if tech == FDM {
      assert Fdm.qualities[1] in Fdm.qualities;
    } else {
      assert Sla.qualities[2] in Sla.qualities;
    }
  }

  /**
   * Until the reset runs, the old material does not resolve in the new
   * technology: a switch from the default to resin prices nothing.
   */
  lemma StaleMaterialPricesNothing(v: real, dims: Option<Size3>)
    ensures Price(DefaultSelection.(tech := SLA), Some(v), dims) == NoPrice
    ensures !Resolves(DefaultSelection.(tech := SLA))
  {
    assert MaterialOf(DefaultSelection.(tech := SLA)).None?;
  }
}
