/** The "widen the search" helper of the search-results panel: the adjusted filters computed
    from the original ones, and the parameters sent for the adjusted search. Arithmetic is on
    exact reals with `Math.floor`/`Math.ceil`. */
module SearchResults {
  import opened Wrappers
  import opened JsText
  import opened JsValues

  function Floor(x: real): int { x.Floor }

  function Ceil(x: real): (r: int)
    ensures x <= r as real < x + 1.0
  {
    -((-x).Floor)
  }

  const DefaultSqft: int := 1500
  const DefaultBeds: int := 3
  const DefaultBaths: real := 2.0

  /** `parseInt(v) || fallback`: NaN and zero fall back. */
  function IntOr(v: Value, fallback: int): (r: int)
    ensures r == fallback || (ParseIntOf(v) == Some(r) && r != 0)
    ensures r != fallback ==> ParseIntOf(v) == Some(r)
  {
    match ParseIntOf(v)
    case Some(n) => if n != 0 then n else fallback
    case None => fallback
  }

  /** `parseFloat(v) || fallback`. */
  function RealOr(v: Value, fallback: real): (r: real)
    ensures r == fallback || (ParseFloatOf(v) == Some(r) && r != 0.0)
  {
    match ParseFloatOf(v)
    case Some(x) => if x != 0.0 then x else fallback
    case None => fallback
  }

  /** A price bound that is used: given (truthy), parsed, and not zero (`if (minPrice)`). */
  function PriceBound(v: Value): (r: Option<real>)
    ensures r.Some? ==> Truthy(v) && ParseFloatOf(v) == Some(r.value) && r.value != 0.0
    ensures Truthy(v) && ParseFloatOf(v).Some? && ParseFloatOf(v).value != 0.0 ==> r.Some?
  {
    if Truthy(v) then
      match ParseFloatOf(v)
      case Some(x) => if x != 0.0 then Some(x) else None
      case None => None
    else None
  }

  function Max(a: real, b: real): real { if a >= b then a else b }

  /** The widened ranges of a search around `sqft`, `beds` and `baths`. */
  datatype Ranges = Ranges(minSqft: int, maxSqft: int, minBeds: int, maxBeds: int, minBaths: real, maxBaths: real)

  function RangesOf(sqft: int, beds: int, baths: real): (r: Ranges)
    ensures sqft > 0 ==> r.minSqft <= sqft <= r.maxSqft
    ensures r.minBeds == if beds - 1 >= 1 then beds - 1 else 1
    ensures r.maxBeds == beds + 1
    ensures baths >= 1.0 ==> r.minBaths <= baths < r.maxBaths
    ensures r.minBaths >= 1.0
  {
    Ranges(
      Floor(sqft as real * 0.8), Ceil(sqft as real * 1.2),
      if beds - 1 >= 1 then beds - 1 else 1, beds + 1,
      Max(1.0, Floor((baths - 1.0) * 2.0) as real / 2.0), Ceil((baths + 1.0) * 2.0) as real / 2.0)
  }

  /** A whole number of halves. */
  predicate IsHalfStep(x: real) {
    (x * 2.0).Floor as real == x * 2.0
  }

  /** The bath bounds are always multiples of one half. */
  lemma BathBoundsAreHalfSteps(sqft: int, beds: int, baths: real)
    ensures IsHalfStep(RangesOf(sqft, beds, baths).minBaths)
    ensures IsHalfStep(RangesOf(sqft, beds, baths).maxBaths)
  {
    var k := Floor((baths - 1.0) * 2.0);
    var m := Ceil((baths + 1.0) * 2.0);
    assert (k as real / 2.0) * 2.0 == k as real;
    assert (m as real / 2.0) * 2.0 == m as real;
  }

  /** The figures the helper reads from the original filters: sqft, beds and baths with their
      fallbacks, and the price bounds that are used. */
  datatype Figures = Figures(sqft: int, beds: int, baths: real, minPrice: Option<real>, maxPrice: Option<real>)

  function FiguresOf(original: Value): Figures {
    Figures(
      IntOr(Prop(original, "sqft"), DefaultSqft), IntOr(Prop(original, "beds"), DefaultBeds),
      RealOr(Prop(original, "baths"), DefaultBaths),
      PriceBound(Prop(original, "minPrice")), PriceBound(Prop(original, "maxPrice")))
  }

  const RangeKeys: set<string> := {"minSqft", "maxSqft", "minBeds", "maxBeds", "minBaths", "maxBaths"}

  /** The range fields of a set of ranges, as the numbers the object holds. */
  function RangeFields(g: Ranges): (r: Object)
    ensures r.Keys == RangeKeys
  {
    map[
      "minSqft" := Num(g.minSqft as real), "maxSqft" := Num(g.maxSqft as real),
      "minBeds" := Num(g.minBeds as real), "maxBeds" := Num(g.maxBeds as real),
      "minBaths" := Num(g.minBaths), "maxBaths" := Num(g.maxBaths)]
  }

  /** The field a used price bound contributes. */
  function PriceField(key: string, bound: Option<int>): (r: Object)
    ensures r.Keys == if bound.Some? then {key} else {}
    ensures bound.Some? ==> r[key] == Num(bound.value as real)
  {
    match bound
    case Some(x) => map[key := Num(x as real)]
    case None => map[]
  }

  /** 90% of the minimum price, rounded down. */
  function WidenMin(x: real): int { Floor(x * 0.9) }

  /** 110% of the maximum price, rounded up. */
  function WidenMax(x: real): int { Ceil(x * 1.1) }

  function MapOption<T, U>(o: Option<T>, f: T -> U): (r: Option<U>)
    ensures r.Some? <==> o.Some?
    ensures r.Some? ==> r.value == f(o.value)
  {
    match o
    case Some(x) => Some(f(x))
    case None => None
  }

  lemma RangeKeysAreNotPrices()
    ensures "minPrice" !in RangeKeys && "maxPrice" !in RangeKeys && "minPrice" != "maxPrice"
  {
  }

  /** The keys the helper writes: the range fields and the used price bounds. */
  function Replaced(lo: Option<int>, hi: Option<int>): set<string> {
    RangeKeys + (if lo.Some? then {"minPrice"} else {}) + (if hi.Some? then {"maxPrice"} else {})
  }

  /** The original fields with the range fields of `g` and the used price bounds written over
      them. */
  function Adjust(fields: Object, g: Ranges, lo: Option<int>, hi: Option<int>): (r: Object)
    ensures r.Keys == fields.Keys + Replaced(lo, hi)
  {
    Spread(Spread(Spread(fields, RangeFields(g)), PriceField("minPrice", lo)), PriceField("maxPrice", hi))
  }

  /** The six range fields hold the ranges. */
  lemma AdjustWritesRanges(fields: Object, g: Ranges, lo: Option<int>, hi: Option<int>)
    ensures forall k :: k in RangeKeys ==> k in Adjust(fields, g, lo, hi) && Adjust(fields, g, lo, hi)[k] == RangeFields(g)[k]
  {
    RangeKeysAreNotPrices();
  }

  /** A used price bound is written; an unused one leaves the original field as it was. */
  lemma AdjustWritesPrices(fields: Object, g: Ranges, lo: Option<int>, hi: Option<int>)
    ensures var r := Adjust(fields, g, lo, hi);
      && (lo.Some? ==> r["minPrice"] == Num(lo.value as real))
      && (hi.Some? ==> r["maxPrice"] == Num(hi.value as real))
  {
    RangeKeysAreNotPrices();
  }

  /** Every field the helper does not write keeps its original value. */
  lemma AdjustKeepsOthers(fields: Object, g: Ranges, lo: Option<int>, hi: Option<int>)
    ensures forall k :: k in fields && k !in Replaced(lo, hi) ==> Adjust(fields, g, lo, hi)[k] == fields[k]
  {
  }

  /** The adjusted copy of the fields for a set of figures: ranges around sqft, beds and baths,
      and the used prices widened by 10% (down for the minimum, up for the maximum). */
  function AdjustBy(fields: Object, f: Figures): Object {
    Adjust(fields, RangesOf(f.sqft, f.beds, f.baths), MapOption(f.minPrice, WidenMin), MapOption(f.maxPrice, WidenMax))
  }

  /** `calculateAdjustedFilters`: null without original filters, else the adjusted copy. */
  function AdjustedFilters(original: Value): (r: Option<Object>)
    ensures r.None? <==> !Truthy(original)
    ensures r.Some? ==> r.value == AdjustBy(OwnFields(original), FiguresOf(original))
  {
    if !Truthy(original) then None else Some(AdjustBy(OwnFields(original), FiguresOf(original)))
  }

  /** The widened price bounds contain the original positive ones. */
  lemma PricesWiden(lo: real, hi: real)
    requires lo > 0.0 && hi > 0.0
    ensures WidenMin(lo) as real <= lo && hi <= WidenMax(hi) as real
  {
  }

  /** The figures fall back to 1500 sq ft, 3 beds and 2 baths when missing. */
  lemma MissingFigures(original: Value)
    requires Nullish(Prop(original, "sqft")) && Nullish(Prop(original, "beds")) && Nullish(Prop(original, "baths"))
    ensures FiguresOf(original).sqft == 1500 && FiguresOf(original).beds == 3 && FiguresOf(original).baths == 2.0
  {
    NullishHasNoNumber(Prop(original, "sqft"));
    NullishHasNoNumber(Prop(original, "beds"));
    NullishHasNoNumber(Prop(original, "baths"));
  }

  /** The fallback figures give 1200-1800 sq ft, 2-4 beds and 1-3 baths. */
  lemma DefaultRanges(original: Value)
    requires Nullish(Prop(original, "sqft")) && Nullish(Prop(original, "beds")) && Nullish(Prop(original, "baths"))
    ensures var f := FiguresOf(original);
      RangesOf(f.sqft, f.beds, f.baths) == Ranges(1200, 1800, 2, 4, 1.0, 3.0)
  {
    MissingFigures(original);
    assert Floor(1500.0 * 0.8) == 1200;
    assert Ceil(1500.0 * 1.2) == 1800;
    assert Floor((2.0 - 1.0) * 2.0) == 2;
    assert Ceil((2.0 + 1.0) * 2.0) == 6;
  }

  // ---------------------------------------------------------------------------
  // search parameters

  /** The address parts that are present, in order. */
  function PresentParts(a: Object): (r: seq<Value>)
    ensures forall i :: 0 <= i < |r| ==> Truthy(r[i])
    ensures |r| <= 4
  {
    (if Truthy(Get(a, "areaName")) then [Get(a, "areaName")] else [])
    + (if Truthy(Get(a, "city")) then [Get(a, "city")] else [])
    + (if Truthy(Get(a, "state")) then [Get(a, "state")] else [])
    + (if Truthy(Get(a, "postalCode")) then [Get(a, "postalCode")] else [])
  }

  function Texts(vs: seq<Value>): (r: seq<string>)
    ensures |r| == |vs|
    ensures forall i :: 0 <= i < |vs| ==> r[i] == ToJsString(vs[i])
  {
    seq(|vs|, i requires 0 <= i < |vs| => ToJsString(vs[i]))
  }

  /** The location part: structured when both city and state are set, otherwise the
      comma-joined present parts as one address. */
  function LocationParams(a: Object): (r: Object)
    ensures Truthy(Get(a, "city")) && Truthy(Get(a, "state")) ==>
      && "city" in r && "state" in r
      && r["city"] == Get(a, "city") && r["state"] == Get(a, "state")
      && ("areaName" in r <==> Truthy(Get(a, "areaName")))
      && ("areaName" in r ==> r["areaName"] == Get(a, "areaName"))
      && ("postalCode" in r <==> Truthy(Get(a, "postalCode")))
      && ("postalCode" in r ==> r["postalCode"] == Get(a, "postalCode"))
      && r.Keys <= {"areaName", "city", "state", "postalCode"}
    ensures !(Truthy(Get(a, "city")) && Truthy(Get(a, "state"))) ==>
      && r.Keys <= {"address"}
      && ("address" in r <==> |PresentParts(a)| > 0)
      && ("address" in r ==> r["address"] == Str(Join(Texts(PresentParts(a)), ", ")))
    ensures r.Keys <= LocationKeys
  {
    if Truthy(Get(a, "city")) && Truthy(Get(a, "state")) then
      var area: Object := if Truthy(Get(a, "areaName")) then map["areaName" := Get(a, "areaName")] else map[];
      var zip: Object := if Truthy(Get(a, "postalCode")) then map["postalCode" := Get(a, "postalCode")] else map[];
      area + map["city" := Get(a, "city"), "state" := Get(a, "state")] + zip
    else
      var parts := PresentParts(a);
      if |parts| > 0 then map["address" := Str(Join(Texts(parts), ", "))] else map[]
  }

  const FilterKeys: set<string> := {"minSqft", "maxSqft", "minPrice", "maxPrice", "propertyType"}

  const LocationKeys: set<string> := {"areaName", "city", "state", "postalCode", "address"}

  lemma ParamKeysAreDistinct()
    ensures LocationKeys !! FilterKeys
    ensures "isSold" !in LocationKeys && "isSold" !in FilterKeys
  {
  }

  /** The range, price and type fields that are truthy, copied as they are. */
  function FilterParams(a: Object): (r: Object)
    ensures forall k :: k in r <==> k in FilterKeys && Truthy(Get(a, k))
    ensures forall k :: k in r ==> r[k] == Get(a, k)
  {
    map k | k in FilterKeys && Truthy(Get(a, k)) :: Get(a, k)
  }

  /** The parameters of the adjusted search: the location, the truthy filter fields, and
      always `isSold: false`; no key is set twice. */
  function SearchParams(a: Object): (r: Object)
    ensures "isSold" in r && r["isSold"] == Bool(false)
    ensures forall k :: k in FilterKeys ==> (k in r <==> Truthy(Get(a, k))) && (k in r ==> r[k] == Get(a, k))
    ensures forall k :: k in LocationParams(a) ==> k in r && r[k] == LocationParams(a)[k]
    ensures r.Keys == LocationParams(a).Keys + FilterParams(a).Keys + {"isSold"}
  {
    ParamKeysAreDistinct();
    LocationParams(a) + FilterParams(a) + map["isSold" := Bool(false)]
  }

  /** A non-zero upper bound around a non-zero area: the bound has the area's sign. */
  lemma MaxSqftIsNonZero(sqft: int)
    requires sqft != 0
    ensures Ceil(sqft as real * 1.2) != 0
  {
    if sqft < 0 {
      assert sqft as real * 1.2 <= -1.2;
    }
  }

  /** The search sends a numeric range field exactly when the number is not zero. */
  lemma SendsNumberField(a: Object, key: string, x: int)
    requires key in FilterKeys && Get(a, key) == Num(x as real)
    ensures key in SearchParams(a) <==> x != 0
  {
  }

  /** The square-footage bounds of the adjusted copy. */
  lemma AdjustWritesSqft(fields: Object, g: Ranges, lo: Option<int>, hi: Option<int>)
    ensures Get(Adjust(fields, g, lo, hi), "minSqft") == Num(g.minSqft as real)
    ensures Get(Adjust(fields, g, lo, hi), "maxSqft") == Num(g.maxSqft as real)
  {
    var rf := RangeFields(g);
    assert rf["minSqft"] == Num(g.minSqft as real) && rf["maxSqft"] == Num(g.maxSqft as real);
    var p1, p2 := PriceField("minPrice", lo), PriceField("maxPrice", hi);
    assert "minSqft" !in p1 && "minSqft" !in p2 && "maxSqft" !in p1 && "maxSqft" !in p2;
  }

  /** For any fields and non-zero area, the adjusted copy's search sends the upper
      square-footage bound, and the lower one unless it is zero. */
  lemma AdjustedSqftIsSent(fields: Object, f: Figures)
    requires f.sqft != 0
    ensures var a := AdjustBy(fields, f);
      && "maxSqft" in SearchParams(a)
      && ("minSqft" in SearchParams(a) <==> Floor(f.sqft as real * 0.8) != 0)
  {
    var g := RangesOf(f.sqft, f.beds, f.baths);
    var lo, hi := MapOption(f.minPrice, WidenMin), MapOption(f.maxPrice, WidenMax);
    assert g.minSqft == Floor(f.sqft as real * 0.8) && g.maxSqft == Ceil(f.sqft as real * 1.2);
    var a := Adjust(fields, g, lo, hi);
    assert AdjustBy(fields, f) == a;
    AdjustWritesSqft(fields, g, lo, hi);
    MaxSqftIsNonZero(f.sqft);
    assert "minSqft" in FilterKeys && "maxSqft" in FilterKeys;
    SendsNumberField(a, "maxSqft", g.maxSqft);
    SendsNumberField(a, "minSqft", g.minSqft);
  }

  /** The adjusted search always sends the widened upper square-footage bound, and sends the
      lower one unless it rounds down to zero. */
  lemma AdjustedSearchSendsSqft(original: Value)
    requires Truthy(original)
    ensures var a := AdjustedFilters(original).value;
      var sqft := FiguresOf(original).sqft;
      && "maxSqft" in SearchParams(a)
      && ("minSqft" in SearchParams(a) <==> Floor(sqft as real * 0.8) != 0)
  {
    AdjustedSqftIsSent(OwnFields(original), FiguresOf(original));
  }
}
