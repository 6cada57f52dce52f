/** The display helpers: the currency placeholder, the deal-score colour bands, the
    recommendation label and badge, and the image and price extraction from a property record
    whose field names vary between data sources. */
module Formatters {
  import opened Wrappers
  import opened JsText
  import opened JsValues

  const Dash: string := "—"

  /** `formatCurrency`: the dash for a missing value (falsy but not zero), otherwise a dollar
      sign before the locale rendering, which is a parameter. */
  function FormatCurrency(value: Value, localeText: Value -> string): (r: string)
    ensures r == Dash <==> !Truthy(value) && value != Num(0.0)
    ensures r != Dash ==> r == "$" + localeText(value)
  {
    if !Truthy(value) && value != Num(0.0) then Dash
    else
      assert ("$" + localeText(value))[0] != Dash[0];
      "$" + localeText(value)
  }

  /** Zero is shown as an amount; null, undefined, NaN and the empty string are not. */
  lemma CurrencyOfMissing(localeText: Value -> string)
    ensures FormatCurrency(Num(0.0), localeText) == "$" + localeText(Num(0.0))
    ensures FormatCurrency(Null, localeText) == Dash && FormatCurrency(Undefined, localeText) == Dash
    ensures FormatCurrency(NaN, localeText) == Dash && FormatCurrency(Str(""), localeText) == Dash
  {
  }

  // ---------------------------------------------------------------------------
  // deal score

  /** `score >= bound` once the score has been converted to a number (None is NaN, which
      compares false). */
  predicate AtLeast(n: Option<real>, bound: real) {
    n.Some? && n.value >= bound
  }

  function DealScoreColor(score: Value): (r: string)
    ensures AtLeast(ToNumber(score), 80.0) ==> r == "text-green-600"
    ensures AtLeast(ToNumber(score), 60.0) && !AtLeast(ToNumber(score), 80.0) ==> r == "text-yellow-600"
    ensures AtLeast(ToNumber(score), 40.0) && !AtLeast(ToNumber(score), 60.0) ==> r == "text-orange-600"
    ensures !AtLeast(ToNumber(score), 40.0) ==> r == "text-red-600"
  {
    TextColorOf(ToNumber(score))
  }

  function DealScoreBgColor(score: Value): (r: string)
    ensures AtLeast(ToNumber(score), 80.0) ==> r == "bg-green-100"
    ensures AtLeast(ToNumber(score), 60.0) && !AtLeast(ToNumber(score), 80.0) ==> r == "bg-yellow-100"
    ensures AtLeast(ToNumber(score), 40.0) && !AtLeast(ToNumber(score), 60.0) ==> r == "bg-orange-100"
    ensures !AtLeast(ToNumber(score), 40.0) ==> r == "bg-red-100"
  {
    BgColorOf(ToNumber(score))
  }

  function TextColorOf(n: Option<real>): string {
    if AtLeast(n, 80.0) then "text-green-600"
    else if AtLeast(n, 60.0) then "text-yellow-600"
    else if AtLeast(n, 40.0) then "text-orange-600"
    else "text-red-600"
  }

  function BgColorOf(n: Option<real>): string {
    if AtLeast(n, 80.0) then "bg-green-100"
    else if AtLeast(n, 60.0) then "bg-yellow-100"
    else if AtLeast(n, 40.0) then "bg-orange-100"
    else "bg-red-100"
  }

  /** The band of a converted score, 0 (red) to 3 (green). */
  function Band(n: Option<real>): (b: nat)
    ensures b <= 3
  {
    match n
    case None => 0
    case Some(x) => if x >= 80.0 then 3 else if x >= 60.0 then 2 else if x >= 40.0 then 1 else 0
  }

  const TextColors: seq<string> := ["text-red-600", "text-orange-600", "text-yellow-600", "text-green-600"]
  const BgColors: seq<string> := ["bg-red-100", "bg-orange-100", "bg-yellow-100", "bg-green-100"]

  /** Text and background colour come from the same band, so they always match. */
  lemma ColorsShareBand(n: Option<real>)
    ensures TextColorOf(n) == TextColors[Band(n)]
    ensures BgColorOf(n) == BgColors[Band(n)]
  {
  }

  /** A higher score never falls in a lower band; a score that is not a number is red. */
  lemma BandIsMonotone(x: real, y: real)
    requires x <= y
    ensures Band(Some(x)) <= Band(Some(y))
    ensures Band(None) == 0
  {
  }

  // ---------------------------------------------------------------------------
  // recommendation

  const RecommendationKeys: seq<string> := ["strong-deal", "good-negotiate", "weak-lowball", "pass"]

  /** The label for a known recommendation key. */
  function KnownLabel(key: string): Option<string> {
    if key == "strong-deal" then Some("Strong Deal ✅")
    else if key == "good-negotiate" then Some("Good Deal - Negotiate 💰")
    else if key == "weak-lowball" then Some("Weak Deal - Lowball ⚠️")
    else if key == "pass" then Some("Pass ❌")
    else None
  }

  /** `labels[recommendation] || recommendation`: the lookup uses the value's text as the key;
      every label is truthy, so a known key always gets its label. */
  function RecommendationLabel(recommendation: Value): (r: Value)
    ensures KnownLabel(ToJsString(recommendation)).Some? ==> r == Str(KnownLabel(ToJsString(recommendation)).value)
    ensures KnownLabel(ToJsString(recommendation)).None? ==> r == recommendation
  {
    match KnownLabel(ToJsString(recommendation))
    case Some(text) => Str(text)
    case None => recommendation
  }

  /** Exactly the four keys have labels, and every label differs from its key. */
  lemma KnownLabels(key: string)
    ensures KnownLabel(key).Some? <==> key in RecommendationKeys
    ensures KnownLabel(key).Some? ==> KnownLabel(key).value != key
  {
  }

  const RedVariant: string := "bg-red-100 text-red-800"

  /** `getRecommendationVariant`: strict comparison with three of the keys; everything else,
      "pass" included, gets the red badge. */
  function RecommendationVariant(recommendation: Value): (r: string)
    ensures r != RedVariant <==>
      recommendation in {Str("strong-deal"), Str("good-negotiate"), Str("weak-lowball")}
  {
    if recommendation == Str("strong-deal") then "bg-green-100 text-green-800"
    else if recommendation == Str("good-negotiate") then "bg-yellow-100 text-yellow-800"
    else if recommendation == Str("weak-lowball") then "bg-orange-100 text-orange-800"
    else RedVariant
  }

  // ---------------------------------------------------------------------------
  // images

  const ImageKeys: seq<string> := ["images", "imageUrls", "photos", "photoUrls", "image", "photo"]

  /** The position of the first truthy value, if any. */
  function FirstTruthy(vs: seq<Value>): (r: Option<nat>)
    ensures r.Some? ==> r.value < |vs| && Truthy(vs[r.value])
    ensures r.Some? ==> forall j :: 0 <= j < r.value ==> !Truthy(vs[j])
    ensures r.None? ==> forall i :: 0 <= i < |vs| ==> !Truthy(vs[i])
  {
    if vs == [] then None
    else if Truthy(vs[0]) then Some(0)
    else match FirstTruthy(vs[1..])
      case None => None
      case Some(i) => Some(i + 1)
  }

  /** The candidate image fields of a property, in the order they are tried. */
  function ImageSources(property: Value): (r: seq<Value>)
    ensures |r| == |ImageKeys|
    ensures forall i :: 0 <= i < |r| ==> r[i] == Prop(property, ImageKeys[i])
  {
    seq(|ImageKeys|, i requires 0 <= i < |ImageKeys| => Prop(property, ImageKeys[i]))
  }

  /** An element the filter keeps: a non-empty string whose trimmed form is non-empty and
      starts with `http://`, `https://` or `data:`. */
  predicate IsImageUrl(v: Value) {
    && v.Str? && v.s != ""
    && var t := Trim(v.s);
      |t| > 0 && (StartsWith(t, "http://") || StartsWith(t, "https://") || StartsWith(t, "data:"))
  }

  /** `xs.filter(isImageUrl)`. */
  function KeepImages(xs: seq<Value>): (r: seq<Value>)
    ensures |r| <= |xs|
    ensures forall i :: 0 <= i < |r| ==> IsImageUrl(r[i])
  {
    if xs == [] then []
    else if IsImageUrl(xs[0]) then [xs[0]] + KeepImages(xs[1..])
    else KeepImages(xs[1..])
  }

  /** `a` is `b` with some elements left out, the rest in their order. */
  predicate SubsequenceOf<T(==)>(a: seq<T>, b: seq<T>)
    decreases |b|
  {
    if a == [] then true
    else if b == [] then false
    else if a[0] == b[0] then SubsequenceOf(a[1..], b[1..])
    else SubsequenceOf(a, b[1..])
  }

  /** The filter keeps exactly the image URLs, in their order. */
  lemma {:induction false} KeepImagesIsOrderedSelection(xs: seq<Value>)
    ensures SubsequenceOf(KeepImages(xs), xs)
    ensures forall v :: v in KeepImages(xs) <==> v in xs && IsImageUrl(v)
  {
    if xs != [] {
      KeepImagesIsOrderedSelection(xs[1..]);
      assert xs == [xs[0]] + xs[1..];
      if IsImageUrl(xs[0]) {
        var r := KeepImages(xs);
        assert r[0] == xs[0] && r[1..] == KeepImages(xs[1..]);
      }
    }
  }

  /** Filtering twice is filtering once. */
  lemma {:induction false} KeepImagesIsIdempotent(xs: seq<Value>)
    ensures KeepImages(KeepImages(xs)) == KeepImages(xs)
  {
    if xs != [] {
      KeepImagesIsIdempotent(xs[1..]);
      if IsImageUrl(xs[0]) {
        assert ([xs[0]] + KeepImages(xs[1..]))[1..] == KeepImages(xs[1..]);
      }
    }
  }

  /** The chosen source as a list: a string becomes a one-element list, an array is used as it
      is, anything else gives nothing. */
  function SourceList(source: Value): Option<seq<Value>> {
    match source
    case Str(_) => Some([source])
    case Arr(items) => Some(items)
    case _ => None
  }

  /** `getPropertyImages`. */
  function PropertyImages(property: Value): (r: seq<Value>)
    ensures !Truthy(property) ==> r == []
    ensures FirstTruthy(ImageSources(property)).None? ==> r == []
    ensures forall i :: 0 <= i < |r| ==> IsImageUrl(r[i])
  {
    if !Truthy(property) then []
    else match FirstTruthy(ImageSources(property))
      case None => []
      case Some(i) =>
        match SourceList(ImageSources(property)[i])
        case None => []
        case Some(list) => KeepImages(list)
  }

  /** Only the first truthy source counts: the result is an ordered selection of it, and a
      source that is neither a string nor an array gives nothing even when later ones exist. */
  lemma ImagesComeFromFirstSource(property: Value, i: nat)
    requires Truthy(property) && FirstTruthy(ImageSources(property)) == Some(i)
    ensures var source := Prop(property, ImageKeys[i]);
      && (source.Str? ==> PropertyImages(property) == KeepImages([source]))
      && (source.Arr? ==> PropertyImages(property) == KeepImages(source.items)
                          && SubsequenceOf(PropertyImages(property), source.items))
      && (!source.Str? && !source.Arr? ==> PropertyImages(property) == [])
  {
    var source := Prop(property, ImageKeys[i]);
    if source.Arr? {
      KeepImagesIsOrderedSelection(source.items);
    }
  }

  // ---------------------------------------------------------------------------
  // prices

  const ListPriceKeys: seq<string> := ["price", "listPrice", "listingPrice", "askingPrice"]
  const SalePriceKeys: seq<string> := ["salePrice", "lastSoldPrice", "soldPrice"]

  /** `typeof v === "number" ? v : parseFloat(v)`. */
  function AsNumber(v: Value): (r: Value)
    ensures r.Num? || r.NaN?
    ensures v.Num? || v.NaN? ==> r == v
  {
    if v.Num? || v.NaN? then v
    else match ParseFloatOf(v)
      case Some(x) => Num(x)
      case None => NaN
  }

  /** The shared body of the two price getters: the `||` chain over the fields, then the
      number conversion unless the chain ended null or undefined. */
  function PriceOf(property: Value, keys: seq<string>): (r: Value)
    requires |keys| >= 1
    ensures !Truthy(property) ==> r == Null
    ensures r == Null || r.Num? || r.NaN?
  {
    if !Truthy(property) then Null
    else
      var fields := seq(|keys|, i requires 0 <= i < |keys| => Prop(property, keys[i]));
      var price := OrChain(fields);
      if !Nullish(price) then AsNumber(price) else Null
  }

  function PropertyPrice(property: Value): (r: Value)
    ensures !Truthy(property) ==> r == Null
    ensures r == Null || r.Num? || r.NaN?
  {
    PriceOf(property, ListPriceKeys)
  }

  function PropertySalePrice(property: Value): (r: Value)
    ensures !Truthy(property) ==> r == Null
    ensures r == Null || r.Num? || r.NaN?
  {
    PriceOf(property, SalePriceKeys)
  }

  /** The first truthy field wins and a number is returned unchanged; with no truthy field the
      result is null exactly when the last field is null or undefined (a zero there is kept). */
  lemma PriceIsFirstTruthyField(property: Value, keys: seq<string>)
    requires |keys| >= 1 && Truthy(property)
    ensures var fields := seq(|keys|, i requires 0 <= i < |keys| => Prop(property, keys[i]));
      match FirstTruthy(fields)
      case Some(i) => PriceOf(property, keys) == AsNumber(fields[i])
      case None => PriceOf(property, keys) == (if Nullish(fields[|keys| - 1]) then Null else AsNumber(fields[|keys| - 1]))
  {
    var fields := seq(|keys|, i requires 0 <= i < |keys| => Prop(property, keys[i]));
    var price := OrChain(fields);
    match FirstTruthy(fields)
    case Some(i) =>
      var j :| 0 <= j < |fields| && price == fields[j] && forall k :: 0 <= k < j ==> !Truthy(fields[k]);
      assert j == i;
    case None =>
  }

  /** A numeric `price` is reported unchanged, whatever the other fields hold. */
  lemma NumericPriceIsKept(property: Value)
    requires Truthy(property) && Prop(property, "price").Num? && Truthy(Prop(property, "price"))
    ensures PropertyPrice(property) == Prop(property, "price")
  {
    var fields := seq(|ListPriceKeys|, i requires 0 <= i < |ListPriceKeys| => Prop(property, ListPriceKeys[i]));
    assert fields[0] == Prop(property, "price");
  }

  /** A price kept as digits is read as their value. */
  lemma TextPriceIsParsed(property: Value, text: string)
    requires Truthy(property) && Prop(property, "price") == Str(text) && AllDigits(text) && |text| >= 1
    ensures PropertyPrice(property) == Num(DigitsValue(text, 10) as real)
  {
    var fields := seq(|ListPriceKeys|, i requires 0 <= i < |ListPriceKeys| => Prop(property, ListPriceKeys[i]));
    assert fields[0] == Str(text);
    assert FirstTruthy(fields) == Some(0);
    PriceIsFirstTruthyField(property, ListPriceKeys);
    AsNumberOfDigits(text);
  }

  lemma AsNumberOfDigits(text: string)
    requires AllDigits(text) && |text| >= 1
    ensures AsNumber(Str(text)) == Num(DigitsValue(text, 10) as real)
  {
    ParseFloatOfDigits(text);
    assert ToJsString(Str(text)) == text;
  }
}
