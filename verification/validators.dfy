/** The search-form validators. A validator gives `None` for an accepted value and the message
    to show otherwise; `parseInt`/`parseFloat` read the longest numeric prefix. */
module Validators {
  import opened Wrappers
  import opened JsText
  import opened JsValues
  import PropertyCompsSlice

  const PostalRequired: string := "Postal code is required"
  const PostalFormat: string := "Postal code must be 5 digits"
  const BedsRequired: string := "Beds is required"
  const BedsRange: string := "Beds must be between 1 and 10"
  const BathsRequired: string := "Baths is required"
  const BathsRange: string := "Baths must be between 1 and 10"
  const SqftRequired: string := "Square footage is required"
  const SqftRange: string := "Square footage must be between 100 and 10,000"
  const PriceOrder: string := "Max price must be greater than min price"
  const CityRequired: string := "City is required"
  const StateRequired: string := "State is required"
  const TypeErrorMessage: string := "TypeError: trim is not a function"

  /** `/^\d{5}$/`: exactly five ASCII digits, nothing before or after. */
  predicate FiveDigits(s: string) {
    |s| == 5 && AllDigits(s)
  }

  /** The pattern is tested against the value's text. */
  function ValidatePostalCode(v: Value): (r: Option<string>)
    ensures !Truthy(v) ==> r == Some(PostalRequired)
    ensures Truthy(v) ==> (r.None? <==> FiveDigits(ToJsString(v)))
    ensures Truthy(v) && r.Some? ==> r.value == PostalFormat
  {
    if !Truthy(v) then Some(PostalRequired)
    else if !FiveDigits(ToJsString(v)) then Some(PostalFormat)
    else None
  }

  /** A typed ZIP code is accepted exactly when it is five digits, leading zero included. */
  lemma PostalCodeOfText(s: string)
    ensures ValidatePostalCode(Str(s)).None? <==> FiveDigits(s)
    ensures ValidatePostalCode(Str("02134")).None?
  {
  }

  /** The same ZIP code kept as a number loses its leading zero and is refused. */
  lemma PostalCodeOfNumber()
    ensures ValidatePostalCode(Num(2134.0)) == Some(PostalFormat)
  {
    IntegerText(2134);
    assert ToJsString(Num(2134.0)) == NatToString(2134);
    assert |NatToString(2134)| == 4 by {
      assert NatToString(2134) == NatToString(213) + [DigitChar(4)];
      assert NatToString(213) == NatToString(21) + [DigitChar(3)];
      assert NatToString(21) == NatToString(2) + [DigitChar(1)];
    }
  }

  /** A value whose integer parse lies in `lo..hi`. */
  predicate IntIn(v: Value, lo: int, hi: int) {
    ParseIntOf(v).Some? && lo <= ParseIntOf(v).value <= hi
  }

  /** A value whose decimal parse lies in `[lo, hi]`. */
  predicate RealIn(v: Value, lo: real, hi: real) {
    ParseFloatOf(v).Some? && lo <= ParseFloatOf(v).value <= hi
  }

  function ValidateBeds(v: Value): (r: Option<string>)
    ensures !Truthy(v) ==> r == Some(BedsRequired)
    ensures Truthy(v) ==> (r.None? <==> IntIn(v, 1, 10))
    ensures Truthy(v) && r.Some? ==> r.value == BedsRange
  {
    if !Truthy(v) then Some(BedsRequired)
    else match ParseIntOf(v)
      case None => Some(BedsRange)
      case Some(n) => if n < 1 || n > 10 then Some(BedsRange) else None
  }

  function ValidateBaths(v: Value): (r: Option<string>)
    ensures !Truthy(v) ==> r == Some(BathsRequired)
    ensures Truthy(v) ==> (r.None? <==> RealIn(v, 1.0, 10.0))
    ensures Truthy(v) && r.Some? ==> r.value == BathsRange
  {
    if !Truthy(v) then Some(BathsRequired)
    else match ParseFloatOf(v)
      case None => Some(BathsRange)
      case Some(n) => if n < 1.0 || n > 10.0 then Some(BathsRange) else None
  }

  function ValidateSqft(v: Value): (r: Option<string>)
    ensures !Truthy(v) ==> r == Some(SqftRequired)
    ensures Truthy(v) ==> (r.None? <==> IntIn(v, 100, 10000))
    ensures Truthy(v) && r.Some? ==> r.value == SqftRange
  {
    if !Truthy(v) then Some(SqftRequired)
    else match ParseIntOf(v)
      case None => Some(SqftRange)
      case Some(n) => if n < 100 || n > 10000 then Some(SqftRange) else None
  }

  /** For whole numbers the count validators accept exactly the stated ranges. */
  lemma CountsOfIntegers(k: int)
    requires -Big < k as real < Big
    ensures ValidateBeds(Num(k as real)).None? <==> 1 <= k <= 10
    ensures ValidateSqft(Num(k as real)).None? <==> 100 <= k <= 10000
  {
    if k != 0 {
      ParseIntOfInteger(k);
    }
  }

  /** `parseInt` reads the leading integer, so a text such as "3.5" or "3 beds" (one digit
      from 1 to 9, then something else) counts as that many beds. */
  lemma BedsReadLeadingInteger(s: string)
    requires |s| >= 2 && '1' <= s[0] <= '9' && !IsDigit(s[1])
    ensures ParseIntOf(Str(s)) == Some(DigitValue(s[0]))
    ensures ValidateBeds(Str(s)).None?
  {
    assert AllDigits(s[..1]);
    ParseIntOfPrefix(s, 1);
    assert DigitsValue(s[..1], 10) == DigitValue(s[0]);
  }

  /** For natural numbers the bath validator accepts exactly 1 to 10. */
  lemma BathsOfNaturals(k: nat)
    requires (k as real) < Big
    ensures ValidateBaths(Num(k as real)).None? <==> 1 <= k <= 10
  {
    if k != 0 {
      ParseFloatOfNatural(k);
    }
  }

  /** Both prices given, both parsed, and the maximum not above the minimum. */
  function ValidatePriceRange(minPrice: Value, maxPrice: Value): (r: Option<string>)
    ensures r.Some? <==>
      && Truthy(minPrice) && Truthy(maxPrice)
      && ParseFloatOf(minPrice).Some? && ParseFloatOf(maxPrice).Some?
      && ParseFloatOf(maxPrice).value <= ParseFloatOf(minPrice).value
    ensures r.Some? ==> r.value == PriceOrder
  {
    if Truthy(minPrice) && Truthy(maxPrice) then
      match (ParseFloatOf(minPrice), ParseFloatOf(maxPrice))
      case (Some(lo), Some(hi)) => if hi <= lo then Some(PriceOrder) else None
      case _ => None
    else None
  }

  /** For two positive whole prices the range errs exactly when the maximum is not above the
      minimum. */
  lemma PriceRangeOfNaturals(lo: nat, hi: nat)
    requires 0 < lo && 0 < hi && (lo as real) < Big && (hi as real) < Big
    ensures ValidatePriceRange(Num(lo as real), Num(hi as real)).Some? <==> hi <= lo
  {
    ParseFloatOfNatural(lo);
    ParseFloatOfNatural(hi);
  }

  /** A missing price never errs. */
  lemma MissingPriceNeverErrs(price: Value)
    ensures ValidatePriceRange(Undefined, price).None?
    ensures ValidatePriceRange(price, Str("")).None?
  {
  }

  /** `v?.trim()` is empty or undefined, for a value `trim` can be read on. */
  predicate Blank(v: Value) {
    Nullish(v) || (v.Str? && Trim(v.s) == "")
  }

  /** `trim` can be read: the value is a string, or `?.` stops at null/undefined. */
  predicate Trimmable(v: Value) {
    Nullish(v) || v.Str?
  }

  /** The errors object, one optional entry per key: an entry is present with its message
      exactly when its check fails. */
  datatype FormErrors = FormErrors(
    city: Option<string>, state: Option<string>, postalCode: Option<string>, beds: Option<string>,
    baths: Option<string>, sqft: Option<string>, priceRange: Option<string>)

  const NoErrors: FormErrors := FormErrors(None, None, None, None, None, None, None)

  /** `validateSearchForm`; reading `trim` on a city or state that is neither a string nor
      null/undefined throws. */
  function ValidateSearchForm(filters: Object): (r: Result<FormErrors, string>)
    ensures r.Ok? <==> Trimmable(Get(filters, "city")) && Trimmable(Get(filters, "state"))
    ensures r.Err? ==> r.error == TypeErrorMessage
    ensures r.Ok? ==> (r.value.city.Some? <==> Blank(Get(filters, "city")))
    ensures r.Ok? ==> (r.value.state.Some? <==> Blank(Get(filters, "state")))
    ensures r.Ok? && r.value.city.Some? ==> r.value.city.value == CityRequired
    ensures r.Ok? && r.value.state.Some? ==> r.value.state.value == StateRequired
    ensures r.Ok? ==>
      && r.value.postalCode == ValidatePostalCode(Get(filters, "postalCode"))
      && r.value.beds == ValidateBeds(Get(filters, "beds"))
      && r.value.baths == ValidateBaths(Get(filters, "baths"))
      && r.value.sqft == ValidateSqft(Get(filters, "sqft"))
      && r.value.priceRange == ValidatePriceRange(Get(filters, "minPrice"), Get(filters, "maxPrice"))
  {
    var city, state := Get(filters, "city"), Get(filters, "state");
    if Trimmable(city) && Trimmable(state) then
      Ok(FormErrors(
        if Blank(city) then Some(CityRequired) else None,
        if Blank(state) then Some(StateRequired) else None,
        ValidatePostalCode(Get(filters, "postalCode")), ValidateBeds(Get(filters, "beds")),
        ValidateBaths(Get(filters, "baths")), ValidateSqft(Get(filters, "sqft")),
        ValidatePriceRange(Get(filters, "minPrice"), Get(filters, "maxPrice"))))
    else Err(TypeErrorMessage)
  }

  /** A form with every filter empty, as the store starts with, fails every check except the
      price range. */
  lemma EmptyFormLacksOnlyPriceRange(f: Object)
    requires forall k :: k in PropertyCompsSlice.FilterKeys ==> Get(f, k) == Str("")
    ensures ValidateSearchForm(f)
      == Ok(FormErrors(Some(CityRequired), Some(StateRequired), Some(PostalRequired), Some(BedsRequired),
                       Some(BathsRequired), Some(SqftRequired), None))
  {
    assert Get(f, "city") == Str("") && Get(f, "state") == Str("");
    assert Trim("") == "";
    EmptyFieldsFail(f);
  }

  /** The store's starting filters are such a form. */
  lemma StoreStartsEmpty()
    ensures forall k :: k in PropertyCompsSlice.FilterKeys ==> Get(PropertyCompsSlice.EmptyFilters, k) == Str("")
  {
  }

  lemma EmptyFieldsFail(f: Object)
    requires Trimmable(Get(f, "city")) && Blank(Get(f, "city"))
    requires Trimmable(Get(f, "state")) && Blank(Get(f, "state"))
    requires !Truthy(Get(f, "postalCode")) && !Truthy(Get(f, "beds")) && !Truthy(Get(f, "baths"))
    requires !Truthy(Get(f, "sqft")) && !Truthy(Get(f, "minPrice"))
    ensures ValidateSearchForm(f)
      == Ok(FormErrors(Some(CityRequired), Some(StateRequired), Some(PostalRequired), Some(BedsRequired),
                       Some(BathsRequired), Some(SqftRequired), None))
  {
  }

  /** A form filled in with a city, a state, a five-digit ZIP code and counts in range, and
      without a minimum price, has no errors. */
  lemma FilledFormHasNoErrors(f: Object, city: string, state: string, zip: string, beds: nat, baths: nat, sqft: nat)
    requires Get(f, "city") == Str(city) && !Blank(Str(city))
    requires Get(f, "state") == Str(state) && !Blank(Str(state))
    requires Get(f, "postalCode") == Str(zip) && FiveDigits(zip)
    requires Get(f, "beds") == Num(beds as real) && 1 <= beds <= 10
    requires Get(f, "baths") == Num(baths as real) && 1 <= baths <= 10
    requires Get(f, "sqft") == Num(sqft as real) && 100 <= sqft <= 10000
    requires !Truthy(Get(f, "minPrice"))
    ensures ValidateSearchForm(f) == Ok(NoErrors)
  {
    TextsPass(f, city, state, zip);
    CountsPass(Get(f, "beds"), Get(f, "baths"), Get(f, "sqft"), beds, baths, sqft);
    PassingChecks(f);
  }

  lemma TextsPass(f: Object, city: string, state: string, zip: string)
    requires Get(f, "city") == Str(city) && !Blank(Str(city))
    requires Get(f, "state") == Str(state) && !Blank(Str(state))
    requires Get(f, "postalCode") == Str(zip) && FiveDigits(zip)
    ensures Trimmable(Get(f, "city")) && !Blank(Get(f, "city"))
    ensures Trimmable(Get(f, "state")) && !Blank(Get(f, "state"))
    ensures ValidatePostalCode(Get(f, "postalCode")).None?
  {
    NamesPass(Get(f, "city"), Get(f, "state"), city, state);
    ZipPasses(Get(f, "postalCode"), zip);
  }

  lemma NamesPass(vc: Value, vs: Value, city: string, state: string)
    requires vc == Str(city) && !Blank(Str(city))
    requires vs == Str(state) && !Blank(Str(state))
    ensures Trimmable(vc) && !Blank(vc) && Trimmable(vs) && !Blank(vs)
  {
  }

  lemma ZipPasses(v: Value, zip: string)
    requires v == Str(zip) && FiveDigits(zip)
    ensures ValidatePostalCode(v).None?
  {
  }

  lemma CountsPass(vb: Value, vt: Value, vs: Value, beds: nat, baths: nat, sqft: nat)
    requires vb == Num(beds as real) && 1 <= beds <= 10
    requires vt == Num(baths as real) && 1 <= baths <= 10
    requires vs == Num(sqft as real) && 100 <= sqft <= 10000
    ensures ValidateBeds(vb).None? && ValidateBaths(vt).None? && ValidateSqft(vs).None?
  {
    CountsOfIntegers(beds);
    CountsOfIntegers(sqft);
    BathsOfNaturals(baths);
  }

  lemma PassingChecks(f: Object)
    requires Trimmable(Get(f, "city")) && !Blank(Get(f, "city"))
    requires Trimmable(Get(f, "state")) && !Blank(Get(f, "state"))
    requires ValidatePostalCode(Get(f, "postalCode")).None? && ValidateBeds(Get(f, "beds")).None?
    requires ValidateBaths(Get(f, "baths")).None? && ValidateSqft(Get(f, "sqft")).None?
    requires ValidatePriceRange(Get(f, "minPrice"), Get(f, "maxPrice")).None?
    ensures ValidateSearchForm(f) == Ok(NoErrors)
  {
  }
}
