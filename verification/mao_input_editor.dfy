/** The MAO input editor: the inputs it starts from, how typing changes them, and what
    submitting hands back. */
module MaoInputEditor {
  import opened Wrappers
  import opened JsValues
  import PropertyCompsSlice

  const AmountKeys: seq<string> := ["estimatedRepairs", "holdingCost", "closingCost", "wholesaleFee"]
  const RuleKey: string := "maoRule"
  const DefaultRule: string := "70%"

  /** The editor's starting inputs: `currentInputs?.[k] || 0` for the four amounts and
      `currentInputs?.maoRule || "70%"`. */
  function InitialInputs(currentInputs: Value): (r: Object)
    ensures r.Keys == {"estimatedRepairs", "holdingCost", "closingCost", "wholesaleFee", RuleKey}
    ensures forall k :: k in AmountKeys ==>
      r[k] == if Truthy(Prop(currentInputs, k)) then Prop(currentInputs, k) else Num(0.0)
    ensures r[RuleKey] == if Truthy(Prop(currentInputs, RuleKey)) then Prop(currentInputs, RuleKey) else Str(DefaultRule)
  {
    map[
      "estimatedRepairs" := OrChain([Prop(currentInputs, "estimatedRepairs"), Num(0.0)]),
      "holdingCost" := OrChain([Prop(currentInputs, "holdingCost"), Num(0.0)]),
      "closingCost" := OrChain([Prop(currentInputs, "closingCost"), Num(0.0)]),
      "wholesaleFee" := OrChain([Prop(currentInputs, "wholesaleFee"), Num(0.0)]),
      RuleKey := OrChain([Prop(currentInputs, RuleKey), Str(DefaultRule)])]
  }

  /** Inputs as the store keeps them: the four amounts as numbers and a non-empty rule. */
  predicate StoreShaped(m: Object) {
    && m.Keys == {"estimatedRepairs", "holdingCost", "closingCost", "wholesaleFee", RuleKey}
    && (forall k :: k in AmountKeys ==> m[k].Num?)
    && m[RuleKey].Str? && m[RuleKey].s != ""
  }

  /** Opening the editor on inputs the store keeps shows them unchanged (a zero amount is
      falsy, but its fallback is the same zero). */
  lemma StoreInputsAreShownAsIs(m: Object)
    requires StoreShaped(m)
    ensures InitialInputs(Obj(m)) == m
  {
    var r := InitialInputs(Obj(m));
    forall k | k in m
      ensures r[k] == m[k]
    {
      if k != RuleKey {
        assert k in AmountKeys;
      }
    }
  }

  /** Without current inputs the editor starts from zero amounts and the 70% rule. */
  lemma MissingInputsStartAtDefaults(currentInputs: Value)
    requires !currentInputs.Obj?
    ensures InitialInputs(currentInputs) == PropertyCompsSlice.InitialMaoInputs
  {
  }

  /** The number a typed amount is stored as: `parseFloat(value) || 0`. */
  function AmountOf(value: string): (r: real)
    ensures ParseFloat(value).Some? ==> r == ParseFloat(value).value
    ensures ParseFloat(value).None? ==> r == 0.0
  {
    match ParseFloat(value)
    case Some(x) => x
    case None => 0.0
  }

  /** `handleChange`: the rule is stored as typed, any other field as the number typed (0 when
      it does not parse); no other field changes. */
  function HandleChange(inputs: Object, name: string, value: string): (r: Object)
    ensures r.Keys == inputs.Keys + {name}
    ensures name == RuleKey ==> r[name] == Str(value)
    ensures name != RuleKey ==> r[name] == Num(AmountOf(value))
    ensures forall k :: k in inputs && k != name ==> r[k] == inputs[k]
  {
    inputs[name := if name == RuleKey then Str(value) else Num(AmountOf(value))]
  }

  /** Typing digits into an amount stores their value; clearing it stores zero. */
  lemma TypedAmounts(inputs: Object, name: string, digits: string)
    requires name != RuleKey && |digits| >= 1 && JsText.AllDigits(digits)
    ensures HandleChange(inputs, name, digits)[name] == Num(JsText.DigitsValue(digits, 10) as real)
    ensures HandleChange(inputs, name, "")[name] == Num(0.0)
  {
    ParseFloatOfDigits(digits);
    EmptyTextHasNoNumber();
  }

  lemma EmptyTextHasNoNumber()
    ensures ParseFloat("").None?
  {
  }

  /** What submitting does: the current inputs go to the callback when there is one, and the
      editor closes. */
  datatype Submitted = Submitted(recalculate: Option<Object>, open: bool)

  function HandleSubmit(inputs: Object, hasCallback: bool): (r: Submitted)
    ensures !r.open
    ensures r.recalculate.Some? <==> hasCallback
    ensures r.recalculate.Some? ==> r.recalculate.value == inputs
  {
    Submitted(if hasCallback then Some(inputs) else None, false)
  }

  /** Opening the editor and submitting without edits sends the store's inputs back, so the
      recalculation leaves the store as it was. */
  lemma UneditedSubmitKeepsStore(s: PropertyCompsSlice.State)
    requires StoreShaped(s.maoInputs)
    ensures var sent := HandleSubmit(InitialInputs(Obj(s.maoInputs)), true).recalculate.value;
      PropertyCompsSlice.Reduce(s, PropertyCompsSlice.SetMaoInputs(sent)) == s
  {
    StoreInputsAreShownAsIs(s.maoInputs);
    assert Spread(s.maoInputs, s.maoInputs) == s.maoInputs;
  }
}
