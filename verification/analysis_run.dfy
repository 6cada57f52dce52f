/** One analysis run as the property details view drives it: the property id it sends, the
    comparables the user picks, the validation and reset when the run starts, the fold of
    streamed step events into the progress record, and what the settled call leaves behind. */
module AnalysisRun {
  import opened Wrappers
  import opened JsText
  import opened JsValues
  import AnalysisStream
  import PropertyCompsSlice
  import PropertySearchView

  // ---------------------------------------------------------------------------
  // property ids

  /** `getPropertyId`: null for a falsy property, otherwise `_id || zpid || id || null`. */
  function PropertyId(property: Value): (r: Value)
    ensures !Truthy(r) ==> r == Null
    ensures Truthy(property) && Truthy(Prop(property, "_id")) ==> r == Prop(property, "_id")
    ensures Truthy(r) ==> r == Prop(property, "_id") || r == Prop(property, "zpid") || r == Prop(property, "id")
    ensures Truthy(r) <==>
      Truthy(property) && (Truthy(Prop(property, "_id")) || Truthy(Prop(property, "zpid")) || Truthy(Prop(property, "id")))
  {
    if !Truthy(property) then Null
    else if Truthy(Prop(property, "_id")) then Prop(property, "_id")
    else if Truthy(Prop(property, "zpid")) then Prop(property, "zpid")
    else if Truthy(Prop(property, "id")) then Prop(property, "id")
    else Null
  }

  /** `selectedProperty._id || propId`, the id both handlers send. */
  function ApiPropertyId(property: Value): (r: Value)
    ensures Truthy(PropertyId(property)) ==> r == PropertyId(property)
    ensures !Truthy(PropertyId(property)) ==> r == Null
  {
    if Truthy(Prop(property, "_id")) then Prop(property, "_id") else PropertyId(property)
  }

  /** Preferring `_id` again changes nothing: once there is any id, it is the one `getPropertyId` found. */
  lemma ApiIdIsPropertyId(property: Value)
    requires Truthy(PropertyId(property))
    ensures ApiPropertyId(property) == PropertyId(property)
  {
  }

  /** What `.replace(/[^a-zA-Z0-9]/g, '-')` makes of one character. The pattern has no `u`
      flag, so it sees UTF-16 code units: a character above U+FFFF is two units and two dashes. */
  function IdPiece(c: char): (r: string)
    ensures |r| == Utf16Length([c])
  {
    if IsAsciiAlnum(c) then [c] else if c as int >= 0x1_0000 then "--" else "-"
  }

  function ReplaceNonAlnum(s: string): (r: string)
    ensures |r| == Utf16Length(s)
  {
    if s == [] then [] else IdPiece(s[0]) + ReplaceNonAlnum(s[1..])
  }

  predicate IsIdChar(c: char) { IsAsciiAlnum(c) || c == '-' }

  predicate IsIdText(t: string) { forall i :: 0 <= i < |t| ==> IsIdChar(t[i]) }

  predicate IsLowerIdText(t: string) {
    forall i :: 0 <= i < |t| ==> ('a' <= t[i] <= 'z') || IsDigit(t[i]) || t[i] == '-'
  }

  /** Only letters, digits and dashes survive the replacement. */
  lemma {:induction false} ReplaceNonAlnumIsIdText(s: string)
    ensures IsIdText(ReplaceNonAlnum(s))
    decreases |s|
  {
    if s != [] {
      var p, r := IdPiece(s[0]), ReplaceNonAlnum(s[1..]);
      ReplaceNonAlnumIsIdText(s[1..]);
      assert forall i :: 0 <= i < |p| ==> (p + r)[i] == p[i];
      assert forall i :: |p| <= i < |p| + |r| ==> (p + r)[i] == r[i - |p|];
    }
  }

  /** Without characters above U+FFFF the replacement works character by character: letters
      and digits stay where they are and everything else becomes one dash. */
  lemma {:induction false} ReplaceNonAlnumInPlace(s: string)
    requires Utf16Length(s) == |s|
    ensures forall i :: 0 <= i < |s| ==> ReplaceNonAlnum(s)[i] == if IsAsciiAlnum(s[i]) then s[i] else '-'
    decreases |s|
  {
    if s != [] {
      var r := ReplaceNonAlnum(s[1..]);
      assert s[0] as int < 0x1_0000 by {
        assert Utf16Length(s) == Utf16Length([s[0]]) + Utf16Length(s[1..]);
      }
      ReplaceNonAlnumInPlace(s[1..]);
      assert ReplaceNonAlnum(s) == IdPiece(s[0]) + r;
      forall i | 1 <= i < |s|
        ensures ReplaceNonAlnum(s)[i] == if IsAsciiAlnum(s[i]) then s[i] else '-'
      {
        assert ReplaceNonAlnum(s)[i] == r[i - 1] && s[i] == s[1..][i - 1];
      }
    }
  }

  /** Text made only of letters, digits and dashes comes through the replacement unchanged. */
  lemma ReplaceNonAlnumKeepsIdText(t: string)
    requires IsIdText(t)
    ensures ReplaceNonAlnum(t) == t
  {
    IdTextIsNarrow(t);
    ReplaceNonAlnumInPlace(t);
  }

  lemma {:induction false} IdTextIsNarrow(t: string)
    requires IsIdText(t)
    ensures Utf16Length(t) == |t|
    decreases |t|
  {
    if t != [] {
      assert IsIdText(t[1..]) by {
        assert forall i :: 0 <= i < |t[1..]| ==> t[1..][i] == t[i + 1];
      }
      IdTextIsNarrow(t[1..]);
    }
  }

  const IdPrefix: string := "property-"

  /** `` `property-${addressForId.replace(/[^a-zA-Z0-9]/g, '-').toLowerCase()}` ``. */
  function GeneratedId(address: string): (r: string)
    ensures |r| == |IdPrefix| + Utf16Length(address)
    ensures r[..|IdPrefix|] == IdPrefix
  {
    IdPrefix + LowerAscii(ReplaceNonAlnum(address))
  }

  /** A generated id is the prefix, then one lower-case letter, digit or dash per UTF-16 code
      unit of the address. */
  lemma GeneratedIdShape(address: string)
    ensures var id := GeneratedId(address);
      StartsWith(id, IdPrefix) && |id| == |IdPrefix| + Utf16Length(address) && IsLowerIdText(id[|IdPrefix|..])
  {
    var r := ReplaceNonAlnum(address);
    ReplaceNonAlnumIsIdText(address);
    var id := GeneratedId(address);
    assert id[..|IdPrefix|] == IdPrefix;
    assert id[|IdPrefix|..] == LowerAscii(r);
  }

  /** Generating an id from the tail of a generated id gives the same id back. */
  lemma GeneratedIdIsStable(address: string)
    ensures GeneratedId(GeneratedId(address)[|IdPrefix|..]) == GeneratedId(address)
  {
    GeneratedIdShape(address);
    var t := GeneratedId(address)[|IdPrefix|..];
    assert IsIdText(t) by {
      forall i | 0 <= i < |t|
        ensures IsIdChar(t[i])
      {
      }
    }
    ReplaceNonAlnumKeepsIdText(t);
    assert LowerAscii(t) == t;
  }

  /** `` `${city || ''}-${state || ''}`.trim() ``. */
  function CityStateText(property: Value): string {
    var city := if Truthy(Prop(property, "city")) then Prop(property, "city") else Str("");
    var state := if Truthy(Prop(property, "state")) then Prop(property, "state") else Str("");
    Trim(ToJsString(city) + "-" + ToJsString(state))
  }

  /** The dash in the middle is never trimmed away. */
  lemma CityStateTextIsNotEmpty(property: Value)
    ensures CityStateText(property) != ""
  {
    var city := if Truthy(Prop(property, "city")) then Prop(property, "city") else Str("");
    var state := if Truthy(Prop(property, "state")) then Prop(property, "state") else Str("");
    var s := ToJsString(city) + "-" + ToJsString(state);
    assert s[|ToJsString(city)|] == '-';
  }

  /** `formattedAddress || address || <city-state text>`: always truthy, so the branch that
      reports a property without id or address can never be taken. */
  function AddressForId(property: Value): (r: Value)
    ensures Truthy(r)
  {
    CityStateTextIsNotEmpty(property);
    if Truthy(Prop(property, "formattedAddress")) then Prop(property, "formattedAddress")
    else if Truthy(Prop(property, "address")) then Prop(property, "address")
    else Str(CityStateText(property))
  }

  const MissingIdMessage: string :=
    "Property ID is required. The selected property doesn't have a valid ID or address. "
    + "Please ensure the property was returned from the search results."

  const TypeErrorMessage: string := "TypeError"

  /** The property id `handleFindComparables` sends: the known id when there is one, otherwise
      one generated from the address. Reading `._id` of a null property throws, and so does
      `.replace` on an address that is not a string. */
  function FindComparablesId(property: Value): (r: Result<Value, string>)
    ensures Nullish(property) ==> r == Err(TypeErrorMessage)
    ensures !Nullish(property) && Truthy(PropertyId(property)) ==> r == Ok(PropertyId(property))
    ensures r.Ok? ==> Truthy(r.value)
    ensures r != Err(MissingIdMessage)
    ensures r.Ok? && !Truthy(PropertyId(property)) ==>
      AddressForId(property).Str? && r.value == Str(GeneratedId(AddressForId(property).s))
  {
    if Nullish(property) then Err(TypeErrorMessage)
    else
      var apiId := ApiPropertyId(property);
      if Truthy(apiId) then Ok(apiId)
      else
        var address := AddressForId(property);
        if !Truthy(address) then Err(MissingIdMessage)
        else if address.Str? then Ok(Str(GeneratedId(address.s)))
        else Err(TypeErrorMessage)
  }

  // ---------------------------------------------------------------------------
  // picking comparables

  const MaxComps: nat := 5
  const MaxCompsMessage: string := "Maximum 5 comparables allowed"

  datatype Toggle = CapReached | Dispatched(ids: seq<string>)

  /** `selectedCompIds || []`. */
  function CurrentIds(selected: Option<seq<string>>): seq<string> {
    selected.GetOr([])
  }

  /** `ids.filter(id => id !== x)`. */
  function Without(ids: seq<string>, x: string): (r: seq<string>)
    ensures multiset(r) == multiset(ids)[x := 0]
    ensures |r| <= |ids|
  {
    if ids == [] then []
    else
      assert ids == [ids[0]] + ids[1..];
      if ids[0] == x then Without(ids[1..], x) else [ids[0]] + Without(ids[1..], x)
  }

  /** `handleToggleComp`: selecting is refused once five are picked and otherwise appends;
      deselecting drops every copy of the id. */
  function ToggleComp(selected: Option<seq<string>>, compId: string, isSelected: bool): (r: Toggle)
    ensures r.CapReached? <==> isSelected && |CurrentIds(selected)| >= MaxComps
    ensures r.Dispatched? && isSelected ==> r.ids == CurrentIds(selected) + [compId]
    ensures !isSelected ==> r.Dispatched? && r.ids == Without(CurrentIds(selected), compId)
  {
    var current := CurrentIds(selected);
    if isSelected then
      if |current| >= MaxComps then CapReached else Dispatched(current + [compId])
    else Dispatched(Without(current, compId))
  }

  /** A selection of at most five stays at most five, whatever is toggled. */
  lemma ToggleKeepsCap(selected: Option<seq<string>>, compId: string, isSelected: bool)
    requires |CurrentIds(selected)| <= MaxComps
    ensures ToggleComp(selected, compId, isSelected).Dispatched? ==> |ToggleComp(selected, compId, isSelected).ids| <= MaxComps
  {
  }

  /** Deselecting removes the id and nothing else: the other ids keep their count and order. */
  lemma {:induction false} WithoutKeepsOthers(ids: seq<string>, x: string)
    ensures x !in Without(ids, x)
    ensures forall y :: y != x ==> (y in Without(ids, x) <==> y in ids)
    ensures x !in ids ==> Without(ids, x) == ids
    decreases |ids|
  {
    if ids != [] {
      WithoutKeepsOthers(ids[1..], x);
      assert ids == [ids[0]] + ids[1..];
    }
  }

  /** Selecting an id that was not selected and then deselecting it restores the selection. */
  lemma SelectThenDeselect(ids: seq<string>, compId: string)
    requires |ids| < MaxComps && compId !in ids
    ensures ToggleComp(Some(ids), compId, true) == Dispatched(ids + [compId])
    ensures ToggleComp(Some(ToggleComp(Some(ids), compId, true).ids), compId, false) == Dispatched(ids)
  {
    WithoutAppend(ids, compId);
  }

  lemma {:induction false} WithoutAppend(ids: seq<string>, x: string)
    requires x !in ids
    ensures Without(ids + [x], x) == ids
    decreases |ids|
  {
    if ids == [] {
      assert [] + [x] == [x];
    } else {
      assert (ids + [x])[1..] == ids[1..] + [x];
      WithoutAppend(ids[1..], x);
    }
  }

  // ---------------------------------------------------------------------------
  // the progress record

  datatype Progress = Progress(
    subjectAddress: Value,
    steps: seq<Value>,
    currentStep: Value,
    compBeingAnalyzed: Value,
    compIndex: Value,
    compTotal: Value,
    arv: Value,
    mao: Value,
    estimatedRepairs: Value,
    isComplete: bool)

  /** The record before any run, and after "view results" or "cancel" reset it. */
  const Idle: Progress := Progress(Null, [], Null, Null, Null, Null, Null, Null, Null, false)

  predicate IsStepEvent(ev: Value) { Prop(ev, "type") == Str("step") }

  /** `ev.address || (ev.step === "comp" ? ev.address : null)`. */
  function CompBeingAnalyzed(ev: Value): (r: Value)
    ensures Truthy(r) <==> Truthy(Prop(ev, "address"))
    ensures Truthy(r) ==> r == Prop(ev, "address")
    ensures !Truthy(r) ==> r == Null || r == Prop(ev, "address")
  {
    var address := Prop(ev, "address");
    if Truthy(address) then address
    else if Prop(ev, "step") == Str("comp") then address
    else Null
  }

  /** `v ?? previous` keeps the previous value exactly when `v` is null or undefined. */
  predicate TakesPresent(now: Value, v: Value, previous: Value) {
    (Nullish(v) ==> now == previous) && (!Nullish(v) ==> now == v)
  }

  /** The `onProgress` callback: a step event is appended to the steps, names the current
      step and the comparable in work, and updates the running figures it carries; any other
      event leaves the record alone. */
  function ApplyEvent(p: Progress, ev: Value): (r: Progress)
    ensures !IsStepEvent(ev) ==> r == p
    ensures r.subjectAddress == p.subjectAddress && r.isComplete == p.isComplete
    ensures IsStepEvent(ev) ==> r.steps == p.steps + [ev] && r.currentStep == Prop(ev, "step")
    ensures IsStepEvent(ev) ==> (Truthy(r.compBeingAnalyzed) <==> Truthy(Prop(ev, "address")))
    ensures IsStepEvent(ev) ==> TakesPresent(r.compIndex, Prop(ev, "index"), p.compIndex)
    ensures IsStepEvent(ev) ==> TakesPresent(r.compTotal, Prop(ev, "total"), p.compTotal)
    ensures IsStepEvent(ev) ==> TakesPresent(r.arv, Prop(ev, "arv"), p.arv)
    ensures IsStepEvent(ev) ==> TakesPresent(r.mao, Prop(ev, "mao"), p.mao)
    ensures IsStepEvent(ev) ==> TakesPresent(r.estimatedRepairs, Prop(ev, "estimatedRepairs"), p.estimatedRepairs)
  {
    if IsStepEvent(ev) then
      p.(steps := p.steps + [ev],
         currentStep := Prop(ev, "step"),
         compBeingAnalyzed := CompBeingAnalyzed(ev),
         compIndex := Coalesce([Prop(ev, "index"), p.compIndex]),
         compTotal := Coalesce([Prop(ev, "total"), p.compTotal]),
         arv := Coalesce([Prop(ev, "arv"), p.arv]),
         mao := Coalesce([Prop(ev, "mao"), p.mao]),
         estimatedRepairs := Coalesce([Prop(ev, "estimatedRepairs"), p.estimatedRepairs]))
    else p
  }

  /** The record after the events, in the order `onProgress` received them. */
  function ApplyAll(p: Progress, evs: seq<Value>): (r: Progress)
    ensures r.subjectAddress == p.subjectAddress && r.isComplete == p.isComplete
    ensures |r.steps| >= |p.steps| && r.steps[..|p.steps|] == p.steps
    ensures (forall i :: 0 <= i < |evs| ==> !IsStepEvent(evs[i])) ==> r == p
    decreases |evs|
  {
    if evs == [] then p else ApplyEvent(ApplyAll(p, evs[..|evs| - 1]), evs[|evs| - 1])
  }

  /** The step events among `evs`, in order. */
  function StepEvents(evs: seq<Value>): (r: seq<Value>)
    ensures |r| <= |evs|
    decreases |evs|
  {
    if evs == [] then []
    else StepEvents(evs[..|evs| - 1]) + (if IsStepEvent(evs[|evs| - 1]) then [evs[|evs| - 1]] else [])
  }

  /** The last non-null value of `key` among the events, or `previous` if none carries one. */
  function LastPresent(evs: seq<Value>, key: string, previous: Value): Value
    decreases |evs|
  {
    if evs == [] then previous
    else if !Nullish(Prop(evs[|evs| - 1], key)) then Prop(evs[|evs| - 1], key)
    else LastPresent(evs[..|evs| - 1], key, previous)
  }

  /** Folding two batches of events is folding the first, then the second. */
  lemma {:induction false} ApplyAllAppend(p: Progress, a: seq<Value>, b: seq<Value>)
    ensures ApplyAll(p, a + b) == ApplyAll(ApplyAll(p, a), b)
    decreases |b|
  {
    if b == [] {
      assert a + b == a;
    } else {
      assert (a + b)[..|a + b| - 1] == a + b[..|b| - 1];
      ApplyAllAppend(p, a, b[..|b| - 1]);
    }
  }

  /** After the fold the steps are exactly the step events received, appended in order; the
      subject address and the completion flag are untouched. */
  lemma {:induction false} ApplyAllSteps(p: Progress, evs: seq<Value>)
    ensures ApplyAll(p, evs).steps == p.steps + StepEvents(evs)
    ensures ApplyAll(p, evs).subjectAddress == p.subjectAddress
    ensures ApplyAll(p, evs).isComplete == p.isComplete
    decreases |evs|
  {
    if evs != [] {
      ApplyAllSteps(p, evs[..|evs| - 1]);
    }
  }

  /** Without step events nothing changes; otherwise the current step and the comparable in
      work come from the last step event alone. */
  lemma {:induction false} ApplyAllCurrent(p: Progress, evs: seq<Value>)
    ensures StepEvents(evs) == [] ==> ApplyAll(p, evs) == p
    ensures StepEvents(evs) != [] ==>
      var last := StepEvents(evs)[|StepEvents(evs)| - 1];
      ApplyAll(p, evs).currentStep == Prop(last, "step")
      && ApplyAll(p, evs).compBeingAnalyzed == CompBeingAnalyzed(last)
    decreases |evs|
  {
    if evs != [] {
      ApplyAllCurrent(p, evs[..|evs| - 1]);
    }
  }

  lemma LastPresentSnoc(xs: seq<Value>, ev: Value, key: string, previous: Value)
    ensures LastPresent(xs + [ev], key, previous)
         == if Nullish(Prop(ev, key)) then LastPresent(xs, key, previous) else Prop(ev, key)
  {
    assert (xs + [ev])[..|xs|] == xs;
  }

  /** Each running figure ends as the last non-null value some step event carried for it, or
      keeps its value from before the events. */
  lemma {:induction false} ApplyAllFigures(p: Progress, evs: seq<Value>)
    ensures ApplyAll(p, evs).compIndex == LastPresent(StepEvents(evs), "index", p.compIndex)
    ensures ApplyAll(p, evs).compTotal == LastPresent(StepEvents(evs), "total", p.compTotal)
    ensures ApplyAll(p, evs).arv == LastPresent(StepEvents(evs), "arv", p.arv)
    ensures ApplyAll(p, evs).mao == LastPresent(StepEvents(evs), "mao", p.mao)
    ensures ApplyAll(p, evs).estimatedRepairs == LastPresent(StepEvents(evs), "estimatedRepairs", p.estimatedRepairs)
    decreases |evs|
  {
    if evs != [] {
      var init, ev := evs[..|evs| - 1], evs[|evs| - 1];
      ApplyAllFigures(p, init);
      if IsStepEvent(ev) {
        var xs := StepEvents(init);
        assert StepEvents(evs) == xs + [ev];
        LastPresentSnoc(xs, ev, "index", p.compIndex);
        LastPresentSnoc(xs, ev, "total", p.compTotal);
        LastPresentSnoc(xs, ev, "arv", p.arv);
        LastPresentSnoc(xs, ev, "mao", p.mao);
        LastPresentSnoc(xs, ev, "estimatedRepairs", p.estimatedRepairs);
      } else {
        assert StepEvents(evs) == StepEvents(init) + [] == StepEvents(init);
        assert ApplyAll(p, evs) == ApplyAll(p, init);
      }
    }
  }

  // ---------------------------------------------------------------------------
  // starting a run

  const NoPropertyMessage: string := "Property ID is required"
  const SelectionMessage: string := "Please select at least 1 comparable (3-5 recommended for accurate results)"
  const FirstStep: string := "subject_prep"

  /** The `maoInputs` sent with the run. */
  datatype MaoPayload = MaoPayload(
    estimatedRepairs: Value,
    holdingCost: Value,
    closingCost: Value,
    wholesaleFee: Value,
    maoRule: Value)

  datatype RunBody = RunBody(propertyId: Value, selectedCompIds: seq<string>, maoInputs: MaoPayload, subjectImages: Value)

  datatype Start =
    | Refused(message: string)
    | Started(progress: Progress, body: RunBody, warning: Option<string>)

  const FewCompsTail: string := " selected. Analysis requires at least 3 comparables for accurate results."

  /** The warning shown for one or two comparables: the count, then "comparable" in the
      singular for one and the plural otherwise. */
  function FewCompsWarning(n: nat): (r: string)
    ensures n == 1 ==> r == "Only 1 comparable" + FewCompsTail
    ensures n == 2 ==> r == "Only 2 comparables" + FewCompsTail
  {
    assert NatToString(1) == "1" && NatToString(2) == "2";
    assert "Only " + "1" + " comparable" + "" == "Only 1 comparable";
    assert "Only " + "2" + " comparable" + "s" == "Only 2 comparables";
    "Only " + NatToString(n) + " comparable" + (if n == 1 then "" else "s") + FewCompsTail
  }

  /** `x || fallback`. */
  function OrElse(x: Value, fallback: Value): (r: Value)
    ensures Truthy(x) ==> r == x
    ensures !Truthy(x) ==> r == fallback
  {
    if Truthy(x) then x else fallback
  }

  /** Every numeric field `|| 0`, the rule `|| "sop"`. */
  function MaoPayloadOf(maoInputs: Object): (r: MaoPayload)
    ensures Truthy(Get(maoInputs, "estimatedRepairs")) ==> r.estimatedRepairs == Get(maoInputs, "estimatedRepairs")
    ensures !Truthy(Get(maoInputs, "estimatedRepairs")) ==> r.estimatedRepairs == Num(0.0)
    ensures Truthy(Get(maoInputs, "holdingCost")) ==> r.holdingCost == Get(maoInputs, "holdingCost")
    ensures !Truthy(Get(maoInputs, "holdingCost")) ==> r.holdingCost == Num(0.0)
    ensures Truthy(Get(maoInputs, "closingCost")) ==> r.closingCost == Get(maoInputs, "closingCost")
    ensures !Truthy(Get(maoInputs, "closingCost")) ==> r.closingCost == Num(0.0)
    ensures Truthy(Get(maoInputs, "wholesaleFee")) ==> r.wholesaleFee == Get(maoInputs, "wholesaleFee")
    ensures !Truthy(Get(maoInputs, "wholesaleFee")) ==> r.wholesaleFee == Num(0.0)
    ensures Truthy(Get(maoInputs, "maoRule")) ==> r.maoRule == Get(maoInputs, "maoRule")
    ensures !Truthy(Get(maoInputs, "maoRule")) ==> r.maoRule == Str("sop")
  {
    MaoPayload(
      OrElse(Get(maoInputs, "estimatedRepairs"), Num(0.0)),
      OrElse(Get(maoInputs, "holdingCost"), Num(0.0)),
      OrElse(Get(maoInputs, "closingCost"), Num(0.0)),
      OrElse(Get(maoInputs, "wholesaleFee"), Num(0.0)),
      OrElse(Get(maoInputs, "maoRule"), Str("sop")))
  }

  /** The payload as the JSON object the request carries. */
  function PayloadFields(m: MaoPayload): Object {
    map[
      "estimatedRepairs" := m.estimatedRepairs, "holdingCost" := m.holdingCost,
      "closingCost" := m.closingCost, "wholesaleFee" := m.wholesaleFee, "maoRule" := m.maoRule]
  }

  /** Building the payload from a payload gives it back: every amount it holds is truthy or
      already 0, and its rule is always truthy. */
  lemma MaoPayloadIsStable(maoInputs: Object)
    ensures MaoPayloadOf(PayloadFields(MaoPayloadOf(maoInputs))) == MaoPayloadOf(maoInputs)
    ensures Truthy(MaoPayloadOf(maoInputs).maoRule)
  {
  }

  /** The store's starting MAO inputs are sent as they are: no amounts and the 70% rule, so the
      "sop" fallback is not reached from the store's own defaults. */
  lemma InitialInputsPayload()
    ensures PayloadFields(MaoPayloadOf(PropertyCompsSlice.InitialMaoInputs)) == PropertyCompsSlice.InitialMaoInputs
    ensures MaoPayloadOf(PropertyCompsSlice.InitialMaoInputs).maoRule == Str("70%")
  {
  }

  /** `uploadedImages?.length ? uploadedImages : (images || [])`. */
  function SubjectImages(property: Value): (r: Value)
    ensures LengthTruthy(Prop(property, "uploadedImages")) ==> r == Prop(property, "uploadedImages")
    ensures !LengthTruthy(Prop(property, "uploadedImages")) && Truthy(Prop(property, "images")) ==>
      r == Prop(property, "images")
    ensures !LengthTruthy(Prop(property, "uploadedImages")) && !Truthy(Prop(property, "images")) ==> r == Arr([])
  {
    if LengthTruthy(Prop(property, "uploadedImages")) then Prop(property, "uploadedImages")
    else OrElse(Prop(property, "images"), Arr([]))
  }

  /** The photos uploaded when the property was chosen are the subject images the run sends;
      without uploads the property's own images (or none) are sent. */
  lemma UploadsReachTheRun(property: Value, uploaded: Value)
    ensures LengthTruthy(uploaded) ==> SubjectImages(PropertySearchView.WithUploads(property, uploaded)) == uploaded
    ensures !LengthTruthy(uploaded) ==> SubjectImages(PropertySearchView.WithUploads(property, uploaded)) == SubjectImages(property)
  {
  }

  /** `handleAnalyzeSelected` up to the call: the checks, the progress reset and the body. */
  function StartRun(property: Value, selected: Option<seq<string>>, maoInputs: Object): (r: Start)
    ensures r == Refused(NoPropertyMessage) <==> !Truthy(PropertyId(property))
    ensures Truthy(PropertyId(property)) ==>
      (r == Refused(SelectionMessage) <==> selected.None? || !(1 <= |selected.value| <= MaxComps))
    ensures r.Started? ==> selected.Some? && 1 <= |selected.value| <= MaxComps
    ensures r.Started? ==>
      var n := |selected.value|;
      && r.progress.steps == [] && r.progress.currentStep == Str(FirstStep)
      && r.progress.compTotal == Num(n as real) && !r.progress.isComplete
      && r.progress.compBeingAnalyzed == Null && r.progress.compIndex == Null
      && r.progress.arv == Null && r.progress.mao == Null && r.progress.estimatedRepairs == Null
      && (r.warning.Some? <==> n < 3)
    ensures r.Started? && Truthy(Prop(property, "formattedAddress")) ==>
      r.progress.subjectAddress == Prop(property, "formattedAddress")
    ensures r.Started? && !Truthy(Prop(property, "formattedAddress")) && Truthy(Prop(property, "address")) ==>
      r.progress.subjectAddress == Prop(property, "address")
    ensures r.Started? && !Truthy(Prop(property, "formattedAddress")) && !Truthy(Prop(property, "address")) ==>
      Truthy(Prop(property, "rawAddress")) ==> r.progress.subjectAddress == Prop(property, "rawAddress")
    ensures r.Started? && !Truthy(Prop(property, "formattedAddress")) && !Truthy(Prop(property, "address")) ==>
      !Truthy(Prop(property, "rawAddress")) ==> r.progress.subjectAddress == Str("")
    ensures r.Started? ==> r.body.propertyId == PropertyId(property) && r.body.selectedCompIds == selected.value
    ensures r.Started? ==> r.body.maoInputs == MaoPayloadOf(maoInputs)
    ensures r.Started? ==> r.body.subjectImages == SubjectImages(property)
  {
    var propId := PropertyId(property);
    if !Truthy(propId) then Refused(NoPropertyMessage)
    else if selected.None? || |selected.value| < 1 || |selected.value| > MaxComps then Refused(SelectionMessage)
    else
      var ids := selected.value;
      var n := |ids|;
      var subject :=
        OrElse(Prop(property, "formattedAddress"),
          OrElse(Prop(property, "address"), OrElse(Prop(property, "rawAddress"), Str(""))));
      var progress := Idle.(subjectAddress := subject, currentStep := Str(FirstStep), compTotal := Num(n as real));
      ApiIdIsPropertyId(property);
      var body := RunBody(ApiPropertyId(property), ids, MaoPayloadOf(maoInputs), SubjectImages(property));
      Started(progress, body, if n < 3 then Some(FewCompsWarning(n)) else None)
  }

  /** A run starts from the idle record's shape: folding no events onto it changes nothing, and
      folding events keeps its subject and leaves it incomplete. */
  lemma StartedRunFolds(property: Value, ids: seq<string>, maoInputs: Object, evs: seq<Value>)
    requires Truthy(PropertyId(property)) && 1 <= |ids| <= MaxComps
    ensures StartRun(property, Some(ids), maoInputs).Started?
    ensures var p := StartRun(property, Some(ids), maoInputs).progress;
      ApplyAll(p, evs).steps == StepEvents(evs) && !ApplyAll(p, evs).isComplete
  {
    var p := StartRun(property, Some(ids), maoInputs).progress;
    ApplyAllSteps(p, evs);
  }

  // ---------------------------------------------------------------------------
  // the settled call

  datatype Level = Success | Warning | Failure

  /** A toast. */
  datatype Notice = Notice(level: Level, text: Value)

  /** The `setAnalysis` payload. */
  datatype Analysis = Analysis(loading: bool, error: Value, data: Value)

  /** What the view holds once the call settles: whether it still shows the progress screen,
      the progress record, the analysis dispatched (if any) and the toast. */
  datatype Settled = Settled(analyzing: bool, progress: Progress, analysis: Option<Analysis>, notice: Notice)

  const SuccessMessage: string := "Property analysis completed successfully!"
  const NoResultsMessage: string := "Analysis did not return results."
  const CompleteStep: string := "complete"

  /** A resolved value the view accepts: a truthy event whose type is "complete". */
  predicate Completes(o: AnalysisStream.Outcome) {
    o.Resolved? && Truthy(o.value) && Prop(o.value, "type") == Str(CompleteStep)
  }

  /** `error.status`: only an HTTP failure carries one. */
  function ErrorStatus(e: AnalysisStream.StreamError): Option<int> {
    if e.HttpError? then Some(e.status) else None
  }

  /** `error.data`: the parsed body of an HTTP failure, when it parsed. */
  function ErrorData(e: AnalysisStream.StreamError): Value {
    if e.HttpError? && e.data.Some? then e.data.value else Undefined
  }

  /** `error.data?.message || error.data?.error || fallback`. */
  function ErrorText(e: AnalysisStream.StreamError, fallback: string): (r: Value)
    requires fallback != ""
    ensures Truthy(r)
    ensures !Truthy(Prop(ErrorData(e), "message")) && !Truthy(Prop(ErrorData(e), "error")) ==> r == Str(fallback)
  {
    OrElse(Prop(ErrorData(e), "message"), OrElse(Prop(ErrorData(e), "error"), Str(fallback)))
  }

  const UnauthorizedMessage: string := "Unauthorized. Please sign in again."
  const NotFoundMessage: string := "Property not found. Please try a different property."
  const BadSelectionMessage: string := "Invalid comp selection. Please select 3-5 comparables."
  const AnalyzeFailedMessage: string := "Failed to analyze property. Please try again."

  /** The toast after a failed call: fixed texts for 401 and 404, the server's words otherwise. */
  function FailureNotice(e: AnalysisStream.StreamError): (r: Notice)
    ensures r.level == Failure && Truthy(r.text)
    ensures ErrorStatus(e) == Some(401) ==> r.text == Str(UnauthorizedMessage)
    ensures ErrorStatus(e) == Some(404) ==> r.text == Str(NotFoundMessage)
    ensures ErrorStatus(e) == Some(400) ==> r.text == ErrorText(e, BadSelectionMessage)
    ensures ErrorStatus(e) != Some(401) && ErrorStatus(e) != Some(404) && ErrorStatus(e) != Some(400) ==>
      r.text == ErrorText(e, AnalyzeFailedMessage)
  {
    var status := ErrorStatus(e);
    if status == Some(401) then Notice(Failure, Str(UnauthorizedMessage))
    else if status == Some(404) then Notice(Failure, Str(NotFoundMessage))
    else if status == Some(400) then Notice(Failure, ErrorText(e, BadSelectionMessage))
    else Notice(Failure, ErrorText(e, AnalyzeFailedMessage))
  }

  /** The toast of a rejected call: a 401 or 404 has its fixed text whatever the server said,
      and a failure that never reached the server gets the generic text. */
  lemma FailureToasts(p: Progress, status: int, message: string, data: Option<Value>)
    ensures status == 401 ==>
      Settle(p, AnalysisStream.Rejected(AnalysisStream.HttpError(status, message, data))).notice
        == Notice(Failure, Str(UnauthorizedMessage))
    ensures status == 404 ==>
      Settle(p, AnalysisStream.Rejected(AnalysisStream.HttpError(status, message, data))).notice
        == Notice(Failure, Str(NotFoundMessage))
    ensures status == 400 && data.None? ==>
      Settle(p, AnalysisStream.Rejected(AnalysisStream.HttpError(status, message, data))).notice
        == Notice(Failure, Str(BadSelectionMessage))
    ensures Settle(p, AnalysisStream.Rejected(AnalysisStream.NetworkError)).notice
      == Notice(Failure, Str(AnalyzeFailedMessage))
  {
  }

  /** The data a complete event leaves in the store: `result.data` in the first branch, and in
      the second `(result.data || result)?.data || (result.data || result)`. */
  function CompletedData(result: Value): (r: Value)
    ensures Truthy(Prop(result, "data")) ==> r == Prop(result, "data")
    ensures !Truthy(Prop(result, "data")) ==> r == result
  {
    if Truthy(Prop(result, "data")) then Prop(result, "data")
    else
      var data := OrElse(Prop(result, "data"), result);
      OrElse(Prop(data, "data"), data)
  }

  /** The second branch stores the whole event: its `data` is falsy, so both `||` fall through. */
  lemma CompletedDataIsEventOrData(result: Value)
    requires Truthy(result)
    ensures Truthy(Prop(result, "data")) ==> CompletedData(result) == Prop(result, "data")
    ensures !Truthy(Prop(result, "data")) ==> CompletedData(result) == result
    ensures Truthy(CompletedData(result))
  {
  }

  /** What the view does with the settled call. */
  function Settle(p: Progress, outcome: AnalysisStream.Outcome): (r: Settled)
    ensures r.progress.isComplete <==> Completes(outcome)
    ensures r.analyzing <==> Completes(outcome)
    ensures Completes(outcome) ==> r.progress == p.(isComplete := true, currentStep := Str(CompleteStep))
    ensures !Completes(outcome) ==> r.progress == p.(isComplete := false)
    ensures r.analysis.Some? <==> Completes(outcome) || outcome.Rejected?
    ensures r.analysis.Some? ==> !r.analysis.value.loading
    ensures Completes(outcome) ==> r.analysis.value.error == Null && Truthy(r.analysis.value.data)
    ensures outcome.Rejected? ==> r.analysis.value.data == Null && Truthy(r.analysis.value.error)
    ensures (r.notice.level == Success) <==> Completes(outcome)
    ensures Completes(outcome) ==> r.analysis.value.data == CompletedData(outcome.value)
    ensures Completes(outcome) ==> r.notice == Notice(Success, Str(SuccessMessage))
    ensures outcome.Rejected? ==> r.analysis.value.error == ErrorText(outcome.error, "Analysis failed")
    ensures outcome.Rejected? ==> r.notice == FailureNotice(outcome.error)
    ensures outcome.Resolved? && !Completes(outcome) ==> r.notice == Notice(Failure, Str(NoResultsMessage))
  {
    match outcome
    case Resolved(result) =>
      if Truthy(result) && Prop(result, "type") == Str(CompleteStep) then
        CompletedDataIsEventOrData(result);
        Settled(true, p.(isComplete := true, currentStep := Str(CompleteStep)),
                Some(Analysis(false, Null, CompletedData(result))), Notice(Success, Str(SuccessMessage)))
      else
        Settled(false, p.(isComplete := false), None, Notice(Failure, Str(NoResultsMessage)))
    case Rejected(e) =>
      Settled(false, p.(isComplete := false), Some(Analysis(false, ErrorText(e, "Analysis failed"), Null)), FailureNotice(e))
  }

  /** A complete event stores its `data` when that is truthy and the whole event otherwise,
      with no error, and the success toast. */
  lemma CompletionStoresResult(p: Progress, ev: Value)
    requires Truthy(ev) && Prop(ev, "type") == Str(CompleteStep)
    ensures var r := Settle(p, AnalysisStream.Resolved(ev));
      r.analysis == Some(Analysis(false, Null, if Truthy(Prop(ev, "data")) then Prop(ev, "data") else ev))
      && r.notice == Notice(Success, Str(SuccessMessage))
  {
    CompletedDataIsEventOrData(ev);
  }

  /** A failure without a server explanation stores the generic message. */
  lemma SilentFailure(p: Progress, e: AnalysisStream.StreamError)
    requires ErrorData(e) == Undefined
    ensures Settle(p, AnalysisStream.Rejected(e)).analysis == Some(Analysis(false, Str("Analysis failed"), Null))
  {
  }
}
