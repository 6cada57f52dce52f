/** The comparable-selection panel: the repair total computed from the repair form, the
    subject's square footage, the selection checks and the checkbox handler. Numbers are exact
    reals; `Math.round` is `floor(x + 1/2)`. */
module ComparableSelection {
  import opened Wrappers
  import opened JsValues
  import AnalysisRun

  /** `Math.round`: the nearest integer, halves rounded up. */
  function Round(x: real): (r: int)
    ensures r as real - 0.5 <= x < r as real + 0.5
  {
    (x + 0.5).Floor
  }

  lemma RoundIsMonotone(x: real, y: real)
    requires x <= y
    ensures Round(x) <= Round(y)
  {
  }

  /** The repair form as `computeTotalRepair` reads it: every amount `Number(v) || 0`, every
      flag by truthiness. */
  datatype RepairForm = RepairForm(
    rate: real, roofCost: real, acCost: real, otherRepair: real,
    needsRoof: bool, needsAC: bool, addBuffer: bool)

  function FormOf(inputs: Object): RepairForm {
    RepairForm(
      NumberOrZero(Get(inputs, "rehabPerSqft")), NumberOrZero(Get(inputs, "roofCost")),
      NumberOrZero(Get(inputs, "acCost")), NumberOrZero(Get(inputs, "otherRepair")),
      Truthy(Get(inputs, "needsRoof")), Truthy(Get(inputs, "needsAC")), Truthy(Get(inputs, "addBuffer")))
  }

  /** The sum before the optional buffer: rate times area, the roof and AC costs only when their
      flags are set, and the other repairs. */
  function RepairSum(f: RepairForm, sqft: real): real {
    f.rate * sqft + (if f.needsRoof then f.roofCost else 0.0) + (if f.needsAC then f.acCost else 0.0) + f.otherRepair
  }

  const BufferFactor: real := 1.1

  /** The total for a form and an area: the sum, times 1.1 when the buffer is on, rounded. */
  function Total(f: RepairForm, sqft: real): (r: int)
    ensures var total := RepairSum(f, sqft) * (if f.addBuffer then BufferFactor else 1.0);
      r as real - 0.5 <= total < r as real + 0.5
  {
    var total := RepairSum(f, sqft);
    Round(if f.addBuffer then total * BufferFactor else total)
  }

  /** `computeTotalRepair(repairInputs, subjectSqft)`. */
  function TotalRepair(inputs: Object, subjectSqft: Value): (r: int)
    ensures var f, sqft := FormOf(inputs), NumberOrZero(subjectSqft);
      var sum := f.rate * sqft + (if f.needsRoof then f.roofCost else 0.0)
        + (if f.needsAC then f.acCost else 0.0) + f.otherRepair;
      var total := if f.addBuffer then sum * 1.1 else sum;
      r as real - 0.5 <= total < r as real + 0.5
  {
    TotalOfForm(FormOf(inputs), NumberOrZero(subjectSqft));
    Total(FormOf(inputs), NumberOrZero(subjectSqft))
  }

  /** `Total` with the sum written out. */
  lemma TotalOfForm(f: RepairForm, sqft: real)
    ensures var sum := f.rate * sqft + (if f.needsRoof then f.roofCost else 0.0)
        + (if f.needsAC then f.acCost else 0.0) + f.otherRepair;
      var total := if f.addBuffer then sum * 1.1 else sum;
      Total(f, sqft) as real - 0.5 <= total < Total(f, sqft) as real + 0.5
  {
  }

  /** A cost whose flag is off has no say in the total: any roof or AC cost gives the same result. */
  lemma UnflaggedCostsAreIgnored(f: RepairForm, sqft: real, roof: real, ac: real)
    ensures !f.needsRoof ==> Total(f.(roofCost := roof), sqft) == Total(f, sqft)
    ensures !f.needsAC ==> Total(f.(acCost := ac), sqft) == Total(f, sqft)
  {
  }

  /** Missing values count as zero: a form with nothing filled in totals zero, whatever the area. */
  lemma EmptyFormTotalsZero(subjectSqft: Value)
    ensures TotalRepair(map[], subjectSqft) == 0
  {
    assert FormOf(map[]) == RepairForm(0.0, 0.0, 0.0, 0.0, false, false, false);
    assert RepairSum(FormOf(map[]), NumberOrZero(subjectSqft)) == 0.0;
  }

  /** The defaults the form shows for the rate, the roof and the AC (`value ?? default`). */
  function ShownDefault(inputs: Object, key: string, fallback: real): Value {
    Coalesce([Get(inputs, key), Num(fallback)])
  }

  /** The form shows 25, 19000 and 7500 for an untouched rate, roof and AC, but those numbers
      are display only: whatever the flags say, a form whose amounts are untouched totals zero. */
  lemma ShownDefaultsAreNotCounted(inputs: Object, subjectSqft: Value)
    requires "rehabPerSqft" !in inputs && "roofCost" !in inputs && "acCost" !in inputs && "otherRepair" !in inputs
    ensures ShownDefault(inputs, "rehabPerSqft", 25.0) == Num(25.0)
    ensures ShownDefault(inputs, "roofCost", 19000.0) == Num(19000.0)
    ensures ShownDefault(inputs, "acCost", 7500.0) == Num(7500.0)
    ensures TotalRepair(inputs, subjectSqft) == 0
  {
    UntouchedShowsDefault(inputs, "rehabPerSqft", 25.0);
    UntouchedShowsDefault(inputs, "roofCost", 19000.0);
    UntouchedShowsDefault(inputs, "acCost", 7500.0);
    UntouchedTotalsZero(inputs, subjectSqft);
  }

  /** An untouched field shows its default. */
  lemma UntouchedShowsDefault(inputs: Object, key: string, fallback: real)
    requires key !in inputs
    ensures ShownDefault(inputs, key, fallback) == Num(fallback)
  {
  }

  lemma UntouchedTotalsZero(inputs: Object, subjectSqft: Value)
    requires "rehabPerSqft" !in inputs && "roofCost" !in inputs && "acCost" !in inputs && "otherRepair" !in inputs
    ensures TotalRepair(inputs, subjectSqft) == 0
  {
    var f := FormOf(inputs);
    assert f.rate == 0.0 && f.roofCost == 0.0 && f.acCost == 0.0 && f.otherRepair == 0.0;
    assert RepairSum(f, NumberOrZero(subjectSqft)) == 0.0;
  }

  predicate NonNegative(f: RepairForm) {
    f.rate >= 0.0 && f.roofCost >= 0.0 && f.acCost >= 0.0 && f.otherRepair >= 0.0
  }

  /** Non-negative amounts and area give a non-negative total, and the buffer never lowers it. */
  lemma TotalIsNonNegative(f: RepairForm, sqft: real)
    requires NonNegative(f) && sqft >= 0.0
    ensures Total(f, sqft) >= 0
    ensures Total(f.(addBuffer := true), sqft) >= Total(f.(addBuffer := false), sqft)
  {
    var sum := RepairSum(f, sqft);
    assert f.rate * sqft >= 0.0;
    assert sum >= 0.0;
    assert RepairSum(f.(addBuffer := true), sqft) == sum == RepairSum(f.(addBuffer := false), sqft);
    RoundIsMonotone(sum, sum * BufferFactor);
  }

  /** The effect that copies the total into the MAO inputs: only a non-negative total is sent. */
  function RepairsUpdate(total: int): (r: Option<Object>)
    ensures r.Some? <==> total >= 0
    ensures r.Some? ==> r.value == map["estimatedRepairs" := Num(total as real)]
  {
    if total >= 0 then Some(map["estimatedRepairs" := Num(total as real)]) else None
  }

  /** `squareFootage ?? square_footage ?? sqft ?? 0` on the selected property. */
  function SubjectSqft(property: Value): (r: Value)
    ensures !Nullish(Prop(property, "squareFootage")) ==> r == Prop(property, "squareFootage")
    ensures Nullish(Prop(property, "squareFootage")) && !Nullish(Prop(property, "square_footage")) ==>
      r == Prop(property, "square_footage")
    ensures Nullish(Prop(property, "squareFootage")) && Nullish(Prop(property, "square_footage")) ==>
      !Nullish(Prop(property, "sqft")) ==> r == Prop(property, "sqft")
    ensures Nullish(Prop(property, "squareFootage")) && Nullish(Prop(property, "square_footage")) ==>
      Nullish(Prop(property, "sqft")) ==> r == Num(0.0)
    ensures !Nullish(r)
    ensures r == Prop(property, "squareFootage") || r == Prop(property, "square_footage")
         || r == Prop(property, "sqft") || r == Num(0.0)
  {
    var vs := [Prop(property, "squareFootage"), Prop(property, "square_footage"), Prop(property, "sqft"), Num(0.0)];
    assert Coalesce(vs) == (if !Nullish(vs[0]) then vs[0] else Coalesce(vs[1..]));
    assert Coalesce(vs[1..]) == (if !Nullish(vs[1]) then vs[1] else Coalesce(vs[2..]));
    assert Coalesce(vs[2..]) == (if !Nullish(vs[2]) then vs[2] else Coalesce(vs[3..]));
    Coalesce(vs)
  }

  /** `??` keeps a recorded zero: a property whose `squareFootage` is 0 has 0 square feet even
      when another field names a different area. */
  lemma RecordedZeroIsKept(property: Value)
    requires Prop(property, "squareFootage") == Num(0.0)
    ensures SubjectSqft(property) == Num(0.0)
  {
  }

  // ---------------------------------------------------------------------------
  // selection

  const MaxComps: nat := AnalysisRun.MaxComps

  predicate CanAnalyze(count: nat) { 1 <= count <= MaxComps }

  predicate MinWarning(count: nat) { count < 3 }

  predicate MaxWarning(count: nat) { count > MaxComps }

  datatype Tone = Green | Yellow | Red

  /** The colour of the "n of 5 selected" badge. */
  function SelectionTone(count: nat): (r: Tone)
    ensures r == Green <==> CanAnalyze(count)
    ensures r == Yellow <==> count == 0
    ensures r == Red <==> MaxWarning(count)
  {
    if CanAnalyze(count) then Green else if MinWarning(count) then Yellow else Red
  }

  /** The panel's check agrees with the run's: with a property id, a run starts exactly when the
      panel would let the user analyze. */
  lemma CanAnalyzeMatchesRun(property: Value, ids: seq<string>, maoInputs: Object)
    requires Truthy(AnalysisRun.PropertyId(property))
    ensures AnalysisRun.StartRun(property, Some(ids), maoInputs).Started? <==> CanAnalyze(|ids|)
    ensures AnalysisRun.StartRun(property, Some(ids), maoInputs).Started? ==>
      (AnalysisRun.StartRun(property, Some(ids), maoInputs).warning.Some? <==> MinWarning(|ids|))
  {
  }

  /** What a checkbox click asks of the view. */
  datatype ToggleCall = NoCall | Call(compId: string, isSelected: bool)

  /** `handleToggle`: a selected comp is deselected; an unselected one is selected only while
      fewer than five are. */
  function HandleToggle(selected: seq<string>, compId: string): (r: ToggleCall)
    ensures compId in selected ==> r == Call(compId, false)
    ensures compId !in selected ==> (r.NoCall? <==> |selected| >= MaxComps)
    ensures r.Call? ==> r.compId == compId && (r.isSelected <==> compId !in selected)
  {
    if compId in selected then Call(compId, false)
    else if |selected| >= MaxComps then NoCall
    else Call(compId, true)
  }

  predicate NoDuplicates(ids: seq<string>) {
    forall i, j :: 0 <= i < j < |ids| ==> ids[i] != ids[j]
  }

  /** A click followed by the view's handler: the comp is removed when present, appended when
      absent and there is room, and the selection stays free of duplicates and within five. */
  function Click(selected: seq<string>, compId: string): (r: seq<string>)
    ensures compId in selected ==> r == AnalysisRun.Without(selected, compId)
    ensures compId !in selected && |selected| < MaxComps ==> r == selected + [compId]
    ensures compId !in selected && |selected| >= MaxComps ==> r == selected
  {
    match HandleToggle(selected, compId)
    case NoCall => selected
    case Call(id, isSelected) =>
      match AnalysisRun.ToggleComp(Some(selected), id, isSelected)
      case CapReached => selected
      case Dispatched(ids) => ids
  }

  lemma {:induction false} WithoutKeepsNoDuplicates(ids: seq<string>, x: string)
    requires NoDuplicates(ids)
    ensures NoDuplicates(AnalysisRun.Without(ids, x))
    decreases |ids|
  {
    if ids != [] {
      assert NoDuplicates(ids[1..]) by {
        forall i, j | 0 <= i < j < |ids[1..]|
          ensures ids[1..][i] != ids[1..][j]
        {
          assert ids[1..][i] == ids[i + 1] && ids[1..][j] == ids[j + 1];
        }
      }
      WithoutKeepsNoDuplicates(ids[1..], x);
      AnalysisRun.WithoutKeepsOthers(ids[1..], x);
      var rest := AnalysisRun.Without(ids[1..], x);
      if ids[0] != x {
        assert ids[0] !in ids[1..] by {
          forall j | 0 <= j < |ids[1..]|
            ensures ids[1..][j] != ids[0]
          {
            assert ids[1..][j] == ids[j + 1];
          }
        }
        assert ids[0] !in rest;
        var r := [ids[0]] + rest;
        assert AnalysisRun.Without(ids, x) == r;
        forall i, j | 0 <= i < j < |r|
          ensures r[i] != r[j]
        {
          if i == 0 {
            assert r[j] == rest[j - 1];
          } else {
            assert r[i] == rest[i - 1] && r[j] == rest[j - 1];
          }
        }
      }
    }
  }

  /** Clicking keeps the selection free of duplicates and within five. */
  lemma ClickKeepsSelectionWellFormed(selected: seq<string>, compId: string)
    requires NoDuplicates(selected) && |selected| <= MaxComps
    ensures NoDuplicates(Click(selected, compId)) && |Click(selected, compId)| <= MaxComps
  {
    if compId in selected {
      WithoutKeepsNoDuplicates(selected, compId);
    }
  }

  /** Two clicks on a comp that was not selected (with room for it) give the selection back. */
  lemma ClickTwiceRestores(selected: seq<string>, compId: string)
    requires compId !in selected && |selected| < MaxComps
    ensures Click(Click(selected, compId), compId) == selected
  {
    AnalysisRun.WithoutAppend(selected, compId);
  }
}
