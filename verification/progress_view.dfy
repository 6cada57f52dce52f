/** What the progress screen derives from the progress record: the status of every step in
    the fixed step order, which steps are listed and with what label, and the current-step
    banner. */
module ProgressView {
  import opened Wrappers
  import opened JsText
  import opened JsValues
  import AnalysisRun
  import AnalysisStream

  /** The twelve steps of a run, in the order the server reports them. */
  const StepOrder: seq<string> := [
    "subject_prep", "subject_images", "subject_done", "comp", "repairs", "repairs_done",
    "arv", "arv_done", "mao", "mao_done", "deal_score", "complete"]

  const CompStep: string := "comp"

  /** `STEP_LABELS[step]` for the known steps. */
  function StepLabel(step: string): (r: Option<string>)
    ensures r.Some? <==> step in StepOrder
  {
    if step == "subject_prep" then Some("Preparing subject property")
    else if step == "subject_images" then Some("Analyzing subject property images (AI)")
    else if step == "subject_done" then Some("Subject property ready")
    else if step == "comp" then Some("Analyzing comparables")
    else if step == "repairs" then Some("Calculating repair estimates")
    else if step == "repairs_done" then Some("Repair estimates calculated")
    else if step == "arv" then Some("Calculating After Repair Value (ARV)")
    else if step == "arv_done" then Some("ARV calculated")
    else if step == "mao" then Some("Calculating Max Allowable Offer (MAO)")
    else if step == "mao_done" then Some("MAO calculated")
    else if step == "deal_score" then Some("Calculating deal score & recommendation")
    else if step == "complete" then Some("Analysis complete")
    else None
  }

  /** `xs.indexOf(x)`: the first position holding `x`, or -1. */
  function IndexOf<T(==)>(xs: seq<T>, x: T): (r: int)
    ensures -1 <= r < |xs|
    ensures r == -1 <==> x !in xs
    ensures r >= 0 ==> xs[r] == x && x !in xs[..r]
  {
    if xs == [] then -1
    else if xs[0] == x then 0
    else
      var r := IndexOf(xs[1..], x);
      assert xs[1..] == xs[1..];
      if r == -1 then -1
      else
        assert xs[..r + 1] == [xs[0]] + xs[1..][..r];
        r + 1
  }

  /** `STEP_ORDER.indexOf(v)`: strict equality, so only a string can be found. */
  function StepIndex(v: Value): (r: int)
    ensures -1 <= r < |StepOrder|
    ensures r >= 0 ==> v == Str(StepOrder[r])
  {
    if v.Str? then IndexOf(StepOrder, v.s) else -1
  }

  lemma StepOrderIsDistinct()
    ensures forall i, j :: 0 <= i < j < |StepOrder| ==> StepOrder[i] != StepOrder[j]
  {
  }

  /** Every step is found at its own position. */
  lemma StepIndexOfStep(k: nat)
    requires k < |StepOrder|
    ensures StepIndex(Str(StepOrder[k])) == k
  {
    StepOrderIsDistinct();
    var r := IndexOf(StepOrder, StepOrder[k]);
    assert StepOrder[k] !in StepOrder[..r];
  }

  datatype Status = Done | Active | Pending

  /** `getStepStatus`: done when the step comes strictly before the current one, active when it
      is the current one, pending otherwise. */
  function StepStatus(step: string, currentStep: Value): (r: Status)
    ensures r == Active ==> currentStep == Str(step)
    ensures StepIndex(currentStep) == -1 ==> r != Done
    ensures step in StepOrder && currentStep == Str(step) ==> r == Active
    ensures step !in StepOrder && StepIndex(currentStep) >= 0 ==> r == Done
  {
    if IndexOf(StepOrder, step) < StepIndex(currentStep) then Done
    else if Str(step) == currentStep then Active
    else Pending
  }

  /** The status of every step, in step order. */
  function Statuses(currentStep: Value): (r: seq<Status>)
    ensures |r| == |StepOrder|
  {
    seq(|StepOrder|, k requires 0 <= k < |StepOrder| => StepStatus(StepOrder[k], currentStep))
  }

  /** With a known current step the statuses follow position alone: done before it, active on
      it, pending after it. */
  lemma StatusByPosition(c: nat, k: nat)
    requires c < |StepOrder| && k < |StepOrder|
    ensures StepStatus(StepOrder[k], Str(StepOrder[c])) == if k < c then Done else if k == c then Active else Pending
  {
    StepIndexOfStep(c);
    StepIndexOfStep(k);
    StepOrderIsDistinct();
  }

  /** Along the step order the statuses read done ... done, active, pending ... pending. */
  lemma StatusesWhenKnown(c: nat)
    requires c < |StepOrder|
    ensures Statuses(Str(StepOrder[c])) == seq(c, _ => Done) + [Active] + seq(|StepOrder| - c - 1, _ => Pending)
    ensures forall k :: 0 <= k < |StepOrder| ==> (Statuses(Str(StepOrder[c]))[k] == Active <==> k == c)
  {
    var r := Statuses(Str(StepOrder[c]));
    var want := seq(c, _ => Done) + [Active] + seq(|StepOrder| - c - 1, _ => Pending);
    forall k | 0 <= k < |StepOrder|
      ensures r[k] == want[k]
    {
      StatusByPosition(c, k);
    }
  }

  /** A current step that is null, not a string or not a known step leaves every step pending. */
  lemma StatusesWhenUnknown(currentStep: Value)
    requires !(currentStep.Str? && currentStep.s in StepOrder)
    ensures forall k :: 0 <= k < |StepOrder| ==> Statuses(currentStep)[k] == Pending
  {
    forall k | 0 <= k < |StepOrder|
      ensures Statuses(currentStep)[k] == Pending
    {
      assert StepIndex(currentStep) == -1;
      assert IndexOf(StepOrder, StepOrder[k]) >= 0;
    }
  }

  /** Once a run has completed every step but the last is done and the last is active. */
  lemma CompletedRunStatuses()
    ensures Statuses(Str(AnalysisRun.CompleteStep)) == seq(|StepOrder| - 1, _ => Done) + [Active]
  {
    StatusesWhenKnown(|StepOrder| - 1);
    assert StepOrder[|StepOrder| - 1] == AnalysisRun.CompleteStep;
  }

  // ---------------------------------------------------------------------------
  // the step list

  /** `steps.some(e => e.step === "comp")`. */
  predicate HasCompEvent(steps: seq<Value>) {
    exists i :: 0 <= i < |steps| && Prop(steps[i], "step") == Str(CompStep)
  }

  /** The listed steps: the step order, without "comp" until a comp event has arrived. */
  function ListedSteps(steps: seq<Value>): (r: seq<string>)
    ensures forall s :: s in r <==> s in StepOrder && (s != CompStep || HasCompEvent(steps))
    ensures HasCompEvent(steps) ==> r == StepOrder
    ensures !HasCompEvent(steps) ==>
      && StepOrder[3] == CompStep && |r| == |StepOrder| - 1
      && forall k :: 0 <= k < |r| ==> r[k] == StepOrder[if k < 3 then k else k + 1]
  {
    if HasCompEvent(steps) then StepOrder else StepOrder[..3] + StepOrder[4..]
  }

  /** The listed steps keep the step order: dropping "comp" removes exactly one entry. */
  lemma ListedStepsLength(steps: seq<Value>)
    ensures |ListedSteps(steps)| == if HasCompEvent(steps) then |StepOrder| else |StepOrder| - 1
  {
  }

  /** A listed row: its status, its badge and its label. */
  datatype Row = Row(step: string, status: Status, badge: string, caption: string)

  /** The comp row names the comparable in work once both counters are known. */
  function RowLabel(step: string, compIndex: Value, compTotal: Value): (r: string)
    requires step in StepOrder
    ensures r != StepLabel(step).value <==> step == CompStep && !Nullish(compIndex) && !Nullish(compTotal)
    ensures step == CompStep && !Nullish(compIndex) && !Nullish(compTotal) ==>
      r == "Analyzing comparables (" + ToJsString(compIndex) + " of " + ToJsString(compTotal) + ")"
  {
    if step == CompStep && !Nullish(compIndex) && !Nullish(compTotal) then
      var r := "Analyzing comparables (" + ToJsString(compIndex) + " of " + ToJsString(compTotal) + ")";
      assert r[|r| - 1] == ')';
      r
    else StepLabel(step).value
  }

  /** With whole-number counters the comp row reads the two counters in decimal, index first. */
  lemma CompRowReadsCounters(i: nat, n: nat)
    requires (i as real) < Big && (n as real) < Big
    ensures RowLabel(CompStep, Num(i as real), Num(n as real))
      == "Analyzing comparables (" + NatToString(i) + " of " + NatToString(n) + ")"
  {
    IntegerText(i);
    IntegerText(n);
  }

  /** The second of five comparables. */
  lemma SecondOfFive()
    ensures RowLabel(CompStep, Num(2.0), Num(5.0)) == "Analyzing comparables (2 of 5)"
  {
    CompRowReadsCounters(2, 5);
    assert NatToString(2) == "2" && NatToString(5) == "5";
  }

  /** The row of a listed step: a check mark once done, otherwise its 1-based position. */
  function RowOf(step: string, p: AnalysisRun.Progress): (r: Row)
    requires step in StepOrder
    ensures r.status == StepStatus(step, p.currentStep)
    ensures r.status == Done <==> r.badge == "✓"
  {
    var status := StepStatus(step, p.currentStep);
    var badge := if status == Done then "✓" else NatToString(IndexOf(StepOrder, step) + 1);
    assert NatToString(IndexOf(StepOrder, step) + 1) != "✓" by {
      assert IsDigit(NatToString(IndexOf(StepOrder, step) + 1)[0]);
    }
    Row(step, status, badge, RowLabel(step, p.compIndex, p.compTotal))
  }

  // ---------------------------------------------------------------------------
  // the banner

  /** The current-step banner: the comparable in work, or the step's label with the amount the
      step has just produced. */
  datatype Banner =
    | CompBanner(index: Value, total: Value, address: Value)
    | StepBanner(caption: Value, amount: Option<Value>)

  /** `STEP_LABELS[currentStep] || currentStep`. Property names are strings, so a non-string
      step is looked up by its text. */
  function BannerLabel(currentStep: Value): (r: Value)
    ensures currentStep.Str? && currentStep.s in StepOrder ==> r == Str(StepLabel(currentStep.s).value)
  {
    match StepLabel(ToJsString(currentStep))
    case Some(text) => Str(text)
    case None => currentStep
  }

  /** The amount shown next to a "done" step, when the matching figure is not null. */
  function BannerAmount(p: AnalysisRun.Progress): (r: Option<Value>)
    ensures r.Some? <==>
      (p.currentStep == Str("arv_done") && !Nullish(p.arv))
      || (p.currentStep == Str("mao_done") && !Nullish(p.mao))
      || (p.currentStep == Str("repairs_done") && !Nullish(p.estimatedRepairs))
    ensures r.Some? ==> r.value in {p.arv, p.mao, p.estimatedRepairs} && !Nullish(r.value)
  {
    if p.currentStep == Str("arv_done") && !Nullish(p.arv) then Some(p.arv)
    else if p.currentStep == Str("mao_done") && !Nullish(p.mao) then Some(p.mao)
    else if p.currentStep == Str("repairs_done") && !Nullish(p.estimatedRepairs) then Some(p.estimatedRepairs)
    else None
  }

  /** The banner is hidden once the run is complete or before anything is known; it names the
      comparable only during the comp step with a truthy comparable. */
  function BannerOf(p: AnalysisRun.Progress): (r: Option<Banner>)
    ensures r.Some? <==> (Truthy(p.compBeingAnalyzed) || Truthy(p.currentStep)) && !p.isComplete
    ensures r.Some? && r.value.CompBanner? <==>
      r.Some? && p.currentStep == Str(CompStep) && Truthy(p.compBeingAnalyzed)
    ensures r.Some? && r.value.CompBanner? ==> r.value.address == p.compBeingAnalyzed
  {
    if (Truthy(p.compBeingAnalyzed) || Truthy(p.currentStep)) && !p.isComplete then
      if p.currentStep == Str(CompStep) && Truthy(p.compBeingAnalyzed) then
        Some(CompBanner(p.compIndex, p.compTotal, p.compBeingAnalyzed))
      else Some(StepBanner(BannerLabel(p.currentStep), BannerAmount(p)))
    else None
  }

  /** `subjectAddress || "—"`. */
  function SubjectLine(p: AnalysisRun.Progress): (r: Value)
    ensures Truthy(r)
  {
    if Truthy(p.subjectAddress) then p.subjectAddress else Str("—")
  }

  /** A settled complete run hides the banner. */
  lemma CompletedRunHidesBanner(p: AnalysisRun.Progress, outcome: AnalysisStream.Outcome)
    requires AnalysisRun.Completes(outcome)
    ensures BannerOf(AnalysisRun.Settle(p, outcome).progress).None?
  {
  }
}
