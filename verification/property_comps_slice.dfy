/** The property-comps store slice: its initial state, the merging and replacing reducers and
    the reset. Every sub-record is an object; `{ ...old, ...payload }` is `Spread`. */
module PropertyCompsSlice {
  import opened JsValues

  datatype State = State(
    searchFilters: Object,
    searchResults: Object,
    selectedProperty: Value,
    analysis: Object,
    imageAnalyses: Object,
    comparables: Object,
    selectedCompIds: Value,
    maoInputs: Object)

  /** The search filters the store knows. */
  const FilterKeys: set<string> := {
    "areaName", "city", "state", "postalCode", "beds", "baths", "sqft", "minPrice", "maxPrice",
    "propertyType"}

  /** Every filter empty, as the initial state lists them. */
  const EmptyFilters: Object := map[
    "areaName" := Str(""), "city" := Str(""), "state" := Str(""), "postalCode" := Str(""),
    "beds" := Str(""), "baths" := Str(""), "sqft" := Str(""), "minPrice" := Str(""),
    "maxPrice" := Str(""), "propertyType" := Str("")]

  const EmptyResults: Object := map[
    "properties" := Arr([]), "loading" := Bool(false), "error" := Null, "noResults" := Bool(false),
    "count" := Num(0.0)]

  const EmptyAnalysis: Object := map["loading" := Bool(false), "error" := Null, "data" := Null]

  const EmptyImageAnalyses: Object := map["data" := Arr([]), "loading" := Bool(false), "error" := Null]

  const EmptyComparables: Object := map[
    "data" := Arr([]), "loading" := Bool(false), "error" := Null, "count" := Num(0.0)]

  /** The MAO inputs the store starts with: no amounts and the 70% rule. */
  const InitialMaoInputs: Object := map[
    "estimatedRepairs" := Num(0.0), "holdingCost" := Num(0.0), "closingCost" := Num(0.0),
    "wholesaleFee" := Num(0.0), "maoRule" := Str("70%")]

  const Initial: State := State(
    EmptyFilters, EmptyResults, Null, EmptyAnalysis, EmptyImageAnalyses, EmptyComparables,
    Arr([]), InitialMaoInputs)

  /** The slice's actions. Merging actions carry an object literal, as every caller passes. */
  datatype Action =
    | SetSearchFilters(payload: Object)
    | SetSearchResults(payload: Object)
    | SetSelectedProperty(value: Value)
    | SetAnalysis(payload: Object)
    | SetImageAnalyses(payload: Object)
    | SetMaoInputs(payload: Object)
    | SetComparables(payload: Object)
    | SetSelectedCompIds(value: Value)
    | ResetPropertyComps

  datatype Field =
    | SearchFilters | SearchResults | SelectedProperty | Analysis | ImageAnalyses | Comparables
    | SelectedCompIds | MaoInputs

  /** A top-level field of the state, as a value. */
  function FieldOf(s: State, f: Field): Value {
    match f
    case SearchFilters => Obj(s.searchFilters)
    case SearchResults => Obj(s.searchResults)
    case SelectedProperty => s.selectedProperty
    case Analysis => Obj(s.analysis)
    case ImageAnalyses => Obj(s.imageAnalyses)
    case Comparables => Obj(s.comparables)
    case SelectedCompIds => s.selectedCompIds
    case MaoInputs => Obj(s.maoInputs)
  }

  /** The field a `set*` action writes. */
  function Target(a: Action): Field
    requires !a.ResetPropertyComps?
  {
    match a
    case SetSearchFilters(_) => SearchFilters
    case SetSearchResults(_) => SearchResults
    case SetSelectedProperty(_) => SelectedProperty
    case SetAnalysis(_) => Analysis
    case SetImageAnalyses(_) => ImageAnalyses
    case SetMaoInputs(_) => MaoInputs
    case SetComparables(_) => Comparables
    case SetSelectedCompIds(_) => SelectedCompIds
  }

  /** The reducer. */
  function Reduce(s: State, a: Action): (r: State)
    ensures a.SetSelectedProperty? ==> r.selectedProperty == a.value
    ensures a.SetSelectedCompIds? ==> r.selectedCompIds == a.value
    ensures a.ResetPropertyComps? ==> r.maoInputs == s.maoInputs
  {
    match a
    case SetSearchFilters(p) => s.(searchFilters := Spread(s.searchFilters, p))
    case SetSearchResults(p) => s.(searchResults := Spread(s.searchResults, p))
    case SetSelectedProperty(v) => s.(selectedProperty := v)
    case SetAnalysis(p) => s.(analysis := Spread(s.analysis, p))
    case SetImageAnalyses(p) => s.(imageAnalyses := Spread(s.imageAnalyses, p))
    case SetMaoInputs(p) => s.(maoInputs := Spread(s.maoInputs, p))
    case SetComparables(p) => s.(comparables := Spread(s.comparables, p))
    case SetSelectedCompIds(v) => s.(selectedCompIds := v)
    case ResetPropertyComps =>
      // The reset writes its own literals, field by field, and leaves maoInputs alone.
      s.(
        searchFilters := map[
          "areaName" := Str(""), "city" := Str(""), "state" := Str(""), "postalCode" := Str(""),
          "beds" := Str(""), "baths" := Str(""), "sqft" := Str(""), "minPrice" := Str(""),
          "maxPrice" := Str(""), "propertyType" := Str("")],
        searchResults := map[
          "properties" := Arr([]), "loading" := Bool(false), "error" := Null,
          "noResults" := Bool(false), "count" := Num(0.0)],
        selectedProperty := Null,
        analysis := map["loading" := Bool(false), "error" := Null, "data" := Null],
        imageAnalyses := map["data" := Arr([]), "loading" := Bool(false), "error" := Null],
        comparables := map["data" := Arr([]), "loading" := Bool(false), "error" := Null, "count" := Num(0.0)],
        selectedCompIds := Arr([]))
  }

  /** Every `set*` action changes its own field and no other. */
  lemma OnlyTargetChanges(s: State, a: Action, f: Field)
    requires !a.ResetPropertyComps? && f != Target(a)
    ensures FieldOf(Reduce(s, a), f) == FieldOf(s, f)
  {
  }

  predicate IsMerge(a: Action) {
    a.SetSearchFilters? || a.SetSearchResults? || a.SetAnalysis? || a.SetImageAnalyses?
    || a.SetMaoInputs? || a.SetComparables?
  }

  /** A merging action spreads its payload over its own sub-record, so it overwrites exactly
      the payload's keys and keeps the others. */
  lemma MergeSpreads(s: State, a: Action)
    requires IsMerge(a)
    ensures FieldOf(s, Target(a)).Obj?
    ensures FieldOf(Reduce(s, a), Target(a)) == Obj(Spread(FieldOf(s, Target(a)).fields, a.payload))
  {
    match a
    case SetSearchFilters(p) => assert Reduce(s, a).searchFilters == Spread(s.searchFilters, p);
    case SetSearchResults(p) => assert Reduce(s, a).searchResults == Spread(s.searchResults, p);
    case SetAnalysis(p) => assert Reduce(s, a).analysis == Spread(s.analysis, p);
    case SetImageAnalyses(p) => assert Reduce(s, a).imageAnalyses == Spread(s.imageAnalyses, p);
    case SetMaoInputs(p) => assert Reduce(s, a).maoInputs == Spread(s.maoInputs, p);
    case SetComparables(p) => assert Reduce(s, a).comparables == Spread(s.comparables, p);
  }

  /** A replacing action installs its value whole. */
  lemma ReplaceInstalls(s: State, a: Action)
    requires !a.ResetPropertyComps? && !IsMerge(a)
    ensures FieldOf(Reduce(s, a), Target(a)) == a.value
  {
  }

  /** Dispatching the same action twice is dispatching it once. */
  lemma ReduceIsIdempotent(s: State, a: Action)
    ensures Reduce(Reduce(s, a), a) == Reduce(s, a)
  {
    match a
    case SetSearchFilters(p) => SpreadIdempotent(s.searchFilters, p);
    case SetSearchResults(p) => SpreadIdempotent(s.searchResults, p);
    case SetAnalysis(p) => SpreadIdempotent(s.analysis, p);
    case SetImageAnalyses(p) => SpreadIdempotent(s.imageAnalyses, p);
    case SetMaoInputs(p) => SpreadIdempotent(s.maoInputs, p);
    case SetComparables(p) => SpreadIdempotent(s.comparables, p);
    case _ =>
  }

  /** The reset brings back the initial state except the MAO inputs, which it leaves as they are. */
  lemma ResetKeepsMaoInputs(s: State)
    ensures Reduce(s, ResetPropertyComps) == Initial.(maoInputs := s.maoInputs)
    ensures forall f :: f != MaoInputs ==> FieldOf(Reduce(s, ResetPropertyComps), f) == FieldOf(Initial, f)
  {
  }

  /** Starting from the initial state, a reset changes nothing. */
  lemma ResetOfInitial()
    ensures Reduce(Initial, ResetPropertyComps) == Initial
  {
  }
}
