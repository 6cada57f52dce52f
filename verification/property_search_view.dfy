/** The property search page: the search run on a submitted form, the adjusted search the
    results panel reports back, choosing a property, and the results shown again on return to
    the page. The address lookup's answer, the uploaded subject photos and the browser storage
    codec are parameters. */
module PropertySearchView {
  import opened Wrappers
  import opened JsText
  import opened JsValues
  import PropertyCompsSlice
  import LocalStorage
  import PropertySearchForm

  /** The store, the results shown on the page, and the filters of the last search. */
  datatype View = View(store: PropertyCompsSlice.State, results: seq<Value>, originalFilters: Value)

  /** The answer of the address lookup: the unwrapped response, or the error it threw. */
  datatype Lookup = Responded(response: Value) | Threw(error: Value)

  const SearchFailed: string := "Search failed"

  /** A search-results payload; every one the page dispatches has these five fields. */
  function ResultsPayload(properties: seq<Value>, loading: bool, error: Value, noResults: bool, count: nat): (r: Object)
    ensures r.Keys == PropertyCompsSlice.EmptyResults.Keys
    ensures r["properties"] == Arr(properties) && r["count"] == Num(count as real)
    ensures r["loading"] == Bool(loading) && r["error"] == error && r["noResults"] == Bool(noResults)
  {
    map["properties" := Arr(properties), "loading" := Bool(loading), "error" := error,
        "noResults" := Bool(noResults), "count" := Num(count as real)]
  }

  /** `response.success && response.property`. */
  predicate Found(lookup: Lookup) {
    lookup.Responded? && Truthy(Prop(lookup.response, "success")) && Truthy(Prop(lookup.response, "property"))
  }

  /** The message filed for a failed lookup: `error.data?.message || error.data?.error ||
      "Search failed"`. A null response throws on `response.success`, and that TypeError has no
      `data`. */
  function FailureMessage(lookup: Lookup): (r: Value)
    requires lookup.Threw? || Nullish(lookup.response)
    ensures lookup.Responded? ==> r == Str(SearchFailed)
    ensures Truthy(r) && (r == Str(SearchFailed) || r == Prop(Prop(lookup.error, "data"), "message") || r == Prop(Prop(lookup.error, "data"), "error"))
  {
    if lookup.Responded? then Str(SearchFailed)
    else OrChain([Prop(Prop(lookup.error, "data"), "message"), Prop(Prop(lookup.error, "data"), "error"), Str(SearchFailed)])
  }

  /** The final payload and shown results of a search past the address check: the found
      property alone, or nothing with `noResults` set and, when the lookup failed, its message. */
  function Settle(lookup: Lookup): (r: (Object, seq<Value>))
    ensures r.0.Keys == PropertyCompsSlice.EmptyResults.Keys
    ensures r.0["properties"] == Arr(r.1) && r.0["count"] == Num(|r.1| as real) && r.0["loading"] == Bool(false)
    ensures r.0["noResults"] == Bool(!Found(lookup))
    ensures |r.1| > 0 <==> Found(lookup)
    ensures Found(lookup) ==> r.1 == [Prop(lookup.response, "property")]
    ensures Truthy(r.0["error"]) <==> lookup.Threw? || Nullish(lookup.response)
  {
    if lookup.Threw? || Nullish(lookup.response) then
      (ResultsPayload([], false, FailureMessage(lookup), true, 0), [])
    else if Found(lookup) then
      var properties := [Prop(lookup.response, "property")];
      (ResultsPayload(properties, false, Null, false, |properties|), properties)
    else (ResultsPayload([], false, Null, true, 0), [])
  }

  /** The payload filed when the search starts. */
  const LoadingPayload: Object := ResultsPayload([], true, Null, false, 0)

  /** The payload filed for a blank address. */
  const BlankPayload: Object := ResultsPayload([], false, Str(PropertySearchForm.AddressRequired), true, 0)

  /** The loading payload is wholly overwritten by the payload that follows it. */
  lemma LoadingIsOverwritten(store: PropertyCompsSlice.State, payload: Object)
    requires payload.Keys == PropertyCompsSlice.EmptyResults.Keys
    ensures PropertyCompsSlice.Reduce(PropertyCompsSlice.Reduce(store, PropertyCompsSlice.SetSearchResults(LoadingPayload)), PropertyCompsSlice.SetSearchResults(payload))
      == store.(searchResults := Spread(store.searchResults, payload))
  {
    assert Spread(Spread(store.searchResults, LoadingPayload), payload) == Spread(store.searchResults, payload);
  }

  /** `handleSearch(filters)`: the filters are remembered and a loading payload filed; a blank
      address files the "Address is required" payload and leaves the shown results alone;
      otherwise the lookup's answer decides the payload and the shown results. */
  function Search(v: View, filters: map<string, string>, lookup: Lookup): (r: View)
    ensures r.originalFilters == Obj(PropertySearchForm.AsObject(filters))
    ensures PropertySearchForm.Blank(filters) ==>
      && r.results == v.results
      && r.store == v.store.(searchResults := Spread(v.store.searchResults, BlankPayload))
    ensures !PropertySearchForm.Blank(filters) ==>
      && r.results == Settle(lookup).1
      && r.store == v.store.(searchResults := Spread(v.store.searchResults, Settle(lookup).0))
  {
    var loading := PropertyCompsSlice.Reduce(v.store, PropertyCompsSlice.SetSearchResults(LoadingPayload));
    var filed := Obj(PropertySearchForm.AsObject(filters));
    if PropertySearchForm.Blank(filters) then
      LoadingIsOverwritten(v.store, BlankPayload);
      View(PropertyCompsSlice.Reduce(loading, PropertyCompsSlice.SetSearchResults(BlankPayload)), v.results, filed)
    else
      var (payload, shown) := Settle(lookup);
      LoadingIsOverwritten(v.store, payload);
      View(PropertyCompsSlice.Reduce(loading, PropertyCompsSlice.SetSearchResults(payload)), shown, filed)
  }

  /** `handleAdjustedSearch(properties)`: the adjusted results are filed and shown. */
  function AdjustedSearch(v: View, properties: seq<Value>): (r: View)
    ensures r.results == properties && r.originalFilters == v.originalFilters
  {
    var payload := ResultsPayload(properties, false, Null, false, |properties|);
    View(PropertyCompsSlice.Reduce(v.store, PropertyCompsSlice.SetSearchResults(payload)), properties, v.originalFilters)
  }

  /** The results panel is shown while there are results to show. */
  predicate PanelShown(v: View) {
    |v.results| > 0
  }

  /** The page after every search or adjusted search: the store holds what is shown, counted,
      with loading over. */
  predicate Settled(v: View) {
    && v.store.searchResults.Keys >= PropertyCompsSlice.EmptyResults.Keys
    && v.store.searchResults["properties"] == Arr(v.results)
    && v.store.searchResults["count"] == Num(|v.results| as real)
    && v.store.searchResults["loading"] == Bool(false)
  }

  /** The store change of a search is confined to the search results, which end with loading
      over; only the other fields of the results record survive from before. */
  lemma SearchFilesOnlyResults(v: View, filters: map<string, string>, lookup: Lookup)
    ensures var r := Search(v, filters, lookup);
      && r.store == v.store.(searchResults := r.store.searchResults)
      && r.store.searchResults.Keys == v.store.searchResults.Keys + PropertyCompsSlice.EmptyResults.Keys
      && r.store.searchResults["loading"] == Bool(false)
      && (forall k :: k in v.store.searchResults && k !in PropertyCompsSlice.EmptyResults ==> r.store.searchResults[k] == v.store.searchResults[k])
  {
  }

  /** A search past the address check leaves the page settled: the store's list is the shown
      list, and its count is that list's length. */
  lemma SearchSettles(v: View, filters: map<string, string>, lookup: Lookup)
    requires !PropertySearchForm.Blank(filters)
    ensures Settled(Search(v, filters, lookup))
  {
  }

  /** The outcome of a search past the address check: results exactly when the lookup found
      the property (then that one property), `noResults` otherwise, and an error message only
      when the lookup failed. */
  lemma SearchOutcome(v: View, filters: map<string, string>, lookup: Lookup)
    requires !PropertySearchForm.Blank(filters)
    ensures var r := Search(v, filters, lookup);
      && (PanelShown(r) <==> Found(lookup))
      && (Found(lookup) ==> r.results == [Prop(lookup.response, "property")])
      && r.store.searchResults["noResults"] == Bool(!Found(lookup))
      && (Truthy(r.store.searchResults["error"]) <==> lookup.Threw? || Nullish(lookup.response))
  {
  }

  /** A blank address never reaches the lookup: whatever it would answer, the store records
      the error and no results, and the shown results stay as they were. */
  lemma BlankAddressSkipsLookup(v: View, filters: map<string, string>, lookup: Lookup, other: Lookup)
    requires PropertySearchForm.Blank(filters)
    ensures Search(v, filters, lookup) == Search(v, filters, other)
    ensures var r := Search(v, filters, lookup);
      && r.results == v.results
      && r.store.searchResults["error"] == Str(PropertySearchForm.AddressRequired)
      && r.store.searchResults["noResults"] == Bool(true)
      && r.store.searchResults["properties"] == Arr([])
  {
  }

  /** An adjusted search leaves the page settled, with the panel shown exactly when the adjusted
      search found something. */
  lemma AdjustedSearchSettles(v: View, properties: seq<Value>)
    ensures Settled(AdjustedSearch(v, properties))
    ensures PanelShown(AdjustedSearch(v, properties)) <==> |properties| > 0
    ensures AdjustedSearch(v, properties).store.searchResults["noResults"] == Bool(false)
  {
  }

  // ---------------------------------------------------------------------------
  // returning to the page

  /** The mount effect: results kept in the store are shown again when the list is non-empty. */
  function Mount(v: View): (r: View)
    ensures r.store == v.store && r.originalFilters == v.originalFilters
    ensures var p := Get(v.store.searchResults, "properties");
      r.results == if p.Arr? && |p.items| > 0 then p.items else v.results
  {
    var p := Get(v.store.searchResults, "properties");
    if p.Arr? && |p.items| > 0 then v.(results := p.items) else v
  }

  /** Coming back to a settled page (which starts with nothing shown and no filters) shows the
      same results again. */
  lemma ReturnShowsSameResults(v: View)
    requires Settled(v)
    ensures Mount(View(v.store, [], Null)).results == v.results
  {
  }

  /** A fresh store shows nothing on arrival. */
  lemma FreshStoreShowsNothing()
    ensures !PanelShown(Mount(View(PropertyCompsSlice.Initial, [], Null)))
  {
  }

  // ---------------------------------------------------------------------------
  // choosing a property

  /** The property filed on choosing one: with uploaded subject photos (a truthy `length`), the
      property's fields with both photo lists replaced by them; otherwise the property itself. */
  function WithUploads(property: Value, uploaded: Value): (r: Value)
    ensures !LengthTruthy(uploaded) ==> r == property
    ensures LengthTruthy(uploaded) ==>
      && r.Obj?
      && r.fields.Keys == OwnFields(property).Keys + {"uploadedImages", "images"}
      && r.fields["uploadedImages"] == uploaded && r.fields["images"] == uploaded
      && forall k :: k in OwnFields(property) && k != "uploadedImages" && k != "images" ==> r.fields[k] == OwnFields(property)[k]
  {
    if LengthTruthy(uploaded) then Obj(Spread(OwnFields(property), map["uploadedImages" := uploaded, "images" := uploaded]))
    else property
  }

  /** `handleSelectProperty(property)`: the property (with the uploads) is saved in the browser
      storage and filed as the store's selected property. */
  function SelectProperty(v: View, storage: LocalStorage.Store, property: Value, uploaded: Value, c: LocalStorage.Codec): (r: (View, LocalStorage.Store))
    ensures r.0.store == PropertyCompsSlice.Reduce(v.store, PropertyCompsSlice.SetSelectedProperty(WithUploads(property, uploaded)))
    ensures r.0.results == v.results
    ensures r.1 == LocalStorage.SaveSelectedProperty(storage, WithUploads(property, uploaded), c)
  {
    var chosen := WithUploads(property, uploaded);
    (v.(store := PropertyCompsSlice.Reduce(v.store, PropertyCompsSlice.SetSelectedProperty(chosen))),
     LocalStorage.SaveSelectedProperty(storage, chosen, c))
  }

  /** After choosing a property, the details page reads back from the browser storage what the
      store holds as selected. */
  lemma SelectionSurvivesReload(v: View, storage: LocalStorage.Store, property: Value, uploaded: Value, c: LocalStorage.Codec)
    requires Truthy(property) && LocalStorage.RoundTrips(c, WithUploads(property, uploaded))
    ensures var r := SelectProperty(v, storage, property, uploaded, c);
      LocalStorage.LoadSelectedProperty(r.1, c) == r.0.store.selectedProperty
  {
    var chosen := WithUploads(property, uploaded);
    assert Truthy(chosen);
    LocalStorage.SelectedPropertyRoundTrip(storage, chosen, c);
  }

  /** The store has no uploaded-photos field, so the page reads `undefined` there and the chosen
      property is filed as it came. */
  lemma NoUploadsKeepsProperty(v: View, storage: LocalStorage.Store, property: Value, c: LocalStorage.Codec)
    ensures SelectProperty(v, storage, property, Undefined, c).0.store.selectedProperty == property
  {
  }
}
