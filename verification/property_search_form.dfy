/** The property search form: one address field, an error message per field, typing into a
    field, and the submit that refuses a blank address or files the filters in the store and
    hands them to the page. */
module PropertySearchForm {
  import opened Wrappers
  import opened JsText
  import opened JsValues
  import PropertyCompsSlice

  const AddressKey: string := "address"
  const AddressRequired: string := "Address is required"

  /** The typed fields and the error shown under each (`null` once cleared). */
  datatype SearchForm = SearchForm(data: map<string, string>, errors: map<string, Value>)

  const Initial: SearchForm := SearchForm(map[AddressKey := ""], map[])

  /** `!address || address.trim().length === 0`: missing, empty or only whitespace. */
  predicate Blank(data: map<string, string>) {
    AddressKey !in data || Trim(data[AddressKey]) == []
  }

  /** The form data as the object the store and the page receive. */
  function AsObject(data: map<string, string>): (r: Object)
    ensures r.Keys == data.Keys
    ensures forall k :: k in data ==> r[k] == Str(data[k])
  {
    map k | k in data :: Str(data[k])
  }

  /** `handleChange`: the field takes the typed text, and its error is cleared when one is
      shown; other fields and errors are untouched. */
  function HandleChange(f: SearchForm, name: string, value: string): (r: SearchForm)
    ensures r.data == f.data[name := value]
    ensures !Truthy(Get(r.errors, name))
    ensures Truthy(Get(f.errors, name)) ==> r.errors == f.errors[name := Null]
    ensures !Truthy(Get(f.errors, name)) ==> r.errors == f.errors
  {
    SearchForm(f.data[name := value], if Truthy(Get(f.errors, name)) then f.errors[name := Null] else f.errors)
  }

  /** What a submit does: the form afterwards, the store action it dispatches and the filters it
      passes to the page's handler (None when it does neither). */
  datatype Submitted = Submitted(form: SearchForm, dispatched: Option<PropertyCompsSlice.Action>, passed: Option<map<string, string>>)

  /** `handleSubmit`. */
  function HandleSubmit(f: SearchForm, hasHandler: bool): (r: Submitted)
    ensures r.form.data == f.data
    ensures Blank(f.data) ==> r == Submitted(SearchForm(f.data, map[AddressKey := Str(AddressRequired)]), None, None)
    ensures !Blank(f.data) ==> r.form.errors == map[]
    ensures !Blank(f.data) ==> r.dispatched == Some(PropertyCompsSlice.SetSearchFilters(AsObject(f.data)))
    ensures !Blank(f.data) ==> (r.passed.Some? <==> hasHandler)
    ensures r.passed.Some? ==> r.passed.value == f.data
  {
    if Blank(f.data) then Submitted(SearchForm(f.data, map[AddressKey := Str(AddressRequired)]), None, None)
    else Submitted(SearchForm(f.data, map[]), Some(PropertyCompsSlice.SetSearchFilters(AsObject(f.data))), if hasHandler then Some(f.data) else None)
  }

  /** A submit goes through exactly when the address has a character other than whitespace. */
  lemma SubmitGoesThroughIff(f: SearchForm, hasHandler: bool)
    ensures HandleSubmit(f, hasHandler).dispatched.Some? <==>
      AddressKey in f.data && exists i :: 0 <= i < |f.data[AddressKey]| && !IsWhitespace(f.data[AddressKey][i])
    ensures HandleSubmit(f, hasHandler).dispatched.None? ==> Truthy(Get(HandleSubmit(f, hasHandler).form.errors, AddressKey))
  {
  }

  /** The untouched form is refused. */
  lemma InitialIsRefused(hasHandler: bool)
    ensures HandleSubmit(Initial, hasHandler).dispatched.None?
    ensures HandleSubmit(Initial, hasHandler).form.errors == map[AddressKey := Str(AddressRequired)]
  {
  }

  /** After a refused submit, typing into the address clears its message, and the other
      fields keep their text. */
  lemma RefusedThenTypedClearsMessage(f: SearchForm, hasHandler: bool, value: string)
    requires Blank(f.data)
    ensures var g := HandleChange(HandleSubmit(f, hasHandler).form, AddressKey, value);
      && !Truthy(Get(g.errors, AddressKey))
      && g.data == f.data[AddressKey := value]
  {
  }

  /** A submit that goes through files the typed address in the store's search filters, and keeps
      every filter the form does not carry. */
  lemma SubmitFilesFilters(s: PropertyCompsSlice.State, f: SearchForm, hasHandler: bool)
    requires !Blank(f.data)
    ensures var t := PropertyCompsSlice.Reduce(s, HandleSubmit(f, hasHandler).dispatched.value);
      && t.searchFilters[AddressKey] == Str(f.data[AddressKey])
      && (forall k :: k in s.searchFilters && k !in f.data ==> k in t.searchFilters && t.searchFilters[k] == s.searchFilters[k])
      && t.searchResults == s.searchResults && t.maoInputs == s.maoInputs
  {
  }

  /** Typing a non-blank address into the initial form and submitting changes exactly the
      store's address filter. */
  lemma TypeThenSubmit(s: PropertyCompsSlice.State, address: string, hasHandler: bool)
    requires exists i :: 0 <= i < |address| && !IsWhitespace(address[i])
    ensures var t := HandleSubmit(HandleChange(Initial, AddressKey, address), hasHandler);
      && t.dispatched.Some?
      && PropertyCompsSlice.Reduce(s, t.dispatched.value) == s.(searchFilters := s.searchFilters[AddressKey := Str(address)])
  {
    var g := HandleChange(Initial, AddressKey, address);
    assert g.data == map[AddressKey := address];
    var payload := AsObject(g.data);
    assert payload == map[AddressKey := Str(address)];
    assert Spread(s.searchFilters, payload) == s.searchFilters[AddressKey := Str(address)];
  }
}
