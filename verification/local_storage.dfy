/** The browser-storage helpers for search results, search filters and the selected property.
    The storage is a map from keys to strings; `JSON.stringify` and `JSON.parse` are a codec
    given as parameters (`parse` answers None where it would throw). Every helper catches its
    own errors, so a throw shows up as "nothing written" and the fallback result. */
module LocalStorage {
  import opened Wrappers
  import opened JsValues

  type Store = map<string, string>

  const ResultsKey: string := "property_search_results"
  const FiltersKey: string := "property_search_filters"
  const SelectedKey: string := "selected_property"

  datatype Codec = Codec(stringify: Value -> string, parse: string -> Option<Value>)

  /** The codec reads back what it wrote for `v`, and wrote a non-empty text. */
  predicate RoundTrips(c: Codec, v: Value) {
    c.stringify(v) != "" && c.parse(c.stringify(v)) == Some(v)
  }

  /** `getItem(key)` tested with `if (stored)`: present and not the empty string. */
  function Stored(store: Store, key: string): (r: Option<string>)
    ensures r.Some? <==> key in store && store[key] != ""
    ensures r.Some? ==> r.value == store[key]
  {
    if key in store && store[key] != "" then Some(store[key]) else None
  }

  /** `savePropertySearchResults`: only a non-empty array is saved, and the filters only when
      they are given. */
  function SaveSearchResults(store: Store, properties: Value, filters: Value, c: Codec): (r: Store)
    ensures !(properties.Arr? && |properties.items| > 0) ==> r == store
    ensures properties.Arr? && |properties.items| > 0 ==>
      && ResultsKey in r && r[ResultsKey] == c.stringify(properties)
      && (Truthy(filters) ==> FiltersKey in r && r[FiltersKey] == c.stringify(filters))
      && (!Truthy(filters) ==> r == store[ResultsKey := c.stringify(properties)])
    ensures forall k :: k != ResultsKey && k != FiltersKey ==> (k in r <==> k in store)
    ensures forall k :: k in store && k != ResultsKey && k != FiltersKey ==> r[k] == store[k]
  {
    if properties.Arr? && |properties.items| > 0 then
      var s1 := store[ResultsKey := c.stringify(properties)];
      if Truthy(filters) then s1[FiltersKey := c.stringify(filters)] else s1
    else store
  }

  /** `loadPropertySearchResults`: the parsed list, or null when nothing is stored, the text
      does not parse, or it parses to null (reading its `length` throws). */
  function LoadSearchResults(store: Store, c: Codec): (r: Value)
    ensures Stored(store, ResultsKey).None? ==> r == Null
    ensures Stored(store, ResultsKey).Some? && c.parse(Stored(store, ResultsKey).value).None? ==> r == Null
    ensures Stored(store, ResultsKey).Some? && c.parse(Stored(store, ResultsKey).value).Some? ==>
      r == (if Nullish(c.parse(Stored(store, ResultsKey).value).value) then Null
            else c.parse(Stored(store, ResultsKey).value).value)
  {
    match Stored(store, ResultsKey)
    case None => Null
    case Some(text) =>
      match c.parse(text)
      case None => Null
      case Some(v) => if Nullish(v) then Null else v
  }

  /** `loadPropertySearchFilters`. */
  function LoadSearchFilters(store: Store, c: Codec): (r: Value)
    ensures Stored(store, FiltersKey).None? ==> r == Null
    ensures Stored(store, FiltersKey).Some? && c.parse(Stored(store, FiltersKey).value).None? ==> r == Null
    ensures Stored(store, FiltersKey).Some? && c.parse(Stored(store, FiltersKey).value).Some? ==>
      r == c.parse(Stored(store, FiltersKey).value).value
  {
    match Stored(store, FiltersKey)
    case None => Null
    case Some(text) =>
      match c.parse(text)
      case None => Null
      case Some(v) => v
  }

  /** `clearPropertySearchResults`: both the list and the filters go. */
  function ClearSearchResults(store: Store): (r: Store)
    ensures ResultsKey !in r && FiltersKey !in r
    ensures forall k :: k != ResultsKey && k != FiltersKey ==> (k in r <==> k in store)
    ensures forall k :: k in r ==> r[k] == store[k]
  {
    store - {ResultsKey, FiltersKey}
  }

  /** `hasPropertySearchResults`: an item is stored, even an empty one. */
  predicate HasSearchResults(store: Store)
    ensures Stored(store, ResultsKey).Some? ==> HasSearchResults(store)
    ensures !HasSearchResults(store) ==> ResultsKey !in store
  {
    ResultsKey in store
  }

  /** `saveSelectedProperty`: a falsy property writes nothing. */
  function SaveSelectedProperty(store: Store, property: Value, c: Codec): (r: Store)
    ensures !Truthy(property) ==> r == store
    ensures Truthy(property) ==> r == store[SelectedKey := c.stringify(property)]
  {
    if Truthy(property) then store[SelectedKey := c.stringify(property)] else store
  }

  /** `loadSelectedProperty`. */
  function LoadSelectedProperty(store: Store, c: Codec): (r: Value)
    ensures Stored(store, SelectedKey).None? ==> r == Null
    ensures Stored(store, SelectedKey).Some? && c.parse(Stored(store, SelectedKey).value).None? ==> r == Null
    ensures Stored(store, SelectedKey).Some? && c.parse(Stored(store, SelectedKey).value).Some? ==>
      r == c.parse(Stored(store, SelectedKey).value).value
  {
    match Stored(store, SelectedKey)
    case None => Null
    case Some(text) =>
      match c.parse(text)
      case None => Null
      case Some(v) => v
  }

  /** `clearSelectedProperty`. */
  function ClearSelectedProperty(store: Store): (r: Store)
    ensures SelectedKey !in r
    ensures forall k :: k in r <==> k in store && k != SelectedKey
  {
    store - {SelectedKey}
  }

  /** Saving a property and loading it gives it back; the search results are untouched. */
  lemma SelectedPropertyRoundTrip(store: Store, property: Value, c: Codec)
    requires Truthy(property) && RoundTrips(c, property)
    ensures LoadSelectedProperty(SaveSelectedProperty(store, property, c), c) == property
    ensures LoadSearchResults(SaveSelectedProperty(store, property, c), c) == LoadSearchResults(store, c)
  {
    var s := SaveSelectedProperty(store, property, c);
    assert Stored(s, ResultsKey) == Stored(store, ResultsKey);
  }

  /** Saved results (and filters) load back as saved. */
  lemma SearchResultsRoundTrip(store: Store, properties: Value, filters: Value, c: Codec)
    requires properties.Arr? && |properties.items| > 0 && RoundTrips(c, properties)
    requires Truthy(filters) && RoundTrips(c, filters)
    ensures LoadSearchResults(SaveSearchResults(store, properties, filters, c), c) == properties
    ensures LoadSearchFilters(SaveSearchResults(store, properties, filters, c), c) == filters
    ensures HasSearchResults(SaveSearchResults(store, properties, filters, c))
  {
  }

  /** After clearing, nothing is reported and nothing loads, and the selected property stays. */
  lemma ClearRemovesResults(store: Store, c: Codec)
    ensures !HasSearchResults(ClearSearchResults(store))
    ensures LoadSearchResults(ClearSearchResults(store), c) == Null
    ensures LoadSearchFilters(ClearSearchResults(store), c) == Null
    ensures LoadSelectedProperty(ClearSearchResults(store), c) == LoadSelectedProperty(store, c)
  {
    var s := ClearSearchResults(store);
    assert Stored(s, SelectedKey) == Stored(store, SelectedKey);
  }

  // ---------------------------------------------------------------------------
  // updating one stored property

  /** `a === b` for values read from freshly parsed JSON: objects and arrays are never the
      same reference as the caller's, and NaN equals nothing. */
  predicate StrictEquals(a: Value, b: Value) {
    a == b && !a.Arr? && !a.Obj? && !a.NaN?
  }

  /** One clause of the default match, `prop[key] && updated[key] && prop[key] === updated[key]`,
      on values known not to be null or undefined. */
  predicate SameId(prop: Value, updated: Value, key: string) {
    Truthy(Prop(prop, key)) && Truthy(Prop(updated, key)) && StrictEquals(Prop(prop, key), Prop(updated, key))
  }

  const IdKeys: seq<string> := ["_id", "zpid", "id"]

  /** The default match; None where reading a field of null/undefined throws: the stored entry
      is null/undefined, or the update is while some field of the entry is truthy. */
  function DefaultMatch(prop: Value, updated: Value): (r: Option<bool>)
    ensures r.None? <==> Nullish(prop) || (Nullish(updated) && exists k :: k in IdKeys && Truthy(Prop(prop, k)))
    ensures r == Some(true) <==> !Nullish(prop) && !Nullish(updated) && exists k :: k in IdKeys && SameId(prop, updated, k)
  {
    if Nullish(prop) then None
    else if Nullish(updated) then
      if Truthy(Prop(prop, "_id")) || Truthy(Prop(prop, "zpid")) || Truthy(Prop(prop, "id")) then None
      else Some(false)
    else Some(SameId(prop, updated, "_id") || SameId(prop, updated, "zpid") || SameId(prop, updated, "id"))
  }

  /** The match in use: the caller's function when given (it cannot throw here), else the
      default. */
  function MatchOf(matchFn: Option<Value -> bool>, prop: Value, updated: Value): Option<bool> {
    match matchFn
    case Some(f) => Some(f(prop))
    case None => DefaultMatch(prop, updated)
  }

  /** `{ ...prop, ...updated }`. */
  function Merge(prop: Value, updated: Value): Value {
    Obj(Spread(OwnFields(prop), OwnFields(updated)))
  }

  /** The match result for every entry, or None when some match throws. */
  function Matches(items: seq<Value>, updated: Value, matchFn: Option<Value -> bool>): (r: Option<seq<bool>>)
    ensures r.Some? ==> |r.value| == |items|
    ensures r.Some? ==> forall i :: 0 <= i < |items| ==> MatchOf(matchFn, items[i], updated) == Some(r.value[i])
    ensures r.None? ==> exists i :: 0 <= i < |items| && MatchOf(matchFn, items[i], updated).None?
  {
    if items == [] then Some([])
    else match MatchOf(matchFn, items[0], updated)
      case None => None
      case Some(b) =>
        match Matches(items[1..], updated, matchFn)
        case None =>
          var i :| 0 <= i < |items[1..]| && MatchOf(matchFn, items[1..][i], updated).None?;
          assert items[i + 1] == items[1..][i];
          None
        case Some(bs) => Some([b] + bs)
  }

  /** `properties.map(...)` given the match results. */
  function MergeMatched(items: seq<Value>, hits: seq<bool>, updated: Value): (r: seq<Value>)
    requires |hits| == |items|
    ensures |r| == |items|
    ensures forall i :: 0 <= i < |items| ==> r[i] == if hits[i] then Merge(items[i], updated) else items[i]
  {
    seq(|items|, i requires 0 <= i < |items| => if hits[i] then Merge(items[i], updated) else items[i])
  }

  predicate AnyHit(hits: seq<bool>) {
    exists i :: 0 <= i < |hits| && hits[i]
  }

  /** `updatePropertyInSearchResults`: the new store and the returned flag. */
  function UpdateInSearchResults(store: Store, updated: Value, matchFn: Option<Value -> bool>, c: Codec): (r: (Store, bool))
    ensures Stored(store, ResultsKey).None? ==> r == (store, false)
    ensures !r.1 ==> r.0 == store
    ensures r.1 ==> r.0.Keys == store.Keys + {ResultsKey}
    ensures r.1 ==> forall k :: k in store && k != ResultsKey ==> r.0[k] == store[k]
  {
    match Stored(store, ResultsKey)
    case None => (store, false)
    case Some(text) =>
      match c.parse(text)
      case None => (store, false)
      case Some(v) =>
        if !v.Arr? then (store, false)
        else match Matches(v.items, updated, matchFn)
          case None => (store, false)
          case Some(hits) =>
            if AnyHit(hits) then (store[ResultsKey := c.stringify(Arr(MergeMatched(v.items, hits, updated)))], true)
            else (store, false)
  }

  /** When the stored list parses and every match runs, the list is written back (and true
      returned) exactly when some entry matched; the written list keeps length and order, leaves
      the other entries alone and merges the update into the matching ones. */
  lemma UpdateRewritesMatches(store: Store, updated: Value, matchFn: Option<Value -> bool>, c: Codec, items: seq<Value>)
    requires Stored(store, ResultsKey).Some? && c.parse(store[ResultsKey]) == Some(Arr(items))
    requires Matches(items, updated, matchFn).Some?
    ensures var hits := Matches(items, updated, matchFn).value;
      var r := UpdateInSearchResults(store, updated, matchFn, c);
      && (r.1 <==> exists i :: 0 <= i < |items| && MatchOf(matchFn, items[i], updated) == Some(true))
      && (r.1 ==> r.0 == store[ResultsKey := c.stringify(Arr(MergeMatched(items, hits, updated)))])
  {
    var hits := Matches(items, updated, matchFn).value;
    HitsAreMatches(items, updated, matchFn, hits);
    UpdateOfParsedList(store, updated, matchFn, c, items, hits);
  }

  lemma HitsAreMatches(items: seq<Value>, updated: Value, matchFn: Option<Value -> bool>, hits: seq<bool>)
    requires Matches(items, updated, matchFn) == Some(hits)
    ensures AnyHit(hits) <==> exists i :: 0 <= i < |items| && MatchOf(matchFn, items[i], updated) == Some(true)
  {
    if exists i :: 0 <= i < |items| && MatchOf(matchFn, items[i], updated) == Some(true) {
      var i :| 0 <= i < |items| && MatchOf(matchFn, items[i], updated) == Some(true);
      assert hits[i];
    }
  }

  lemma UpdateOfParsedList(store: Store, updated: Value, matchFn: Option<Value -> bool>, c: Codec, items: seq<Value>, hits: seq<bool>)
    requires Stored(store, ResultsKey).Some? && c.parse(store[ResultsKey]) == Some(Arr(items))
    requires Matches(items, updated, matchFn) == Some(hits)
    ensures UpdateInSearchResults(store, updated, matchFn, c)
      == if AnyHit(hits) then (store[ResultsKey := c.stringify(Arr(MergeMatched(items, hits, updated)))], true) else (store, false)
  {
  }

  /** A matched entry takes the update's fields and keeps its own others. */
  lemma MergedEntry(prop: Value, updated: Value)
    requires prop.Obj? && updated.Obj?
    ensures Merge(prop, updated).fields.Keys == prop.fields.Keys + updated.fields.Keys
    ensures forall k :: k in updated.fields ==> Merge(prop, updated).fields[k] == updated.fields[k]
    ensures forall k :: k in prop.fields && k !in updated.fields ==> Merge(prop, updated).fields[k] == prop.fields[k]
  {
  }

  /** Under the default match an entry that matched still matches after the merge, and merging
      twice is merging once: repeating an update rewrites the same list. */
  lemma DefaultMatchSurvivesMerge(prop: Value, updated: Value)
    requires prop.Obj? && updated.Obj? && DefaultMatch(prop, updated) == Some(true)
    ensures DefaultMatch(Merge(prop, updated), updated) == Some(true)
    ensures Merge(Merge(prop, updated), updated) == Merge(prop, updated)
  {
    var k :| k in IdKeys && SameId(prop, updated, k);
    var m := Merge(prop, updated);
    assert Prop(m, k) == Prop(updated, k);
    assert SameId(m, updated, k);
    SpreadIdempotent(prop.fields, updated.fields);
  }

  /** Updating twice with the default match is updating once. */
  lemma MergeMatchedTwice(items: seq<Value>, hits: seq<bool>, updated: Value)
    requires updated.Obj? && Matches(items, updated, None) == Some(hits)
    requires forall i :: 0 <= i < |items| ==> items[i].Obj?
    ensures var once := MergeMatched(items, hits, updated);
      Matches(once, updated, None) == Some(hits) && MergeMatched(once, hits, updated) == once
  {
    var once := MergeMatched(items, hits, updated);
    forall i | 0 <= i < |items|
      ensures MatchOf(None, once[i], updated) == Some(hits[i])
      ensures (if hits[i] then Merge(once[i], updated) else once[i]) == once[i]
    {
      EntryTwice(items[i], hits[i], updated);
    }
    MatchesOfAll(once, updated, None, hits);
    var twice := MergeMatched(once, hits, updated);
    assert forall i :: 0 <= i < |once| ==> twice[i] == once[i];
  }

  /** One entry of the list: merging it (when it matched) keeps it matched and is idempotent. */
  lemma EntryTwice(item: Value, hit: bool, updated: Value)
    requires updated.Obj? && item.Obj? && MatchOf(None, item, updated) == Some(hit)
    ensures var once := if hit then Merge(item, updated) else item;
      && MatchOf(None, once, updated) == Some(hit)
      && (if hit then Merge(once, updated) else once) == once
  {
    if hit {
      DefaultMatchSurvivesMerge(item, updated);
    }
  }

  /** When every match runs, `Matches` collects their results in order. */
  lemma {:induction false} MatchesOfAll(items: seq<Value>, updated: Value, matchFn: Option<Value -> bool>, hits: seq<bool>)
    requires |hits| == |items|
    requires forall i :: 0 <= i < |items| ==> MatchOf(matchFn, items[i], updated) == Some(hits[i])
    ensures Matches(items, updated, matchFn) == Some(hits)
    decreases |items|
  {
    if items != [] {
      assert forall i :: 0 <= i < |items[1..]| ==> items[1..][i] == items[i + 1] && hits[1..][i] == hits[i + 1];
      MatchesOfAll(items[1..], updated, matchFn, hits[1..]);
      assert [hits[0]] + hits[1..] == hits;
    }
  }

  /** Repeating an update with the default match finds the same entries and writes the same
      list again, so the store does not change the second time. */
  lemma UpdateIsIdempotent(store: Store, updated: Value, c: Codec, items: seq<Value>)
    requires Stored(store, ResultsKey).Some? && c.parse(store[ResultsKey]) == Some(Arr(items))
    requires updated.Obj? && forall i :: 0 <= i < |items| ==> items[i].Obj?
    requires Matches(items, updated, None).Some?
    requires RoundTrips(c, Arr(MergeMatched(items, Matches(items, updated, None).value, updated)))
    requires UpdateInSearchResults(store, updated, None, c).1
    ensures var once := UpdateInSearchResults(store, updated, None, c);
      UpdateInSearchResults(once.0, updated, None, c) == once
  {
    var hits := Matches(items, updated, None).value;
    var list := MergeMatched(items, hits, updated);
    var once := UpdateInSearchResults(store, updated, None, c);
    assert AnyHit(hits);
    assert once.0 == store[ResultsKey := c.stringify(Arr(list))];
    MergeMatchedTwice(items, hits, updated);
    var t := c.stringify(Arr(list));
    assert Stored(once.0, ResultsKey) == Some(t);
    assert c.parse(t) == Some(Arr(list));
    assert Matches(list, updated, None) == Some(hits);
    assert MergeMatched(list, hits, updated) == list;
    assert once.0[ResultsKey := t] == once.0;
  }
}
