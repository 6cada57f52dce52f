/** The "create new comp" form: typing into a text field and ticking an amenity. The text
    fields are a map from input name to text. */
module MainView {
  import AnalysisRun

  /** The checkbox labels, in display order. */
  const AmenitiesList: seq<string> := ["Car Porch", "Oven", "Refrigerator", "Parking", "Gym", "Microwave"]

  /** The names of the text inputs. */
  const TextFields: set<string> := {
    "propertyName", "type", "bedrooms", "bathrooms", "portions", "area", "street", "city",
    "state", "postCode", "price"}

  datatype CompForm = CompForm(fields: map<string, string>, amenities: seq<string>, media: seq<string>)

  const Initial: CompForm := CompForm(map k | k in TextFields :: "", [], [])

  /** `handleChange`: the named field takes the typed text; nothing else changes. */
  function HandleChange(f: CompForm, name: string, value: string): (r: CompForm)
    ensures name in r.fields && r.fields[name] == value
    ensures forall k :: k != name ==> (k in r.fields <==> k in f.fields) && (k in r.fields ==> r.fields[k] == f.fields[k])
    ensures r.amenities == f.amenities && r.media == f.media
  {
    f.(fields := f.fields[name := value])
  }

  /** `handleAmenityToggle`: a ticked amenity is filtered out (every copy of it), an unticked
      one is appended at the end. */
  function ToggleAmenity(f: CompForm, amenity: string): (r: CompForm)
    ensures amenity !in f.amenities ==> r.amenities == f.amenities + [amenity]
    ensures amenity in f.amenities ==> r.amenities == AnalysisRun.Without(f.amenities, amenity)
    ensures r.fields == f.fields && r.media == f.media
  {
    if amenity in f.amenities then f.(amenities := AnalysisRun.Without(f.amenities, amenity))
    else f.(amenities := f.amenities + [amenity])
  }

  /** Toggling flips the amenity's membership and leaves every other amenity's count alone. */
  lemma ToggleFlipsOnlyItsAmenity(f: CompForm, amenity: string)
    ensures amenity in ToggleAmenity(f, amenity).amenities <==> amenity !in f.amenities
    ensures forall b :: b != amenity ==>
      multiset(ToggleAmenity(f, amenity).amenities)[b] == multiset(f.amenities)[b]
  {
    AnalysisRun.WithoutKeepsOthers(f.amenities, amenity);
  }

  /** Toggling twice restores the membership of the amenity. An unticked amenity comes back to
      the same list; a ticked one (listed once) moves to the end. */
  lemma ToggleTwice(f: CompForm, amenity: string)
    ensures amenity in ToggleAmenity(ToggleAmenity(f, amenity), amenity).amenities <==> amenity in f.amenities
    ensures amenity !in f.amenities ==> ToggleAmenity(ToggleAmenity(f, amenity), amenity) == f
    ensures amenity in f.amenities ==>
      ToggleAmenity(ToggleAmenity(f, amenity), amenity).amenities == AnalysisRun.Without(f.amenities, amenity) + [amenity]
  {
    AnalysisRun.WithoutKeepsOthers(f.amenities, amenity);
    if amenity !in f.amenities {
      AnalysisRun.WithoutAppend(f.amenities, amenity);
    }
  }

  /** Clicks on several amenities in turn. */
  function Ticks(f: CompForm, names: seq<string>): CompForm
    decreases |names|
  {
    if names == [] then f else Ticks(ToggleAmenity(f, names[0]), names[1..])
  }

  predicate Distinct(xs: seq<string>) {
    forall i, j :: 0 <= i < j < |xs| ==> xs[i] != xs[j]
  }

  /** Ticking distinct unticked amenities one after another appends them in click order. */
  lemma {:induction false} TicksAppendInOrder(f: CompForm, names: seq<string>)
    requires Distinct(names)
    requires forall i :: 0 <= i < |names| ==> names[i] !in f.amenities
    ensures Ticks(f, names).amenities == f.amenities + names
    decreases |names|
  {
    if names != [] {
      var g := ToggleAmenity(f, names[0]);
      assert g.amenities == f.amenities + [names[0]];
      forall i | 0 <= i < |names[1..]|
        ensures names[1..][i] !in g.amenities
      {
        assert names[1..][i] == names[i + 1] != names[0];
      }
      TicksAppendInOrder(g, names[1..]);
      assert f.amenities + [names[0]] + names[1..] == f.amenities + names;
    }
  }
}
