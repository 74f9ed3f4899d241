/** The page's component state (app/page.tsx): the city list and the
    preferences, replaced by each event handler through the transitions of
    `PageLogic`. */
module PageSession {
  import opened Wrappers
  import opened Cities
  import opened PageLogic

  class Session {
    /** The seed list the page was built with (`seedCities`). */
    const seed: seq<City>
    /** The cities shown, in display order. */
    var cities: seq<City>
    /** The clock style and the reference city's id. */
    var prefs: Preferences

    /** A fresh page: the seed cities, the 24-hour clock, and the first seed
        city (or Helsinki) as reference. */
    constructor (seed: seq<City>)
      ensures this.seed == seed && cities == seed
      ensures prefs == Preferences(DefaultTimeFormat, InitialRefId(seed))
      ensures seed != [] ==> ReferenceCity() == seed[0]
      ensures seed == [] ==> ReferenceCity() == HelsinkiCity
    {
      this.seed := seed;
      cities := seed;
      prefs := Preferences(DefaultTimeFormat, InitialRefId(seed));
      new;
      if seed != [] {
        InitialReferenceIsFirstSeed(seed);
      }
    }

    /** The city the timeline is anchored to. It always exists; when the
        reference id is listed it is the first city with that id. */
    function ReferenceCity(): (r: City)
      reads this
      ensures r in cities || r in seed || r == HelsinkiCity
      ensures HasId(cities, prefs.referenceCityId) ==> r.id == prefs.referenceCityId && r in cities
      ensures !HasId(cities, prefs.referenceCityId) && cities != [] ==> r == cities[0]
      ensures r == ResolveReference(cities, prefs.referenceCityId, seed)
    {
      ResolveReference(cities, prefs.referenceCityId, seed)
    }

    /** `handleAddCity`: append `c` unless its id is already listed. */
    method HandleAddCity(c: City)
      modifies this`cities
      ensures cities == AddCity(old(cities), c)
      ensures HasId(old(cities), c.id) ==> cities == old(cities)
      ensures !HasId(old(cities), c.id) ==> cities == old(cities) + [c]
      ensures DistinctIds(old(cities)) ==> DistinctIds(cities)
      ensures prefs == old(prefs)
    {
      if DistinctIds(cities) {
        AddCityPreservesDistinctIds(cities, c);
      }
      cities := AddCity(cities, c);
    }

    /** `onRemove`: drop every city with identifier `id`, keeping the order
        of the others. */
    method OnRemove(id: string)
      modifies this`cities
      ensures cities == RemoveCity(old(cities), id)
      ensures !HasId(cities, id) && IsSubsequence(cities, old(cities))
      ensures forall x :: x in cities <==> x in old(cities) && x.id != id
      ensures DistinctIds(old(cities)) ==> DistinctIds(cities)
      ensures DistinctIds(old(cities)) && HasId(old(cities), id) ==> |cities| == |old(cities)| - 1
      ensures prefs == old(prefs)
    {
      if DistinctIds(cities) {
        RemoveCityPreservesDistinctIds(cities, id);
        if HasId(cities, id) {
          RemoveCityDropsOne(cities, id);
        }
      }
      cities := RemoveCity(cities, id);
    }

    /** `onMakeReference`: make `id` the reference; the clock style and the
        city list stay. */
    method OnMakeReference(id: string)
      modifies this`prefs
      ensures prefs == MakeReference(old(prefs), id)
      ensures prefs.referenceCityId == id && prefs.timeFormat == old(prefs.timeFormat)
      ensures HasId(cities, id) ==> ReferenceCity().id == id
      ensures cities == old(cities)
    {
      prefs := MakeReference(prefs, id);
    }

    /** The load effect: merge what storage returned (each part may be
        missing) into the current state. */
    method LoadPersisted(loadedCities: Option<seq<City>>, loadedPrefs: Option<StoredPrefs>)
      modifies this
      ensures cities == MergeLoadedCities(old(cities), loadedCities)
      ensures prefs == MergeLoadedPrefs(old(prefs), loadedPrefs, seed)
      ensures old(cities) != [] ==> cities != []
    {
      cities := MergeLoadedCities(cities, loadedCities);
      prefs := MergeLoadedPrefs(prefs, loadedPrefs, seed);
    }
  }
}
