/** The city-list and preferences bookkeeping of the timezone page
    (app/page.tsx): each state transition of the page written as a pure
    function of the previous state, with the properties it keeps. */
module PageLogic {
  import opened Wrappers
  import opened Cities

  /** Preferences as read back from storage: either field may be missing. */
  datatype StoredPrefs = StoredPrefs(timeFormat: Option<TimeFormat>, referenceCityId: Option<string>)

  /** What saving `p` writes: the whole record, both fields present. */
  function Stored(p: Preferences): (s: StoredPrefs)
    ensures s.timeFormat.Some? && s.referenceCityId.Some?
  {
    StoredPrefs(Some(p.timeFormat), Some(p.referenceCityId))
  }

  // ---------------------------------------------------------------------
  // Initial reference id

  /** The reference id a fresh page starts with: the first seed city's id,
      or the neutral default when there is no seed. */
  function InitialRefId(seed: seq<City>): (r: string)
    ensures r == FallbackRefId || HasId(seed, r)
    ensures seed != [] ==> r == seed[0].id
  {
    if |seed| > 0 then seed[0].id else FallbackRefId
  }

  /** For the built-in seed both defaults name the same zone. */
  lemma BuiltInSeedStartsAtHelsinki()
    ensures InitialRefId(SeedCities) == FallbackRefId
    ensures HelsinkiCity in SeedCities
  {
    SeedCitiesDistinct();
  }

  // ---------------------------------------------------------------------
  // Adding a city

  /** `handleAddCity`: a city whose id is already listed is ignored,
      otherwise it is appended. */
  function AddCity(cs: seq<City>, c: City): (r: seq<City>)
    ensures HasId(r, c.id)
    ensures |r| >= |cs| && r[..|cs|] == cs
    ensures HasId(cs, c.id) ==> r == cs
    ensures !HasId(cs, c.id) ==> |r| == |cs| + 1 && r[|cs|] == c
  {
    if HasId(cs, c.id) then cs
    else
      var r := cs + [c];
      assert r[|cs|] == c;
      r
  }

  /** Adding keeps identifiers unique. */
  lemma AddCityPreservesDistinctIds(cs: seq<City>, c: City)
    requires DistinctIds(cs)
    ensures DistinctIds(AddCity(cs, c))
  {
    var r := AddCity(cs, c);
    if !HasId(cs, c.id) {
      forall i, j | 0 <= i < j < |r| ensures r[i].id != r[j].id {
        if j == |cs| {
          assert r[i] == cs[i];
          assert cs[i].id != c.id;
        } else {
          assert r[i] == cs[i] && r[j] == cs[j];
        }
      }
    }
  }

  /** Adding the same city twice is the same as adding it once. */
  lemma AddCityIdempotent(cs: seq<City>, c: City)
    ensures AddCity(AddCity(cs, c), c) == AddCity(cs, c)
  {
    assert HasId(AddCity(cs, c), c.id);
  }

  // ---------------------------------------------------------------------
  // Removing a city

  /** `onRemove`: every city with identifier `id` is dropped
      (`cities.filter(c => c.id !== id)`). */
  function RemoveCity(cs: seq<City>, id: string): (r: seq<City>)
    ensures !HasId(r, id)
    ensures forall x :: x in r <==> x in cs && x.id != id
    ensures |r| <= |cs|
    ensures IsSubsequence(r, cs)
    ensures !HasId(cs, id) ==> r == cs
  {
    if cs == [] then []
    else
      var rest := RemoveCity(cs[1..], id);
      assert HasId(cs[1..], id) ==> HasId(cs, id) by {
        if HasId(cs[1..], id) {
          var i :| 0 <= i < |cs[1..]| && cs[1..][i].id == id;
          assert cs[i + 1].id == id;
        }
      }
      if cs[0].id != id then
        var r := [cs[0]] + rest;
        assert r[1..] == rest;
        assert cs == [cs[0]] + cs[1..];
        r
      else
        assert HasId(cs, id) by { assert cs[0].id == id; }
        assert rest == [] || IsSubsequence(rest, cs);
        rest
  }

  /** Filtering a concatenation filters each part: the order of the kept
      cities is their order in the input. */
  lemma {:induction false} RemoveCityDistributes(a: seq<City>, b: seq<City>, id: string)
    ensures RemoveCity(a + b, id) == RemoveCity(a, id) + RemoveCity(b, id)
  {
    if a == [] {
      assert a + b == b;
    } else {
      assert (a + b)[1..] == a[1..] + b;
      RemoveCityDistributes(a[1..], b, id);
    }
  }

  /** The tail of a list with unique ids has unique ids, none equal to the head's. */
  lemma DistinctIdsTail(cs: seq<City>)
    requires DistinctIds(cs) && cs != []
    ensures DistinctIds(cs[1..])
    ensures forall x :: x in cs[1..] ==> x.id != cs[0].id
  {
    var t := cs[1..];
    forall i, j | 0 <= i < j < |t| ensures t[i].id != t[j].id {
      assert t[i] == cs[i + 1] && t[j] == cs[j + 1];
    }
    forall x | x in t ensures x.id != cs[0].id {
      var k :| 0 <= k < |t| && t[k] == x;
      assert cs[k + 1] == x;
    }
  }

  /** Putting a city in front of a list with unique ids, none equal to its
      own, keeps ids unique. */
  lemma DistinctIdsCons(c: City, rest: seq<City>)
    requires DistinctIds(rest)
    requires forall x :: x in rest ==> x.id != c.id
    ensures DistinctIds([c] + rest)
  {
    var r := [c] + rest;
    forall i, j | 0 <= i < j < |r| ensures r[i].id != r[j].id {
      assert r[j] == rest[j - 1];
      if i > 0 { assert r[i] == rest[i - 1]; }
    }
  }

  /** Removing keeps identifiers unique. */
  lemma {:induction false} RemoveCityPreservesDistinctIds(cs: seq<City>, id: string)
    requires DistinctIds(cs)
    ensures DistinctIds(RemoveCity(cs, id))
  {
    if cs != [] {
      DistinctIdsTail(cs);
      RemoveCityPreservesDistinctIds(cs[1..], id);
      if cs[0].id != id {
        DistinctIdsCons(cs[0], RemoveCity(cs[1..], id));
      }
    }
  }

  /** With unique identifiers, removing a listed id drops exactly one city. */
  lemma {:induction false} RemoveCityDropsOne(cs: seq<City>, id: string)
    requires DistinctIds(cs) && HasId(cs, id)
    ensures |RemoveCity(cs, id)| == |cs| - 1
  {
    var k :| 0 <= k < |cs| && cs[k].id == id;
    assert cs == cs[..k] + [cs[k]] + cs[k + 1..];
    RemoveCityDistributes(cs[..k] + [cs[k]], cs[k + 1..], id);
    RemoveCityDistributes(cs[..k], [cs[k]], id);
    assert !HasId(cs[..k], id) by {
      forall i | 0 <= i < k ensures cs[..k][i].id != id {
        assert cs[..k][i] == cs[i];
      }
    }
    var tail := cs[k + 1..];
    assert !HasId(tail, id) by {
      forall i | 0 <= i < |tail| ensures tail[i].id != id {
        assert tail[i] == cs[k + 1 + i];
      }
    }
    assert RemoveCity([cs[k]], id) == [] by {
      assert RemoveCity([cs[k]], id) == RemoveCity([cs[k]][1..], id);
    }
  }

  /** Removing a city that was just added (and was not listed before)
      gives back the list as it was. */
  lemma RemoveCityUndoesAdd(cs: seq<City>, c: City)
    requires !HasId(cs, c.id)
    ensures RemoveCity(AddCity(cs, c), c.id) == cs
  {
    RemoveCityDistributes(cs, [c], c.id);
    assert RemoveCity([c], c.id) == [] by {
      assert RemoveCity([c], c.id) == RemoveCity([c][1..], c.id);
    }
  }

  /** Removing twice is removing once. */
  lemma RemoveCityIdempotent(cs: seq<City>, id: string)
    ensures RemoveCity(RemoveCity(cs, id), id) == RemoveCity(cs, id)
  {
    assert !HasId(RemoveCity(cs, id), id);
  }

  // ---------------------------------------------------------------------
  // Choosing the reference city

  /** `onMakeReference`: the reference id becomes `id`, the clock style stays. */
  function MakeReference(p: Preferences, id: string): (r: Preferences)
    ensures r.referenceCityId == id
    ensures r.timeFormat == p.timeFormat
  {
    p.(referenceCityId := id)
  }

  /** The position of the first city with identifier `id` (`cities.find`). */
  function FindIndex(cs: seq<City>, id: string): (r: Option<nat>)
    ensures r.Some? <==> HasId(cs, id)
    ensures r.Some? ==> r.value < |cs| && cs[r.value].id == id &&
                        forall j :: 0 <= j < r.value ==> cs[j].id != id
  {
    if cs == [] then None
    else if cs[0].id == id then Some(0)
    else
      match FindIndex(cs[1..], id)
      case None =>
        assert !HasId(cs, id) by {
          forall i | 0 <= i < |cs| ensures cs[i].id != id {
            if i > 0 { assert cs[i] == cs[1..][i - 1]; }
          }
        }
        None
      case Some(k) => Some(k + 1)
  }

  /** The `referenceCity` memo: the first listed city with the reference id,
      else the first listed city, else the first seed city, else Helsinki.
      There is always a reference city. */
  function ResolveReference(cs: seq<City>, refId: string, seed: seq<City>): (r: City)
    ensures r in cs || r in seed || r == HelsinkiCity
    ensures HasId(cs, refId) ==>
              r.id == refId &&
              exists i :: 0 <= i < |cs| && cs[i] == r && forall j :: 0 <= j < i ==> cs[j].id != refId
    ensures !HasId(cs, refId) && cs != [] ==> r == cs[0]
    ensures cs == [] && seed != [] ==> r == seed[0]
    ensures cs == [] && seed == [] ==> r == HelsinkiCity
  {
    match FindIndex(cs, refId)
    case Some(i) => cs[i]
    case None =>
      if |cs| > 0 then cs[0]
      else if |seed| > 0 then seed[0]
      else City(InitialRefId(seed), "Helsinki", "FI", "Europe/Helsinki")
  }

  /** Whatever the list, after making a listed city the reference, that
      city is the one resolved. */
  lemma MakeReferenceResolves(cs: seq<City>, p: Preferences, c: City, seed: seq<City>)
    requires DistinctIds(cs) && c in cs
    ensures ResolveReference(cs, MakeReference(p, c.id).referenceCityId, seed) == c
  {
    var k :| 0 <= k < |cs| && cs[k] == c;
    assert HasId(cs, c.id);
    var r := ResolveReference(cs, c.id, seed);
    var i :| 0 <= i < |cs| && cs[i] == r && forall j :: 0 <= j < i ==> cs[j].id != c.id;
    assert i == k;
  }

  /** A fresh page resolves its reference to the first seed city. */
  lemma InitialReferenceIsFirstSeed(seed: seq<City>)
    requires seed != []
    ensures ResolveReference(seed, InitialRefId(seed), seed) == seed[0]
  {
    var r := ResolveReference(seed, seed[0].id, seed);
    assert HasId(seed, seed[0].id);
    var i :| 0 <= i < |seed| && seed[i] == r && forall j :: 0 <= j < i ==> seed[j].id != seed[0].id;
    assert i == 0;
  }

  /** Looking past a first city with another id shifts the found position by one. */
  lemma FindIndexCons(c: City, rest: seq<City>, id: string)
    requires c.id != id
    ensures FindIndex([c] + rest, id) ==
              if FindIndex(rest, id).Some? then Some(FindIndex(rest, id).value + 1) else None
  {
    assert ([c] + rest)[1..] == rest;
  }

  /** Looking up a listed id gives the same city after a city with another
      id is removed. */
  lemma {:induction false} FindAfterRemoveOther(cs: seq<City>, refId: string, id: string)
    requires HasId(cs, refId) && id != refId
    ensures FindIndex(RemoveCity(cs, id), refId).Some?
    ensures RemoveCity(cs, id)[FindIndex(RemoveCity(cs, id), refId).value] == cs[FindIndex(cs, refId).value]
  {
    var tail := cs[1..];
    var rest := RemoveCity(tail, id);
    if cs[0].id == refId {
      assert RemoveCity(cs, id) == [cs[0]] + rest;
      assert FindIndex(cs, refId) == Some(0);
      assert FindIndex([cs[0]] + rest, refId) == Some(0);
    } else {
      assert HasId(tail, refId) by {
        var i :| 0 <= i < |cs| && cs[i].id == refId;
        assert tail[i - 1] == cs[i];
      }
      FindAfterRemoveOther(tail, refId, id);
      var k := FindIndex(tail, refId).value;
      assert FindIndex(cs, refId) == Some(k + 1);
      assert cs[k + 1] == tail[k];
      if cs[0].id != id {
        assert RemoveCity(cs, id) == [cs[0]] + rest;
        FindIndexCons(cs[0], rest, refId);
      } else {
        assert RemoveCity(cs, id) == rest;
      }
    }
  }

  /** Removing a city that is not the reference leaves the reference alone. */
  lemma RemoveOtherKeepsReference(cs: seq<City>, refId: string, id: string, seed: seq<City>)
    requires HasId(cs, refId) && id != refId
    ensures ResolveReference(RemoveCity(cs, id), refId, seed) == ResolveReference(cs, refId, seed)
  {
    FindAfterRemoveOther(cs, refId, id);
  }

  /** Removing the reference city moves the reference to the first remaining
      city, then to the seed, then to Helsinki. */
  lemma RemoveReferenceFallsBack(cs: seq<City>, refId: string, seed: seq<City>)
    ensures var r := RemoveCity(cs, refId);
            ResolveReference(r, refId, seed) ==
              if r != [] then r[0] else if seed != [] then seed[0] else HelsinkiCity
  {
  }

  /** Adding a city never moves a reference that already resolves by id, nor
      the first-city fallback when the new city has another id. */
  lemma AddCityKeepsReference(cs: seq<City>, c: City, refId: string, seed: seq<City>)
    requires HasId(cs, refId) || (cs != [] && c.id != refId)
    ensures ResolveReference(AddCity(cs, c), refId, seed) == ResolveReference(cs, refId, seed)
  {
    var a := AddCity(cs, c);
    if HasId(cs, refId) {
      var r := ResolveReference(cs, refId, seed);
      var i :| 0 <= i < |cs| && cs[i] == r && forall j :: 0 <= j < i ==> cs[j].id != refId;
      assert HasId(a, refId) by { assert a[i] == cs[i]; }
      var ra := ResolveReference(a, refId, seed);
      var ia :| 0 <= ia < |a| && a[ia] == ra && forall j :: 0 <= j < ia ==> a[j].id != refId;
      assert a[i].id == refId;
      assert ia <= i;
      assert a[ia] == cs[ia];
    } else {
      assert !HasId(a, refId) by {
        forall k | 0 <= k < |a| ensures a[k].id != refId {
          if k < |cs| { assert a[k] == cs[k]; }
        }
      }
      assert a[0] == cs[0];
    }
  }

  // ---------------------------------------------------------------------
  // Merging persisted state on load

  /** The loaded city list replaces the current one only when it is a
      non-empty list; a missing or empty one leaves the current list. */
  function MergeLoadedCities(current: seq<City>, loaded: Option<seq<City>>): (r: seq<City>)
    ensures r == current || (loaded.Some? && r == loaded.value)
    ensures loaded.Some? && loaded.value != [] ==> r == loaded.value
    ensures loaded.None? || loaded.value == [] ==> r == current
    ensures current != [] ==> r != []
  {
    match loaded
    case Some(c) => if |c| > 0 then c else current
    case None => current
  }

  /** Loaded preferences are merged field by field: a missing clock style
      keeps the previous one, a missing reference id falls back to the
      initial reference id (not to the previous one). */
  function MergeLoadedPrefs(prev: Preferences, loaded: Option<StoredPrefs>, seed: seq<City>): (r: Preferences)
    ensures loaded.None? ==> r == prev
    ensures loaded.Some? ==>
              r.timeFormat == (if loaded.value.timeFormat.Some? then loaded.value.timeFormat.value else prev.timeFormat) &&
              r.referenceCityId == (if loaded.value.referenceCityId.Some? then loaded.value.referenceCityId.value else InitialRefId(seed))
  {
    match loaded
    case None => prev
    case Some(p) =>
      Preferences(
        match p.timeFormat { case Some(f) => f case None => prev.timeFormat },
        match p.referenceCityId { case Some(id) => id case None => InitialRefId(seed) })
  }

  /** Saving preferences and loading them back restores them exactly,
      whatever was in memory before the load. */
  lemma SavedPrefsRestored(prev: Preferences, p: Preferences, seed: seq<City>)
    ensures MergeLoadedPrefs(prev, Some(Stored(p)), seed) == p
  {
    assert Stored(p).timeFormat == Some(p.timeFormat);
  }

  /** A session reloaded from a saved non-empty city list and saved
      preferences resolves the same reference city as the session that
      saved them, whatever the reloading session held before. */
  lemma SavedStateResolvesSameReference(current: seq<City>, prev: Preferences,
                                        saved: seq<City>, savedPrefs: Preferences, seed: seq<City>)
    requires saved != []
    ensures var cs := MergeLoadedCities(current, Some(saved));
            var p := MergeLoadedPrefs(prev, Some(Stored(savedPrefs)), seed);
            ResolveReference(cs, p.referenceCityId, seed) == ResolveReference(saved, savedPrefs.referenceCityId, seed)
  {
    SavedPrefsRestored(prev, savedPrefs, seed);
  }

  /** Loading the same stored preferences twice changes nothing the second time. */
  lemma MergeLoadedPrefsIdempotent(prev: Preferences, loaded: Option<StoredPrefs>, seed: seq<City>)
    ensures var once := MergeLoadedPrefs(prev, loaded, seed);
            MergeLoadedPrefs(once, loaded, seed) == once
  {
  }
}
