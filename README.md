# Tim-Zone-Helper: the city list and preferences of the timezone page

Tim-Zone-Helper compares wall-clock time across several cities on a shared
24-hour timeline anchored to one reference city. Its page component
(`app/page.tsx`) keeps two pieces of state: the list of cities shown and the
user's preferences (12- or 24-hour clock, and the id of the reference city).
This project models that bookkeeping and proves its properties:

- adding a city without creating a duplicate id;
- removing a city by id, an order-preserving filter;
- making a city the reference;
- resolving the reference city through a four-step fallback that always
  yields a city;
- merging what persistent storage returns at start-up into the state;
- choosing the initial reference id.

Files:

- `wrappers.dfy`: module `Wrappers`, the `Option` type. It stands for a value
  that may be `null`/`undefined`, as JavaScript's `??` sees it.
- `cities.dfy`: module `Cities`. It holds the `City` and `Preferences` records
  and the built-in seed list. It also defines the predicates `HasId`,
  `DistinctIds` and `IsSubsequence`.
- `page_logic.dfy`: module `PageLogic`. Each state transition of the page is a
  pure function of the previous state, with lemmas relating the transitions.
- `session.dfy`: module `PageSession`. Class `Session` holds `cities` and
  `prefs` as fields, and each event handler is a method that reassigns them
  through a `PageLogic` function.

The city field `label` is called `labelText`, because `label` is a Dafny
keyword. The seed list is a constructor parameter of `Session`, so every
branch of the reference fallback can be reached. The seed the application
ships is also defined: `SeedCities`, from lines 13-19 of `app/(lib)/cities.ts`.
The lemma `Cities.SeedCitiesDistinct` proves that its five ids are pairwise
distinct and that its first city is Helsinki. `PageLogic.Stored` is the record
that `savePrefs` writes (lines 20-24 of `app/(lib)/storage.ts`): the whole
preferences object, with both fields present.

City ids are not unique in every state. Adding and removing keep them unique,
but a list loaded from storage is accepted as it is, duplicates included
(app/page.tsx:28). So uniqueness is proved as preserved by `HandleAddCity` and
`OnRemove`, not as a class invariant.

A loaded preferences record with no reference id falls back to the initial
reference id, not to the previous one; a loaded record with no clock style
keeps the previous clock style (app/page.tsx:32-33).

## Model

| member | source | states |
|---|---|---|
| `PageLogic.InitialRefId` | app/page.tsx:15 | The initial reference id is the first seed city's id when there is a seed. Otherwise it is "Europe/Helsinki". Either way it is the fallback id or an id of the seed. |
| `PageLogic.BuiltInSeedStartsAtHelsinki` | app/page.tsx:15 | With the shipped seed, the initial reference id equals the neutral default, and the Helsinki fallback city is one of the seed cities. |
| `PageLogic.AddCity` | app/page.tsx:52-57 | After adding, the id is present and earlier elements keep their positions. An id already listed leaves the list unchanged. A new id is appended as the single last element. |
| `PageLogic.AddCityPreservesDistinctIds` | app/page.tsx:52-57 | If ids are pairwise distinct before an add, they are pairwise distinct after it. |
| `PageLogic.AddCityIdempotent` | app/page.tsx:53-55 | Adding the same city twice gives the same list as adding it once. |
| `PageLogic.RemoveCity` | app/page.tsx:63 | No city with the id remains. A city is kept exactly when it was listed and has another id. The result is a subsequence of the input, so relative order is kept. Removing an absent id leaves the list unchanged. |
| `PageLogic.RemoveCityDistributes` | app/page.tsx:63 | Removing from a concatenation is the concatenation of the removals, so the filter works element by element, in order. |
| `PageLogic.RemoveCityPreservesDistinctIds` | app/page.tsx:63 | Removing keeps ids pairwise distinct. |
| `PageLogic.RemoveCityDropsOne` | app/page.tsx:63 | With distinct ids, removing a listed id shortens the list by exactly one. |
| `PageLogic.RemoveCityUndoesAdd` | app/page.tsx:63 | Removing a city just added under a new id gives back the original list. |
| `PageLogic.RemoveCityIdempotent` | app/page.tsx:63 | Removing the same id twice is the same as removing it once. |
| `PageLogic.MakeReference` | app/page.tsx:64 | Making a city the reference sets `referenceCityId` to the given id and leaves `timeFormat` unchanged. |
| `PageLogic.FindIndex` | app/page.tsx:48 | The lookup `cities.find(c => c.id === ref)` finds something exactly when some city has the id. When it does, it gives the first position holding that id. |
| `PageLogic.ResolveReference` | app/page.tsx:47-50 | A reference city always exists: it is a listed city, a seed city or the Helsinki fallback. If the id is listed, the result is the first listed city with that id. Otherwise it is `cities[0]`, then `seedCities[0]`, then Helsinki. |
| `PageLogic.MakeReferenceResolves` | app/page.tsx:64 | With distinct ids, after a listed city is made the reference, exactly that city is resolved. |
| `PageLogic.InitialReferenceIsFirstSeed` | app/page.tsx:17-20 | A fresh page, whose list is the seed and whose reference id is the initial one, resolves its reference to the first seed city. |
| `PageLogic.FindAfterRemoveOther` | app/page.tsx:48 | After removing a different id, the lookup of a listed id still succeeds. It finds the same city as before. |
| `PageLogic.RemoveOtherKeepsReference` | app/page.tsx:63 | Removing a city other than the listed reference does not change the resolved reference city. |
| `PageLogic.RemoveReferenceFallsBack` | app/page.tsx:48 | After the reference city is removed, the reference resolves to the first remaining city, then the first seed city, then Helsinki. |
| `PageLogic.AddCityKeepsReference` | app/page.tsx:52-57 | Adding a city never changes a reference that resolves by id. It also keeps the first-city fallback when the new city's id is not the reference id. |
| `PageLogic.MergeLoadedCities` | app/page.tsx:28 | A loaded list replaces the current one exactly when it is present and non-empty. Otherwise the current list is kept, so a non-empty list is never emptied by loading. |
| `PageLogic.MergeLoadedPrefs` | app/page.tsx:29-34 | Missing preferences leave them unchanged. Otherwise `timeFormat` is the loaded one, or else the previous one. `referenceCityId` is the loaded one, or else the initial reference id. |
| `PageLogic.SavedPrefsRestored` | app/page.tsx:29-34 | Loading preferences that were saved whole restores them exactly, whatever was in memory. |
| `PageLogic.SavedStateResolvesSameReference` | app/page.tsx:28-34 | Loading a saved non-empty city list and saved preferences into any session with the same seed resolves the same reference city as the session that saved them. |
| `PageLogic.MergeLoadedPrefsIdempotent` | app/page.tsx:29-34 | Merging the same loaded preferences a second time changes nothing. |
| `PageSession.Session.constructor` | app/page.tsx:12-20 | A fresh session lists the seed cities, uses the 24-hour clock and takes the initial reference id. Its reference city is the first seed city, or Helsinki when there is no seed. |
| `PageSession.Session.ReferenceCity` | app/page.tsx:47-50 | The memoised reference city always exists. It has the reference id and is listed when that id is listed. Otherwise it is the first listed city, when there is one. It equals `ResolveReference` over the current list, reference id and seed, so the whole fallback chain applies. |
| `PageSession.Session.HandleAddCity` | app/page.tsx:52-57 | The list becomes `AddCity` of the old list: unchanged for a listed id, otherwise the old list plus the city. Distinct ids stay distinct, and preferences are untouched. |
| `PageSession.Session.OnRemove` | app/page.tsx:63 | The list becomes the order-preserving filter of the old list. Distinct ids stay distinct, and a listed id is removed exactly once. Preferences are untouched. |
| `PageSession.Session.OnMakeReference` | app/page.tsx:64 | Only `referenceCityId` changes. When that id is listed, the reference city is then that city. |
| `PageSession.Session.LoadPersisted` | app/page.tsx:25-37 | The state becomes the merge of the loaded cities and preferences, and a non-empty city list stays non-empty. |

## Left out

- Persistence I/O (`loadCities`, `loadPrefs`, `saveCities`, `savePrefs`, app/page.tsx:25-45). These are asynchronous calls into browser storage. Their results are parameters of `LoadPersisted`, and saving is modelled only as the record it writes (`Stored`).
- A stored value of the wrong shape (not an array, or a field of another type) is not modelled. A non-array city value is folded into "missing", which the guard at app/page.tsx:28 treats the same way. A wrongly typed preference field is outside the `Option<TimeFormat>`/`Option<string>` types.
- Timing of the asynchronous load is not modelled. The load can finish after the user has already edited the list. Handlers read the state of their render (`cities.filter`, `{ ...prefs }`) instead of using a functional update. Events here are applied one after another, on the current state.
- React hooks, JSX rendering, and the `Sidebar`, `Timeline` and `AddCityDialog` components are user-interface plumbing with no bookkeeping of their own.
- The timeline engine is not part of this model: day-period shading, the date-break scan, pixel/hour mapping and hour snapping. It rests on Luxon timezone conversions, a foreign library.
- `tailwind.config.ts`, `app/layout.tsx` and the `types/*.d.ts` declarations hold styling, static markup and ambient types, with no logic.
