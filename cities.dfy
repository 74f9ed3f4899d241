/** The entities of the city list: cities, display preferences, and the
    built-in seed list the page starts from (app/(lib)/cities.ts). */
module Cities {

  /** A city on the timeline. `id` is the stable key (usually the IANA zone);
      `labelText` is the display label (`label` is a Dafny keyword). */
  datatype City = City(id: string, labelText: string, countryCode: string, tz: string)

  /** The two clock styles of `Preferences.timeFormat` ("12h" | "24h"). */
  datatype TimeFormat = TwelveHour | TwentyFourHour

  /** The user's display preferences. */
  datatype Preferences = Preferences(timeFormat: TimeFormat, referenceCityId: string)

  /** The clock style a fresh page starts with ("24h"). */
  const DefaultTimeFormat: TimeFormat := TwentyFourHour

  /** The reference id used when there is no seed city at all. */
  const FallbackRefId: string := "Europe/Helsinki"

  /** The last-resort reference city when neither the list nor the seed has one. */
  const HelsinkiCity: City := City(FallbackRefId, "Helsinki", "FI", "Europe/Helsinki")

  /** The cities a fresh page shows. */
  const SeedCities: seq<City> := [
    City("Europe/Helsinki", "Helsinki", "FI", "Europe/Helsinki"),
    City("Europe/London", "London", "GB", "Europe/London"),
    City("America/New_York", "New York", "US", "America/New_York"),
    City("Asia/Tokyo", "Tokyo", "JP", "Asia/Tokyo"),
    City("Australia/Sydney", "Sydney", "AU", "Australia/Sydney")
  ]

  /** Some city in `cs` has identifier `id` (`cs.some(x => x.id === id)`). */
  predicate HasId(cs: seq<City>, id: string)
  {
    exists i :: 0 <= i < |cs| && cs[i].id == id
  }

  /** No two cities of `cs` share an identifier. */
  ghost predicate DistinctIds(cs: seq<City>)
  {
    forall i, j :: 0 <= i < j < |cs| ==> cs[i].id != cs[j].id
  }

  /** `xs` is `ys` with some elements dropped, the rest in their original order. */
  ghost predicate IsSubsequence<T>(xs: seq<T>, ys: seq<T>)
    decreases |ys|
  {
    xs == [] ||
    (ys != [] && ((xs[0] == ys[0] && IsSubsequence(xs[1..], ys[1..])) || IsSubsequence(xs, ys[1..])))
  }

  /** The seed list has pairwise distinct identifiers. */
  lemma SeedCitiesDistinct()
    ensures DistinctIds(SeedCities)
    ensures |SeedCities| == 5 && SeedCities[0] == HelsinkiCity
  {
  }
}
