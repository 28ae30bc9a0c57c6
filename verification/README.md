# Flight-route browser backend: the query and aggregation logic

The backend of this application answers eight read-only HTTP `GET` requests. Each one
loads flat JSON fixtures (airports, airlines, route summaries, monthly route summaries,
flights, weather) and transforms them into a response. This project models those
transformations as pure Dafny functions over sequences of record datatypes, and proves
what each response promises.

The modelled requests:

- **destination listing** (`/api/destinations`);
- **popular destinations** (`/api/popular-destinations`);
- **route search** (`/api/routes`), including its monthly overlay;
- **route detail** (`/api/routes/:airlineCode/:destinationCode`);
- **global statistics** (`/api/stats`);
- **airport detail** (`/api/airports/:code`).

Modules, in dependency order:

| module | file | contents |
|---|---|---|
| `Fields` | fields.dfy | optional JSON fields (`Option`), JavaScript truthiness and the `a \|\| b` fallback |
| `Seqs` | seqs.dfy | `filter`, `findIndex`/`find`, the last match (what a `Map` keeps), `reduce` sums, `slice(0, n)` |
| `Sorting` | sorting.dfy | a stable insertion sort under a comparator, with sortedness, permutation and "top n" lemmas |
| `Strings` | strings.dfy | a total order on names, ASCII lower-casing, `includes`, the `/^[A-Z]{3}$/` test |
| `Records` | records.dfy | the fixture records, the response type `Ok \| NotFound \| ServerError`, display-name fallbacks |
| `Destinations` | destinations.dfy | the destination listing |
| `Popular` | popular.dfy | the group-by-destination aggregation and its ranking |
| `MonthlyOverlay` | overlay.dfy | the monthly overlay of the route search |
| `RouteSearch` | route_search.dfy | destination resolution, filtering, sorting, limit, name enrichment |
| `Punctuality` | punctuality.dfy | on-time rate and average delay |
| `RouteDetail` | route_detail.dfy | the route detail |
| `Stats` | stats.dfy | the global statistics |
| `AirportDetail` | airport_detail.dfy | the airport detail |

Modelling conventions:

- A fixture is a `seq` of records. The fixture loader is replaced by these input
  sequences. A fixture that fails to load is the empty sequence.
- A field that may be absent from a record, or be `null`, is an `Option`. A `||` fallback
  advances past an absent, `null` or empty string (`Fields.Truthy`).
- Scores, sums and averages are exact `real` numbers, and the on-time percentage is
  stated before `toFixed(1)` rounds it.
- A handler either answers (`Ok`) or returns an explicit 404 (`NotFound` with its
  message). `ServerError` stands for an exception thrown inside the handler, which the
  `catch` block turns into a 500.
- `localeCompare` is replaced by lexicographic order on character codes. Only its being
  a total order matters to the proofs.
- `new Date(weather_date)` is replaced by an integer time value stored in the record.
- JavaScript's `Array.prototype.sort` is stable, so every comparator sort is modelled as
  one stable insertion sort (`Sorting.SortBy`). The comparator `(a, b) => b.k - a.k` is
  read as "`a` may stay before `b` when `a.k >= b.k`".

Where the code differs from its comments or documented behaviour, the model follows the code,
with two exceptions that "## Left out" names (`Destinations.ListDestinations` and
`RouteSearch.SearchRoutes`):

- The destination listing's `name` is the English name, else the Chinese name. There is
  no further fallback to the airport code (server.js:46). The comment says the list is
  sorted "by city name", but the comparator compares `name` (server.js:52-53).
- The destination listing's comparator dereferences only its first argument's name
  (`a.name.localeCompare(b.name)`; `localeCompare(undefined)` compares against the text
  "undefined"). Whether an airport with neither name makes the sort throw therefore
  depends on which comparisons the engine's sort makes, and a two-entry list whose
  nameless entry is only ever the second argument does not throw. The model
  over-approximates this TypeError: its listing answers `ServerError` whenever a nameless
  entry is listed next to at least one other (`Destinations.ListDestinationsFails`).
- Resolving a free-text destination calls `airport_name_en.toLowerCase()` and
  `airport_name_zh.includes(...)` without a guard, but `||` short-circuits. An airport the
  search reaches throws only when its `city_zh` does not match and its English name is
  absent, or when neither its city nor its English name matches and its Chinese name is
  absent. `RouteSearch.ProbeAirport` follows that order exactly, so the model's throws
  coincide with the source's (`RouteSearch.ResolveSpec`).
- The monthly overlay looks records up by the string `${airline}-${destination}`. The
  search uses the pair-keyed overlay instead (see "## Findings");
  `RouteSearch.MergedAsWrittenAgrees` proves the two coincide whenever a destination code
  is given or no airline code contains '-'.
- The route detail's average delay is 0 when no flights match, but a non-empty set of
  flights whose delays are all absent or 0 also averages to 0. The model states only the
  first direction.

## Model

| member | source | states |
|---|---|---|
| Seqs.Filter | backend/server.js:155-157 | `filter` keeps exactly the elements satisfying the test, drawn from the input without adding any (multiset inclusion) |
| Seqs.FilterCounts | backend/server.js:155-157 | `filter` keeps every occurrence of a passing value and none of a failing one |
| Seqs.MatchIndices | backend/server.js:155-157 | the positions where the test holds, strictly increasing and covering every such position |
| Seqs.FilterIsSubsequence | backend/server.js:155-157 | `filter` keeps the array order: its result is the input read at the passing positions, in increasing order |
| Seqs.FirstIndex | backend/server.js:229-232 | `findIndex` is absent exactly when nothing matches; otherwise it is a matching position with no match before it |
| Seqs.Last | backend/server.js:197-198 | the record a `Map` keeps for a key after `set` in array order is the last one with that key |
| Seqs.SumBounds | backend/server.js:300-302 | a sum of terms each within `[lo, hi]` lies within `[lo·n, hi·n]` |
| Seqs.SumLinear | backend/server.js:300-302 | a sum of `a·f + b·g` is `a·Σf + b·Σg` |
| Sorting.SortBy | backend/server.js:114 | sorting returns a permutation of its input |
| Sorting.SortBySorted | backend/server.js:114 | under a total preorder, sorting returns an ordered sequence |
| Sorting.SortByKeepsKeysDistinct | backend/server.js:53 | sorting keeps keys distinct |
| Sorting.TopOfSorted | backend/server.js:352-354 | the first n elements after sorting are ordered, drawn from the input, and precede every element left out |
| Strings.StrLeTotal | backend/server.js:53 | the name order is total |
| Strings.StrLeTransitive | backend/server.js:53 | the name order is transitive |
| Strings.Lower | backend/server.js:145 | lower-casing keeps the length and maps each character |
| Strings.ContainsIsOccurrence | backend/server.js:145-146 | `includes` holds exactly when the fragment occurs at some position |
| Destinations.Pick | backend/server.js:38-50 | each listed code is active and listed once; each entry is built from the first airport record with its code (name English else Chinese, city `city_zh` else the code) |
| Destinations.PickComplete | backend/server.js:41-50 | every airport whose code some route flies to is listed |
| Destinations.ListDestinations | backend/server.js:29-59 | the listing never answers 404 |
| Destinations.ListDestinationsSpec | backend/server.js:34-55 | a successful listing has distinct codes, is sorted by name, lists exactly the active airport codes, and builds each entry from the first airport with that code |
| Destinations.ListDestinationsFails | backend/server.js:53 | the modelled listing answers `ServerError` exactly when an airport without any name is listed next to at least one other (an over-approximation of the source's throw; see "## Left out") |
| Destinations.FailsOnlyIfNameless | backend/server.js:53 | a throwing listing has two listed codes and a listed airport without a name |
| Destinations.NamelessFails | backend/server.js:53 | a listed nameless airport next to another listed code makes the listing throw |
| Destinations.HanedaExample | backend/server.js:34-55 | one route to HND with an airport named Haneda in Tokyo lists exactly that airport |
| Popular.AddRoute | backend/server.js:86-102 | one loop step updates the tally of the route's destination in place, or appends a fresh tally at the end of the key order |
| Popular.Codes | backend/server.js:83-103 | the group keys are distinct and are exactly the destination codes of the routes |
| Popular.TalliesAreGroups | backend/server.js:85-103 | the one-pass accumulation yields, per key, exactly the sums and the count over that destination's routes |
| Popular.TallyOfSnoc | backend/server.js:98-102 | adding a route to a group adds its flights, one to the count, and its scores to the sums |
| Popular.StepExisting | backend/server.js:87-102 | a route to a known destination keeps the per-destination tallies correct |
| Popular.StepNew | backend/server.js:87-102 | a route to a new destination keeps the per-destination tallies correct |
| Popular.TalliesNonEmpty | backend/server.js:106-108 | every group has at least one route, so the averages never divide by zero |
| Popular.Aggregates | backend/server.js:106-110 | one finished group per tally |
| Popular.AggregatesAreMembers | backend/server.js:85-110 | each group's flight total, route count, averages and 0.6 / 0.4 composite are those of exactly the routes to its code |
| Popular.PopularDestinations | backend/server.js:113-124 | one entry per distinct destination code |
| Popular.PopularOrdered | backend/server.js:113-114 | entries have distinct codes and flight counts that do not increase |
| Popular.PopularMembers | backend/server.js:85-124 | every entry aggregates exactly the routes to its code |
| Popular.PopularCodes | backend/server.js:83-124 | the entries' codes are exactly the routes' destination codes |
| Popular.PopularDestinationsSpec | backend/server.js:82-124 | the whole promise: one entry per destination, busiest first, correct totals, averages and composite |
| Popular.PopularDestinationNames | backend/server.js:117-124 | names come from the first airport with the code, and both fall back to the code when there is none |
| MonthlyOverlay.Overlay | backend/server.js:175-179 | the overlay maps each row to one row |
| MonthlyOverlay.OverlaySpec | backend/server.js:169-179 | a row with monthly records for its (airline, destination) key becomes the spread of the row with the last of them; a row without one is unchanged; the key is kept |
| MonthlyOverlay.OverlayUsesOnlyTheMonth | backend/server.js:161-179 | a changed row took its fields from a monthly record of the requested month, of the requested destination when one is set, and of the row's key |
| MonthlyOverlay.OverlayAsWritten | backend/server.js:169-179 | the string-keyed overlay maps each row to one row |
| MonthlyOverlay.StringKeyCollides | backend/server.js:171-176 | summary (A, B-C) and monthly (A-B, C) share the string key "A-B-C": the string-keyed overlay rewrites the row's airline code, while the pair-keyed overlay leaves it alone |
| MonthlyOverlay.KeyStringInjective | backend/server.js:171-176 | without '-' in airline codes, equal string keys mean equal (airline, destination) pairs |
| MonthlyOverlay.AsWrittenAgreesWithoutDashes | backend/server.js:169-179 | without '-' in airline codes, the string-keyed overlay equals the pair-keyed one |
| MonthlyOverlay.KeyStringSameDestination | backend/server.js:171-176 | two string keys with the same destination are equal exactly when the airlines are |
| MonthlyOverlay.AsWrittenAgreesForOneDestination | backend/server.js:169-179 | when all rows and records share one destination, the string-keyed overlay equals the pair-keyed one |
| RouteSearch.Resolve | backend/server.js:140-151 | destination resolution never answers 404 |
| RouteSearch.ProbeMeaning | backend/server.js:143-147 | the search callback answers true only for an airport matching by city, English name (case-insensitive) or Chinese name; on an airport with both names it answers true exactly when the airport matches; it passes an airport exactly when it has both names and none matches |
| RouteSearch.ResolveSpec | backend/server.js:139-151 | an empty input or a three-capital-letter code passes through; a resolved code belongs to a matching airport before which none matched; with no match among fully named airports the input is used; a throw needs an airport lacking a name |
| RouteSearch.ResolveFindsFirstMatch | backend/server.js:140-151 | a free-text input resolves to the code of the first matching airport when it and every airport before it have both names |
| RouteSearch.SearchRoutes | backend/server.js:133-213 | the search never answers 404, and answers whenever the destination is empty or a code |
| RouteSearch.MergedKeepsDestination | backend/server.js:153-180 | with a destination code set, every filtered and overlaid row goes there |
| RouteSearch.MergedAsWrittenAgrees | backend/server.js:153-180 | the string-keyed merge equals the pair-keyed one whenever a destination code is set, and whenever no airline code contains '-' |
| RouteSearch.RankedIsSorted | backend/server.js:182-191 | the ranked rows are a permutation of the filtered rows, non-increasing in the chosen key |
| RouteSearch.RankedDestination | backend/server.js:153-191 | with a destination code set, every ranked row goes there |
| RouteSearch.RowsArePrefix | backend/server.js:193-207 | the response rows are the first min(limit, ranked rows) of the ranked rows |
| RouteSearch.SearchRoutesSpec | backend/server.js:139-207 | the whole promise: destination kept, ordered by the key, length min(limit, filtered rows), a prefix of a permutation of the filtered rows, no row left out ranking above one kept |
| RouteSearch.UnknownSortIsComposite | backend/server.js:183-191 | any other `sort` value orders by composite score |
| RouteSearch.EnrichNames | backend/server.js:196-207 | with the last airport record for the destination code, the city is its `city_zh` else the route's, and the airport name its English name, else its Chinese name, else the route's; with no such record both come from the route; the airline name is English else Chinese |
| Punctuality.OnTimeCount | backend/server.js:290-292 | the on-time flights are never more than the flights |
| Punctuality.OnTimeRateBounds | backend/server.js:290-294 | the on-time rate is a percentage in [0, 100] |
| Punctuality.AllOnTime | backend/server.js:290-294 | with every flight on time the rate is 100 |
| Punctuality.NoneOnTime | backend/server.js:290-294 | with no flight on time the rate is 0 |
| Punctuality.OnTimeRateSpec | backend/server.js:272-273 | the rate is in [0, 100], 0 without flights, 100 when all are on time, 0 when none is |
| Punctuality.AvgDelayBounds | backend/server.js:270-271 | the average delay lies between the least and the greatest delay (absent counted as 0), and is 0 without flights |
| Punctuality.AvgDelayIsMean | backend/server.js:270-271 | the average delay times the number of flights is the total delay, absent delays counting as 0 |
| RouteDetail.RouteDetail | backend/server.js:228-276 | 404 "Route not found" exactly when no summary route has the (airline, destination) key; never a 500 |
| RouteDetail.DetailRoute | backend/server.js:229-245 | the route is the first summary route with the key; the monthly records are exactly those with the key |
| RouteDetail.DetailMetrics | backend/server.js:248-273 | at most 50 flights, the first of the route's flights in fixture order, feed the average delay and an on-time rate in [0, 100]; both are 0 without flights |
| RouteDetail.DetailWeather | backend/server.js:254-274 | the weather is absent exactly when the destination has no record, and otherwise is its first record |
| RouteDetail.MissingRouteIs404 | backend/server.js:234-236 | an unknown route answers 404 "Route not found" |
| Stats.GlobalStats | backend/server.js:296-299 | the totals count routes, airlines and flights |
| Stats.StatsOnTimeRate | backend/server.js:289-294 | the global on-time rate is in [0, 100], 0 without flights, 100 when all are on time |
| Stats.StatsMeansInRange | backend/server.js:300-302 | each mean score lies within the range of the scores it averages |
| Stats.StatsCompositeIsBlend | backend/server.js:300-302 | when every route's composite is the 0.6 / 0.4 blend, so is the mean composite of the means |
| Stats.NoFlightsExample | backend/server.js:293-294 | with no flights the rate is 0 |
| AirportDetail.AirportDetail | backend/server.js:338-365 | 404 "Airport not found" exactly when no airport has the code; never a 500 |
| AirportDetail.AirportRecord | backend/server.js:340-361 | the record is the first airport with the code, named English else Chinese, with the city falling back to the code |
| AirportDetail.AirlineCodesBound | backend/server.js:363 | distinct airline codes are never more than the routes, and present when a route is |
| AirportDetail.AirportCounts | backend/server.js:347-363 | `routes` counts exactly the routes to the code; `airlines` counts their distinct airlines, at most `routes`, and 0 exactly when `routes` is 0 |
| AirportDetail.RecentWeatherSpec | backend/server.js:352-354 | at most seven records, only that airport's, latest first, and no record left out is later than one kept |
| AirportDetail.RecentWeather | backend/server.js:352-364 | the response's recent weather is that airport's recent weather |

## Left out

- Loading fixtures (server.js:17-26) is file I/O and JSON parsing. The model takes the
  parsed sequences as inputs; a fixture that fails to load is the empty sequence.
- Express and CORS set-up, `res.status(...).json`, the `catch` blocks and `app.listen`
  (server.js:1-14, 372-381) are HTTP plumbing. An exception is modelled as `ServerError`.
- `/api/airlines` (server.js:62-74) only adds a name fallback to each record, and
  `/api/months` (server.js:313-333) returns a constant table. Neither computes anything
  worth a contract.
- IEEE-754 doubles and `toFixed(1)` (server.js:273, 294, 303) are not modelled. Arithmetic
  is exact, and the percentage is stated before rounding.
- `localeCompare` collation (server.js:53) is replaced by lexicographic order on
  character codes.
- Destinations.ListDestinations: answers `ServerError` whenever a nameless entry is listed
  next to another, an over-approximation. The source dereferences only the comparator's
  first argument, so whether it throws depends on the comparisons the engine's sort
  makes, which the model does not fix.
- RouteSearch.SearchRoutes: overlays monthly records by the (airline, destination) pair,
  not by the string `${airline}-${destination}` (server.js:171-176). The two differ only
  when no destination is given and an airline code contains '-'
  (`MonthlyOverlay.StringKeyCollides`, `RouteSearch.MergedAsWrittenAgrees`); the string
  form is modelled as `RouteSearch.MergedAsWritten`.
- `new Date(...)` parsing (server.js:353) is replaced by an integer date in the record.
- `toLowerCase` (server.js:145) lower-cases ASCII letters only, not all of Unicode.
- The grouping object in popular destinations orders integer-like keys first, and
  treats a key such as `__proto__` specially. The model keeps plain first-appearance
  order.
- A `null` field in a monthly record overrides the summary's field in a spread. The model
  treats `null` like an absent field and keeps the summary's value.
- Fields that no computation reads (daily averages, punctuality statistics and the like)
  travel through the handlers unchanged and are not modelled.
- A comparator over a missing numeric score yields NaN in JavaScript. The model gives
  every route its scores.
- `parseInt` of a garbage or negative `limit` (server.js:194) is not modelled. `limit` is
  a natural number, or absent for the default of 10.
- `month` is compared with `==` against the query string (server.js:164). The model takes
  the month as an integer.
- The frontend (frontend/app.js) renders the responses and is not part of this model.
- Stats.GlobalStats: requires a non-empty route collection. The source divides by
  `routes.length` and would report NaN averages for an empty one.
- Sorting.SortBy: stability, which JavaScript's sort guarantees and which decides the
  order among equal keys, is not stated as a lemma.

## Findings

| source | as written | input that shows it | evidently intended | confidence | as-written member | corrected member |
|---|---|---|---|---|---|---|
| backend/server.js:171-176 | the monthly lookup is keyed by the string `airline + "-" + destination` | a summary row with airline `A` and destination `B-C`, and a monthly record with airline `A-B` and destination `C` for the requested month: both keys are `A-B-C`, so the row takes the monthly record's fields, codes included | key the lookup by the (airline, destination) pair | low; assumes airline and airport codes never contain '-', as IATA-style codes do not; not executed | MonthlyOverlay.StringKeyCollides | MonthlyOverlay.OverlaySpec |
