/** `GET /api/routes`: resolve the destination, filter, overlay the month, sort by the
    chosen score, cut to the limit and add display names (backend/server.js, handler 4). */
module RouteSearch {
  import opened Fields
  import opened Seqs
  import opened Sorting
  import opened Strings
  import opened Records
  import opened MonthlyOverlay

  /** The query string. An absent or empty `destination` is "" (both are falsy); an absent
      or empty `month` is `None`; `sort` is the raw parameter; `limit` is the parsed number. */
  datatype Query = Query(destination: string, month: Option<int>, sort: string, limit: Option<nat>)

  /** One response row: the route with the names the handler adds. */
  datatype SearchRow = SearchRow(route: Route, cityName: Option<string>, airportName: Option<string>, airlineName: Option<string>)

  datatype SortKey = SafetyScore | ComfortScore | FlightCount | CompositeScore

  const DefaultLimit: nat := 10

  function LimitOf(q: Query): nat {
    if q.limit.Some? then q.limit.value else DefaultLimit
  }

  /** The `if`/`else if` chain over `sort`: every other value, the absent one included,
      sorts by composite score. */
  function ParseSort(sort: string): SortKey {
    if sort == "safety_score" then SafetyScore
    else if sort == "comfort_score" then ComfortScore
    else if sort == "flight_count" then FlightCount
    else CompositeScore
  }

  function KeyOf(k: SortKey, r: Route): real {
    match k
    case SafetyScore => r.safety
    case ComfortScore => r.comfort
    case FlightCount => r.flightCount as real
    case CompositeScore => r.composite
  }

  /** `(a, b) => b[key] - a[key]` read as "may `a` stay before `b`". */
  function ByKey(k: SortKey): (Route, Route) -> bool {
    (a: Route, b: Route) => KeyOf(k, a) >= KeyOf(k, b)
  }

  // ----- Resolving the destination.

  /** What the `find` callback does with one airport: the city test, then the English name
      (whose `toLowerCase` throws when the name is absent), then the Chinese name (whose
      `includes` throws when absent). */
  datatype Probe = Hit | Miss | Throws

  function ProbeAirport(a: Airport, dest: string): Probe {
    if a.cityZh == Some(dest) then Hit
    else if a.nameEn.None? then Throws
    else if Contains(Lower(a.nameEn.value), Lower(dest)) then Hit
    else if a.nameZh.None? then Throws
    else if Contains(a.nameZh.value, dest) then Hit
    else Miss
  }

  /** The `find` stops at the first airport where the callback returns true or throws. */
  function Decisive(dest: string): Airport -> bool {
    (a: Airport) => ProbeAirport(a, dest) != Miss
  }

  /** `destinationCode`: the input itself when it is empty or an airport code, otherwise the
      code of the first airport that matches it, or the input when none does. */
  function Resolve(dest: string, airports: seq<Airport>): (r: Response<string>)
    ensures !r.NotFound?
  {
    if dest == "" || IsAirportCode(dest) then Ok(dest)
    else
      var i := FirstIndex(airports, Decisive(dest));
      if i.None? then Ok(dest)
      else if ProbeAirport(airports[i.value], dest) == Hit then Ok(airports[i.value].code)
      else ServerError
  }

  /** The airport matches the free-text destination by one of the three tests. */
  predicate Matches(a: Airport, dest: string) {
    || a.cityZh == Some(dest)
    || (a.nameEn.Some? && Contains(Lower(a.nameEn.value), Lower(dest)))
    || (a.nameZh.Some? && Contains(a.nameZh.value, dest))
  }

  /** The airport has both names, so testing it cannot throw. */
  predicate Named(a: Airport) {
    a.nameEn.Some? && a.nameZh.Some?
  }

  lemma ProbeMeaning(a: Airport, dest: string)
    ensures ProbeAirport(a, dest) == Hit ==> Matches(a, dest)
    ensures ProbeAirport(a, dest) == Miss <==> Named(a) && !Matches(a, dest)
    ensures Named(a) ==> (ProbeAirport(a, dest) == Hit <==> Matches(a, dest))
  {
  }

  /** What resolution promises: airport codes and the empty input pass through; a found
      code belongs to a matching airport before which none matched; with every airport
      named and none matching, the input is used as the code. */
  lemma ResolveSpec(dest: string, airports: seq<Airport>)
    ensures dest == "" || IsAirportCode(dest) ==> Resolve(dest, airports) == Ok(dest)
    ensures !IsAirportCode(dest) && Resolve(dest, airports).Ok? && Resolve(dest, airports).payload != dest ==>
      exists i :: 0 <= i < |airports|
        && airports[i].code == Resolve(dest, airports).payload
        && Matches(airports[i], dest)
        && forall j :: 0 <= j < i ==> Named(airports[j]) && !Matches(airports[j], dest)
    ensures (forall j :: 0 <= j < |airports| ==> Named(airports[j]) && !Matches(airports[j], dest)) ==>
      Resolve(dest, airports) == Ok(dest)
    ensures Resolve(dest, airports).ServerError? ==>
      exists i :: 0 <= i < |airports| && !Named(airports[i])
  {
    var r := Resolve(dest, airports);
    if dest != "" && !IsAirportCode(dest) {
      var fi := FirstIndex(airports, Decisive(dest));
      if fi.Some? {
        var i := fi.value;
        ProbeMeaning(airports[i], dest);
        forall j | 0 <= j < i
          ensures Named(airports[j]) && !Matches(airports[j], dest)
        {
          assert !Decisive(dest)(airports[j]);
          ProbeMeaning(airports[j], dest);
        }
      } else {
        forall j | 0 <= j < |airports|
          ensures Named(airports[j]) && !Matches(airports[j], dest)
        {
          assert !Decisive(dest)(airports[j]);
          ProbeMeaning(airports[j], dest);
        }
      }
      if forall j :: 0 <= j < |airports| ==> Named(airports[j]) && !Matches(airports[j], dest) {
        forall j | 0 <= j < |airports|
          ensures !Decisive(dest)(airports[j])
        {
          ProbeMeaning(airports[j], dest);
        }
      }
    }
  }

  /** The converse direction: when airport `i` is the first to match and every airport before
      it is fully named, the free-text input resolves to that airport's code. */
  lemma ResolveFindsFirstMatch(dest: string, airports: seq<Airport>, i: int)
    ensures dest != "" && !IsAirportCode(dest) && 0 <= i < |airports|
      && Named(airports[i]) && Matches(airports[i], dest)
      && (forall j :: 0 <= j < i ==> Named(airports[j]) && !Matches(airports[j], dest))
      ==> Resolve(dest, airports) == Ok(airports[i].code)
  {
    if dest != "" && !IsAirportCode(dest) && 0 <= i < |airports|
      && Named(airports[i]) && Matches(airports[i], dest)
      && (forall j :: 0 <= j < i ==> Named(airports[j]) && !Matches(airports[j], dest))
    {
      ProbeMeaning(airports[i], dest);
      forall j | 0 <= j < i
        ensures !Decisive(dest)(airports[j])
      {
        ProbeMeaning(airports[j], dest);
      }
      FirstIndexIs(airports, Decisive(dest), i);
    }
  }

  // ----- Filtering, sorting, limiting, naming.

  /** `routes.filter(route => route.destination_code === destinationCode)` when a code is set. */
  function ByDestination(routes: seq<Route>, code: string): seq<Route> {
    if code == "" then routes else Filter(routes, (r: Route) => r.destination == code)
  }

  /** The rows after the monthly overlay, when a month is asked for. */
  function Merged(routes: seq<Route>, monthly: seq<Route>, month: Option<int>, code: string): seq<Route> {
    var filtered := ByDestination(routes, code);
    if month.Some? then Overlay(filtered, MonthlyFor(monthly, month.value, code)) else filtered
  }

  /** The rows after the overlay as the handler writes it, keyed by the string
      `${airline}-${destination}`. */
  function MergedAsWritten(routes: seq<Route>, monthly: seq<Route>, month: Option<int>, code: string): seq<Route> {
    var filtered := ByDestination(routes, code);
    if month.Some? then OverlayAsWritten(filtered, MonthlyFor(monthly, month.value, code)) else filtered
  }

  /** The string-keyed merge and the pair-keyed one differ only when no destination is given
      and some airline code contains '-': with a destination code every row and every monthly
      record share the destination, so the string key tells airlines apart exactly. */
  lemma MergedAsWrittenAgrees(routes: seq<Route>, monthly: seq<Route>, month: Option<int>, code: string)
    ensures code != "" ==> MergedAsWritten(routes, monthly, month, code) == Merged(routes, monthly, month, code)
    ensures ((forall i :: 0 <= i < |routes| ==> '-' !in routes[i].airline)
             && (forall k :: 0 <= k < |monthly| ==> '-' !in monthly[k].airline)) ==>
      MergedAsWritten(routes, monthly, month, code) == Merged(routes, monthly, month, code)
  {
    if month.Some? {
      var filtered := ByDestination(routes, code);
      var ms := MonthlyFor(monthly, month.value, code);
      if code != "" {
        assert forall i :: 0 <= i < |filtered| ==> filtered[i].destination == code by {
          forall i | 0 <= i < |filtered| ensures filtered[i].destination == code {
            assert filtered[i] in filtered;
          }
        }
        forall k | 0 <= k < |ms| ensures ms[k].destination == code {
          assert InMonth(month.value, code)(ms[k]);
        }
        AsWrittenAgreesForOneDestination(filtered, ms, code);
      }
      if (forall i :: 0 <= i < |routes| ==> '-' !in routes[i].airline)
        && (forall k :: 0 <= k < |monthly| ==> '-' !in monthly[k].airline)
      {
        forall i | 0 <= i < |filtered| ensures '-' !in filtered[i].airline {
          assert filtered[i] in routes;
        }
        forall k | 0 <= k < |ms| ensures '-' !in ms[k].airline {
          assert ms[k] in monthly;
        }
        AsWrittenAgreesWithoutDashes(filtered, ms);
      }
    }
  }

  /** The final `map`: city and airport names from the last airport record with the route's
      destination code (the `airportMap` keeps the last `set`), else the route's own fields. */
  function Enrich(r: Route, airports: seq<Airport>): SearchRow {
    var a := Last(airports, (x: Airport) => x.code == r.destination);
    var city := if a.Some? then a.value.cityZh else None;
    var nameEn := if a.Some? then a.value.nameEn else None;
    var nameZh := if a.Some? then a.value.nameZh else None;
    SearchRow(r, Or(city, r.cityZh), Or(Or(nameEn, nameZh), r.destinationName), Or(r.airlineNameEn, r.airlineNameZh))
  }

  /** The handler's body after loading `route_summary.json`, `airports.json` and, when a
      month is given, `route_monthly_summary.json`. */
  function SearchRoutes(q: Query, routes: seq<Route>, monthly: seq<Route>, airports: seq<Airport>): (r: Response<seq<SearchRow>>)
    ensures !r.NotFound?
    ensures IsAirportCode(q.destination) || q.destination == "" ==> r.Ok?
  {
    var resolved := Resolve(q.destination, airports);
    if resolved.ServerError? then ServerError
    else
      var code := resolved.payload;
      var sorted := SortBy(ByKey(ParseSort(q.sort)), Merged(routes, monthly, q.month, code));
      var top := Take(sorted, LimitOf(q));
      Ok(seq(|top|, i requires 0 <= i < |top| => Enrich(top[i], airports)))
  }

  lemma ByKeyIsTotalPreorder(k: SortKey)
    ensures TotalPreorder(ByKey(k))
  {
  }

  /** The overlay keeps each row's destination code. */
  lemma MergedKeepsDestination(routes: seq<Route>, monthly: seq<Route>, month: Option<int>, code: string)
    requires code != ""
    ensures forall x :: x in Merged(routes, monthly, month, code) ==> x.destination == code
  {
    var filtered := ByDestination(routes, code);
    if month.Some? {
      var ms := MonthlyFor(monthly, month.value, code);
      forall x | x in Overlay(filtered, ms)
        ensures x.destination == code
      {
        var i :| 0 <= i < |filtered| && Overlay(filtered, ms)[i] == x;
        OverlaySpec(filtered, ms, i);
      }
    }
  }

  /** The resolved code of a successful search. */
  function ResolvedCode(q: Query, airports: seq<Airport>): string
    requires Resolve(q.destination, airports).Ok?
  {
    Resolve(q.destination, airports).payload
  }

  /** All matching rows in response order, before the limit. */
  function Ranked(q: Query, routes: seq<Route>, monthly: seq<Route>, airports: seq<Airport>): seq<Route>
    requires Resolve(q.destination, airports).Ok?
  {
    SortBy(ByKey(ParseSort(q.sort)), Merged(routes, monthly, q.month, ResolvedCode(q, airports)))
  }

  /** The response rows are the first `min(limit, |ranked|)` ranked routes. */
  lemma RowsArePrefix(q: Query, routes: seq<Route>, monthly: seq<Route>, airports: seq<Airport>)
    requires SearchRoutes(q, routes, monthly, airports).Ok?
    ensures var ranked := Ranked(q, routes, monthly, airports);
      var rows := SearchRoutes(q, routes, monthly, airports).payload;
      && |rows| == (if LimitOf(q) < |ranked| then LimitOf(q) else |ranked|)
      && forall i :: 0 <= i < |rows| ==> rows[i].route == ranked[i]
  {
  }

  /** The ranked rows are a permutation of the filtered, overlaid routes, ordered by the
      chosen score from highest to lowest. */
  lemma RankedIsSorted(q: Query, routes: seq<Route>, monthly: seq<Route>, airports: seq<Airport>)
    requires Resolve(q.destination, airports).Ok?
    ensures var ranked := Ranked(q, routes, monthly, airports);
      var merged := Merged(routes, monthly, q.month, ResolvedCode(q, airports));
      && multiset(ranked) == multiset(merged)
      && |merged| == |ByDestination(routes, ResolvedCode(q, airports))|
      && forall i, j :: 0 <= i < j < |ranked| ==> KeyOf(ParseSort(q.sort), ranked[i]) >= KeyOf(ParseSort(q.sort), ranked[j])
  {
    var k := ParseSort(q.sort);
    var ranked := Ranked(q, routes, monthly, airports);
    ByKeyIsTotalPreorder(k);
    SortBySorted(ByKey(k), Merged(routes, monthly, q.month, ResolvedCode(q, airports)));
    assert forall i, j :: 0 <= i < j < |ranked| ==> ByKey(k)(ranked[i], ranked[j]);
  }

  /** With a destination code set, every ranked row goes there. */
  lemma RankedDestination(q: Query, routes: seq<Route>, monthly: seq<Route>, airports: seq<Airport>)
    requires Resolve(q.destination, airports).Ok? && ResolvedCode(q, airports) != ""
    ensures forall x :: x in Ranked(q, routes, monthly, airports) ==> x.destination == ResolvedCode(q, airports)
  {
    var merged := Merged(routes, monthly, q.month, ResolvedCode(q, airports));
    MergedKeepsDestination(routes, monthly, q.month, ResolvedCode(q, airports));
    SameElements(Ranked(q, routes, monthly, airports), merged);
  }

  /** What the search promises: with a destination code set every row goes there; rows are
      ordered by the chosen score, highest first; there are `min(limit, matching rows)` of
      them; and they are the leading part of the ranked rows, which are a permutation of
      the filtered (and overlaid) routes, so no row left out ranks above one kept. */
  lemma SearchRoutesSpec(q: Query, routes: seq<Route>, monthly: seq<Route>, airports: seq<Airport>)
    requires SearchRoutes(q, routes, monthly, airports).Ok?
    ensures var code := ResolvedCode(q, airports);
      var merged := Merged(routes, monthly, q.month, code);
      var k := ParseSort(q.sort);
      var ranked := Ranked(q, routes, monthly, airports);
      var rows := SearchRoutes(q, routes, monthly, airports).payload;
      && |rows| == (if LimitOf(q) < |ByDestination(routes, code)| then LimitOf(q) else |ByDestination(routes, code)|)
      && (code != "" ==> forall i :: 0 <= i < |rows| ==> rows[i].route.destination == code)
      && (forall i, j :: 0 <= i < j < |rows| ==> KeyOf(k, rows[i].route) >= KeyOf(k, rows[j].route))
      && multiset(ranked) == multiset(merged)
      && (forall i :: 0 <= i < |rows| ==> rows[i].route == ranked[i])
      && (forall i, j :: 0 <= i < |rows| <= j < |ranked| ==> KeyOf(k, rows[i].route) >= KeyOf(k, ranked[j]))
  {
    var code := ResolvedCode(q, airports);
    var ranked := Ranked(q, routes, monthly, airports);
    var rows := SearchRoutes(q, routes, monthly, airports).payload;
    RowsArePrefix(q, routes, monthly, airports);
    RankedIsSorted(q, routes, monthly, airports);
    if code != "" {
      RankedDestination(q, routes, monthly, airports);
      forall i | 0 <= i < |rows|
        ensures rows[i].route.destination == code
      {
        assert ranked[i] in ranked;
      }
    }
  }

  /** Any `sort` value other than the three score names orders by composite score. */
  lemma UnknownSortIsComposite(sort: string)
    requires sort != "safety_score" && sort != "comfort_score" && sort != "flight_count"
    ensures ParseSort(sort) == CompositeScore
  {
  }

  /** Names on a row come from the route's destination airport record when it has them,
      and from the route otherwise; with several records for one code the last one wins, as
      the `airportMap` filled in array order keeps it. */
  lemma EnrichNames(r: Route, airports: seq<Airport>)
    ensures var row := Enrich(r, airports);
      && row.route == r
      && row.airlineName == Or(r.airlineNameEn, r.airlineNameZh)
      && ((forall j :: 0 <= j < |airports| ==> airports[j].code != r.destination) ==>
            row.cityName == r.cityZh && row.airportName == r.destinationName)
      && (forall j :: (0 <= j < |airports| && airports[j].code == r.destination
            && (forall k :: j < k < |airports| ==> airports[k].code != r.destination)) ==>
            row.cityName == Or(airports[j].cityZh, r.cityZh)
            && row.airportName == Or(Or(airports[j].nameEn, airports[j].nameZh), r.destinationName))
  {
    var p := (x: Airport) => x.code == r.destination;
    forall j | 0 <= j < |airports| && airports[j].code == r.destination
        && (forall k :: j < k < |airports| ==> airports[k].code != r.destination)
      ensures Last(airports, p) == Some(airports[j])
    {
      var li := LastIndex(airports, p);
      assert p(airports[j]);
      assert li.Some?;
      assert li.value == j;
    }
  }
}
