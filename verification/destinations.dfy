/** `GET /api/destinations`: the airports that some route flies to, one entry per airport
    code, ordered by display name (backend/server.js, handler 1). */
module Destinations {
  import opened Fields
  import opened Seqs
  import opened Sorting
  import opened Strings
  import opened Records

  /** One entry of the listing: `{code, name, city}`. `name` is absent when the airport has
      neither an English nor a Chinese name. */
  datatype Destination = Destination(code: string, name: Option<string>, city: string)

  function ToDestination(a: Airport): Destination {
    Destination(a.code, AirportName(a), AirportCity(a))
  }

  function DestinationCode(d: Destination): string {
    d.code
  }

  function CodeSet(ds: seq<Destination>): set<string> {
    set d | d in ds :: d.code
  }

  /** The `forEach` over the airports with its `seen` set: an airport is listed when its code
      is active and was not listed before. */
  function Pick(airports: seq<Airport>, active: set<string>, seen: set<string>): (r: seq<Destination>)
    ensures forall j :: 0 <= j < |r| ==> r[j].code in active && r[j].code !in seen
    ensures KeysDistinct(r, DestinationCode)
    ensures forall j :: 0 <= j < |r| ==>
      && FindAirport(airports, r[j].code).Some?
      && r[j] == ToDestination(FindAirport(airports, r[j].code).value)
  {
    if |airports| == 0 then []
    else
      var a := airports[0];
      if a.code in active && a.code !in seen then
        var rest := Pick(airports[1..], active, seen + {a.code});
        FindPastHead(airports, rest);
        FindAirportHead(airports);
        [ToDestination(a)] + rest
      else
        var rest := Pick(airports[1..], active, seen);
        FindPastHead(airports, rest);
        rest
  }

  /** The first airport is the one found for its own code. */
  lemma FindAirportHead(airports: seq<Airport>)
    requires |airports| > 0
    ensures FindAirport(airports, airports[0].code) == Some(airports[0])
  {
    FirstIndexIs(airports, (x: Airport) => x.code == airports[0].code, 0);
  }

  /** For codes other than the first airport's, the search finds what it finds in the rest. */
  lemma FindPastHead(airports: seq<Airport>, ds: seq<Destination>)
    requires |airports| > 0
    requires forall j :: 0 <= j < |ds| ==> ds[j].code != airports[0].code
    ensures forall j :: 0 <= j < |ds| ==> FindAirport(airports, ds[j].code) == FindAirport(airports[1..], ds[j].code)
  {
    forall j | 0 <= j < |ds|
      ensures FindAirport(airports, ds[j].code) == FindAirport(airports[1..], ds[j].code)
    {
      var c := ds[j].code;
      var p := (x: Airport) => x.code == c;
      assert FirstIndex(airports, p) == (var t := FirstIndex(airports[1..], p); if t.Some? then Some(t.value + 1) else None);
    }
  }

  /** Every airport whose code is active and not yet seen has its code listed. */
  lemma {:induction false} PickComplete(airports: seq<Airport>, active: set<string>, seen: set<string>)
    ensures forall i :: 0 <= i < |airports| && airports[i].code in active && airports[i].code !in seen ==>
      airports[i].code in CodeSet(Pick(airports, active, seen))
  {
    if |airports| > 0 {
      var a := airports[0];
      var seen' := if a.code in active && a.code !in seen then seen + {a.code} else seen;
      var rest := Pick(airports[1..], active, seen');
      PickComplete(airports[1..], active, seen');
      forall i | 0 <= i < |airports| && airports[i].code in active && airports[i].code !in seen
        ensures airports[i].code in CodeSet(Pick(airports, active, seen))
      {
        if i == 0 {
          assert Pick(airports, active, seen)[0] == ToDestination(a);
        } else if airports[i].code !in seen' {
          assert airports[1..][i - 1] == airports[i];
          var d :| d in rest && d.code == airports[i].code;
          assert d in Pick(airports, active, seen);
        } else {
          assert airports[i].code == a.code;
          assert Pick(airports, active, seen)[0] == ToDestination(a);
        }
      }
    }
  }

  /** The sort key: `a.name`; an absent name only ever reaches the sort alone. */
  function NameKey(d: Destination): string {
    if d.name.Some? then d.name.value else ""
  }

  /** `(a, b) => a.name.localeCompare(b.name)` read as "may `a` stay before `b`". */
  function ByName(): (Destination, Destination) -> bool {
    (x: Destination, y: Destination) => StrLe(NameKey(x), NameKey(y))
  }

  /** `a.name.localeCompare(...)` throws a `TypeError` when `a.name` is undefined. The sort
      compares only when there are at least two entries. */
  predicate SortThrows(ds: seq<Destination>) {
    |ds| >= 2 && exists d :: d in ds && d.name.None?
  }

  /** The handler's body after loading `airports.json` and `route_summary.json`. */
  function ListDestinations(airports: seq<Airport>, routes: seq<Route>): (r: Response<seq<Destination>>)
    ensures !r.NotFound?
  {
    var picked := Pick(airports, ActiveCodes(routes), {});
    if SortThrows(picked) then ServerError else Ok(SortBy(ByName(), picked))
  }

  lemma ByNameIsTotalPreorder()
    ensures TotalPreorder(ByName())
  {
    forall x: Destination, y: Destination
      ensures ByName()(x, y) || ByName()(y, x)
    {
      StrLeTotal(NameKey(x), NameKey(y));
    }
    forall x: Destination, y: Destination, z: Destination | ByName()(x, y) && ByName()(y, z)
      ensures ByName()(x, z)
    {
      StrLeTransitive(NameKey(x), NameKey(y), NameKey(z));
    }
  }

  /** What the listing promises: codes without repetition, exactly the airport codes that
      some route flies to, each entry built from the first airport record with its code,
      and the whole ordered by name. */
  lemma ListDestinationsSpec(airports: seq<Airport>, routes: seq<Route>)
    ensures var r := ListDestinations(airports, routes);
      r.Ok? ==>
        && KeysDistinct(r.payload, DestinationCode)
        && SortedBy(ByName(), r.payload)
        && (forall j :: 0 <= j < |r.payload| ==>
              && r.payload[j].code in ActiveCodes(routes)
              && FindAirport(airports, r.payload[j].code).Some?
              && r.payload[j] == ToDestination(FindAirport(airports, r.payload[j].code).value))
        && (forall i :: 0 <= i < |airports| && airports[i].code in ActiveCodes(routes) ==>
              airports[i].code in CodeSet(r.payload))
  {
    var picked := Pick(airports, ActiveCodes(routes), {});
    var sorted := SortBy(ByName(), picked);
    PickComplete(airports, ActiveCodes(routes), {});
    ByNameIsTotalPreorder();
    SortBySorted(ByName(), picked);
    SortByKeepsKeysDistinct(ByName(), DestinationCode, picked);
    SameElements(sorted, picked);
    forall j | 0 <= j < |sorted|
      ensures sorted[j] in picked
    {
      assert sorted[j] in sorted;
    }
    forall c | c in CodeSet(picked)
      ensures c in CodeSet(sorted)
    {
      var d :| d in picked && d.code == c;
      assert d in sorted;
    }
  }

  /** `airports[i]` is the record listed for its code, and it has no name in either language. */
  predicate ListedWithoutName(airports: seq<Airport>, active: set<string>, i: int) {
    && 0 <= i < |airports|
    && airports[i].code in active
    && FindAirport(airports, airports[i].code) == Some(airports[i])
    && AirportName(airports[i]).None?
  }

  /** Two different active airport codes occur among the airports. */
  predicate TwoListed(airports: seq<Airport>, active: set<string>) {
    exists i, k :: 0 <= i < |airports| && 0 <= k < |airports|
      && airports[i].code in active && airports[k].code in active
      && airports[i].code != airports[k].code
  }

  lemma {:induction false} FailsOnlyIfNameless(airports: seq<Airport>, routes: seq<Route>)
    requires ListDestinations(airports, routes).ServerError?
    ensures TwoListed(airports, ActiveCodes(routes))
    ensures exists i :: ListedWithoutName(airports, ActiveCodes(routes), i)
  {
    var active := ActiveCodes(routes);
    var picked := Pick(airports, active, {});
    var d :| d in picked && d.name.None?;
    var j :| 0 <= j < |picked| && picked[j] == d;
    var j' := if j == 0 then 1 else 0;
    var i := FirstIndex(airports, (x: Airport) => x.code == d.code).value;
    var k := FirstIndex(airports, (x: Airport) => x.code == picked[j'].code).value;
    assert picked[j].code != picked[j'].code;
    assert ListedWithoutName(airports, active, i);
  }

  lemma {:induction false} NamelessFails(airports: seq<Airport>, routes: seq<Route>, i: int, k: int)
    requires ListedWithoutName(airports, ActiveCodes(routes), i)
    requires 0 <= k < |airports| && airports[k].code in ActiveCodes(routes)
    requires airports[i].code != airports[k].code
    ensures ListDestinations(airports, routes).ServerError?
  {
    var active := ActiveCodes(routes);
    var picked := Pick(airports, active, {});
    PickComplete(airports, active, {});
    assert airports[i].code in CodeSet(picked);
    assert airports[k].code in CodeSet(picked);
    var d :| d in picked && d.code == airports[i].code;
    var e :| e in picked && e.code == airports[k].code;
    ListedEntry(picked, airports, d);
    assert d.name.None?;
    TwoElements(picked, d, e);
    assert SortThrows(picked);
  }

  /** An entry of the listing is built from the airport found for its code. */
  lemma ListedEntry(picked: seq<Destination>, airports: seq<Airport>, d: Destination)
    requires forall j :: 0 <= j < |picked| ==>
      && FindAirport(airports, picked[j].code).Some?
      && picked[j] == ToDestination(FindAirport(airports, picked[j].code).value)
    requires d in picked
    ensures d == ToDestination(FindAirport(airports, d.code).value)
  {
    var j :| 0 <= j < |picked| && picked[j] == d;
  }

  /** A sequence holding two different values has at least two elements. */
  lemma TwoElements<T>(s: seq<T>, x: T, y: T)
    requires x in s && y in s && x != y
    ensures |s| >= 2
  {
    var a :| 0 <= a < |s| && s[a] == x;
    var b :| 0 <= b < |s| && s[b] == y;
    assert a != b;
  }

  /** The listing fails exactly when a nameless airport is listed next to at least one other. */
  lemma ListDestinationsFails(airports: seq<Airport>, routes: seq<Route>)
    ensures ListDestinations(airports, routes).ServerError? <==>
      TwoListed(airports, ActiveCodes(routes)) && exists i :: ListedWithoutName(airports, ActiveCodes(routes), i)
  {
    var active := ActiveCodes(routes);
    if ListDestinations(airports, routes).ServerError? {
      FailsOnlyIfNameless(airports, routes);
    } else if TwoListed(airports, active) && exists i :: ListedWithoutName(airports, active, i) {
      var i :| ListedWithoutName(airports, active, i);
      var a, b :| 0 <= a < |airports| && 0 <= b < |airports|
        && airports[a].code in active && airports[b].code in active
        && airports[a].code != airports[b].code;
      var k := if airports[a].code != airports[i].code then a else b;
      NamelessFails(airports, routes, i, k);
    }
  }

  /** The example of one route to Haneda: the listing is that single airport. */
  lemma HanedaExample()
    ensures ListDestinations(
      [Airport("HND", Some("Haneda"), None, Some("Tokyo"))],
      [Route("AA", "HND", None, 10, 90.0, 80.0, 86.0, None, None, None, None)])
      == Ok([Destination("HND", Some("Haneda"), "Tokyo")])
  {
    var routes := [Route("AA", "HND", None, 10, 90.0, 80.0, 86.0, None, None, None, None)];
    assert routes[0] in routes;
    assert ActiveCodes(routes) == {"HND"};
  }
}
