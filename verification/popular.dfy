/** `GET /api/popular-destinations`: the routes grouped by destination, with flight totals
    and average scores per group, busiest first (backend/server.js, handler 3). */
module Popular {
  import opened Fields
  import opened Seqs
  import opened Sorting
  import opened Records

  /** The accumulator `destinationStats[code]` while the routes are walked: running totals
      and the routes seen so far. */
  datatype Tally = Tally(code: string, flightCount: int, airlineCount: nat, safetySum: real, comfortSum: real, routes: seq<Route>)

  /** A finished group: the tally's sums turned into averages and the composite score. */
  datatype Aggregate = Aggregate(code: string, flightCount: int, airlineCount: nat, avgSafety: real, avgComfort: real, composite: real, routes: seq<Route>)

  /** One entry of the response: the aggregate joined with its airport's display names. */
  datatype PopularDestination = PopularDestination(stats: Aggregate, airportName: Option<string>, city: string)

  function Fresh(code: string): Tally {
    Tally(code, 0, 0, 0.0, 0.0, [])
  }

  /** The four `+=` updates and the `push` for one route. */
  function Absorb(t: Tally, r: Route): Tally {
    Tally(t.code, t.flightCount + r.flightCount, t.airlineCount + 1, t.safetySum + r.safety, t.comfortSum + r.comfort, t.routes + [r])
  }

  function HasCode(code: string): Tally -> bool {
    (t: Tally) => t.code == code
  }

  /** One iteration of the `forEach`: the tally for the route's destination is created when
      missing (taking the last place in the object's key order), then updated. */
  function AddRoute(ts: seq<Tally>, r: Route): (u: seq<Tally>)
    ensures FirstIndex(ts, HasCode(r.destination)).Some? ==>
      var k := FirstIndex(ts, HasCode(r.destination)).value;
      |u| == |ts| && u[k] == Absorb(ts[k], r) && forall j :: 0 <= j < |ts| && j != k ==> u[j] == ts[j]
    ensures FirstIndex(ts, HasCode(r.destination)).None? ==>
      |u| == |ts| + 1 && u[..|ts|] == ts && u[|ts|] == Absorb(Fresh(r.destination), r)
  {
    if |ts| == 0 then [Absorb(Fresh(r.destination), r)]
    else if ts[0].code == r.destination then [Absorb(ts[0], r)] + ts[1..]
    else [ts[0]] + AddRoute(ts[1..], r)
  }

  /** The whole `forEach` over the routes, in array order. */
  function Tallies(routes: seq<Route>): seq<Tally> {
    if |routes| == 0 then []
    else AddRoute(Tallies(routes[..|routes| - 1]), routes[|routes| - 1])
  }

  /** The distinct destination codes in order of first appearance: the key order of
      `destinationStats`. */
  function Codes(routes: seq<Route>): (c: seq<string>)
    ensures forall i, j :: 0 <= i < j < |c| ==> c[i] != c[j]
    ensures forall x :: x in c <==> x in ActiveCodes(routes)
  {
    if |routes| == 0 then []
    else
      var p := routes[..|routes| - 1];
      var last := routes[|routes| - 1];
      assert routes == p + [last];
      var c := Codes(p);
      if last.destination in c then c else c + [last.destination]
  }

  /** The routes to `code`, in array order. */
  function Members(routes: seq<Route>, code: string): seq<Route> {
    Filter(routes, GoesTo(code))
  }

  /** The tally of one destination, stated directly over its members. */
  function TallyOf(routes: seq<Route>, code: string): Tally {
    var ms := Members(routes, code);
    Tally(code, SumInt(ms, FlightsOf), |ms|, Sum(ms, SafetyOf), Sum(ms, ComfortOf), ms)
  }

  /** Adding a route to the tally of its members' sums is the tally of one more member. */
  lemma TallyOfSnoc(routes: seq<Route>, code: string)
    requires |routes| > 0
    ensures var p := routes[..|routes| - 1];
      var last := routes[|routes| - 1];
      TallyOf(routes, code) == if last.destination == code then Absorb(TallyOf(p, code), last) else TallyOf(p, code)
  {
    var p := routes[..|routes| - 1];
    var last := routes[|routes| - 1];
    if last.destination == code {
      var ms := Members(p, code);
      assert Members(routes, code) == ms + [last];
      SnocSums(ms, last);
    }
  }

  /** The sums over one more route grow by that route's figures. */
  lemma SnocSums(ms: seq<Route>, last: Route)
    ensures SumInt(ms + [last], FlightsOf) == SumInt(ms, FlightsOf) + last.flightCount
    ensures Sum(ms + [last], SafetyOf) == Sum(ms, SafetyOf) + last.safety
    ensures Sum(ms + [last], ComfortOf) == Sum(ms, ComfortOf) + last.comfort
  {
    assert (ms + [last])[..|ms|] == ms;
  }

  /** A code that is not yet among the codes has no members. */
  lemma NoMembers(routes: seq<Route>, code: string)
    requires code !in Codes(routes)
    ensures TallyOf(routes, code) == Fresh(code)
  {
  }

  /** The tallies list, position by position, the tally of each code in key order. */
  ghost predicate GroupsMatch(routes: seq<Route>) {
    && |Tallies(routes)| == |Codes(routes)|
    && forall i :: 0 <= i < |Codes(routes)| ==> Tallies(routes)[i] == TallyOf(routes, Codes(routes)[i])
  }

  /** The step for a route whose destination already has a tally. */
  lemma {:induction false} StepExisting(routes: seq<Route>, k: nat)
    requires |routes| > 0
    requires GroupsMatch(routes[..|routes| - 1])
    requires k < |Codes(routes[..|routes| - 1])| && Codes(routes[..|routes| - 1])[k] == routes[|routes| - 1].destination
    ensures GroupsMatch(routes)
  {
    var p := routes[..|routes| - 1];
    var last := routes[|routes| - 1];
    var d := last.destination;
    var ts := Tallies(p);
    var cs := Codes(p);
    assert Codes(routes) == cs;
    assert HasCode(d)(ts[k]);
    var fi := FirstIndex(ts, HasCode(d));
    assert ts[fi.value].code == cs[fi.value];
    assert fi.value == k;
    var u := Tallies(routes);
    assert u == AddRoute(ts, last);
    forall i | 0 <= i < |cs|
      ensures u[i] == TallyOf(routes, cs[i])
    {
      TallyOfSnoc(routes, cs[i]);
      assert ts[i] == TallyOf(p, cs[i]);
      if i == k {
        assert u[i] == Absorb(ts[i], last);
      } else {
        assert cs[i] != d;
        assert u[i] == ts[i];
      }
    }
    assert |u| == |Codes(routes)|;
  }

  /** After a new destination, the earlier tallies stay those of their codes. */
  lemma StepNewOld(routes: seq<Route>, i: nat)
    requires |routes| > 0
    requires GroupsMatch(routes[..|routes| - 1])
    requires routes[|routes| - 1].destination !in Codes(routes[..|routes| - 1])
    requires i < |Codes(routes[..|routes| - 1])|
    ensures Tallies(routes)[i] == TallyOf(routes, Codes(routes[..|routes| - 1])[i])
  {
    var p := routes[..|routes| - 1];
    var last := routes[|routes| - 1];
    var ts := Tallies(p);
    var c := Codes(p)[i];
    TallyOfSnoc(routes, c);
    assert c != last.destination;
    assert Tallies(routes) == AddRoute(ts, last);
    assert Tallies(routes)[..|ts|][i] == ts[i];
  }

  /** After a new destination, the appended tally is that of its code. */
  lemma StepNewLast(routes: seq<Route>)
    requires |routes| > 0
    requires GroupsMatch(routes[..|routes| - 1])
    requires routes[|routes| - 1].destination !in Codes(routes[..|routes| - 1])
    ensures |Tallies(routes)| == |Codes(routes[..|routes| - 1])| + 1
    ensures Tallies(routes)[|Codes(routes[..|routes| - 1])|] == TallyOf(routes, routes[|routes| - 1].destination)
  {
    var p := routes[..|routes| - 1];
    var last := routes[|routes| - 1];
    var d := last.destination;
    var ts := Tallies(p);
    var cs := Codes(p);
    assert |ts| == |cs|;
    forall j | 0 <= j < |ts|
      ensures !HasCode(d)(ts[j])
    {
      assert ts[j] == TallyOf(p, cs[j]);
      assert cs[j] in cs;
    }
    assert FirstIndex(ts, HasCode(d)).None?;
    assert Tallies(routes) == AddRoute(ts, last);
    NoMembers(p, d);
    TallyOfSnoc(routes, d);
  }

  /** The step for a route to a destination seen for the first time. */
  lemma {:induction false} StepNew(routes: seq<Route>)
    requires |routes| > 0
    requires GroupsMatch(routes[..|routes| - 1])
    requires routes[|routes| - 1].destination !in Codes(routes[..|routes| - 1])
    ensures GroupsMatch(routes)
  {
    var p := routes[..|routes| - 1];
    var d := routes[|routes| - 1].destination;
    var cs := Codes(p);
    assert Codes(routes) == cs + [d];
    StepNewLast(routes);
    var u := Tallies(routes);
    forall i | 0 <= i < |cs| + 1
      ensures u[i] == TallyOf(routes, Codes(routes)[i])
    {
      if i < |cs| {
        StepNewOld(routes, i);
      }
    }
  }

  /** The accumulation loop computes, in key order, exactly the tally of each destination's
      members: the one-pass grouping agrees with the grouping stated per destination. */
  lemma {:induction false} TalliesAreGroups(routes: seq<Route>)
    ensures |Tallies(routes)| == |Codes(routes)|
    ensures forall i :: 0 <= i < |Codes(routes)| ==> Tallies(routes)[i] == TallyOf(routes, Codes(routes)[i])
  {
    if |routes| > 0 {
      var p := routes[..|routes| - 1];
      var d := routes[|routes| - 1].destination;
      TalliesAreGroups(p);
      if d in Codes(p) {
        var k :| 0 <= k < |Codes(p)| && Codes(p)[k] == d;
        StepExisting(routes, k);
      } else {
        StepNew(routes);
      }
    }
  }

  /** Every tally counts at least one route. */
  lemma TalliesNonEmpty(routes: seq<Route>)
    ensures forall t :: t in Tallies(routes) ==> |t.routes| > 0
  {
    TalliesAreGroups(routes);
    var ts := Tallies(routes);
    var cs := Codes(routes);
    forall t | t in ts
      ensures |t.routes| > 0
    {
      var i :| 0 <= i < |ts| && ts[i] == t;
      var ms := Members(routes, cs[i]);
      assert cs[i] in ActiveCodes(routes);
      var r :| r in routes && r.destination == cs[i];
      assert r in ms;
    }
  }

  /** The post-pass: sums divided by the group size and the 0.6 / 0.4 composite. */
  function Finalize(t: Tally): Aggregate
    requires |t.routes| > 0
  {
    var n := |t.routes| as real;
    var avgSafety := t.safetySum / n;
    var avgComfort := t.comfortSum / n;
    Aggregate(t.code, t.flightCount, t.airlineCount, avgSafety, avgComfort, avgSafety * 0.6 + avgComfort * 0.4, t.routes)
  }

  /** `(a, b) => b.flight_count - a.flight_count` read as "may `a` stay before `b`". */
  function ByFlights(): (Aggregate, Aggregate) -> bool {
    (a: Aggregate, b: Aggregate) => a.flightCount >= b.flightCount
  }

  /** The airport join: names from the first airport record with the code, else the code. */
  function Join(g: Aggregate, airports: seq<Airport>): PopularDestination {
    var a := FindAirport(airports, g.code);
    PopularDestination(
      g,
      if a.Some? then AirportName(a.value) else Some(g.code),
      if a.Some? then AirportCity(a.value) else g.code)
  }

  function AggregateCode(g: Aggregate): string {
    g.code
  }

  function EntryCode(e: PopularDestination): string {
    e.stats.code
  }

  /** The finished groups before sorting, in key order. */
  function Aggregates(routes: seq<Route>): (gs: seq<Aggregate>)
    ensures |gs| == |Tallies(routes)|
  {
    var ts := Tallies(routes);
    TalliesNonEmpty(routes);
    seq(|ts|, i requires 0 <= i < |ts| => Finalize(ts[i]))
  }

  /** The handler's body after loading `route_summary.json` and `airports.json`. */
  function PopularDestinations(routes: seq<Route>, airports: seq<Airport>): (r: seq<PopularDestination>)
    ensures |r| == |Codes(routes)|
  {
    TalliesAreGroups(routes);
    var sorted := SortBy(ByFlights(), Aggregates(routes));
    seq(|sorted|, i requires 0 <= i < |sorted| => Join(sorted[i], airports))
  }

  /** Each entry aggregates exactly the routes to its code. */
  predicate AggregatesMembers(routes: seq<Route>, g: Aggregate) {
    var ms := Members(routes, g.code);
    && |ms| > 0
    && g.routes == ms
    && g.flightCount == SumInt(ms, FlightsOf)
    && g.airlineCount == |ms|
    && g.avgSafety == Sum(ms, SafetyOf) / |ms| as real
    && g.avgComfort == Sum(ms, ComfortOf) / |ms| as real
    && g.composite == 0.6 * g.avgSafety + 0.4 * g.avgComfort
  }

  /** The aggregates, in key order, carry the distinct destination codes. */
  lemma AggregateCodes(routes: seq<Route>)
    ensures |Aggregates(routes)| == |Codes(routes)|
    ensures forall i :: 0 <= i < |Codes(routes)| ==> Aggregates(routes)[i].code == Codes(routes)[i]
  {
    TalliesAreGroups(routes);
  }

  lemma AggregatesDistinct(routes: seq<Route>)
    ensures KeysDistinct(Aggregates(routes), AggregateCode)
  {
    AggregateCodes(routes);
  }

  lemma AggregateCodeSet(routes: seq<Route>)
    ensures (set g | g in Aggregates(routes) :: g.code) == ActiveCodes(routes)
  {
    AggregateCodes(routes);
    var gs := Aggregates(routes);
    var cs := Codes(routes);
    forall c | c in ActiveCodes(routes)
      ensures c in (set g | g in gs :: g.code)
    {
      var i :| 0 <= i < |cs| && cs[i] == c;
      assert gs[i] in gs;
    }
  }

  lemma AggregatesAreMembers(routes: seq<Route>)
    ensures forall g :: g in Aggregates(routes) ==> AggregatesMembers(routes, g)
  {
    TalliesAreGroups(routes);
    TalliesNonEmpty(routes);
    var gs := Aggregates(routes);
    var cs := Codes(routes);
    forall g | g in gs
      ensures AggregatesMembers(routes, g)
    {
      var i :| 0 <= i < |gs| && gs[i] == g;
      assert Tallies(routes)[i] == TallyOf(routes, cs[i]);
    }
  }

  /** The response is the sorted aggregates, each joined with its airport. */
  lemma EntriesAreSortedAggregates(routes: seq<Route>, airports: seq<Airport>)
    ensures var r := PopularDestinations(routes, airports);
      var sorted := SortBy(ByFlights(), Aggregates(routes));
      |r| == |sorted| && forall i :: 0 <= i < |r| ==> r[i].stats == sorted[i]
  {
  }

  lemma PopularOrdered(routes: seq<Route>, airports: seq<Airport>)
    ensures var r := PopularDestinations(routes, airports);
      && KeysDistinct(r, EntryCode)
      && forall i, j :: 0 <= i < j < |r| ==> r[i].stats.flightCount >= r[j].stats.flightCount
  {
    var gs := Aggregates(routes);
    var sorted := SortBy(ByFlights(), gs);
    var r := PopularDestinations(routes, airports);
    EntriesAreSortedAggregates(routes, airports);
    AggregatesDistinct(routes);
    SortBySorted(ByFlights(), gs);
    SortByKeepsKeysDistinct(ByFlights(), AggregateCode, gs);
    assert forall i :: 0 <= i < |r| ==> EntryCode(r[i]) == AggregateCode(sorted[i]);
    assert forall i, j :: 0 <= i < j < |r| ==> ByFlights()(sorted[i], sorted[j]);
  }

  lemma PopularMembers(routes: seq<Route>, airports: seq<Airport>)
    ensures var r := PopularDestinations(routes, airports);
      forall e :: e in r ==> AggregatesMembers(routes, e.stats)
  {
    var gs := Aggregates(routes);
    var sorted := SortBy(ByFlights(), gs);
    var r := PopularDestinations(routes, airports);
    EntriesAreSortedAggregates(routes, airports);
    AggregatesAreMembers(routes);
    SameElements(sorted, gs);
    forall e | e in r
      ensures AggregatesMembers(routes, e.stats)
    {
      var i :| 0 <= i < |r| && r[i] == e;
      assert sorted[i] in sorted;
    }
  }

  lemma PopularCodes(routes: seq<Route>, airports: seq<Airport>)
    ensures var r := PopularDestinations(routes, airports);
      (set e | e in r :: e.stats.code) == ActiveCodes(routes)
  {
    var gs := Aggregates(routes);
    var sorted := SortBy(ByFlights(), gs);
    EntriesAreSortedAggregates(routes, airports);
    AggregateCodeSet(routes);
    SameElements(sorted, gs);
    CodesOfEntries(PopularDestinations(routes, airports), sorted, gs);
  }

  /** Entries carrying a rearrangement of the aggregates carry the same codes. */
  lemma CodesOfEntries(r: seq<PopularDestination>, sorted: seq<Aggregate>, gs: seq<Aggregate>)
    requires |r| == |sorted| && forall i :: 0 <= i < |r| ==> r[i].stats == sorted[i]
    requires forall g :: g in sorted <==> g in gs
    ensures (set e | e in r :: e.stats.code) == (set g | g in gs :: g.code)
  {
    var codes := set e | e in r :: e.stats.code;
    var gcodes := set g | g in gs :: g.code;
    forall c | c in codes
      ensures c in gcodes
    {
      var e :| e in r && e.stats.code == c;
      var i :| 0 <= i < |r| && r[i] == e;
      assert sorted[i] in sorted;
    }
    forall c | c in gcodes
      ensures c in codes
    {
      var g :| g in gs && g.code == c;
      var i :| 0 <= i < |sorted| && sorted[i] == g;
      assert r[i] in r;
    }
  }

  /** What the endpoint promises: one entry per distinct destination code, the busiest
      first, each entry's totals and averages taken over exactly the routes to its code,
      and the composite the 0.6 / 0.4 blend of the averages. */
  lemma PopularDestinationsSpec(routes: seq<Route>, airports: seq<Airport>)
    ensures var r := PopularDestinations(routes, airports);
      && KeysDistinct(r, EntryCode)
      && (set e | e in r :: e.stats.code) == ActiveCodes(routes)
      && (forall i, j :: 0 <= i < j < |r| ==> r[i].stats.flightCount >= r[j].stats.flightCount)
      && (forall e :: e in r ==> AggregatesMembers(routes, e.stats))
  {
    PopularOrdered(routes, airports);
    PopularMembers(routes, airports);
    PopularCodes(routes, airports);
  }

  /** The airport names come from the first airport with the code, or fall back to the code. */
  lemma PopularDestinationNames(routes: seq<Route>, airports: seq<Airport>, i: nat)
    requires i < |PopularDestinations(routes, airports)|
    ensures var e := PopularDestinations(routes, airports)[i];
      var a := FindAirport(airports, e.stats.code);
      && (a.None? ==> e.airportName == Some(e.stats.code) && e.city == e.stats.code)
      && (a.Some? ==> e.airportName == AirportName(a.value) && e.city == AirportCity(a.value))
  {
  }
}
