/** `GET /api/stats`: totals over the fixtures, mean scores over all summary routes and
    the on-time rate over all flights (backend/server.js, handler 6). */
module Stats {
  import opened Seqs
  import opened Records
  import opened Punctuality

  /** The response body; `onTimeRate` is the percentage before rounding to one decimal. */
  datatype Stats = Stats(
    totalRoutes: nat,
    totalAirlines: nat,
    totalFlights: nat,
    avgSafety: real,
    avgComfort: real,
    avgComposite: real,
    onTimeRate: real)

  /** The handler's body after loading `route_summary.json`, `airline_summary.json` and
      `flights.json`. The means divide by the number of routes without a guard, so the
      route collection must not be empty. */
  function GlobalStats(routes: seq<Route>, airlines: seq<Airline>, flights: seq<Flight>): (s: Stats)
    requires |routes| > 0
    ensures s.totalRoutes == |routes| && s.totalAirlines == |airlines| && s.totalFlights == |flights|
  {
    var n := |routes| as real;
    Stats(
      |routes|,
      |airlines|,
      |flights|,
      Sum(routes, SafetyOf) / n,
      Sum(routes, ComfortOf) / n,
      Sum(routes, CompositeOf) / n,
      OnTimeRate(flights))
  }

  /** The on-time rate is a percentage, 0 (not NaN) when there are no flights, and 100 when
      every flight is on time. */
  lemma StatsOnTimeRate(routes: seq<Route>, airlines: seq<Airline>, flights: seq<Flight>)
    requires |routes| > 0
    ensures var s := GlobalStats(routes, airlines, flights);
      && 0.0 <= s.onTimeRate <= 100.0
      && (|flights| == 0 ==> s.onTimeRate == 0.0)
      && (|flights| > 0 && (forall i :: 0 <= i < |flights| ==> OnTime(flights[i])) ==> s.onTimeRate == 100.0)
  {
    OnTimeRateSpec(flights);
  }

  /** Each mean score lies within the range of the scores it averages. */
  lemma StatsMeansInRange(routes: seq<Route>, airlines: seq<Airline>, flights: seq<Flight>, lo: real, hi: real)
    requires |routes| > 0
    requires forall r :: r in routes ==> lo <= r.safety <= hi && lo <= r.comfort <= hi && lo <= r.composite <= hi
    ensures var s := GlobalStats(routes, airlines, flights);
      && lo <= s.avgSafety <= hi
      && lo <= s.avgComfort <= hi
      && lo <= s.avgComposite <= hi
  {
    MeanInRange(routes, SafetyOf, lo, hi);
    MeanInRange(routes, ComfortOf, lo, hi);
    MeanInRange(routes, CompositeOf, lo, hi);
  }

  lemma MeanInRange(routes: seq<Route>, f: Route -> real, lo: real, hi: real)
    requires |routes| > 0
    requires forall r :: r in routes ==> lo <= f(r) <= hi
    ensures lo <= Sum(routes, f) / |routes| as real <= hi
  {
    SumBounds(routes, f, lo, hi);
    DivBetween(Sum(routes, f), |routes| as real, lo, hi);
  }

  /** When every route's stored composite score is the 0.6 / 0.4 blend of its safety and
      comfort scores, the mean composite is the same blend of the mean scores. */
  lemma StatsCompositeIsBlend(routes: seq<Route>, airlines: seq<Airline>, flights: seq<Flight>)
    requires |routes| > 0
    requires forall r :: r in routes ==> r.composite == 0.6 * r.safety + 0.4 * r.comfort
    ensures var s := GlobalStats(routes, airlines, flights);
      s.avgComposite == 0.6 * s.avgSafety + 0.4 * s.avgComfort
  {
    var n := |routes| as real;
    var a, b, c := Sum(routes, SafetyOf), Sum(routes, ComfortOf), Sum(routes, CompositeOf);
    SumLinear(routes, SafetyOf, ComfortOf, CompositeOf, 0.6, 0.4);
    assert c == 0.6 * a + 0.4 * b;
    BlendOfMeans(a, b, n);
    var s := GlobalStats(routes, airlines, flights);
    assert s.avgSafety == a / n && s.avgComfort == b / n && s.avgComposite == c / n;
  }

  lemma BlendOfMeans(a: real, b: real, n: real)
    requires n > 0.0
    ensures (0.6 * a + 0.4 * b) / n == 0.6 * (a / n) + 0.4 * (b / n)
  {
    assert (0.6 * a + 0.4 * b) / n == 0.6 * a / n + 0.4 * b / n;
  }

  /** The example of an empty flight collection: the rate is 0. */
  lemma NoFlightsExample(routes: seq<Route>, airlines: seq<Airline>)
    requires |routes| > 0
    ensures GlobalStats(routes, airlines, []).onTimeRate == 0.0
  {
  }
}
