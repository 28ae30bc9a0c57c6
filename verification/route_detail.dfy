/** `GET /api/routes/:airlineCode/:destinationCode`: one route with its airline, monthly
    records, flight metrics, weather and airport (backend/server.js, handler 5). */
module RouteDetail {
  import opened Fields
  import opened Seqs
  import opened Records
  import opened Punctuality

  /** At most this many flights enter the metrics. */
  const FlightWindow: nat := 50
  /** At most this many weather records are kept before the first is taken. */
  const WeatherWindow: nat := 30

  /** The response body. `flightCount` is the length of the flight slice the metrics use;
      `onTimeRate` is the percentage before rounding to one decimal. */
  datatype Detail = Detail(
    route: Route,
    airlineName: Option<string>,
    airportName: Option<string>,
    airline: Option<Airline>,
    monthly: seq<Route>,
    flightCount: nat,
    avgDelay: real,
    onTimeRate: real,
    weather: Option<Weather>,
    airport: Option<Airport>)

  function RouteKey(airlineCode: string, destinationCode: string): Route -> bool {
    (r: Route) => HasKey(r, airlineCode, destinationCode)
  }

  function FlightKey(airlineCode: string, destinationCode: string): Flight -> bool {
    (f: Flight) => f.airline == airlineCode && f.destination == destinationCode
  }

  /** The flights the metrics use: the first 50 of the route's flights, in fixture order. */
  function RouteFlights(flights: seq<Flight>, airlineCode: string, destinationCode: string): seq<Flight> {
    Take(Filter(flights, FlightKey(airlineCode, destinationCode)), FlightWindow)
  }

  /** `x?.a || x?.b || fallback`, for an optional airline or airport record. */
  function NameOr(en: Option<string>, zh: Option<string>, fallback: Option<string>): Option<string> {
    Or(Or(en, zh), fallback)
  }

  /** The handler's body after loading the six fixtures. */
  function RouteDetail(
    airlineCode: string, destinationCode: string,
    routes: seq<Route>, monthly: seq<Route>, airlines: seq<Airline>,
    flights: seq<Flight>, weather: seq<Weather>, airports: seq<Airport>): (r: Response<Detail>)
    ensures r.NotFound? <==> forall i :: 0 <= i < |routes| ==> !HasKey(routes[i], airlineCode, destinationCode)
    ensures r.NotFound? ==> r.message == "Route not found"
    ensures !r.ServerError?
  {
    var route := First(routes, RouteKey(airlineCode, destinationCode));
    if route.None? then NotFound("Route not found")
    else
      var airline := First(airlines, (a: Airline) => a.code == airlineCode);
      var airport := FindAirport(airports, destinationCode);
      var fs := RouteFlights(flights, airlineCode, destinationCode);
      var ws := Take(Filter(weather, WeatherAt(destinationCode)), WeatherWindow);
      Ok(Detail(
        route.value,
        NameOr(if airline.Some? then airline.value.nameEn else None,
               if airline.Some? then airline.value.nameZh else None,
               route.value.airlineNameZh),
        NameOr(if airport.Some? then airport.value.nameEn else None,
               if airport.Some? then airport.value.nameZh else None,
               route.value.destinationName),
        airline,
        Filter(monthly, RouteKey(airlineCode, destinationCode)),
        |fs|,
        AvgDelay(fs),
        OnTimeRate(fs),
        if |ws| > 0 then Some(ws[0]) else None,
        airport))
  }

  /** The detail of a found route: the route is the first summary route with the key, and
      the monthly records are exactly those with the key. */
  lemma DetailRoute(
    airlineCode: string, destinationCode: string,
    routes: seq<Route>, monthly: seq<Route>, airlines: seq<Airline>,
    flights: seq<Flight>, weather: seq<Weather>, airports: seq<Airport>)
    requires RouteDetail(airlineCode, destinationCode, routes, monthly, airlines, flights, weather, airports).Ok?
    ensures var d := RouteDetail(airlineCode, destinationCode, routes, monthly, airlines, flights, weather, airports).payload;
      && HasKey(d.route, airlineCode, destinationCode)
      && (exists i :: 0 <= i < |routes| && routes[i] == d.route
            && forall j :: 0 <= j < i ==> !HasKey(routes[j], airlineCode, destinationCode))
      && (forall m :: m in d.monthly <==> m in monthly && HasKey(m, airlineCode, destinationCode))
  {
    var d := RouteDetail(airlineCode, destinationCode, routes, monthly, airlines, flights, weather, airports).payload;
    var fi := FirstIndex(routes, RouteKey(airlineCode, destinationCode)).value;
    assert routes[fi] == d.route;
    forall m | m in monthly && HasKey(m, airlineCode, destinationCode)
      ensures m in d.monthly
    {
      var k :| 0 <= k < |monthly| && monthly[k] == m;
      assert RouteKey(airlineCode, destinationCode)(monthly[k]);
    }
  }

  /** The metrics of a found route cover its first 50 flights at most: the on-time rate is
      a percentage over them, the average delay their mean, and both are 0 when the route
      has no flights. */
  lemma DetailMetrics(
    airlineCode: string, destinationCode: string,
    routes: seq<Route>, monthly: seq<Route>, airlines: seq<Airline>,
    flights: seq<Flight>, weather: seq<Weather>, airports: seq<Airport>)
    requires RouteDetail(airlineCode, destinationCode, routes, monthly, airlines, flights, weather, airports).Ok?
    ensures var d := RouteDetail(airlineCode, destinationCode, routes, monthly, airlines, flights, weather, airports).payload;
      var matching := Filter(flights, FlightKey(airlineCode, destinationCode));
      && d.flightCount <= FlightWindow
      && d.flightCount == (if |matching| < FlightWindow then |matching| else FlightWindow)
      && d.avgDelay == AvgDelay(matching[..d.flightCount])
      && d.onTimeRate == OnTimeRate(matching[..d.flightCount])
      && 0.0 <= d.onTimeRate <= 100.0
      && (d.flightCount == 0 ==> d.avgDelay == 0.0 && d.onTimeRate == 0.0)
  {
    var d := RouteDetail(airlineCode, destinationCode, routes, monthly, airlines, flights, weather, airports).payload;
    var matching := Filter(flights, FlightKey(airlineCode, destinationCode));
    var fs := RouteFlights(flights, airlineCode, destinationCode);
    assert d.flightCount == |fs| && d.avgDelay == AvgDelay(fs) && d.onTimeRate == OnTimeRate(fs);
    assert fs == matching[..d.flightCount];
    OnTimeRateSpec(fs);
  }

  /** The weather of a found route is the first record for its destination, if any. */
  lemma DetailWeather(
    airlineCode: string, destinationCode: string,
    routes: seq<Route>, monthly: seq<Route>, airlines: seq<Airline>,
    flights: seq<Flight>, weather: seq<Weather>, airports: seq<Airport>)
    requires RouteDetail(airlineCode, destinationCode, routes, monthly, airlines, flights, weather, airports).Ok?
    ensures var d := RouteDetail(airlineCode, destinationCode, routes, monthly, airlines, flights, weather, airports).payload;
      && (d.weather.None? <==> forall k :: 0 <= k < |weather| ==> weather[k].airport != destinationCode)
      && (d.weather.Some? ==> d.weather == First(weather, WeatherAt(destinationCode)))
  {
    var all := Filter(weather, WeatherAt(destinationCode));
    if |all| > 0 {
      FirstOfFilter(weather, WeatherAt(destinationCode));
    } else {
      FilterEmpty(weather, WeatherAt(destinationCode));
    }
  }

  /** The example of a route that does not exist: a 404 with "Route not found". */
  lemma MissingRouteIs404(flights: seq<Flight>, weather: seq<Weather>, airports: seq<Airport>)
    ensures RouteDetail("AA", "HND", [], [], [], flights, weather, airports) == NotFound("Route not found")
  {
  }
}
