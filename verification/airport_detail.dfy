/** `GET /api/airports/:code`: one airport with its display names, the number of routes
    to it, the number of airlines flying there, and its latest weather (backend/server.js,
    handler 8). */
module AirportDetail {
  import opened Fields
  import opened Seqs
  import opened Sorting
  import opened Records

  /** At most this many weather records are returned. */
  const RecentWeatherCount: nat := 7

  /** The response body: the airport record with `name` and `city` merged in, and the counts. */
  datatype AirportInfo = AirportInfo(airport: Airport, name: Option<string>, city: string, routes: nat, airlines: nat, recentWeather: seq<Weather>)

  /** `(a, b) => new Date(b.weather_date) - new Date(a.weather_date)` read as "may `a`
      stay before `b`": latest first. */
  function ByDateDesc(): (Weather, Weather) -> bool {
    (a: Weather, b: Weather) => a.date >= b.date
  }

  /** `[...new Set(routes.map(r => r.airline_code))]`, as a set. */
  function AirlineCodes(routes: seq<Route>): set<string> {
    set r | r in routes :: r.airline
  }

  /** The airport's weather, latest first. */
  function WeatherByDate(weather: seq<Weather>, code: string): seq<Weather> {
    SortBy(ByDateDesc(), Filter(weather, WeatherAt(code)))
  }

  /** `.sort(...).slice(0, 7)` over the airport's weather. */
  function RecentWeatherOf(weather: seq<Weather>, code: string): seq<Weather> {
    Take(WeatherByDate(weather, code), RecentWeatherCount)
  }

  /** The handler's body after loading `airports.json`, `route_summary.json` and `weather.json`. */
  function AirportDetail(code: string, airports: seq<Airport>, routes: seq<Route>, weather: seq<Weather>): (r: Response<AirportInfo>)
    ensures r.NotFound? <==> forall i :: 0 <= i < |airports| ==> airports[i].code != code
    ensures r.NotFound? ==> r.message == "Airport not found"
    ensures !r.ServerError?
  {
    var a := FindAirport(airports, code);
    if a.None? then NotFound("Airport not found")
    else
      var served := Filter(routes, GoesTo(code));
      Ok(AirportInfo(
        a.value,
        AirportName(a.value),
        AirportCity(a.value),
        |served|,
        |AirlineCodes(served)|,
        RecentWeatherOf(weather, code)))
  }

  /** Distinct airline codes are never more than the routes they come from. */
  lemma {:induction false} AirlineCodesBound(routes: seq<Route>)
    ensures |AirlineCodes(routes)| <= |routes|
    ensures |routes| > 0 ==> |AirlineCodes(routes)| > 0
  {
    if |routes| > 0 {
      var p := routes[..|routes| - 1];
      var last := routes[|routes| - 1];
      AirlineCodesBound(p);
      assert routes == p + [last];
      assert AirlineCodes(routes) == AirlineCodes(p) + {last.airline};
    }
  }

  /** The counts of a found airport: `routes` counts the routes that end there, `airlines`
      the distinct airlines among them, which are never more than the routes and are
      present exactly when some route is. */
  lemma AirportCounts(code: string, airports: seq<Airport>, routes: seq<Route>, weather: seq<Weather>)
    requires AirportDetail(code, airports, routes, weather).Ok?
    ensures var info := AirportDetail(code, airports, routes, weather).payload;
      var served := Filter(routes, GoesTo(code));
      && info.routes == |served|
      && (forall r :: r in served <==> r in routes && r.destination == code)
      && info.airlines == |AirlineCodes(served)|
      && info.airlines <= info.routes
      && (info.airlines == 0 <==> info.routes == 0)
  {
    var served := Filter(routes, GoesTo(code));
    AirlineCodesBound(served);
    forall r | r in routes && r.destination == code
      ensures r in served
    {
      var i :| 0 <= i < |routes| && routes[i] == r;
      assert GoesTo(code)(routes[i]);
    }
  }

  /** The record and names of a found airport: the first airport with the code, named by
      English then Chinese name, with the city falling back to the code. */
  lemma AirportRecord(code: string, airports: seq<Airport>, routes: seq<Route>, weather: seq<Weather>)
    requires AirportDetail(code, airports, routes, weather).Ok?
    ensures var info := AirportDetail(code, airports, routes, weather).payload;
      && info.airport.code == code
      && (exists i :: 0 <= i < |airports| && airports[i] == info.airport
            && forall j :: 0 <= j < i ==> airports[j].code != code)
      && info.name == Or(info.airport.nameEn, info.airport.nameZh)
      && info.city == (if Truthy(info.airport.cityZh) then info.airport.cityZh.value else code)
  {
    var fi := FirstIndex(airports, (a: Airport) => a.code == code).value;
    assert airports[fi] == AirportDetail(code, airports, routes, weather).payload.airport;
  }

  /** Latest-first is a total preorder on weather records. */
  lemma ByDateDescIsTotalPreorder()
    ensures TotalPreorder(ByDateDesc())
  {
  }

  /** The recent weather of an airport: at most seven of its own records, latest first,
      and no record of the airport left out is later than one kept. */
  lemma RecentWeatherSpec(weather: seq<Weather>, code: string)
    ensures var ws := RecentWeatherOf(weather, code);
      var mine := Filter(weather, WeatherAt(code));
      && |ws| == (if |mine| < RecentWeatherCount then |mine| else RecentWeatherCount)
      && multiset(ws) <= multiset(mine)
      && (forall i :: 0 <= i < |ws| ==> ws[i].airport == code && ws[i] in weather)
      && (forall i, j :: 0 <= i < j < |ws| ==> ws[i].date >= ws[j].date)
      && (forall w :: w in mine && w !in ws ==> forall i :: 0 <= i < |ws| ==> ws[i].date >= w.date)
  {
    RecentTop(weather, code);
    var ws := RecentWeatherOf(weather, code);
    LatestFirst(ws, Filter(weather, WeatherAt(code)));
    RecentDrawn(weather, code, ws);
  }

  /** The recent weather, stated through the latest-first order. */
  lemma RecentTop(weather: seq<Weather>, code: string)
    ensures var ws := RecentWeatherOf(weather, code);
      var mine := Filter(weather, WeatherAt(code));
      && |ws| == (if |mine| < RecentWeatherCount then |mine| else RecentWeatherCount)
      && SortedBy(ByDateDesc(), ws)
      && multiset(ws) <= multiset(mine)
      && forall x :: x in mine && x !in ws ==> forall i :: 0 <= i < |ws| ==> ByDateDesc()(ws[i], x)
  {
    var mine := Filter(weather, WeatherAt(code));
    var n := if |mine| < RecentWeatherCount then |mine| else RecentWeatherCount;
    RecentIsTop(weather, code);
    ByDateDescIsTotalPreorder();
    TopOfSorted(ByDateDesc(), mine, n);
  }

  /** The recent weather is the first `min(7, |mine|)` of the sorted records. */
  lemma RecentIsTop(weather: seq<Weather>, code: string)
    ensures var mine := Filter(weather, WeatherAt(code));
      RecentWeatherOf(weather, code)
        == SortBy(ByDateDesc(), mine)[..if |mine| < RecentWeatherCount then |mine| else RecentWeatherCount]
  {
  }

  /** Sorted latest-first, and later than any record left out, stated on dates. */
  lemma LatestFirst(ws: seq<Weather>, mine: seq<Weather>)
    requires SortedBy(ByDateDesc(), ws)
    requires forall x :: x in mine && x !in ws ==> forall i :: 0 <= i < |ws| ==> ByDateDesc()(ws[i], x)
    ensures forall i, j :: 0 <= i < j < |ws| ==> ws[i].date >= ws[j].date
    ensures forall w :: w in mine && w !in ws ==> forall i :: 0 <= i < |ws| ==> ws[i].date >= w.date
  {
    forall i, j | 0 <= i < j < |ws|
      ensures ws[i].date >= ws[j].date
    {
      assert ByDateDesc()(ws[i], ws[j]);
    }
    forall w, i | w in mine && w !in ws && 0 <= i < |ws|
      ensures ws[i].date >= w.date
    {
      assert ByDateDesc()(ws[i], w);
    }
  }

  /** Records drawn from an airport's filtered weather are that airport's records. */
  lemma RecentDrawn(weather: seq<Weather>, code: string, ws: seq<Weather>)
    requires multiset(ws) <= multiset(Filter(weather, WeatherAt(code)))
    ensures forall i :: 0 <= i < |ws| ==> ws[i].airport == code && ws[i] in weather
  {
    var mine := Filter(weather, WeatherAt(code));
    forall i | 0 <= i < |ws|
      ensures ws[i].airport == code && ws[i] in weather
    {
      assert ws[i] in multiset(mine);
      var k :| 0 <= k < |mine| && mine[k] == ws[i];
    }
  }

  /** A found airport's `recentWeather` is the recent weather of that airport. */
  lemma RecentWeather(code: string, airports: seq<Airport>, routes: seq<Route>, weather: seq<Weather>)
    requires AirportDetail(code, airports, routes, weather).Ok?
    ensures AirportDetail(code, airports, routes, weather).payload.recentWeather == RecentWeatherOf(weather, code)
  {
  }
}
