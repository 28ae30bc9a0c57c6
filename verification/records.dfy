/** The fixture records the handlers read, the response shapes they produce, and the
    display-name fallbacks several handlers share. Only the fields some computation reads
    are modelled; other fields travel through the handlers untouched. */
module Records {
  import opened Fields
  import opened Seqs

  /** A record of `airports.json`. */
  datatype Airport = Airport(code: string, nameEn: Option<string>, nameZh: Option<string>, cityZh: Option<string>)

  /** A record of `airline_summary.json`. */
  datatype Airline = Airline(code: string, nameEn: Option<string>, nameZh: Option<string>)

  /** A record of `route_summary.json` (with `month` absent) or of
      `route_monthly_summary.json` (with `month` present): the same key and score fields. */
  datatype Route = Route(
    airline: string,
    destination: string,
    month: Option<int>,
    flightCount: int,
    safety: real,
    comfort: real,
    composite: real,
    airlineNameEn: Option<string>,
    airlineNameZh: Option<string>,
    cityZh: Option<string>,
    destinationName: Option<string>)

  /** A record of `flights.json`. */
  datatype Flight = Flight(airline: string, destination: string, delay: Option<int>)

  /** A record of `weather.json`; `date` is the time value `new Date(weather_date)` yields. */
  datatype Weather = Weather(airport: string, date: int, description: string)

  /** The outcome of one request: a JSON payload, an explicit 404, or a 500 caused by an
      exception thrown inside the handler. */
  datatype Response<T> = Ok(payload: T) | NotFound(message: string) | ServerError

  /** `airport_name_en || airport_name_zh`. */
  function AirportName(a: Airport): Option<string> {
    Or(a.nameEn, a.nameZh)
  }

  /** `city_zh || airport_code`. */
  function AirportCity(a: Airport): string {
    OrElse(a.cityZh, a.code)
  }

  /** `airports.find(a => a.airport_code === code)`. */
  function FindAirport(airports: seq<Airport>, code: string): Option<Airport> {
    First(airports, (a: Airport) => a.code == code)
  }

  /** The destination codes of all routes. */
  function ActiveCodes(routes: seq<Route>): set<string> {
    set r | r in routes :: r.destination
  }

  /** The test `route.destination_code === code`. */
  function GoesTo(code: string): Route -> bool {
    (r: Route) => r.destination == code
  }

  /** The test `w.airport_code === code`. */
  function WeatherAt(code: string): Weather -> bool {
    (w: Weather) => w.airport == code
  }

  /** Whether the route has the key `(airline, destination)`. */
  predicate HasKey(r: Route, airline: string, destination: string) {
    r.airline == airline && r.destination == destination
  }

  /** On-time as the handlers test it: `!delay_minutes || delay_minutes <= 15`.
      A zero delay is falsy and so on time; absent and null are on time too. */
  predicate OnTime(f: Flight) {
    f.delay.None? || f.delay.value == 0 || f.delay.value <= 15
  }

  /** `delay_minutes || 0` as a real number. */
  function DelayOrZero(f: Flight): real {
    if f.delay.Some? then f.delay.value as real else 0.0
  }

  function FlightsOf(r: Route): int {
    r.flightCount
  }

  function SafetyOf(r: Route): real {
    r.safety
  }

  function ComfortOf(r: Route): real {
    r.comfort
  }

  function CompositeOf(r: Route): real {
    r.composite
  }
}
