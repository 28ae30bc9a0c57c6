/** The monthly overlay of the route search (backend/server.js, handler 4): summary rows
    whose (airline, destination) key has a record for the requested month take that
    record's fields; the last record for a key wins, as `Map.set` overwrites. */
module MonthlyOverlay {
  import opened Fields
  import opened Seqs
  import opened Records

  /** `{ ...base, ...over }` on two route records: every field the monthly record carries
      replaces the summary's; a field absent from the monthly record keeps the summary's. */
  function Spread(base: Route, over: Route): Route {
    Route(
      over.airline,
      over.destination,
      Override(over.month, base.month),
      over.flightCount,
      over.safety,
      over.comfort,
      over.composite,
      Override(over.airlineNameEn, base.airlineNameEn),
      Override(over.airlineNameZh, base.airlineNameZh),
      Override(over.cityZh, base.cityZh),
      Override(over.destinationName, base.destinationName))
  }

  /** One field of an object spread: present in the overriding object, or kept. */
  function Override<T>(over: Option<T>, base: Option<T>): Option<T> {
    if over.Some? then over else base
  }

  /** The monthly records that take part: `route.month == month` and, when a destination
      code is set, `route.destination_code === destinationCode`. */
  function InMonth(month: int, code: string): Route -> bool {
    (m: Route) => m.month == Some(month) && (code == "" || m.destination == code)
  }

  function MonthlyFor(monthly: seq<Route>, month: int, code: string): seq<Route> {
    Filter(monthly, InMonth(month, code))
  }

  /** The monthly record has the same (airline, destination) key as `r`. */
  function SameKey(r: Route): Route -> bool {
    (m: Route) => HasKey(m, r.airline, r.destination)
  }

  /** One summary row after the overlay. */
  function OverlayRow(r: Route, ms: seq<Route>): Route {
    var m := Last(ms, SameKey(r));
    if m.Some? then Spread(r, m.value) else r
  }

  /** `routes.map(route => monthly ? { ...route, ...monthly } : route)`, with the lookup
      keyed by the pair (airline, destination). */
  function Overlay(routes: seq<Route>, ms: seq<Route>): (r: seq<Route>)
    ensures |r| == |routes|
  {
    seq(|routes|, i requires 0 <= i < |routes| => OverlayRow(routes[i], ms))
  }

  /** The monthly record at index `j` is the last one with `r`'s key. */
  predicate LastWithKey(ms: seq<Route>, r: Route, j: int) {
    && 0 <= j < |ms|
    && HasKey(ms[j], r.airline, r.destination)
    && forall k :: j < k < |ms| ==> !HasKey(ms[k], r.airline, r.destination)
  }

  /** What the overlay promises for each row: a row with a matching monthly record is the
      spread of the row with the last such record; a row without one is unchanged; either
      way the row keeps its key. */
  lemma OverlaySpec(routes: seq<Route>, ms: seq<Route>, i: int)
    requires 0 <= i < |routes|
    ensures var o := Overlay(routes, ms)[i];
      && HasKey(o, routes[i].airline, routes[i].destination)
      && ((forall k :: 0 <= k < |ms| ==> !HasKey(ms[k], routes[i].airline, routes[i].destination)) ==> o == routes[i])
      && (forall j :: LastWithKey(ms, routes[i], j) ==> o == Spread(routes[i], ms[j]))
  {
    var r := routes[i];
    var li := LastIndex(ms, SameKey(r));
    forall j | LastWithKey(ms, r, j)
      ensures Overlay(routes, ms)[i] == Spread(r, ms[j])
    {
      assert SameKey(r)(ms[j]);
      assert li.Some?;
      if li.value < j {
        assert false;
      } else if li.value > j {
        assert false;
      }
    }
  }

  /** A row that changed took its fields from a monthly record of the requested month (and
      destination, when one is set) with the row's own key. */
  lemma OverlayUsesOnlyTheMonth(routes: seq<Route>, monthly: seq<Route>, month: int, code: string, i: int)
    requires 0 <= i < |routes|
    requires Overlay(routes, MonthlyFor(monthly, month, code))[i] != routes[i]
    ensures exists m :: (m in monthly && InMonth(month, code)(m) && HasKey(m, routes[i].airline, routes[i].destination) &&
      Overlay(routes, MonthlyFor(monthly, month, code))[i] == Spread(routes[i], m))
  {
    var ms := MonthlyFor(monthly, month, code);
    var li := LastIndex(ms, SameKey(routes[i]));
    assert li.Some?;
    var m := ms[li.value];
    assert InMonth(month, code)(m);
  }

  // ----- The overlay as written: the lookup key is the string `${airline}-${destination}`.

  function KeyString(airline: string, destination: string): string {
    airline + "-" + destination
  }

  function SameKeyString(r: Route): Route -> bool {
    (m: Route) => KeyString(m.airline, m.destination) == KeyString(r.airline, r.destination)
  }

  function OverlayRowAsWritten(r: Route, ms: seq<Route>): Route {
    var m := Last(ms, SameKeyString(r));
    if m.Some? then Spread(r, m.value) else r
  }

  /** The overlay as the handler writes it, with the string-keyed `Map`. */
  function OverlayAsWritten(routes: seq<Route>, ms: seq<Route>): (r: seq<Route>)
    ensures |r| == |routes|
  {
    seq(|routes|, i requires 0 <= i < |routes| => OverlayRowAsWritten(routes[i], ms))
  }

  /** Two different (airline, destination) pairs share a string key once a code contains
      '-': the summary row (A, B-C) picks up the monthly record of route (A-B, C), and its
      airline and destination codes are overwritten. The pair-keyed overlay leaves the row
      alone. */
  lemma StringKeyCollides()
    ensures var summary := Route("A", "B-C", None, 5, 80.0, 70.0, 76.0, None, None, None, None);
      var monthly := Route("A-B", "C", Some(3), 1, 10.0, 10.0, 10.0, None, None, None, None);
      && KeyString("A", "B-C") == KeyString("A-B", "C")
      && OverlayAsWritten([summary], [monthly]) == [Spread(summary, monthly)]
      && OverlayAsWritten([summary], [monthly])[0].airline == "A-B"
      && Overlay([summary], [monthly]) == [summary]
  {
    var summary := Route("A", "B-C", None, 5, 80.0, 70.0, 76.0, None, None, None, None);
    var monthly := Route("A-B", "C", Some(3), 1, 10.0, 10.0, 10.0, None, None, None, None);
    assert KeyString("A", "B-C") == "A-B-C";
    assert KeyString("A-B", "C") == "A-B-C";
    assert SameKeyString(summary)(monthly);
    assert !SameKey(summary)(monthly);
  }

  /** The characters of a key string: the airline code, then the separator. */
  lemma KeyStringAt(a: string, d: string)
    ensures KeyString(a, d)[|a|] == '-'
    ensures forall i :: 0 <= i < |a| ==> KeyString(a, d)[i] == a[i]
  {
  }

  /** Where no code contains '-', the string key separates pairs exactly as the pair does,
      and the overlay as written agrees with the pair-keyed one. */
  lemma KeyStringInjective(a1: string, d1: string, a2: string, d2: string)
    requires '-' !in a1 && '-' !in a2
    ensures KeyString(a1, d1) == KeyString(a2, d2) <==> a1 == a2 && d1 == d2
  {
    if KeyString(a1, d1) == KeyString(a2, d2) {
      var k1 := KeyString(a1, d1);
      if |a1| != |a2| {
        KeyStringAt(a1, d1);
        KeyStringAt(a2, d2);
        assert false;
      }
      assert a1 == k1[..|a1|] == a2;
      assert d1 == k1[|a1| + 1..] == d2;
    }
  }

  /** With no '-' in any airline code, the overlay as written is the pair-keyed overlay. */
  lemma AsWrittenAgreesWithoutDashes(routes: seq<Route>, ms: seq<Route>)
    requires forall i :: 0 <= i < |routes| ==> '-' !in routes[i].airline
    requires forall k :: 0 <= k < |ms| ==> '-' !in ms[k].airline
    ensures OverlayAsWritten(routes, ms) == Overlay(routes, ms)
  {
    forall i | 0 <= i < |routes|
      ensures OverlayRowAsWritten(routes[i], ms) == OverlayRow(routes[i], ms)
    {
      var r := routes[i];
      forall k | 0 <= k < |ms|
        ensures SameKeyString(r)(ms[k]) == SameKey(r)(ms[k])
      {
        KeyStringInjective(ms[k].airline, ms[k].destination, r.airline, r.destination);
      }
      LastAgrees(ms, SameKeyString(r), SameKey(r));
    }
  }

  /** Two key strings with the same destination are equal exactly when the airlines are:
      the airline is everything before the destination's separator. */
  lemma KeyStringSameDestination(a1: string, a2: string, d: string)
    ensures KeyString(a1, d) == KeyString(a2, d) <==> a1 == a2
  {
    if KeyString(a1, d) == KeyString(a2, d) {
      assert |a1| == |a2|;
      assert a1 == KeyString(a1, d)[..|a1|];
      assert a2 == KeyString(a2, d)[..|a2|];
    }
  }

  /** When every row and every monthly record has one destination, as after filtering by a
      destination code, the overlay as written is the pair-keyed overlay. */
  lemma AsWrittenAgreesForOneDestination(routes: seq<Route>, ms: seq<Route>, d: string)
    requires forall i :: 0 <= i < |routes| ==> routes[i].destination == d
    requires forall k :: 0 <= k < |ms| ==> ms[k].destination == d
    ensures OverlayAsWritten(routes, ms) == Overlay(routes, ms)
  {
    forall i | 0 <= i < |routes|
      ensures OverlayRowAsWritten(routes[i], ms) == OverlayRow(routes[i], ms)
    {
      var r := routes[i];
      forall k | 0 <= k < |ms|
        ensures SameKeyString(r)(ms[k]) == SameKey(r)(ms[k])
      {
        KeyStringSameDestination(ms[k].airline, r.airline, d);
      }
      LastAgrees(ms, SameKeyString(r), SameKey(r));
    }
  }
}
