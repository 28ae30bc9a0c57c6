/** The flight metrics the route detail and the global statistics share: the average delay
    and the on-time percentage, before `toFixed(1)` rounds the latter. */
module Punctuality {
  import opened Fields
  import opened Seqs
  import opened Records

  function OnTimeCount(flights: seq<Flight>): (n: nat)
    ensures n <= |flights|
  {
    |Filter(flights, OnTime)|
  }

  /** `onTimeFlights / flights.length * 100`, or 0 when there are no flights. */
  function OnTimeRate(flights: seq<Flight>): real {
    if |flights| > 0 then OnTimeCount(flights) as real / |flights| as real * 100.0 else 0.0
  }

  /** The mean of `delay_minutes || 0`, or 0 when there are no flights. */
  function AvgDelay(flights: seq<Flight>): real {
    if |flights| > 0 then Sum(flights, DelayOrZero) / |flights| as real else 0.0
  }

  lemma OnTimeRateBounds(flights: seq<Flight>)
    ensures 0.0 <= OnTimeRate(flights) <= 100.0
  {
    var n := |flights|;
    if n > 0 {
      var c := OnTimeCount(flights) as real;
      DivBetween(c, n as real, 0.0, 1.0);
      var q := c / n as real;
      assert 0.0 <= q * 100.0 <= 100.0;
    }
  }

  lemma PercentOfAll(c: real, n: real)
    requires n > 0.0 && c == n
    ensures c / n * 100.0 == 100.0
  {
    assert c / n == 1.0;
  }

  lemma AllOnTime(flights: seq<Flight>)
    requires |flights| > 0
    requires forall i :: 0 <= i < |flights| ==> OnTime(flights[i])
    ensures OnTimeRate(flights) == 100.0
  {
    FilterAll(flights, OnTime);
    var n := |flights| as real;
    var c := OnTimeCount(flights) as real;
    assert c == n;
    PercentOfAll(c, n);
  }

  lemma NoneOnTime(flights: seq<Flight>)
    requires forall i :: 0 <= i < |flights| ==> !OnTime(flights[i])
    ensures OnTimeRate(flights) == 0.0
  {
    FilterNone(flights, OnTime);
  }

  /** The on-time rate is a percentage: 0 without flights, 100 when every flight is on
      time, 0 when none is, and within [0, 100] always. */
  lemma OnTimeRateSpec(flights: seq<Flight>)
    ensures 0.0 <= OnTimeRate(flights) <= 100.0
    ensures |flights| == 0 ==> OnTimeRate(flights) == 0.0
    ensures |flights| > 0 && (forall i :: 0 <= i < |flights| ==> OnTime(flights[i])) ==> OnTimeRate(flights) == 100.0
    ensures (forall i :: 0 <= i < |flights| ==> !OnTime(flights[i])) ==> OnTimeRate(flights) == 0.0
  {
    OnTimeRateBounds(flights);
    if |flights| > 0 && forall i :: 0 <= i < |flights| ==> OnTime(flights[i]) {
      AllOnTime(flights);
    }
    if forall i :: 0 <= i < |flights| ==> !OnTime(flights[i]) {
      NoneOnTime(flights);
    }
  }

  /** The average delay lies between the smallest and the largest delay counted (absent
      delays count as 0), and is 0 without flights. */
  lemma AvgDelayBounds(flights: seq<Flight>, lo: real, hi: real)
    requires forall f :: f in flights ==> lo <= DelayOrZero(f) <= hi
    ensures |flights| == 0 ==> AvgDelay(flights) == 0.0
    ensures |flights| > 0 ==> lo <= AvgDelay(flights) <= hi
  {
    var n := |flights|;
    if n > 0 {
      SumBounds(flights, DelayOrZero, lo, hi);
      DivBetween(Sum(flights, DelayOrZero), n as real, lo, hi);
    }
  }

  /** The average delay is the mean: times the number of flights it is the total delay
      (absent delays counting as 0). */
  lemma AvgDelayIsMean(flights: seq<Flight>)
    ensures AvgDelay(flights) * |flights| as real == Sum(flights, DelayOrZero)
  {
    if |flights| > 0 {
      MeanTimesCount(Sum(flights, DelayOrZero), |flights| as real);
    }
  }

  lemma MeanTimesCount(s: real, n: real)
    requires n > 0.0
    ensures s / n * n == s
  {
  }
}
