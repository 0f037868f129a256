/** Trapezoidal energy: per-hour integrals, how they add up, and what rounding does to them. */
module Energy {

  const HOUR_MICROS: int := 3_600_000_000

  /** A power reading: microseconds since the epoch, and kilowatts. */
  datatype Sample = Sample(at: int, power: real)

  function Hour(at: int): int { at / HOUR_MICROS }

  function Seconds(micros: int): real { micros as real / 1_000_000.0 }

  predicate Chronological(s: seq<Sample>) {
    forall j, k :: 0 <= j < k < |s| ==> s[j].at < s[k].at
  }

  function Segment(a: Sample, b: Sample): real {
    Seconds(b.at - a.at) * ((a.power + b.power) / 2.0)
  }

  /** `np.trapezoid(power_kw, x=timestamps_sec)`, in kilowatt-seconds. */
  function Trapezoid(s: seq<Sample>): real {
    if |s| < 2 then 0.0 else Trapezoid(s[..|s| - 1]) + Segment(s[|s| - 2], s[|s| - 1])
  }

  /** The readings of one clock hour, in order. */
  function InHour(s: seq<Sample>, h: int): (r: seq<Sample>)
    ensures |r| <= |s| && forall x :: x in r <==> x in s && Hour(x.at) == h
  {
    if s == [] then []
    else
      var last := s[|s| - 1];
      assert s == s[..|s| - 1] + [last];
      InHour(s[..|s| - 1], h) + (if Hour(last.at) == h then [last] else [])
  }

  /** Kilowatt-seconds attributed to an hour; an hour with fewer than two readings gets none. */
  function HourSeconds(s: seq<Sample>, h: int): real { Trapezoid(InHour(s, h)) }

  function SumHours(s: seq<Sample>, lo: int, hi: int): real
    decreases hi - lo
  {
    if hi <= lo then 0.0 else SumHours(s, lo, hi - 1) + HourSeconds(s, hi - 1)
  }

  /** The segments that join the last reading of one non-empty hour to the first of the next. */
  function Bridges(s: seq<Sample>): real {
    if |s| < 2 then 0.0
    else
      Bridges(s[..|s| - 1])
      + (if Hour(s[|s| - 2].at) != Hour(s[|s| - 1].at) then Segment(s[|s| - 2], s[|s| - 1]) else 0.0)
  }

  // ----- Conservation

  lemma {:induction false} SumHoursDiffer(s: seq<Sample>, t: seq<Sample>, lo: int, hi: int, h: int)
    requires forall k :: k != h ==> HourSeconds(s, k) == HourSeconds(t, k)
    ensures SumHours(t, lo, hi)
      == SumHours(s, lo, hi) + if lo <= h < hi then HourSeconds(t, h) - HourSeconds(s, h) else 0.0
    decreases hi - lo
  {
    hide HourSeconds;
    if hi > lo { SumHoursDiffer(s, t, lo, hi - 1, h); }
  }

  lemma HoursIncrease(s: seq<Sample>, k: nat)
    requires Chronological(s) && k < |s|
    ensures Hour(s[k].at) <= Hour(s[|s| - 1].at)
  {
    if k < |s| - 1 { assert s[k].at < s[|s| - 1].at; }
  }

  /** One more reading adds its segment to its hour's integral, or to the bridges if it opens a new hour. */
  lemma OneMoreReading(s: seq<Sample>, x: Sample)
    requires Chronological(s + [x])
    ensures InHour(s + [x], Hour(x.at)) == InHour(s, Hour(x.at)) + [x]
    ensures forall h :: h != Hour(x.at) ==> InHour(s + [x], h) == InHour(s, h)
    ensures s != [] && Hour(s[|s| - 1].at) == Hour(x.at) ==>
      InHour(s, Hour(x.at)) != [] && InHour(s, Hour(x.at))[|InHour(s, Hour(x.at))| - 1] == s[|s| - 1]
    ensures s == [] || Hour(s[|s| - 1].at) != Hour(x.at) ==> InHour(s, Hour(x.at)) == []
  {
    assert (s + [x])[..|s|] == s;
    if s != [] && Hour(s[|s| - 1].at) != Hour(x.at) {
      HoursIncrease(s + [x], |s| - 1);
      forall y | y in s ensures Hour(y.at) < Hour(x.at) {
        var k :| 0 <= k < |s| && s[k] == y;
        assert Chronological(s) by { assert forall j :: 0 <= j < |s| ==> (s + [x])[j] == s[j]; }
        HoursIncrease(s, k);
      }
      NoneInHour(s, Hour(x.at));
    }
  }

  lemma {:induction false} NoneInHour(s: seq<Sample>, h: int)
    requires forall y :: y in s ==> Hour(y.at) != h
    ensures InHour(s, h) == []
  {
    if s != [] { NoneInHour(s[..|s| - 1], h); }
  }

  lemma TrapezoidAppend(s: seq<Sample>, x: Sample)
    ensures Trapezoid(s + [x]) == Trapezoid(s) + if s == [] then 0.0 else Segment(s[|s| - 1], x)
    ensures Bridges(s + [x]) == Bridges(s)
      + if s != [] && Hour(s[|s| - 1].at) != Hour(x.at) then Segment(s[|s| - 1], x) else 0.0
  {
    hide Segment, Hour;
    assert (s + [x])[..|s|] == s;
  }

  /** The step of conservation: what one more reading adds to the hours and the bridges is its segment. */
  lemma ReadingConserves(s: seq<Sample>, x: Sample, lo: int, hi: int)
    requires Chronological(s + [x]) && lo <= Hour(x.at) < hi
    ensures SumHours(s + [x], lo, hi) + Bridges(s + [x]) - (SumHours(s, lo, hi) + Bridges(s))
         == Trapezoid(s + [x]) - Trapezoid(s)
  {
    hide Segment, Hour, InHour, Trapezoid, Bridges, Chronological, SumHours;
    var h := Hour(x.at);
    OneMoreReading(s, x);
    TrapezoidAppend(s, x);
    HourGains(s, x);
    SumHoursDiffer(s, s + [x], lo, hi, h);
  }

  /** The hour of a new reading gains its segment unless the reading opens the hour; other hours gain nothing. */
  lemma HourGains(s: seq<Sample>, x: Sample)
    requires Chronological(s + [x])
    ensures HourSeconds(s + [x], Hour(x.at)) - HourSeconds(s, Hour(x.at))
      == if s != [] && Hour(s[|s| - 1].at) == Hour(x.at) then Segment(s[|s| - 1], x) else 0.0
    ensures forall h :: h != Hour(x.at) ==> HourSeconds(s, h) == HourSeconds(s + [x], h)
  {
    hide Segment, Hour, InHour, Trapezoid, Bridges, Chronological;
    OneMoreReading(s, x);
    TrapezoidAppend(InHour(s, Hour(x.at)), x);
  }

  /** Energy is conserved: over any range of hours that covers the series, the hourly integrals plus the segments
      joining consecutive non-empty hours are the integral of the whole series. */
  lemma {:induction false} EnergyConserved(s: seq<Sample>, lo: int, hi: int)
    requires Chronological(s) && forall x :: x in s ==> lo <= Hour(x.at) < hi
    ensures SumHours(s, lo, hi) + Bridges(s) == Trapezoid(s)
    decreases |s|
  {
    hide Segment, Hour, InHour, SumHours;
    if s == [] {
      NothingToSum(lo, hi);
    } else {
      hide Trapezoid, Bridges;
      var init, x := s[..|s| - 1], s[|s| - 1];
      assert s == init + [x] && x in s;
      EnergyConserved(init, lo, hi);
      ReadingConserves(init, x, lo, hi);
    }
  }

  lemma {:induction false} NothingToSum(lo: int, hi: int)
    ensures SumHours([], lo, hi) == 0.0
    decreases hi - lo
  {
    if hi > lo { NothingToSum(lo, hi - 1); }
  }

  lemma {:induction false} BridgesNonNegative(s: seq<Sample>)
    requires Chronological(s) && forall k :: 0 <= k < |s| ==> s[k].power >= 0.0
    ensures Bridges(s) >= 0.0
  {
    if |s| >= 2 {
      BridgesNonNegative(s[..|s| - 1]);
      SegmentBounds(s[|s| - 2], s[|s| - 1], 0.0, s[|s| - 2].power + s[|s| - 1].power);
    }
  }

  /** With non-negative power the hourly figures never add up to more than the true integral. */
  lemma NeverOvercounts(s: seq<Sample>, lo: int, hi: int)
    requires Chronological(s) && forall x :: x in s ==> lo <= Hour(x.at) < hi && x.power >= 0.0
    ensures SumHours(s, lo, hi) <= Trapezoid(s)
  {
    EnergyConserved(s, lo, hi);
    forall k | 0 <= k < |s| ensures s[k].power >= 0.0 { assert s[k] in s; }
    BridgesNonNegative(s);
  }

  // ----- Bounds and refinement

  function Span(s: seq<Sample>): real {
    if s == [] then 0.0 else Seconds(s[|s| - 1].at - s[0].at)
  }

  /** The energy of a constant power over a time. */
  function Rectangle(seconds: real, power: real): real { seconds * power }

  lemma SegmentBounds(a: Sample, b: Sample, lo: real, hi: real)
    requires a.at <= b.at && lo <= a.power <= hi && lo <= b.power <= hi
    ensures Rectangle(Seconds(b.at - a.at), lo) <= Segment(a, b) <= Rectangle(Seconds(b.at - a.at), hi)
  {
    var d, m := Seconds(b.at - a.at), (a.power + b.power) / 2.0;
    assert d >= 0.0;
    hide Seconds;
    assert lo <= m <= hi;
    Scale(d, lo, m);
    Scale(d, m, hi);
  }

  lemma Scale(d: real, x: real, y: real)
    requires d >= 0.0 && x <= y
    ensures d * x <= d * y
  {
  }

  /** A constant power for a span of microseconds is that many kilowatt-hours. */
  lemma ConstantPower(s: seq<Sample>, p: real)
    requires s != [] && Chronological(s) && forall k :: 0 <= k < |s| ==> s[k].power == p
    ensures Trapezoid(s) / 3600.0 == p * ((s[|s| - 1].at - s[0].at) as real / 3_600_000_000.0)
  {
    TrapezoidBounds(s, p, p);
    SpanInHours(s, p);
  }

  lemma SpanInHours(s: seq<Sample>, p: real)
    requires s != []
    ensures Rectangle(Span(s), p) / 3600.0 == p * ((s[|s| - 1].at - s[0].at) as real / 3_600_000_000.0)
  {
    var micros := (s[|s| - 1].at - s[0].at) as real;
    assert Span(s) == micros / 1_000_000.0;
    InHours(micros, p);
  }

  lemma InHours(micros: real, p: real)
    ensures (micros / 1_000_000.0) * p / 3600.0 == p * (micros / 3_600_000_000.0)
  {
    var h := micros / 3_600_000_000.0;
    assert micros / 1_000_000.0 == 3600.0 * h;
    assert 3600.0 * h * p / 3600.0 == p * h;
  }

  /** Two readings: the mean of their powers for the time between them, in microseconds of an hour. */
  lemma TwoReadings(a: Sample, b: Sample)
    ensures Trapezoid([a, b]) / 3600.0 == ((a.power + b.power) / 2.0) * ((b.at - a.at) as real / 3_600_000_000.0)
  {
    assert [a, b][..1] == [a];
    InHours((b.at - a.at) as real, (a.power + b.power) / 2.0);
  }

  /** The kilowatt-hours of any series lie between those of its least and of its greatest power, over its
      microseconds. */
  lemma EnergyBounds(s: seq<Sample>, lo: real, hi: real)
    requires s != [] && Chronological(s) && forall k :: 0 <= k < |s| ==> lo <= s[k].power <= hi
    ensures var hours := (s[|s| - 1].at - s[0].at) as real / 3_600_000_000.0;
      lo * hours <= Trapezoid(s) / 3600.0 <= hi * hours
  {
    hide Trapezoid, Rectangle, Span;
    TrapezoidBounds(s, lo, hi);
    SpanInHours(s, lo);
    SpanInHours(s, hi);
  }

  /** A clock hour is 3600 seconds long and starts on a multiple of that. */
  lemma HourHolds(at: int, h: int)
    ensures Hour(at) == h <==> h * 3_600_000_000 <= at < (h + 1) * 3_600_000_000
  {
  }

  /** The integral lies between the smallest and the largest power times the time spanned. */
  lemma {:induction false} TrapezoidBounds(s: seq<Sample>, lo: real, hi: real)
    requires Chronological(s) && forall k :: 0 <= k < |s| ==> lo <= s[k].power <= hi
    ensures Rectangle(Span(s), lo) <= Trapezoid(s) <= Rectangle(Span(s), hi)
  {
    if |s| >= 2 {
      hide Segment, Seconds, Rectangle;
      var n := |s| - 1;
      TrapezoidBounds(s[..n], lo, hi);
      SegmentBounds(s[n - 1], s[n], lo, hi);
      SecondsAdd(s[n - 1].at - s[0].at, s[n].at - s[n - 1].at);
      RectangleAdds(Span(s[..n]), Seconds(s[n].at - s[n - 1].at), lo);
      RectangleAdds(Span(s[..n]), Seconds(s[n].at - s[n - 1].at), hi);
    } else if |s| == 1 {
      assert Span(s) == 0.0;
    }
  }

  lemma RectangleAdds(a: real, b: real, power: real)
    ensures Rectangle(a + b, power) == Rectangle(a, power) + Rectangle(b, power)
  {
  }

  lemma SecondsAdd(a: int, b: int)
    ensures Seconds(a + b) == Seconds(a) + Seconds(b)
  {
  }

  lemma {:induction false} InHourChronological(s: seq<Sample>, h: int)
    requires Chronological(s)
    ensures Chronological(InHour(s, h))
  {
    if s != [] {
      hide Hour;
      var init, last := s[..|s| - 1], s[|s| - 1];
      InHourChronological(init, h);
      var r := InHour(init, h);
      forall k | 0 <= k < |r| ensures r[k].at < last.at {
        assert r[k] in init;
        var j :| 0 <= j < |init| && init[j] == r[k];
      }
    }
  }

  lemma HourSpan(s: seq<Sample>, h: int)
    requires Chronological(s)
    ensures 0.0 <= Span(InHour(s, h)) < 3600.0
  {
    var r := InHour(s, h);
    if r != [] {
      InHourChronological(s, h);
      assert r[0] in r && r[|r| - 1] in r;
      assert |r| > 1 ==> r[0].at < r[|r| - 1].at;
      assert 0 <= r[|r| - 1].at - r[0].at < HOUR_MICROS;
    }
  }

  /** An hour's readings span less than 3600 seconds, so an hour's kWh never exceeds its non-negative peak. */
  lemma HourBelowPeak(s: seq<Sample>, h: int, peak: real)
    requires Chronological(s) && peak >= 0.0
    requires forall x :: x in InHour(s, h) ==> 0.0 <= x.power <= peak
    ensures 0.0 <= HourSeconds(s, h) / 3600.0 <= peak
  {
    hide Trapezoid, Span, InHour;
    var r := InHour(s, h);
    InHourChronological(s, h);
    HourSpan(s, h);
    forall k | 0 <= k < |r| ensures 0.0 <= r[k].power <= peak { assert r[k] in r; }
    TrapezoidBounds(r, 0.0, peak);
    Scale(peak, Span(r), 3600.0);
  }

  /** The reading lies on the straight line between two others. */
  predicate Interpolates(a: Sample, x: Sample, b: Sample) {
    a.at < x.at < b.at && (b.at - a.at) as real * (x.power - a.power) == (x.at - a.at) as real * (b.power - a.power)
  }

  /** A reading inserted anywhere in a series, on the straight line between its neighbours, leaves the integral of the
      whole series unchanged. */
  lemma {:induction false} InterpolationIsNeutral(s: seq<Sample>, a: Sample, x: Sample, b: Sample, t: seq<Sample>)
    requires Interpolates(a, x, b)
    ensures Trapezoid(s + [a, x, b] + t) == Trapezoid(s + [a, b] + t)
    decreases |t|
  {
    hide Segment, Interpolates, Trapezoid;
    if t == [] {
      TrapezoidAppend(s + [a], x);
      TrapezoidAppend(s + [a] + [x], b);
      TrapezoidAppend(s + [a], b);
      SplitSegment(a, x, b);
      assert s + [a, x, b] + t == s + [a] + [x] + [b] && s + [a, b] + t == s + [a] + [b];
    } else {
      var init, last := t[..|t| - 1], t[|t| - 1];
      InterpolationIsNeutral(s, a, x, b, init);
      TrapezoidAppend(s + [a, x, b] + init, last);
      TrapezoidAppend(s + [a, b] + init, last);
      assert s + [a, x, b] + t == s + [a, x, b] + init + [last] && s + [a, b] + t == s + [a, b] + init + [last];
    }
  }

  lemma SplitSegment(a: Sample, x: Sample, b: Sample)
    requires Interpolates(a, x, b)
    ensures Segment(a, x) + Segment(x, b) == Segment(a, b)
  {
    var u, v := (x.at - a.at) as real, (b.at - x.at) as real;
    assert (b.at - a.at) as real == u + v;
    InterpolationIdentity(u, v, a.power, x.power, b.power);
    assert Segment(a, x) == u * (a.power + x.power) / 2_000_000.0;
    assert Segment(x, b) == v * (x.power + b.power) / 2_000_000.0;
    assert Segment(a, b) == (u + v) * (a.power + b.power) / 2_000_000.0;
  }

  lemma InterpolationIdentity(u: real, v: real, a: real, x: real, b: real)
    requires (u + v) * (x - a) == u * (b - a)
    ensures u * (a + x) + v * (x + b) == (u + v) * (a + b)
  {
    assert (u + v) * x == (u + v) * a + u * (b - a);
    assert u * (a + x) + v * (x + b) == (u + v) * x + u * a + v * b;
  }

  // ----- Rounding

  /** Round to the nearest integer, ties to even. */
  function RoundHalfEven(x: real): int {
    var f := x.Floor;
    var rest := x - f as real;
    if rest < 0.5 then f else if rest > 0.5 then f + 1 else if f % 2 == 0 then f else f + 1
  }

  /** `round(x, 2)` and `round(x, 4)`. */
  function Round2(x: real): real { RoundHalfEven(x * 100.0) as real / 100.0 }
  function Round4(x: real): real { RoundHalfEven(x * 10000.0) as real / 10000.0 }

  lemma RoundMonotone(x: real, y: real)
    requires x <= y
    ensures RoundHalfEven(x) <= RoundHalfEven(y)
  {
  }

  /** Halves go to the even neighbour, everything else to the nearest integer. */
  lemma RoundsToNearest(x: real, n: int)
    ensures n as real - 0.5 < x < n as real + 0.5 ==> RoundHalfEven(x) == n
    ensures x == n as real + 0.5 ==> RoundHalfEven(x) == if n % 2 == 0 then n else n + 1
  {
  }

  lemma Round2Near(x: real)
    ensures -0.005 <= Round2(x) - x <= 0.005
  {
    var y := x * 100.0;
    assert -0.5 <= RoundHalfEven(y) as real - y <= 0.5;
  }

  lemma Round4Near(x: real)
    ensures -0.000_05 <= Round4(x) - x <= 0.000_05
  {
    var y := x * 10000.0;
    assert -0.5 <= RoundHalfEven(y) as real - y <= 0.5;
  }

  /** The kWh figure stored for an hour. */
  function HourKwh(s: seq<Sample>, h: int): real { Round4(HourSeconds(s, h) / 3600.0) }

  function SumKwh(s: seq<Sample>, lo: int, hi: int): real
    decreases hi - lo
  {
    if hi <= lo then 0.0 else SumKwh(s, lo, hi - 1) + HourKwh(s, hi - 1)
  }

  lemma {:induction false} RoundingAddsUp(s: seq<Sample>, lo: int, hi: int)
    requires lo <= hi
    ensures var gap := SumKwh(s, lo, hi) - SumHours(s, lo, hi) / 3600.0;
      -0.000_05 * (hi - lo) as real <= gap <= 0.000_05 * (hi - lo) as real
    decreases hi - lo
  {
    if hi > lo {
      hide HourSeconds, Round4;
      RoundingAddsUp(s, lo, hi - 1);
      Round4Near(HourSeconds(s, hi - 1) / 3600.0);
    }
  }

  /** The stored hourly figures plus the bridges give the integral of the series in kWh, up to the rounding of
      half a ten-thousandth per hour. */
  lemma StoredEnergyConserved(s: seq<Sample>, lo: int, hi: int)
    requires lo <= hi && Chronological(s) && forall x :: x in s ==> lo <= Hour(x.at) < hi
    ensures var gap := SumKwh(s, lo, hi) + Bridges(s) / 3600.0 - Trapezoid(s) / 3600.0;
      -0.000_05 * (hi - lo) as real <= gap <= 0.000_05 * (hi - lo) as real
  {
    hide Chronological, Hour;
    EnergyConserved(s, lo, hi);
    RoundingAddsUp(s, lo, hi);
  }
}
