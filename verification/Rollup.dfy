/** The hourly rollup job: one transaction over all active devices, under a uniqueness constraint. */
module Rollup {
  import opened Energy
  import opened Statistics

  datatype Aggregate = Aggregate(
    device: nat, periodStart: int, periodEnd: int, interval: string,
    energy: real, average: real, peak: real, minimum: real)

  /** The columns of uq_device_period_interval. */
  function Key(a: Aggregate): (nat, int, string) { (a.device, a.periodStart, a.interval) }

  predicate KeysUnique(rows: seq<Aggregate>) {
    forall j, k :: 0 <= j < k < |rows| ==> Key(rows[j]) != Key(rows[k])
  }

  function Powers(s: seq<Sample>): (xs: seq<real>)
    ensures |xs| == |s| && forall k :: 0 <= k < |s| ==> xs[k] == s[k].power
  {
    seq(|s|, k requires 0 <= k < |s| => s[k].power)
  }

  function Max(xs: seq<real>): (m: real)
    requires xs != []
    ensures m in xs && forall k :: 0 <= k < |xs| ==> xs[k] <= m
  {
    if |xs| == 1 then xs[0] else
      var m := Max(xs[..|xs| - 1]);
      if m < xs[|xs| - 1] then xs[|xs| - 1] else m
  }

  function Min(xs: seq<real>): (m: real)
    requires xs != []
    ensures m in xs && forall k :: 0 <= k < |xs| ==> m <= xs[k]
  {
    if |xs| == 1 then xs[0] else
      var m := Min(xs[..|xs| - 1]);
      if xs[|xs| - 1] < m then xs[|xs| - 1] else m
  }

  /** The power series of each device, in time order, nulls already excluded. */
  type Telemetry = map<nat, seq<Sample>>

  function Readings(telemetry: Telemetry, device: nat, hour: int): seq<Sample> {
    if device in telemetry then InHour(telemetry[device], hour) else []
  }

  /** What the query for a device and hour returns: its readings from the start of the hour to before its end, in
      order. */
  lemma ReadingsOfHour(telemetry: Telemetry, device: nat, hour: int, x: Sample)
    ensures x in Readings(telemetry, device, hour) <==>
      device in telemetry && x in telemetry[device] && hour * 3_600_000_000 <= x.at < (hour + 1) * 3_600_000_000
    ensures device in telemetry && Chronological(telemetry[device]) ==> Chronological(Readings(telemetry, device, hour))
  {
    HourHolds(x.at, hour);
    if device in telemetry && Chronological(telemetry[device]) { InHourChronological(telemetry[device], hour); }
  }

  function AggregateOf(device: nat, hour: int, readings: seq<Sample>): Aggregate
    requires |readings| >= 2
  {
    var xs := Powers(readings);
    Aggregate(device, hour * HOUR_MICROS, (hour + 1) * HOUR_MICROS, "HOUR",
              Round4(Trapezoid(readings) / 3600.0), Round2(Mean(xs)), Round2(Max(xs)), Round2(Min(xs)))
  }

  /** The rows one run adds to its session: one per device with at least two readings in the hour. */
  function NewRows(telemetry: Telemetry, devices: seq<nat>, hour: int): seq<Aggregate> {
    if devices == [] then []
    else
      var device := devices[|devices| - 1];
      var readings := Readings(telemetry, device, hour);
      NewRows(telemetry, devices[..|devices| - 1], hour)
      + (if |readings| < 2 then [] else [AggregateOf(device, hour, readings)])
  }

  /** The table after a run: the whole session or, on any collision, nothing. */
  function AfterRun(table: seq<Aggregate>, rows: seq<Aggregate>): seq<Aggregate> {
    if KeysUnique(table + rows) then table + rows else table
  }

  lemma NoSession(telemetry: Telemetry, devices: seq<nat>, hour: int)
    ensures NewRows(telemetry, devices[..0], hour) == []
  {
  }

  lemma SessionStep(telemetry: Telemetry, devices: seq<nat>, hour: int, n: nat)
    requires n < |devices|
    ensures var readings := Readings(telemetry, devices[n], hour);
      NewRows(telemetry, devices[..n + 1], hour)
      == NewRows(telemetry, devices[..n], hour)
          + if |readings| < 2 then [] else [AggregateOf(devices[n], hour, readings)]
  {
    hide AggregateOf, Readings;
    assert devices[..n + 1][..n] == devices[..n];
  }

  lemma PreviousHour(now: int)
    ensures var end := now - now % HOUR_MICROS;
      && Hour(end - HOUR_MICROS) == Hour(now) - 1
      && end == Hour(now) * HOUR_MICROS && end - HOUR_MICROS == (Hour(now) - 1) * HOUR_MICROS
  {
  }

  // ----- The job

  class EnergyTable {
    var rows: seq<Aggregate>

    constructor ()
      ensures rows == []
    {
      rows := [];
    }

    /** `_rollup_hourly_energy_async` for the hour before `now`; false stands for the IntegrityError. */
    method RollupHourlyEnergy(now: int, deviceIds: seq<nat>, telemetry: Telemetry) returns (ok: bool)
      modifies this
      ensures ok == KeysUnique(old(rows) + NewRows(telemetry, deviceIds, Hour(now) - 1))
      ensures rows == AfterRun(old(rows), NewRows(telemetry, deviceIds, Hour(now) - 1))
    {
      hide Mean, Max, Min, Trapezoid, Readings, Round2, Round4, Powers, Hour, KeysUnique, NewRows;
      var periodEnd := now - now % HOUR_MICROS;
      var periodStart := periodEnd - HOUR_MICROS;
      var hour := Hour(periodStart);
      PreviousHour(now);
      var session: seq<Aggregate> := [];
      NoSession(telemetry, deviceIds, hour);
      for n := 0 to |deviceIds|
        invariant session == NewRows(telemetry, deviceIds[..n], hour) && rows == old(rows)
      {
        var deviceId := deviceIds[n];
        SessionStep(telemetry, deviceIds, hour, n);
        var readings := Readings(telemetry, deviceId, hour);
        if |readings| >= 2 {
          var powers := Powers(readings);
          var aggregate := Aggregate(
            deviceId, periodStart, periodEnd, "HOUR",
            Round4(Trapezoid(readings) / 3600.0), Round2(Mean(powers)), Round2(Max(powers)), Round2(Min(powers)));
          session := session + [aggregate];
        }
      }
      assert deviceIds[..|deviceIds|] == deviceIds;
      assert session == NewRows(telemetry, deviceIds, Hour(now) - 1);
      ok := KeysUnique(rows + session);
      if ok { rows := rows + session; }
    }
  }

  // ----- What a row says

  /** Each figure of a row against the readings it summarises: the order of minimum, mean and peak survives rounding,
      and the energy is the hour's trapezoid to within half a ten-thousandth of a kWh. */
  lemma RowIsFaithful(device: nat, hour: int, s: seq<Sample>)
    requires |InHour(s, hour)| >= 2
    ensures var a := AggregateOf(device, hour, InHour(s, hour));
      && a.minimum <= a.average <= a.peak
      && a.energy == HourKwh(s, hour)
      && -0.000_05 <= a.energy - HourSeconds(s, hour) / 3600.0 <= 0.000_05
  {
    hide RoundHalfEven, InHour, Mean, Max, Min, Trapezoid;
    var xs := Powers(InHour(s, hour));
    MeanBetween(xs, Min(xs), Max(xs));
    RoundMonotone(Min(xs) * 100.0, Mean(xs) * 100.0);
    RoundMonotone(Mean(xs) * 100.0, Max(xs) * 100.0);
    Round4Near(HourSeconds(s, hour) / 3600.0);
  }

  /** The figures themselves, each against the readings: the extreme powers to half a hundredth, the mean to half a
      hundredth, and the energy between those of the least and the greatest power over the microseconds spanned, to half
      a ten-thousandth. A constant power leaves no room but for rounding. */
  lemma RowFigures(device: nat, hour: int, s: seq<Sample>, lo: real, hi: real)
    requires |s| >= 2 && Chronological(s) && forall k :: 0 <= k < |s| ==> lo <= s[k].power <= hi
    requires (exists k :: 0 <= k < |s| && s[k].power == lo) && exists k :: 0 <= k < |s| && s[k].power == hi
    ensures var a, hours := AggregateOf(device, hour, s), (s[|s| - 1].at - s[0].at) as real / 3_600_000_000.0;
      && -0.005 <= a.minimum - lo <= 0.005 && -0.005 <= a.peak - hi <= 0.005
      && -0.005 <= a.average - Sum(Powers(s)) / |s| as real <= 0.005
      && lo * hours - 0.000_05 <= a.energy <= hi * hours + 0.000_05
      && a.device == device && a.interval == "HOUR"
      && a.periodStart == hour * 3_600_000_000 && a.periodEnd == a.periodStart + 3_600_000_000
  {
    hide Trapezoid, Sum, Round2, Round4, Chronological, Max, Min;
    var xs := Powers(s);
    ExtremesAre(xs, lo, hi);
    Round2Near(lo);
    Round2Near(hi);
    Round2Near(Sum(xs) / |xs| as real);
    Round4Near(Trapezoid(s) / 3600.0);
    EnergyBounds(s, lo, hi);
  }

  lemma ExtremesAre(xs: seq<real>, lo: real, hi: real)
    requires xs != [] && (forall k :: 0 <= k < |xs| ==> lo <= xs[k] <= hi)
    requires (exists k :: 0 <= k < |xs| && xs[k] == lo) && exists k :: 0 <= k < |xs| && xs[k] == hi
    ensures Min(xs) == lo && Max(xs) == hi
  {
  }

  /** The job runs on the clock hour that ended last. */
  lemma JobHour(now: int)
    ensures var h := Hour(now) - 1; (h + 1) * 3_600_000_000 <= now < (h + 2) * 3_600_000_000
  {
    HourHolds(now, Hour(now));
  }

  lemma {:induction false} SumBetween(xs: seq<real>, lo: real, hi: real)
    requires forall k :: 0 <= k < |xs| ==> lo <= xs[k] <= hi
    ensures Times(|xs| as real, lo) <= Sum(xs) <= Times(|xs| as real, hi)
  {
    if xs != [] {
      hide Times;
      var n := |xs| - 1;
      SumBetween(xs[..n], lo, hi);
      OneMoreTime(n as real, lo);
      OneMoreTime(n as real, hi);
      assert |xs| as real == n as real + 1.0;
    }
  }

  lemma OneMoreTime(n: real, x: real)
    ensures Times(n + 1.0, x) == Times(n, x) + x
  {
  }

  lemma MeanBetween(xs: seq<real>, lo: real, hi: real)
    requires xs != [] && forall k :: 0 <= k < |xs| ==> lo <= xs[k] <= hi
    ensures lo <= Mean(xs) <= hi
  {
    hide Sum, Mean;
    SumBetween(xs, lo, hi);
    MeanTimesCount(xs);
    CancelFactor(|xs| as real, lo, Mean(xs));
    CancelFactor(|xs| as real, Mean(xs), hi);
  }

  // ----- Uniqueness and reruns

  /** One run of the job: the rows its session holds when it commits. */
  datatype Attempt = Attempt(telemetry: Telemetry, devices: seq<nat>, hour: int)

  function AfterRuns(attempts: seq<Attempt>): seq<Aggregate> {
    if attempts == [] then []
    else
      var last := attempts[|attempts| - 1];
      AfterRun(AfterRuns(attempts[..|attempts| - 1]), NewRows(last.telemetry, last.devices, last.hour))
  }

  predicate HasRow(rows: seq<Aggregate>, device: nat, hour: int) {
    exists k :: 0 <= k < |rows| && Key(rows[k]) == (device, hour * HOUR_MICROS, "HOUR")
  }

  /** Over any sequence of runs there is at most one row per device, hour and interval, and no row is ever
      changed or removed. */
  lemma {:induction false} OneRowPerHour(attempts: seq<Attempt>, n: nat)
    requires n <= |attempts|
    ensures KeysUnique(AfterRuns(attempts))
    ensures AfterRuns(attempts[..n]) <= AfterRuns(attempts)
    decreases |attempts|
  {
    hide Key, NewRows;
    if n == |attempts| { assert attempts[..n] == attempts; }
    if attempts != [] {
      var init := attempts[..|attempts| - 1];
      OneRowPerHour(init, if n < |attempts| then n else 0);
      if n < |attempts| { assert init[..n] == attempts[..n]; }
    }
  }

  /** The run that stored a row computed it, and found no row for its device and hour. */
  predicate StoredBy(attempts: seq<Attempt>, m: nat, a: Aggregate)
    requires m < |attempts|
  {
    && a in NewRows(attempts[m].telemetry, attempts[m].devices, attempts[m].hour)
    && forall k :: 0 <= k < |AfterRuns(attempts[..m])| ==> Key(AfterRuns(attempts[..m])[k]) != Key(a)
  }

  /** The figures of a row are those of the first run that stored its device and hour; no later run corrects them. */
  lemma {:induction false} FirstRunDecides(attempts: seq<Attempt>, a: Aggregate) returns (m: nat)
    requires a in AfterRuns(attempts)
    ensures m < |attempts| && StoredBy(attempts, m, a)
  {
    hide Key, NewRows;
    m := |attempts| - 1;
    var init, last := attempts[..m], attempts[m];
    var before, rows := AfterRuns(init), NewRows(last.telemetry, last.devices, last.hour);
    if a in before {
      m := FirstRunDecides(init, a);
      assert attempts[..m] == init[..m];
    } else {
      var all := before + rows;
      var k :| 0 <= k < |all| && all[k] == a;
      forall j | 0 <= j < |before| ensures Key(before[j]) != Key(a) { assert all[j] == before[j]; }
    }
  }

  /** The device contributes a row to a run for this hour. */
  predicate Contributes(telemetry: Telemetry, devices: seq<nat>, hour: int, device: nat) {
    device in devices && |Readings(telemetry, device, hour)| >= 2
  }

  predicate Distinct(devices: seq<nat>) {
    forall j, k :: 0 <= j < k < |devices| ==> devices[j] != devices[k]
  }

  lemma HasRowConcat(a: seq<Aggregate>, b: seq<Aggregate>, device: nat, hour: int)
    ensures HasRow(a + b, device, hour) <==> HasRow(a, device, hour) || HasRow(b, device, hour)
  {
    hide Key;
    forall k | 0 <= k < |a| ensures (a + b)[k] == a[k] {}
    forall k | 0 <= k < |b| ensures (a + b)[|a| + k] == b[k] {}
  }

  /** A run's session holds one row for each device that contributes, and for no other. */
  lemma {:induction false} SessionRows(telemetry: Telemetry, devices: seq<nat>, hour: int, d: nat)
    ensures HasRow(NewRows(telemetry, devices, hour), d, hour) <==> Contributes(telemetry, devices, hour, d)
  {
    hide RoundHalfEven, Mean, Max, Min, Trapezoid, Readings, Round2, Round4, Powers;
    if devices != [] {
      var n := |devices| - 1;
      var init, last := devices[..n], devices[n];
      assert devices == init + [last];
      SessionRows(telemetry, init, hour, d);
      if |Readings(telemetry, last, hour)| >= 2 {
        var row := AggregateOf(last, hour, Readings(telemetry, last, hour));
        HasRowConcat(NewRows(telemetry, init, hour), [row], d, hour);
        assert Key([row][0]) == (last, hour * HOUR_MICROS, "HOUR");
        assert HasRow([row], d, hour) <==> d == last;
      } else {
        assert NewRows(telemetry, devices, hour) == NewRows(telemetry, init, hour);
      }
    }
  }

  predicate RowFor(a: Aggregate, devices: seq<nat>, hour: int) {
    a.device in devices && Key(a) == (a.device, hour * HOUR_MICROS, "HOUR")
  }

  lemma {:induction false} SessionKeys(telemetry: Telemetry, devices: seq<nat>, hour: int)
    ensures forall a :: a in NewRows(telemetry, devices, hour) ==> RowFor(a, devices, hour)
  {
    hide RoundHalfEven, Mean, Max, Min, Trapezoid, Readings, Round2, Round4, Powers;
    if devices != [] {
      var init := devices[..|devices| - 1];
      assert devices == init + [devices[|devices| - 1]];
      SessionKeys(telemetry, init, hour);
      forall a | a in NewRows(telemetry, devices, hour) ensures RowFor(a, devices, hour) {
        if a in NewRows(telemetry, init, hour) { assert RowFor(a, init, hour); }
      }
    }
  }

  lemma {:induction false} SessionUnique(telemetry: Telemetry, devices: seq<nat>, hour: int)
    requires Distinct(devices)
    ensures KeysUnique(NewRows(telemetry, devices, hour))
  {
    hide RoundHalfEven, Mean, Max, Min, Trapezoid, Readings, Round2, Round4, Powers;
    if devices != [] {
      var init := devices[..|devices| - 1];
      SessionUnique(telemetry, init, hour);
      SessionKeys(telemetry, init, hour);
      var before := NewRows(telemetry, init, hour);
      forall k | 0 <= k < |before| ensures before[k].device != devices[|devices| - 1] {
        assert RowFor(before[k], init, hour);
      }
    }
  }

  lemma UniqueConcat(table: seq<Aggregate>, rows: seq<Aggregate>, hour: int)
    requires KeysUnique(table) && KeysUnique(rows)
    requires forall a :: a in rows ==> Key(a) == (a.device, hour * HOUR_MICROS, "HOUR")
    ensures KeysUnique(table + rows) <==> forall a :: a in rows ==> !HasRow(table, a.device, hour)
  {
    var all := table + rows;
    if a :| a in rows && HasRow(table, a.device, hour) {
      var k :| 0 <= k < |rows| && rows[k] == a;
      var j :| 0 <= j < |table| && Key(table[j]) == (a.device, hour * HOUR_MICROS, "HOUR");
      assert all[j] == table[j] && all[|table| + k] == rows[k];
    }
    if forall a :: a in rows ==> !HasRow(table, a.device, hour) {
      forall j, k | 0 <= j < k < |all| ensures Key(all[j]) != Key(all[k]) {
        if j < |table| <= k {
          assert all[k] in rows;
          assert Key(table[j]) == Key(all[j]);
        }
      }
    }
  }

  /** A run commits exactly when no device that contributes a row already has one for the hour; otherwise it adds
      nothing at all, not even for the devices that have none. */
  lemma RunIsAllOrNothing(table: seq<Aggregate>, telemetry: Telemetry, devices: seq<nat>, hour: int, d: nat)
    requires KeysUnique(table) && Distinct(devices)
    ensures var rows := NewRows(telemetry, devices, hour);
      && (KeysUnique(table + rows) <==> forall e :: Contributes(telemetry, devices, hour, e) ==>
           !HasRow(table, e, hour))
      && (!KeysUnique(table + rows) ==> AfterRun(table, rows) == table)
      && (KeysUnique(table + rows) ==>
            (HasRow(AfterRun(table, rows), d, hour) <==>
              HasRow(table, d, hour) || Contributes(telemetry, devices, hour, d)))
  {
    hide Key, KeysUnique, Contributes, HasRow;
    var rows := NewRows(telemetry, devices, hour);
    SessionUnique(telemetry, devices, hour);
    SessionKeys(telemetry, devices, hour);
    UniqueConcat(table, rows, hour);
    SessionRows(telemetry, devices, hour, d);
    HasRowConcat(table, rows, d, hour);
    SessionCovers(table, telemetry, devices, hour);
  }

  lemma SessionCovers(table: seq<Aggregate>, telemetry: Telemetry, devices: seq<nat>, hour: int)
    ensures (forall a :: a in NewRows(telemetry, devices, hour) ==> !HasRow(table, a.device, hour))
      <==> (forall e :: Contributes(telemetry, devices, hour, e) ==> !HasRow(table, e, hour))
  {
    hide NewRows, Contributes;
    var rows := NewRows(telemetry, devices, hour);
    SessionKeys(telemetry, devices, hour);
    forall e | Contributes(telemetry, devices, hour, e)
      ensures exists a :: a in rows && a.device == e
    {
      SessionRows(telemetry, devices, hour, e);
      var k :| 0 <= k < |rows| && Key(rows[k]) == (e, hour * HOUR_MICROS, "HOUR");
      assert rows[k] in rows;
    }
    forall a | a in rows ensures Contributes(telemetry, devices, hour, a.device) {
      var k :| 0 <= k < |rows| && rows[k] == a;
      assert RowFor(a, devices, hour);
      SessionRows(telemetry, devices, hour, a.device);
    }
  }

  /** A run for an hour leaves the table as it was exactly when nobody contributes, or when some device that contributes
      already has a row for the hour. */
  lemma UnchangedExactly(table: seq<Aggregate>, telemetry: Telemetry, devices: seq<nat>, hour: int)
    requires KeysUnique(table) && Distinct(devices)
    ensures AfterRun(table, NewRows(telemetry, devices, hour)) == table
      <==> ((forall d :: !Contributes(telemetry, devices, hour, d))
            || exists d :: Contributes(telemetry, devices, hour, d) && HasRow(table, d, hour))
  {
    hide Key, KeysUnique, Contributes, NewRows, HasRow;
    var rows := NewRows(telemetry, devices, hour);
    RunIsAllOrNothing(table, telemetry, devices, hour, 0);
    if rows == [] {
      forall d ensures !Contributes(telemetry, devices, hour, d) {
        SessionRows(telemetry, devices, hour, d);
        NoRows(d, hour);
      }
    } else {
      SessionKeys(telemetry, devices, hour);
      assert rows[0] in rows;
      FirstRow(rows, devices, hour);
      SessionRows(telemetry, devices, hour, rows[0].device);
    }
  }

  lemma NoRows(d: nat, hour: int)
    ensures !HasRow([], d, hour)
  {
  }

  lemma FirstRow(rows: seq<Aggregate>, devices: seq<nat>, hour: int)
    requires rows != [] && RowFor(rows[0], devices, hour)
    ensures HasRow(rows, rows[0].device, hour)
  {
  }

  lemma RunsKeepUnique(table: seq<Aggregate>, rows: seq<Aggregate>)
    requires KeysUnique(table)
    ensures KeysUnique(AfterRun(table, rows))
  {
  }

  /** The exact sense in which the job is idempotent. A rerun for the same hour, whatever it reads by then and
      whichever devices are active by then, changes nothing if and only if nobody contributes to it or some device
      that contributes has a row already; in particular it changes nothing if it reads what the first run read. */
  lemma RerunChangesNothingExactly(
    table: seq<Aggregate>, telemetry: Telemetry, devices: seq<nat>, later: Telemetry, active: seq<nat>, hour: int)
    requires KeysUnique(table) && Distinct(devices) && Distinct(active)
    ensures var once := AfterRun(table, NewRows(telemetry, devices, hour));
      && (AfterRun(once, NewRows(later, active, hour)) == once
          <==> ((forall d :: !Contributes(later, active, hour, d))
                || exists d :: Contributes(later, active, hour, d) && HasRow(once, d, hour)))
      && AfterRun(once, NewRows(telemetry, devices, hour)) == once
  {
    hide Key, KeysUnique, Contributes, HasRow, NewRows;
    var rows := NewRows(telemetry, devices, hour);
    RunsKeepUnique(table, rows);
    UnchangedExactly(AfterRun(table, rows), later, active, hour);
    if KeysUnique(table + rows) { TwiceCollides(table, rows); }
  }

  const TWO_SAMPLES: seq<Sample> := [Sample(0, 1.0), Sample(1_000_000, 1.0)]

  /** It can change something: device 1 was rolled up and then deactivated, and device 2 sent its readings late. */
  lemma RerunCanChangeTable()
    ensures var once := AfterRun([], NewRows(map[1 := TWO_SAMPLES], [1], 0));
      |once| == 1 && |AfterRun(once, NewRows(map[1 := TWO_SAMPLES, 2 := TWO_SAMPLES], [2], 0))| == 2
  {
    hide AggregateOf, Readings, KeysUnique;
    OneDevice(map[1 := TWO_SAMPLES], 1);
    OneDevice(map[1 := TWO_SAMPLES, 2 := TWO_SAMPLES], 2);
    var first := AggregateOf(1, 0, TWO_SAMPLES);
    var second := AggregateOf(2, 0, TWO_SAMPLES);
    assert KeysUnique([first]) && KeysUnique([first] + [second]) by { TwoDevices(TWO_SAMPLES); }
    assert [] + [first] == [first];
  }

  lemma OneDevice(telemetry: Telemetry, d: nat)
    requires d in telemetry && telemetry[d] == TWO_SAMPLES
    ensures NewRows(telemetry, [d], 0) == [AggregateOf(d, 0, TWO_SAMPLES)]
  {
    hide AggregateOf;
    var s := TWO_SAMPLES;
    assert s[..1][..0] == [] && s[..1] == [s[0]];
    assert InHour([s[0]], 0) == [s[0]] && InHour(s, 0) == [s[0]] + [s[1]] == s;
    assert [d][..0] == [];
  }

  lemma TwoDevices(s: seq<Sample>)
    requires |s| >= 2
    ensures KeysUnique([AggregateOf(1, 0, s)]) && KeysUnique([AggregateOf(1, 0, s)] + [AggregateOf(2, 0, s)])
  {
    hide Round2, Round4, Powers, Trapezoid, Mean, Max, Min;
  }

  lemma TwiceCollides(table: seq<Aggregate>, rows: seq<Aggregate>)
    ensures rows == [] || !KeysUnique(table + rows + rows)
  {
    if rows != [] {
      var all := table + rows + rows;
      assert all[|table|] == rows[0] && all[|table| + |rows|] == rows[0];
    }
  }
}
