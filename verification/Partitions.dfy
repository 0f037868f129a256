/** Monthly range partitions of the telemetry table, as created by migration 002. */
module Partitions {
  import opened Text
  import opened Calendar

  /** One partition: its table name and the half-open range of instants it stores. */
  datatype Partition = Partition(name: string, lo: int, hi: int) {
    predicate Holds(instant: int) { lo <= instant < hi }
  }

  function MonthName(year: nat, month: nat): string {
    "telemetry_readings_y" + NatText(year) + "_m" + Padded(month, 10, 2)
  }

  /** The partition of the month with the given index. */
  function MonthPartition(index: nat): Partition {
    Partition(MonthName(index / 12, index % 12 + 1), MonthStart(index), MonthStart(index + 1))
  }

  /** Eight consecutive months, from the one before the current month on. */
  function Tiling(current: nat): (parts: seq<Partition>)
    requires current >= 1
    ensures |parts| == 8
    ensures forall k :: 0 <= k < 8 ==> parts[k] == MonthPartition(current - 1 + k)
  {
    seq(8, k requires 0 <= k < 8 => MonthPartition(current - 1 + k))
  }

  predicate Covered(parts: seq<Partition>, instant: int) {
    exists k :: 0 <= k < |parts| && parts[k].Holds(instant)
  }

  /** Runs the partition loop of `upgrade` with the year and month of `now`; a CREATE TABLE IF NOT EXISTS
      on a name already taken would create nothing, so the tiling also needs the eight names to differ. */
  method Upgrade(year: nat, month: nat) returns (created: seq<Partition>)
    requires 1 <= year && 1 <= month <= 12
    ensures created == Tiling(MonthIndex(year, month))
  {
    hide Tiling, MonthName, MonthStart, Padded, NatText;
    created := [];
    ghost var tiles := Tiling(MonthIndex(year, month));
    for offset := -1 to 7
      invariant created == tiles[..offset + 1]
    {
      var y := year + (month + offset - 1) / 12;
      var m := (month + offset - 1) % 12 + 1;
      var nextYear := y + (if m == 12 then 1 else 0);
      var nextMonth := if m == 12 then 1 else m + 1;
      LoopBodyMakesTile(year, month, offset);
      var next := Partition(MonthName(y, m), MonthStart(MonthIndex(y, m)), MonthStart(MonthIndex(nextYear, nextMonth)));
      TileNamesDiffer(MonthIndex(year, month));
      if forall k :: 0 <= k < |created| ==> created[k].name != next.name {
        created := created + [next];
      }
    }
  }

  /** The loop's floor division and remainder step through consecutive month indices. */
  lemma OffsetMonth(year: nat, month: nat, offset: int)
    requires 1 <= year && 1 <= month <= 12 && -1 <= offset < 7
    ensures var y, m := year + (month + offset - 1) / 12, (month + offset - 1) % 12 + 1;
      && y >= 0 && 1 <= m <= 12
      && MonthIndex(y, m) == MonthIndex(year, month) + offset
      && MonthIndex(y, m) / 12 == y && MonthIndex(y, m) % 12 + 1 == m
      && MonthIndex(y + (if m == 12 then 1 else 0), if m == 12 then 1 else m + 1)
           == MonthIndex(year, month) + offset + 1
  {
  }

  lemma LoopBodyMakesTile(year: nat, month: nat, offset: int)
    requires 1 <= year && 1 <= month <= 12 && -1 <= offset < 7
    ensures var y, m := year + (month + offset - 1) / 12, (month + offset - 1) % 12 + 1;
      && y >= 0
      && Partition(MonthName(y, m), MonthStart(MonthIndex(y, m)),
                   MonthStart(MonthIndex(y + (if m == 12 then 1 else 0), if m == 12 then 1 else m + 1)))
         == Tiling(MonthIndex(year, month))[offset + 1]
  {
    hide NatText, Padded, MonthName, MonthStart;
    OffsetMonth(year, month, offset);
    assert Tiling(MonthIndex(year, month))[offset + 1] == MonthPartition(MonthIndex(year, month) + offset);
  }

  lemma TileNamesDiffer(current: nat)
    requires current >= 1
    ensures forall j, k :: 0 <= j < k < 8 ==> Tiling(current)[j].name != Tiling(current)[k].name
  {
    forall j, k | 0 <= j < k < 8 ensures Tiling(current)[j].name != Tiling(current)[k].name {
      NamesDiffer(current - 1 + j, current - 1 + k);
    }
  }

  lemma NameParts(x: string, p: string, y: string, q: string)
    requires |p| == |q|
    requires "telemetry_readings_y" + x + "_m" + p == "telemetry_readings_y" + y + "_m" + q
    ensures x == y && p == q
  {
    var head := "telemetry_readings_y";
    var s, t := head + x + "_m" + p, head + y + "_m" + q;
    assert |x| == |y|;
    assert s[|head|..|head| + |x|] == x && t[|head|..|head| + |x|] == y;
    assert s[|s| - |p|..] == p && t[|s| - |p|..] == q;
  }

  /** Different months have different partition names. */
  lemma NamesDiffer(i: nat, j: nat)
    requires i != j
    ensures MonthPartition(i).name != MonthPartition(j).name
  {
    hide MonthName, MonthStart;
    if MonthPartition(i).name == MonthPartition(j).name {
      NameDetermines(i / 12, i % 12 + 1, j / 12, j % 12 + 1);
    }
  }

  lemma NameDetermines(y: nat, m: nat, z: nat, n: nat)
    requires m < 100 && n < 100 && MonthName(y, m) == MonthName(z, n)
    ensures y == z && m == n
  {
    hide NatText, Padded, DigitsValue;
    NameParts(NatText(y), Padded(m, 10, 2), NatText(z), Padded(n, 10, 2));
    NatTextReadsBack(y);
    NatTextReadsBack(z);
    TwoDigits(m);
    TwoDigits(n);
  }

  lemma TilesAreOrdered(current: nat, j: nat, k: nat)
    requires current >= 1 && j < k < 8
    ensures Tiling(current)[j].hi <= Tiling(current)[k].lo
  {
    hide MonthStart, MonthName;
    if j + 1 < k { MonthStartsIncrease(current + j, current - 1 + k); }
  }

  lemma TilesLieWithin(current: nat, k: nat)
    requires current >= 1 && k < 8
    ensures MonthStart(current - 1) <= Tiling(current)[k].lo < Tiling(current)[k].hi <= MonthStart(current + 7)
  {
    hide MonthStart, MonthName;
    MonthStartsIncrease(current - 1 + k, current + k);
    if k > 0 { MonthStartsIncrease(current - 1, current - 1 + k); }
    if k < 7 { MonthStartsIncrease(current + k, current + 7); }
    assert Tiling(current)[k] == MonthPartition(current - 1 + k);
  }

  /** The eight ranges adjoin, have distinct names, and each instant lies in at most one of them. */
  lemma TilesAreDisjoint(current: nat, instant: int)
    requires current >= 1
    ensures var parts := Tiling(current);
      && (forall k :: 0 <= k < 7 ==> parts[k].hi == parts[k + 1].lo)
      && (forall j, k :: 0 <= j < k < 8 ==> parts[j].name != parts[k].name)
      && (forall j, k :: 0 <= j < 8 && 0 <= k < 8 && parts[j].Holds(instant) && parts[k].Holds(instant) ==> j == k)
  {
    TileNamesDiffer(current);
    forall j, k | 0 <= j < k < 8 ensures Tiling(current)[j].hi <= Tiling(current)[k].lo {
      TilesAreOrdered(current, j, k);
    }
    forall k | 0 <= k < 7 ensures Tiling(current)[k].hi == Tiling(current)[k + 1].lo {
      assert Tiling(current)[k] == MonthPartition(current - 1 + k);
      assert Tiling(current)[k + 1] == MonthPartition(current + k);
    }
  }

  lemma MonthIsCovered(current: nat, month: nat, instant: int)
    requires current >= 1 && current - 1 <= month < current + 7
    requires MonthStart(month) <= instant < MonthStart(month + 1)
    ensures Covered(Tiling(current), instant)
  {
    var tile := month - (current - 1);
    assert Tiling(current)[tile] == MonthPartition(month);
    assert Tiling(current)[tile].Holds(instant);
  }

  /** Together they hold exactly the instants from the start of the previous month to the end of the sixth month
      ahead. */
  lemma TilesCoverExactly(current: nat, instant: int)
    requires current >= 1
    ensures Covered(Tiling(current), instant) <==> MonthStart(current - 1) <= instant < MonthStart(current + 7)
  {
    if Covered(Tiling(current), instant) {
      var k :| 0 <= k < 8 && Tiling(current)[k].Holds(instant);
      TilesLieWithin(current, k);
    }
    if MonthStart(current - 1) <= instant < MonthStart(current + 7) {
      var month := FindMonth(current - 1, current + 7, instant);
      MonthIsCovered(current, month, instant);
    }
  }

  /** Some month between two month starts contains the instant. */
  lemma FindMonth(lo: nat, hi: nat, instant: int) returns (k: nat)
    requires MonthStart(lo) <= instant < MonthStart(hi)
    requires lo < hi
    ensures lo <= k < hi && MonthStart(k) <= instant < MonthStart(k + 1)
    decreases hi - lo
  {
    if instant < MonthStart(lo + 1) { k := lo; } else { k := FindMonth(lo + 1, hi, instant); }
  }

  /** A reading stamped with a UTC instant of the migration's own month finds its partition. */
  lemma CurrentMonthIsCovered(t: Timestamp)
    requires t.Valid() && t.UtcOffset() == 0
    ensures Covered(Tiling(MonthIndex(t.year, t.month)), t.Instant())
  {
    var k := MonthIndex(t.year, t.month);
    TilesCoverExactly(k, t.Instant());
    MonthStartsIncrease(k - 1, k);
    MonthStartsIncrease(k + 1, k + 7);
    assert MonthStart(k + 1) == MonthStart(k) + DaysInMonth(t.year, t.month) * DAY_MICROS by {
      assert k / 12 == t.year && k % 12 + 1 == t.month;
    }
  }

  /** A partition is a calendar month: its bounds are midnight UTC on the first of its month and of the next one. */
  lemma PartitionIsMonth(year: nat, month: nat)
    requires 1 <= year <= 9998 && 1 <= month <= 12
    ensures var p, nextYear, nextMonth := MonthPartition(MonthIndex(year, month)),
                                          if month == 12 then year + 1 else year, if month == 12 then 1 else month + 1;
      && p.name == MonthName(year, month)
      && p.lo == Timestamp(year, month, 1, 0, 0, 0, 0, Some(0)).Instant()
      && p.hi == Timestamp(nextYear, nextMonth, 1, 0, 0, 0, 0, Some(0)).Instant()
      && forall instant :: p.Holds(instant) <==> p.lo <= instant < p.hi
  {
    hide MonthStart, MonthName;
    var k := MonthIndex(year, month);
    assert k / 12 == year && k % 12 + 1 == month;
    if month == 12 { assert MonthIndex(year + 1, 1) == k + 1; }
  }

  lemma NameExample()
    ensures MonthName(2026, 9) == "telemetry_readings_y2026_m09"
  {
    FourDigitYear();
    assert Padded(9, 10, 1) == "9" by { assert Padded(0, 10, 0) == ""; }
    assert Padded(9, 10, 2) == "09" by { assert Padded(0, 10, 1) == "0"; }
  }

  lemma FourDigitYear()
    ensures NatText(2026) == "2026"
  {
    assert NatText(2) == "2" && NatText(20) == "20" && NatText(202) == "202";
  }
}
