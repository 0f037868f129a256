/** The proleptic Gregorian calendar in UTC: months counted from year 0, instants in microseconds. */
module Calendar {
  import opened Text

  const DAY_MICROS: int := 86_400_000_000
  const MINUTE_MICROS: int := 60_000_000

  predicate Leap(year: nat) { year % 4 == 0 && (year % 100 != 0 || year % 400 == 0) }

  function DaysInMonth(year: nat, month: nat): nat {
    if month == 2 then (if Leap(year) then 29 else 28)
    else if month in {4, 6, 9, 11} then 30
    else 31
  }

  /** Months since January of year 0. */
  function MonthIndex(year: nat, month: nat): nat
    requires 1 <= month <= 12
  {
    12 * year + month - 1
  }

  function MonthStartDay(index: nat): nat {
    if index == 0 then 0
    else MonthStartDay(index - 1) + DaysInMonth((index - 1) / 12, (index - 1) % 12 + 1)
  }

  /** The first instant of a month. */
  function MonthStart(index: nat): int { MonthStartDay(index) * DAY_MICROS }

  lemma MonthStartsIncrease(i: nat, j: nat)
    requires i < j
    ensures MonthStart(i) < MonthStart(j)
    decreases j
  {
    if i < j - 1 { MonthStartsIncrease(i, j - 1); }
  }

  /** A wall-clock reading and, unless it is naive, its offset from UTC in minutes. */
  datatype Timestamp = Timestamp(
    year: nat, month: nat, day: nat, hour: nat, minute: nat, second: nat, micro: nat, offset: Option<int>)
  {
    predicate Valid() {
      && 1 <= year <= 9999 && 1 <= month <= 12 && 1 <= day <= DaysInMonth(year, month)
      && hour < 24 && minute < 60 && second < 60 && micro < 1_000_000
      && ValidOffset(offset)
    }

    /** A naive reading is taken as local time, and the services run in UTC. */
    function UtcOffset(): int { if offset.Some? then offset.value else 0 }

    /** The point in time the reading denotes. */
    function Instant(): int
      requires Valid()
    {
      MonthStart(MonthIndex(year, month)) + (day - 1) * DAY_MICROS
      + (hour * 60 + minute - UtcOffset()) * MINUTE_MICROS + second * 1_000_000 + micro
    }

    /** `isoformat()`: microseconds appear only when they are not zero, an offset only if there is one. */
    function IsoText(): string
      requires Valid()
    {
      DateText(year, month, day) + "T" + TimeText(hour, minute, second) + TailText(micro, offset)
    }
  }

  predicate ValidOffset(offset: Option<int>) { offset.Some? ==> -1440 < offset.value < 1440 }

  function DateText(year: nat, month: nat, day: nat): (s: string)
    ensures |s| == 10
  {
    Padded(year, 10, 4) + "-" + Padded(month, 10, 2) + "-" + Padded(day, 10, 2)
  }

  function TimeText(hour: nat, minute: nat, second: nat): (s: string)
    ensures |s| == 8
  {
    Padded(hour, 10, 2) + ":" + Padded(minute, 10, 2) + ":" + Padded(second, 10, 2)
  }

  function TailText(micro: nat, offset: Option<int>): (s: string)
    requires ValidOffset(offset)
  {
    (if micro == 0 then "" else "." + Padded(micro, 10, 6)) + OffsetText(offset)
  }

  function OffsetText(offset: Option<int>): (s: string)
    requires ValidOffset(offset)
    ensures |s| == if offset.None? then 0 else 6
    ensures s != "" ==> s[0] != '.'
  {
    if offset.None? then ""
    else
      var size := if offset.value < 0 then -offset.value else offset.value;
      (if offset.value < 0 then "-" else "+") + Padded(size / 60, 10, 2) + ":" + Padded(size % 60, 10, 2)
  }

  /** The outer None is a malformed offset, the inner one a naive timestamp. */
  function ParseOffset(s: string): Option<Option<int>> {
    if s == "" then Some(None)
    else if |s| != 6 || s[0] !in "+-" || s[3] != ':' then None
    else
      match (DigitsValue(s[1..3], 10), DigitsValue(s[4..6], 10))
      case (Some(h), Some(m)) =>
        var size: int := 60 * h + m;
        if m < 60 && size < 1440 then Some(Some(if s[0] == '-' then -size else size)) else None
      case _ => None
  }

  function ParseDate(s: string): Option<(nat, nat, nat)> {
    if |s| != 10 || s[4] != '-' || s[7] != '-' then None
    else
      match (DigitsValue(s[0..4], 10), DigitsValue(s[5..7], 10), DigitsValue(s[8..10], 10))
      case (Some(y), Some(m), Some(d)) => Some((y, m, d))
      case _ => None
  }

  function ParseTime(s: string): Option<(nat, nat, nat)> {
    if |s| != 8 || s[2] != ':' || s[5] != ':' then None
    else
      match (DigitsValue(s[0..2], 10), DigitsValue(s[3..5], 10), DigitsValue(s[6..8], 10))
      case (Some(h), Some(m), Some(sec)) => Some((h, m, sec))
      case _ => None
  }

  /** An optional fraction of a second, then the offset. */
  function ParseTail(s: string): Option<(nat, Option<int>)> {
    if s != "" && s[0] == '.' then
      if |s| < 7 then None
      else
        match (DigitsValue(s[1..7], 10), ParseOffset(s[7..]))
        case (Some(micro), Some(offset)) => Some((micro, offset))
        case _ => None
    else
      match ParseOffset(s)
      case Some(offset) => Some((0, offset))
      case None => None
  }

  /** `datetime.fromisoformat` on the texts that `isoformat` produces. */
  function ParseIso(s: string): (r: Option<Timestamp>)
    ensures r.Some? ==> r.value.Valid()
  {
    if |s| < 19 || s[10] != 'T' then None
    else
      match (ParseDate(s[..10]), ParseTime(s[11..19]), ParseTail(s[19..]))
      case (Some(d), Some(t), Some(tail)) =>
        var stamp := Timestamp(d.0, d.1, d.2, t.0, t.1, t.2, tail.0, tail.1);
        if stamp.Valid() then Some(stamp) else None
      case _ => None
  }

  lemma TwoDigits(n: nat)
    requires n < 100
    ensures DigitsValue(Padded(n, 10, 2), 10) == Some(n)
  {
    assert Pow(10, 2) == 100 by { assert Pow(10, 1) == 10; }
    PaddedReadsBack(n, 10, 2);
  }

  lemma FourDigits(n: nat)
    requires n < 10000
    ensures DigitsValue(Padded(n, 10, 4), 10) == Some(n)
  {
    assert Pow(10, 4) == 10000 by { assert Pow(10, 1) == 10; assert Pow(10, 2) == 100; assert Pow(10, 3) == 1000; }
    PaddedReadsBack(n, 10, 4);
  }

  lemma SixDigits(n: nat)
    requires n < 1_000_000
    ensures DigitsValue(Padded(n, 10, 6), 10) == Some(n)
  {
    assert Pow(10, 6) == 1_000_000 by {
      assert Pow(10, 1) == 10; assert Pow(10, 2) == 100; assert Pow(10, 3) == 1000;
      assert Pow(10, 4) == 10000; assert Pow(10, 5) == 100000;
    }
    PaddedReadsBack(n, 10, 6);
  }

  lemma OffsetReadsBack(offset: Option<int>)
    requires ValidOffset(offset)
    ensures ParseOffset(OffsetText(offset)) == Some(offset)
  {
    hide Padded, DigitsValue, Pow;
    if offset.None? { return; }
    var size := if offset.value < 0 then -offset.value else offset.value;
    var s := OffsetText(offset);
    TwoDigits(size / 60);
    TwoDigits(size % 60);
    assert s[1..3] == Padded(size / 60, 10, 2);
    assert s[4..6] == Padded(size % 60, 10, 2);
  }

  lemma DateReadsBack(year: nat, month: nat, day: nat)
    requires year < 10000 && month < 100 && day < 100
    ensures ParseDate(DateText(year, month, day)) == Some((year, month, day))
  {
    hide Padded, DigitsValue, Pow;
    var s := DateText(year, month, day);
    FourDigits(year);
    TwoDigits(month);
    TwoDigits(day);
    assert s[0..4] == Padded(year, 10, 4) && s[5..7] == Padded(month, 10, 2) && s[8..10] == Padded(day, 10, 2);
  }

  lemma TimeReadsBack(hour: nat, minute: nat, second: nat)
    requires hour < 100 && minute < 100 && second < 100
    ensures ParseTime(TimeText(hour, minute, second)) == Some((hour, minute, second))
  {
    hide Padded, DigitsValue, Pow;
    var s := TimeText(hour, minute, second);
    TwoDigits(hour);
    TwoDigits(minute);
    TwoDigits(second);
    assert s[0..2] == Padded(hour, 10, 2) && s[3..5] == Padded(minute, 10, 2) && s[6..8] == Padded(second, 10, 2);
  }

  lemma TailReadsBack(micro: nat, offset: Option<int>)
    requires micro < 1_000_000 && ValidOffset(offset)
    ensures ParseTail(TailText(micro, offset)) == Some((micro, offset))
  {
    var s := TailText(micro, offset);
    OffsetReadsBack(offset);
    if micro == 0 {
      assert s == OffsetText(offset);
    } else {
      SixDigits(micro);
      assert s[1..7] == Padded(micro, 10, 6) && s[7..] == OffsetText(offset);
    }
  }

  /** fromisoformat(isoformat(t)) == t. */
  lemma IsoReadsBack(t: Timestamp)
    requires t.Valid()
    ensures ParseIso(t.IsoText()) == Some(t)
  {
    hide DateText, TimeText, TailText, ParseDate, ParseTime, ParseTail;
    var date, time, tail := DateText(t.year, t.month, t.day), TimeText(t.hour, t.minute, t.second),
        TailText(t.micro, t.offset);
    var s := t.IsoText();
    DateReadsBack(t.year, t.month, t.day);
    TimeReadsBack(t.hour, t.minute, t.second);
    TailReadsBack(t.micro, t.offset);
    assert s == date + "T" + time + tail;
    assert s[..10] == date && s[11..19] == time && s[19..] == tail;
  }

  // ----- What an instant is

  /** Which readings of calendar and clock exist, month by month. */
  lemma ValidReadings(t: Timestamp)
    ensures t.Valid() <==>
      && 1 <= t.year <= 9999 && t.day >= 1 && t.hour <= 23 && t.minute <= 59 && t.second <= 59 && t.micro <= 999_999
      && ((t.month in {1, 3, 5, 7, 8, 10, 12} && t.day <= 31)
          || (t.month in {4, 6, 9, 11} && t.day <= 30)
          || (t.month == 2 && t.day <= 28)
          || (t.month == 2 && t.day == 29 && t.year % 4 == 0 && (t.year % 100 != 0 || t.year % 400 == 0)))
      && (t.offset.Some? ==> -1440 < t.offset.value < 1440)
  {
  }

  /** The same clock showing UTC. */
  function AtUtc(t: Timestamp): Timestamp { t.(offset := Some(0)) }

  function Midnight(t: Timestamp): Timestamp { t.(hour := 0, minute := 0, second := 0, micro := 0, offset := Some(0)) }

  /** A clock ahead of UTC shows a time before UTC does; a naive one shows UTC. */
  lemma OffsetIsSubtracted(t: Timestamp)
    requires t.Valid()
    ensures t.Instant() == AtUtc(t).Instant() - (if t.offset.Some? then t.offset.value * 60_000_000 else 0)
  {
    hide MonthStart;
  }

  /** The time of day, in microseconds since midnight. */
  lemma TimeOfDay(t: Timestamp)
    requires t.Valid()
    ensures AtUtc(t).Instant() - Midnight(t).Instant()
         == t.hour * 3_600_000_000 + t.minute * 60_000_000 + t.second * 1_000_000 + t.micro
  {
    hide MonthStart;
  }

  /** Two clocks that differ by k minutes in what they show and in their offsets show the same instant. */
  lemma MovedClock(t: Timestamp, u: Timestamp, k: int)
    requires t.Valid() && u.Valid() && t.offset.Some? && u.offset == Some(t.offset.value + k)
    requires AtUtc(u).Instant() == AtUtc(t).Instant() + k * 60_000_000
    ensures u.Instant() == t.Instant()
  {
    OffsetIsSubtracted(t);
    OffsetIsSubtracted(u);
  }

  /** The calendar date after a given one. */
  function NextDay(t: Timestamp): Timestamp {
    var leap := t.year % 400 == 0 || (t.year % 4 == 0 && t.year % 100 != 0);
    if (t.month == 12 && t.day == 31) then t.(year := t.year + 1, month := 1, day := 1)
    else if (t.month in {1, 3, 5, 7, 8, 10} && t.day == 31) || (t.month in {4, 6, 9, 11} && t.day == 30)
         || (t.month == 2 && t.day == if leap then 29 else 28) then t.(month := t.month + 1, day := 1)
    else t.(day := t.day + 1)
  }

  /** A day later the same clock shows the next date, across month ends, leap days and year ends. */
  lemma DaysAreEqual(t: Timestamp)
    requires t.Valid() && NextDay(t).year <= 9999
    ensures NextDay(t).Valid() && NextDay(t).Instant() == t.Instant() + 86_400_000_000
  {
    hide MonthStartDay;
    var k := MonthIndex(t.year, t.month);
    OneMonth(t.year, t.month);
    assert MonthStart(k + 1) == MonthStart(k) + DaysInMonth(t.year, t.month) * DAY_MICROS;
    hide MonthStart;
    if NextDay(t).day == 1 {
      assert t.day == DaysInMonth(t.year, t.month) && MonthIndex(NextDay(t).year, NextDay(t).month) == k + 1;
    }
  }

  lemma OneMonth(year: nat, month: nat)
    requires 1 <= month <= 12
    ensures MonthStartDay(12 * year + month) == MonthStartDay(12 * year + month - 1) + DaysInMonth(year, month)
  {
    var k := 12 * year + month - 1;
    assert k / 12 == year && k % 12 + 1 == month;
  }

  lemma {:induction false} MonthsOfYear(year: nat, month: nat)
    requires month <= 12
    ensures MonthStartDay(12 * year + month) == MonthStartDay(12 * year) + DaysBefore(year, month + 1)
  {
    hide MonthStartDay;
    if month > 0 {
      MonthsOfYear(year, month - 1);
      OneMonth(year, month);
    }
  }

  /** The days of a year before a month, the thirteenth month being the next year. */
  function DaysBefore(year: nat, month: nat): nat
    requires 1 <= month <= 13
  {
    if month == 1 then 0 else DaysBefore(year, month - 1) + DaysInMonth(year, month - 1)
  }

  lemma YearLength(year: nat)
    ensures MonthStartDay(12 * (year + 1)) == MonthStartDay(12 * year) + if Leap(year) then 366 else 365
  {
    hide MonthStartDay;
    MonthsOfYear(year, 12);
    var february := if Leap(year) then 29 else 28;
    assert DaysBefore(year, 2) == 31 && DaysBefore(year, 3) == 31 + february && DaysBefore(year, 4) == 62 + february;
    assert DaysBefore(year, 5) == 92 + february && DaysBefore(year, 6) == 123 + february;
    assert DaysBefore(year, 7) == 153 + february && DaysBefore(year, 8) == 184 + february;
    assert DaysBefore(year, 9) == 215 + february && DaysBefore(year, 10) == 245 + february;
    assert DaysBefore(year, 11) == 276 + february && DaysBefore(year, 12) == 306 + february;
  }

  /** Leap days before a year: one every fourth year, except every hundredth, but every four-hundredth again. */
  function LeapDaysBefore(year: nat): int { (year + 3) / 4 - (year + 99) / 100 + (year + 399) / 400 }

  lemma OneMoreYear(year: nat)
    ensures LeapDaysBefore(year + 1) == LeapDaysBefore(year) + if Leap(year) then 1 else 0
  {
    assert (year + 4) / 4 == (year + 3) / 4 + if year % 4 == 0 then 1 else 0;
    assert (year + 100) / 100 == (year + 99) / 100 + if year % 100 == 0 then 1 else 0;
    assert (year + 400) / 400 == (year + 399) / 400 + if year % 400 == 0 then 1 else 0;
  }

  /** New Year's Day of any year, as a day number in closed form. */
  lemma {:induction false} YearStart(year: nat)
    ensures MonthStartDay(12 * year) == 365 * year + LeapDaysBefore(year)
  {
    hide Leap;
    if year > 0 {
      hide MonthStartDay, LeapDaysBefore;
      YearStart(year - 1);
      YearLength(year - 1);
      OneMoreYear(year - 1);
    }
  }

  /** An anchor for the whole calendar: 1 January 2000 is day 730485 counted from 1 January of year 0. */
  lemma Millennium()
    ensures Timestamp(2000, 1, 1, 0, 0, 0, 0, Some(0)).Instant() == 730_485 * 86_400_000_000
  {
    hide MonthStartDay;
    YearStart(2000);
  }

  /** isoformat() with and without microseconds and offset. */
  lemma IsoExamples()
    ensures Timestamp(2026, 9, 2, 12, 0, 5, 0, Some(120)).IsoText() == "2026-09-02T12:00:05+02:00"
    ensures Timestamp(2026, 9, 2, 12, 0, 5, 0, Some(-330)).IsoText() == "2026-09-02T12:00:05-05:30"
    ensures Timestamp(2026, 9, 2, 12, 0, 5, 120, None).IsoText() == "2026-09-02T12:00:05.000120"
  {
    hide DateText, TimeText, TailText;
    DateAndTimeExamples();
    TailExamples();
  }

  lemma DateAndTimeExamples()
    ensures DateText(2026, 9, 2) == "2026-09-02" && TimeText(12, 0, 5) == "12:00:05"
  {
    hide Padded;
    PaddedExamples();
  }

  lemma TailExamples()
    ensures TailText(0, Some(120)) == "+02:00" && TailText(0, Some(-330)) == "-05:30"
    ensures TailText(120, None) == ".000120"
  {
    hide Padded;
    PaddedExamples();
  }

  lemma PaddedExamples()
    ensures Padded(9, 10, 2) == "09" && Padded(2, 10, 2) == "02" && Padded(12, 10, 2) == "12"
      && Padded(0, 10, 2) == "00"
    ensures Padded(5, 10, 2) == "05" && Padded(30, 10, 2) == "30"
    ensures Padded(2026, 10, 4) == "2026" && Padded(120, 10, 6) == "000120"
  {
    assert Padded(0, 10, 1) == "0" && Padded(0, 10, 2) == "00" && Padded(0, 10, 3) == "000";
    assert Padded(1, 10, 4) == "0001" && Padded(12, 10, 5) == "00012";
    assert Padded(2, 10, 1) == "2" && Padded(20, 10, 2) == "20" && Padded(202, 10, 3) == "202";
  }
}
