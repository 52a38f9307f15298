/**
 * Day-granularity date arithmetic of src/utils/date.ts.
 *
 * A timestamp is an integer number of milliseconds (a JavaScript `Date`);
 * the local time zone is taken to be UTC, so `startOfDay` truncates to a
 * multiple of one day.  An unparsable date is `None`.
 */
module Dates {
  import opened Wrappers

  type Time = int

  const MsPerHour: int := 3_600_000
  const MsPerDay: int := 86_400_000

  /** The calendar day a timestamp falls on (days since the epoch, rounded down). */
  function DayNumber(t: Time): int {
    t / MsPerDay
  }

  /** `startOfDay(t)`, or `setHours(0, 0, 0, 0)`: midnight of t's day. */
  function StartOfDay(t: Time): (s: Time)
    ensures s == DayNumber(t) * MsPerDay
    ensures s <= t < s + MsPerDay
  {
    t - t % MsPerDay
  }

  /** `setHours(23, 59, 59, 999)`: the last millisecond of t's day. */
  function EndOfDay(t: Time): (e: Time)
    ensures e == StartOfDay(t) + MsPerDay - 1
  {
    var d := t - t % MsPerDay;
    d + 23 * MsPerHour + 59 * 60_000 + 59 * 1_000 + 999
  }

  /** `addDays(t, n)`, ignoring daylight-saving shifts. */
  function AddDays(t: Time, n: int): Time {
    t + n * MsPerDay
  }

  /** `subDays(t, n)` of date-fns. */
  function SubDays(t: Time, n: int): Time {
    t - n * MsPerDay
  }

  /** `setHours(getHours() - n)`. */
  function AddHours(t: Time, n: int): Time {
    t + n * MsPerHour
  }

  lemma DayNumberOfDayStart(k: int)
    ensures DayNumber(k * MsPerDay) == k
  {
  }

  /** A timestamp lies between the start and the end of d's day iff it falls on d's day. */
  lemma WithinDayIffSameDay(t: Time, d: Time)
    ensures StartOfDay(d) <= t <= EndOfDay(d) <==> DayNumber(t) == DayNumber(d)
  {
    var s := StartOfDay(d);
    if DayNumber(t) == DayNumber(d) {
      assert StartOfDay(t) == s;
    }
    if s <= t <= EndOfDay(d) {
      assert t - s < MsPerDay;
      assert DayNumber(t) == (s + (t - s)) / MsPerDay;
    }
  }

  /** Comparing starts of days is comparing day numbers. */
  lemma StartOfDayOrder(a: Time, b: Time)
    ensures StartOfDay(a) < StartOfDay(b) <==> DayNumber(a) < DayNumber(b)
    ensures StartOfDay(a) == StartOfDay(b) <==> DayNumber(a) == DayNumber(b)
  {
  }

  /** A timestamp is before midnight of today iff its day is before today. */
  lemma BeforeStartOfDay(t: Time, now: Time)
    ensures t < StartOfDay(now) <==> DayNumber(t) < DayNumber(now)
  {
    if DayNumber(t) < DayNumber(now) {
      assert t < StartOfDay(t) + MsPerDay;
      assert StartOfDay(t) + MsPerDay <= StartOfDay(now);
    }
  }

  /** Later instants never fall on an earlier day. */
  lemma DayNumberMonotone(a: Time, b: Time)
    requires a <= b
    ensures DayNumber(a) <= DayNumber(b)
  {
    BeforeStartOfDay(b, a);
  }

  lemma DayNumberAddDays(t: Time, n: int)
    ensures DayNumber(AddDays(t, n)) == DayNumber(t) + n
  {
    assert AddDays(t, n) == StartOfDay(t) + n * MsPerDay + t % MsPerDay;
    assert AddDays(t, n) == (DayNumber(t) + n) * MsPerDay + t % MsPerDay;
  }

  /**
   * `differenceInDays(a, b)` of date-fns: the number of full days from b to a,
   * truncated toward zero (negative when a is before b).
   */
  function DifferenceInDays(a: Time, b: Time): (r: int)
    ensures a >= b ==> r >= 0 && r * MsPerDay <= a - b < (r + 1) * MsPerDay
    ensures a < b ==> r <= 0 && -r * MsPerDay <= b - a < (-r + 1) * MsPerDay
  {
    if a >= b then (a - b) / MsPerDay else -((b - a) / MsPerDay)
  }

  /** Between two midnights the full-day difference is the difference of the day numbers. */
  lemma DifferenceOfDayStarts(a: Time, b: Time)
    ensures DifferenceInDays(StartOfDay(a), StartOfDay(b)) == DayNumber(a) - DayNumber(b)
  {
    var k := DayNumber(a) - DayNumber(b);
    assert StartOfDay(a) - StartOfDay(b) == k * MsPerDay;
    if k >= 0 {
      assert (k * MsPerDay) / MsPerDay == k;
    } else {
      assert ((-k) * MsPerDay) / MsPerDay == -k;
    }
  }

  /** `differenceInDays` is monotone in its first argument. */
  lemma DifferenceInDaysMonotone(a1: Time, a2: Time, b: Time)
    requires a1 <= a2
    ensures DifferenceInDays(a1, b) <= DifferenceInDays(a2, b)
  {
    if a1 >= b {
      DivMonotone(a1 - b, a2 - b, MsPerDay);
    } else if a2 < b {
      DivMonotone(b - a2, b - a1, MsPerDay);
    }
  }

  lemma DivMonotone(x: nat, y: nat, d: nat)
    requires x <= y && d > 0
    ensures x / d <= y / d
  {
    DivBounds(x, d);
    DivBounds(y, d);
    MulCancel(x / d, y / d + 1, d);
  }

  const InvalidDateText: string := "유효하지 않은 날짜"

  /** The decimal digits of a natural number. */
  function Decimal(n: nat): (s: string)
    ensures |s| > 0
    ensures forall i :: 0 <= i < |s| ==> '0' <= s[i] <= '9'
    decreases n
  {
    var d := [['0', '1', '2', '3', '4', '5', '6', '7', '8', '9'][n % 10]];
    if n < 10 then d else Decimal(n / 10) + d
  }

  /** The number a string of decimal digits denotes, most significant digit first. */
  function DigitsValue(s: string): nat
    decreases |s|
  {
    if |s| == 0 then 0
    else
      var c := s[|s| - 1];
      DigitsValue(s[..|s| - 1]) * 10 + (if '0' <= c <= '9' then (c as int) - ('0' as int) else 0)
  }

  /** The digit written for k is the character of value k, and '0' only for 0. */
  lemma DigitChar(k: nat)
    requires k < 10
    ensures var c := ['0', '1', '2', '3', '4', '5', '6', '7', '8', '9'][k];
      '0' <= c <= '9' && (c as int) - ('0' as int) == k
  {
  }

  /** `Decimal(n)` denotes n and, except for 0 itself, does not start with '0'. */
  lemma {:induction false} DecimalValue(n: nat)
    ensures DigitsValue(Decimal(n)) == n
    ensures n > 0 ==> Decimal(n)[0] != '0'
    decreases n
  {
    var d := [['0', '1', '2', '3', '4', '5', '6', '7', '8', '9'][n % 10]];
    DigitChar(n % 10);
    if n < 10 {
      assert Decimal(n) == d;
      assert d[..0] == [];
    } else {
      var x := Decimal(n / 10);
      DecimalValue(n / 10);
      assert Decimal(n) == x + d;
      assert (x + d)[..|x + d| - 1] == x;
      assert (x + d)[0] == x[0];
    }
  }

  /**
   * `getDDay`: "D-Day" on the target day, "D-n" n days before it and
   * "D+n" n days after it, counted in calendar days of today (`now`).
   */
  function GetDDay(target: Option<Time>, now: Time): (text: string)
    ensures target.None? ==> text == InvalidDateText
    ensures target.Some? ==>
      var n := DayNumber(target.value) - DayNumber(now);
      && (text == "D-Day" <==> n == 0)
      && (n > 0 ==> text == "D-" + Decimal(n))
      && (n < 0 ==> text == "D+" + Decimal(-n))
  {
    match target
    case None => InvalidDateText
    case Some(t) =>
      var diff := DifferenceInDays(StartOfDay(t), StartOfDay(now));
      DifferenceOfDayStarts(t, now);
      if diff == 0 then "D-Day"
      else if diff > 0 then
        var s := "D-" + Decimal(diff);
        assert s[2] != 'D';
        s
      else
        var s := "D+" + Decimal(-diff);
        assert s[1] != '-';
        s
  }

  /** `getDaysRemaining`: target day minus today in calendar days; 0 for an invalid date. */
  function GetDaysRemaining(target: Option<Time>, now: Time): (r: int)
    ensures target.None? ==> r == 0
    ensures target.Some? ==> r == DayNumber(target.value) - DayNumber(now)
  {
    match target
    case None => 0
    case Some(t) =>
      DifferenceOfDayStarts(t, now);
      DifferenceInDays(StartOfDay(t), StartOfDay(now))
  }

  /** The time of day of either date does not matter to the days remaining. */
  lemma DaysRemainingIgnoresTimeOfDay(t1: Time, t2: Time, now1: Time, now2: Time)
    requires DayNumber(t1) == DayNumber(t2) && DayNumber(now1) == DayNumber(now2)
    ensures GetDaysRemaining(Some(t1), now1) == GetDaysRemaining(Some(t2), now2)
  {
  }

  /** `isDelayed`: the target day is strictly before today; a target of today is not delayed. */
  function IsDelayed(target: Option<Time>, now: Time): (r: bool)
    ensures target.None? ==> !r
    ensures target.Some? ==> (r <==> DayNumber(target.value) < DayNumber(now))
  {
    match target
    case None => false
    case Some(t) =>
      StartOfDayOrder(t, now);
      StartOfDay(t) < StartOfDay(now)
  }

  /** `isDaysBefore(target, n)`: the target falls exactly on the day n days after today. */
  function IsDaysBefore(target: Option<Time>, now: Time, days: int): (r: bool)
    ensures target.None? ==> !r
    ensures target.Some? ==> (r <==> DayNumber(target.value) == DayNumber(now) + days)
  {
    match target
    case None => false
    case Some(t) =>
      var notificationDate := AddDays(StartOfDay(now), days);
      DayNumberAddDays(StartOfDay(now), days);
      DayNumberOfDayStart(DayNumber(now));
      StartOfDayOrder(t, notificationDate);
      StartOfDay(StartOfDay(t)) == StartOfDay(notificationDate)
  }

  /**
   * `Math.round(100 * part / whole)` for non-negative operands: the nearest
   * integer, halves rounded up.
   */
  function RoundPercent(part: nat, whole: nat): (r: nat)
    requires whole > 0
    ensures (2 * r - 1) * whole <= 200 * part < (2 * r + 1) * whole
    ensures part <= whole ==> r <= 100
  {
    var r := (200 * part + whole) / (2 * whole);
    DivBounds(200 * part + whole, 2 * whole);
    assert part <= whole ==> r <= 100 by {
      if part <= whole {
        assert r * (2 * whole) <= 201 * whole < 101 * (2 * whole);
        MulCancel(r, 101, 2 * whole);
      }
    }
    r
  }

  /**
   * A share as a rounded percentage, 0 when there is nothing to share: the
   * completion rate of milestones and the resolution rate of issues.
   */
  function Rate(part: nat, whole: nat): (rate: nat)
    ensures whole == 0 ==> rate == 0
    ensures whole > 0 ==> (2 * rate - 1) * whole <= 200 * part < (2 * rate + 1) * whole
    ensures part <= whole ==> rate <= 100
  {
    if whole > 0 then RoundPercent(part, whole) else 0
  }

  lemma DivBounds(n: nat, d: nat)
    requires d > 0
    ensures (n / d) * d <= n < (n / d + 1) * d
  {
  }

  /** Half-up rounding of a percentage is monotone in the numerator. */
  lemma RoundPercentMonotone(p1: nat, p2: nat, whole: nat)
    requires whole > 0 && p1 <= p2
    ensures RoundPercent(p1, whole) <= RoundPercent(p2, whole)
  {
    var r1, r2 := RoundPercent(p1, whole), RoundPercent(p2, whole);
    assert (2 * r1 - 1) * whole < (2 * r2 + 1) * whole;
    MulCancel(2 * r1 - 1, 2 * r2 + 1, whole);
  }

  lemma MulCancel(a: int, b: int, w: int)
    requires w > 0 && a * w < b * w
    ensures a < b
  {
    assert (b - a) * w == b * w - a * w;
  }

  /**
   * `calculateProgress`: calendar-elapsed share of the project period, in
   * percent, using full-day differences from the start date.
   */
  function CalculateProgress(startDate: Time, endDate: Time, now: Time): (p: int)
    ensures 0 <= p <= 100
    ensures DifferenceInDays(endDate, startDate) <= 0 ==> p == 100
    ensures DifferenceInDays(endDate, startDate) > 0 && DifferenceInDays(now, startDate) <= 0 ==> p == 0
    ensures DifferenceInDays(now, startDate) >= DifferenceInDays(endDate, startDate) ==> p == 100
  {
    var totalDays := DifferenceInDays(endDate, startDate);
    var elapsedDays := DifferenceInDays(now, startDate);
    if totalDays <= 0 then 100
    else if elapsedDays <= 0 then 0
    else if elapsedDays >= totalDays then 100
    else RoundPercent(elapsedDays, totalDays)
  }

  /** Progress never decreases as time passes. */
  lemma {:induction false} ProgressMonotone(startDate: Time, endDate: Time, now1: Time, now2: Time)
    requires now1 <= now2
    ensures CalculateProgress(startDate, endDate, now1) <= CalculateProgress(startDate, endDate, now2)
  {
    var total := DifferenceInDays(endDate, startDate);
    var e1, e2 := DifferenceInDays(now1, startDate), DifferenceInDays(now2, startDate);
    DifferenceInDaysMonotone(now1, now2, startDate);
    if 0 < total && 0 < e1 && e2 < total {
      RoundPercentMonotone(e1, e2, total);
    }
  }

  /** Strictly inside the period progress is the rounded elapsed share. */
  lemma ProgressInsidePeriod(startDate: Time, endDate: Time, now: Time)
    requires 0 < DifferenceInDays(now, startDate) < DifferenceInDays(endDate, startDate)
    ensures CalculateProgress(startDate, endDate, now)
         == RoundPercent(DifferenceInDays(now, startDate), DifferenceInDays(endDate, startDate))
  {
  }
}
