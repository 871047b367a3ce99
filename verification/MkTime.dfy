/**
 mktime of soft/libc/timer/time.c: a closed formula for the seconds since the Epoch, against the
 count of days obtained by adding up Gregorian years (section 4.14, Seconds Since the Epoch, of the
 Base Definitions volume of IEEE Std 1003.1-2001).  `year` counts from 1900.
 */
module MkTime {
  import opened Arithmetic

  const DAY := 86400
  const LONG_MAX := 0x7FFF_FFFF

  datatype Tm = Tm(sec: int, min: int, hour: int, yday: int, year: int)

  predicate Leap(y: int) {
    y % 4 == 0 && (y % 100 != 0 || y % 400 == 0)
  }

  function YearDays(y: int): int { if Leap(y) then 366 else 365 }

  /** Days from 1 January 1970 to 1 January of 1900 + year. */
  function DaysBefore(year: int): int
    requires year >= 70
    decreases year
  {
    if year == 70 then 0 else DaysBefore(year - 1) + YearDays(1900 + year - 1)
  }

  predicate InRange(t: Tm) {
    && 0 <= t.sec <= 59 && 0 <= t.min <= 59 && 0 <= t.hour <= 23
    && 70 <= t.year && 0 <= t.yday < YearDays(1900 + t.year)
  }

  /** The reference: whole years one by one, then days, hours, minutes and seconds. */
  function Seconds(t: Tm): int
    requires t.year >= 70
  {
    (DaysBefore(t.year) + t.yday) * DAY + t.hour * 3600 + t.min * 60 + t.sec
  }

  /** A `long` holds a sum modulo 2^32; the i386 wraps every partial sum and product alike. */
  function Wrap(x: int): int { (x + 0x8000_0000) % 0x1_0000_0000 - 0x8000_0000 }

  lemma WrapIff(x: int)
    ensures Wrap(x) == x <==> -LONG_MAX - 1 <= x <= LONG_MAX
  {
  }

  function LeapDays(year: int): int { (year - 69) / 4 - (year - 1) / 100 + (year + 299) / 400 }

  /** The expression of lines 131-137; its divisions are of non-negative numbers. */
  function Formula(t: Tm): int
    requires t.year >= 69
  {
    t.sec + t.min * 60 + t.hour * 3600 + t.yday * DAY + (t.year - 70) * 31536000
    + (t.year - 69) / 4 * DAY - (t.year - 1) / 100 * DAY + (t.year + 299) / 400 * DAY
  }

  /** The fields of a time in 1969, which the guard of line 123 lets through. */
  predicate In1969(t: Tm) {
    t.year == 69 && 0 <= t.yday < 365 && 0 <= t.hour <= 23 && 0 <= t.min <= 59 && 0 <= t.sec <= 59
  }

  /** Every second of 1969 is before the Epoch; line 139 refuses it. */
  lemma BeforeEpoch(t: Tm)
    requires In1969(t)
    ensures -LONG_MAX <= Formula(t) < 0
  {
  }

  /** The three divisions grow by one together exactly when a leap year ends. */
  lemma LeapDaysStep(year: int)
    requires year >= 70
    ensures LeapDays(year + 1) - LeapDays(year) == (if Leap(1900 + year) then 1 else 0)
  {
    DivStep(year - 68, 4);
    DivStep(year, 100);
    DivStep(year + 300, 400);
    LeapParts(year);
  }

  /** The rule for leap years, said of the numbers the formula divides. */
  lemma LeapParts(year: int)
    ensures var a, b, c := (year - 68) % 4 == 0, year % 100 == 0, (year + 300) % 400 == 0;
            (c ==> b) && (b ==> a) && (Leap(1900 + year) <==> a && (!b || c))
  {
    ModShift(year - 68, 4, 492);
    ModShift(year, 100, 19);
    ModShift(year + 300, 400, 4);
    ModShift(year, 100, 3);
    if (year + 300) % 400 == 0 { FactorDivides(year + 300, 100, 4); }
    if (1900 + year) % 100 == 0 { FactorDivides(1900 + year, 4, 25); }
  }

  lemma {:induction false} DaysClosed(year: int)
    requires year >= 70
    ensures DaysBefore(year) == (year - 70) * 365 + LeapDays(year)
    decreases year
  {
    if year > 70 {
      DaysClosed(year - 1);
      LeapDaysStep(year - 1);
    }
  }

  /** The closed formula is the count of seconds, for every year from 1970 on. */
  lemma FormulaIsSeconds(t: Tm)
    requires t.year >= 70
    ensures Formula(t) == Seconds(t)
  {
    hide LeapDays, DaysBefore;
    DaysClosed(t.year);
    FormulaGroups(t);
  }

  lemma FormulaGroups(t: Tm)
    requires t.year >= 70
    ensures Formula(t) == ((t.year - 70) * 365 + LeapDays(t.year) + t.yday) * DAY + t.hour * 3600 + t.min * 60 + t.sec
  {
  }

  // ---------- order ----------

  predicate Earlier(a: Tm, b: Tm) {
    || a.year < b.year
    || (a.year == b.year && (
         || a.yday < b.yday
         || (a.yday == b.yday && (
              || a.hour < b.hour
              || (a.hour == b.hour && (a.min < b.min || (a.min == b.min && a.sec < b.sec)))))))
  }

  lemma {:induction false} DaysGrow(y: int, z: int)
    requires 70 <= y < z
    ensures DaysBefore(y) + YearDays(1900 + y) <= DaysBefore(z)
    decreases z
  {
    if y < z - 1 { DaysGrow(y, z - 1); }
  }

  function TimeOfDay(t: Tm): int { t.hour * 3600 + t.min * 60 + t.sec }

  /** The formula is strictly monotone in the broken-down time. */
  lemma FormulaMonotone(a: Tm, b: Tm)
    requires InRange(a) && InRange(b)
    ensures Earlier(a, b) <==> Formula(a) < Formula(b)
  {
    FormulaIsSeconds(a);
    FormulaIsSeconds(b);
    if Earlier(a, b) { SecondsMonotone(a, b); }
    else if a != b { SecondsMonotone(b, a); }
  }

  lemma SecondsMonotone(a: Tm, b: Tm)
    requires InRange(a) && InRange(b) && Earlier(a, b)
    ensures Seconds(a) < Seconds(b)
  {
    hide DaysBefore, YearDays;
    if a.year < b.year { DaysGrow(a.year, b.year); }
    var x, y := DaysBefore(a.year) + a.yday, DaysBefore(b.year) + b.yday;
    assert 0 <= TimeOfDay(a) < DAY && 0 <= TimeOfDay(b) < DAY;
    assert x < y || (x == y && TimeOfDay(a) < TimeOfDay(b));
  }

  /** The first second past LONG_MAX: 03:14:08 on 19 January 2038 wraps to the least long. */
  lemma WrapsIn2038()
    ensures InRange(Tm(8, 14, 3, 18, 138)) && Formula(Tm(8, 14, 3, 18, 138)) == 0x8000_0000 == LONG_MAX + 1
    ensures Wrap(Formula(Tm(8, 14, 3, 18, 138))) == -0x8000_0000
  {
    assert !Leap(2038);
  }

  // ---------- in place ----------

  class BrokenDown {
    var sec: int
    var min: int
    var hour: int
    var yday: int
    var year: int

    function Fields(): Tm
      reads this
    {
      Tm(sec, min, hour, yday, year)
    }

    constructor (t: Tm)
      ensures Fields() == t
    {
      sec, min, hour, yday, year := t.sec, t.min, t.hour, t.yday, t.year;
    }

    /**
     mktime.  Years before 1969 are refused; seconds are clamped in the caller's structure; a
     result that is not positive is reported as an overflow.  For fields in range the answer is right if
     and only if the time is not the Epoch itself and does not lie past LONG_MAX.
     */
    method Mktime() returns (time: int, overflow: bool)
      modifies this`sec
      ensures sec == (if year < 69 || 0 <= old(sec) <= 59 then old(sec) else if old(sec) < 0 then 0 else 59)
      ensures year < 69 ==> time == -1 && !overflow
      ensures year >= 69 ==> (overflow <==> Wrap(Formula(Fields())) <= 0)
      ensures year >= 69 ==> time == if overflow then -1 else Wrap(Formula(Fields()))
      ensures In1969(Fields()) ==> overflow
      ensures InRange(Fields()) ==>
                (!overflow && time == Seconds(Fields()) <==>
                 Seconds(Fields()) <= LONG_MAX && Fields() != Tm(0, 0, 0, 0, 70))
      ensures InRange(Fields()) && Seconds(Fields()) <= LONG_MAX ==> (overflow <==> Fields() == Tm(0, 0, 0, 0, 70))
    {
      hide YearDays, DaysBefore, Seconds;
      if year < 69 { return -1, false; }
      if sec < 0 { sec := 0; }
      if 59 < sec { sec := 59; }
      var sum := sec + min * 60 + hour * 3600 + yday * DAY + (year - 70) * 31536000
              + (year - 69) / 4 * DAY - (year - 1) / 100 * DAY + (year + 299) / 400 * DAY;
      assert sum == Formula(Fields());
      hide Formula;
      time := Wrap(sum);
      WrapIff(sum);
      if InRange(Fields()) {
        FormulaIsSeconds(Fields());
        OnlyEpochIsZero(Fields());
      }
      if In1969(Fields()) { BeforeEpoch(Fields()); }
      if time <= 0 { return -1, true; }
      overflow := false;
    }
  }

  lemma OnlyEpochIsZero(t: Tm)
    requires InRange(t)
    ensures Seconds(t) >= 0 && (Seconds(t) == 0 <==> t == Tm(0, 0, 0, 0, 70))
  {
    if t.year > 70 { DaysGrow(70, t.year); }
  }
}
