/**
  The report date of `crates/pharos-conformance/src/lib.rs`: two subtraction loops
  that must invert the Gregorian day count, leap rule as in Appendix C of RFC 3339.
 */
module Calendar {
  import opened Arithmetic

  const TWO_63 := 0x8000_0000_0000_0000
  const TWO_64 := 0x1_0000_0000_0000_0000

  datatype Date = Date(year: nat, month: nat, day: nat)

  predicate IsLeap(y: nat) { (y % 4 == 0 && y % 100 != 0) || y % 400 == 0 }

  function YearLength(y: nat): nat { if IsLeap(y) then 366 else 365 }

  function MonthLengths(y: nat): seq<int> {
    [31, if IsLeap(y) then 29 else 28, 31, 30, 31, 30, 31, 31, 30, 31, 30, 31]
  }

  ghost predicate IsDate(d: Date) {
    1970 <= d.year && 1 <= d.month <= 12 && 1 <= d.day <= MonthLengths(d.year)[d.month - 1]
  }

  // ── the closed-form day count ───────────────────────────────────────────────

  /** Leap years in the first `y` years of the calendar. */
  ghost function LeapYears(y: int): int { y / 4 - y / 100 + y / 400 }

  /** Days from 1970-01-01 to the first of January of `y`. */
  ghost function YearStart(y: nat): int
    requires y >= 1970
  {
    365 * (y - 1970) + LeapYears(y - 1) - LeapYears(1969)
  }

  ghost function Before(lengths: seq<int>, m: int): int
    requires 0 <= m <= |lengths|
  {
    if m == 0 then 0 else Before(lengths, m - 1) + lengths[m - 1]
  }

  ghost function DayNumber(d: Date): int
    requires IsDate(d)
  {
    YearStart(d.year) + Before(MonthLengths(d.year), d.month - 1) + d.day - 1
  }

  /** One more number counted by `/ d` exactly when it is a multiple of `d`. */
  lemma QuotientStep(y: nat, d: nat)
    requires 0 < y && 0 < d
    ensures y / d == (y - 1) / d + if y % d == 0 then 1 else 0
  {
    var q, r := y / d, y % d;
    if r == 0 {
      assert q * d == (q - 1) * d + d;
      DivUnique(y - 1, q - 1, d - 1, d);
    } else {
      DivUnique(y - 1, q, r - 1, d);
    }
  }

  lemma CenturiesAreMultiples(y: nat)
    ensures y % 100 == 0 ==> y % 4 == 0
    ensures y % 400 == 0 ==> y % 100 == 0
  {
    if y % 100 == 0 { DivUnique(y, 25 * (y / 100), 0, 4); }
    if y % 400 == 0 { DivUnique(y, 4 * (y / 400), 0, 100); }
  }

  lemma YearStep(y: nat)
    requires y >= 1970
    ensures YearStart(y + 1) == YearStart(y) + YearLength(y)
  {
    QuotientStep(y, 4);
    QuotientStep(y, 100);
    QuotientStep(y, 400);
    CenturiesAreMultiples(y);
  }

  /** The same count, year by year. */
  ghost function DaysBeforeYear(y: nat): nat
    requires y >= 1970
  {
    if y == 1970 then 0 else DaysBeforeYear(y - 1) + YearLength(y - 1)
  }

  lemma {:induction false} CountsAgree(y: nat)
    requires y >= 1970
    ensures DaysBeforeYear(y) == YearStart(y)
  {
    if y > 1970 {
      YearStep(y - 1);
      CountsAgree(y - 1);
    }
  }

  lemma {:induction false} YearsInOrder(y: nat, z: nat)
    requires 1970 <= y < z
    ensures DaysBeforeYear(y) + YearLength(y) <= DaysBeforeYear(z)
    decreases z
  {
    if y + 1 < z { YearsInOrder(y, z - 1); }
  }

  lemma {:induction false} MonthsInOrder(lengths: seq<int>, m: int, n: int)
    requires 0 <= m <= n <= |lengths| && forall i :: 0 <= i < |lengths| ==> lengths[i] > 0
    ensures Before(lengths, m) <= Before(lengths, n)
    ensures m < n ==> Before(lengths, m) + lengths[m] <= Before(lengths, n)
    decreases n - m
  {
    if m < n { MonthsInOrder(lengths, m, n - 1); }
  }

  lemma YearIsItsMonths(y: nat)
    ensures Before(MonthLengths(y), 12) == YearLength(y)
  {
    var l := MonthLengths(y);
    assert Before(l, 1) == 31;
    assert Before(l, 2) == 31 + l[1];
    assert Before(l, 3) == 62 + l[1];
    assert Before(l, 4) == 92 + l[1];
    assert Before(l, 5) == 123 + l[1];
    assert Before(l, 6) == 153 + l[1];
    assert Before(l, 7) == 184 + l[1];
    assert Before(l, 8) == 215 + l[1];
    assert Before(l, 9) == 245 + l[1];
    assert Before(l, 10) == 276 + l[1];
    assert Before(l, 11) == 306 + l[1];
  }

  ghost predicate Earlier(a: Date, b: Date) {
    a.year < b.year || (a.year == b.year && (a.month < b.month || (a.month == b.month && a.day < b.day)))
  }

  /** Later dates have larger day numbers, so a day number names one date. */
  lemma DayNumberIncreases(a: Date, b: Date)
    requires IsDate(a) && IsDate(b) && Earlier(a, b)
    ensures DayNumber(a) < DayNumber(b)
  {
    var l := MonthLengths(a.year);
    if a.year < b.year {
      YearsInOrder(a.year, b.year);
      CountsAgree(a.year);
      CountsAgree(b.year);
      YearIsItsMonths(a.year);
      MonthsInOrder(l, a.month - 1, 12);
      MonthsInOrder(MonthLengths(b.year), 0, b.month - 1);
    } else if a.month < b.month {
      MonthsInOrder(l, a.month - 1, b.month - 1);
    }
  }

  /** The day count is one-to-one: with `DaysToYmd` below it is a bijection between day counts and dates. */
  lemma DayNumberNamesOneDate(a: Date, b: Date)
    requires IsDate(a) && IsDate(b)
    ensures DayNumber(a) == DayNumber(b) <==> a == b
  {
    if Earlier(a, b) { DayNumberIncreases(a, b); }
    if Earlier(b, a) { DayNumberIncreases(b, a); }
  }

  // ── days_to_ymd ─────────────────────────────────────────────────────────────

  /** `days as i64`. */
  function AsSigned(days: nat): int
    requires days < TWO_64
  {
    if days < TWO_63 then days else days - TWO_64
  }

  /** `x as u64`. */
  function AsUnsigned(x: int): nat
    requires -TWO_63 <= x < TWO_63
  {
    if x < 0 then x + TWO_64 else x
  }

  /** First loop: peel off whole years. */
  method SplitYear(days: int) returns (year: nat, remaining: int)
    ensures year >= 1970 && remaining < YearLength(year)
    ensures if days < 0 then year == 1970 && remaining == days
            else 0 <= remaining && DaysBeforeYear(year) + remaining == days
  {
    year, remaining := 1970, days;
    while remaining >= YearLength(year)
      invariant year >= 1970
      invariant if days < 0 then year == 1970 && remaining == days
                else 0 <= remaining && DaysBeforeYear(year) + remaining == days
      decreases remaining
    {
      remaining := remaining - YearLength(year);
      year := year + 1;
    }
  }

  /** Second loop: peel off whole months; the table is never indexed past its end. */
  method SplitMonth(year: nat, inYear: int) returns (month: nat, remaining: int)
    requires inYear < YearLength(year)
    ensures month < 12 && remaining < MonthLengths(year)[month]
    ensures if inYear < 0 then month == 0 && remaining == inYear
            else 0 <= remaining && Before(MonthLengths(year), month) + remaining == inYear
  {
    var lengths := MonthLengths(year);
    month, remaining := 0, inYear;
    YearIsItsMonths(year);
    while month < 12 && remaining >= lengths[month]
      invariant month <= 12
      invariant if inYear < 0 then month == 0 && remaining == inYear
                else 0 <= remaining && Before(lengths, month) + remaining == inYear
    {
      remaining := remaining - lengths[month];
      month := month + 1;
    }
  }

  /**
    `days_to_ymd`.  For every day count below 2^63 the answer is a Gregorian date with that day
    number; a larger count becomes negative and both loops stop at once.
   */
  method DaysToYmd(days: nat) returns (date: Date)
    requires days < TWO_64
    ensures days < TWO_63 ==> IsDate(date) && DayNumber(date) == days
    ensures days >= TWO_63 ==> date == Date(1970, 1, if days + 1 == TWO_64 then 0 else days + 1)
  {
    var year, inYear := SplitYear(AsSigned(days));
    var month, remaining := SplitMonth(year, inYear);
    YearsAreDays(year);
    if days < TWO_63 { PartsMakeDate(year, month, remaining); }
    date := Date(AsUnsigned(year), AsUnsigned(month + 1), AsUnsigned(remaining + 1));
  }

  lemma PartsMakeDate(year: nat, month: nat, day: nat)
    requires year >= 1970 && month < 12 && day < MonthLengths(year)[month]
    ensures IsDate(Date(year, month + 1, day + 1))
    ensures DayNumber(Date(year, month + 1, day + 1)) == DaysBeforeYear(year) + Before(MonthLengths(year), month) + day
  {
    CountsAgree(year);
  }

  lemma {:induction false} YearsAreDays(y: nat)
    requires y >= 1970
    ensures 365 * (y - 1970) <= DaysBeforeYear(y)
  {
    if y > 1970 { YearsAreDays(y - 1); }
  }
}
