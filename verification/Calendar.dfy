/** The proleptic Gregorian calendar as ECMAScript dates use it. Day 0 is
    0000-01-01. */
module Calendar {
  import opened DecimalText

  datatype Civil = Civil(year: nat, month: nat, day: nat)

  predicate Leap(y: nat) { y % 4 == 0 && (y % 100 != 0 || y % 400 == 0) }

  /** Section 5.7 and appendix C of RFC 3339: the length of each month. */
  function MonthLength(y: nat, m: nat): nat
    requires 1 <= m <= 12
  {
    if m == 2 then (if Leap(y) then 29 else 28)
    else if m == 4 || m == 6 || m == 9 || m == 11 then 30
    else 31
  }

  /** A full-date of RFC 3339 that exists. */
  predicate RealDate(c: Civil) {
    c.year <= 9999 && 1 <= c.month <= 12 && 1 <= c.day <= MonthLength(c.year, c.month)
  }

  function YearLength(y: nat): nat { if Leap(y) then 366 else 365 }

  /** Days before the first of January of a year. */
  function YearStart(y: nat): nat {
    if y == 0 then 0 else YearStart(y - 1) + YearLength(y - 1)
  }

  /** Days of a year before the first of a month. */
  function MonthStart(y: nat, m: nat): nat
    requires 1 <= m <= 13
  {
    if m == 1 then 0 else MonthStart(y, m - 1) + MonthLength(y, m - 1)
  }

  /** The day a (year, month, day) triple denotes; a day past the end of its
      month runs into the next one, as in MakeDay of ECMAScript. */
  function DayNumber(c: Civil): int
    requires 1 <= c.month <= 12
  {
    YearStart(c.year) + MonthStart(c.year, c.month) + c.day - 1
  }

  lemma {:induction false} YearsIncrease(a: nat, b: nat)
    ensures a <= b ==> YearStart(a) + 365 * (b - a) <= YearStart(b)
    decreases b
  {
    if a < b { YearsIncrease(a, b - 1); }
  }

  lemma {:induction false} MonthsIncrease(y: nat, a: nat, b: nat)
    requires 1 <= a <= 13 && 1 <= b <= 13
    ensures a <= b ==> MonthStart(y, a) + 28 * (b - a) <= MonthStart(y, b)
    decreases b
  {
    if a < b { MonthsIncrease(y, a, b - 1); }
  }

  lemma YearOfMonths(y: nat)
    ensures MonthStart(y, 13) == YearLength(y)
  {
    assert MonthStart(y, 2) == 31;
    assert MonthStart(y, 3) == 31 + MonthLength(y, 2);
    assert MonthStart(y, 5) == MonthStart(y, 3) + 61;
    assert MonthStart(y, 7) == MonthStart(y, 5) + 61;
    assert MonthStart(y, 9) == MonthStart(y, 7) + 62;
    assert MonthStart(y, 11) == MonthStart(y, 9) + 61;
    assert MonthStart(y, 13) == MonthStart(y, 11) + 61;
  }

  /** The largest year from `y` on that starts no later than day `n`. */
  function YearFrom(n: int, y: nat): (r: nat)
    requires YearStart(y) <= n
    ensures y <= r && YearStart(r) <= n < YearStart(r + 1)
    decreases n - YearStart(y)
  {
    YearsIncrease(y, y + 1);
    if n < YearStart(y + 1) then y else YearFrom(n, y + 1)
  }

  function MonthFrom(y: nat, offset: int, m: nat): (r: nat)
    requires 1 <= m <= 12 && MonthStart(y, m) <= offset < MonthStart(y, 13)
    ensures m <= r <= 12 && MonthStart(y, r) <= offset < MonthStart(y, r + 1)
    decreases 12 - m
  {
    if m == 12 || offset < MonthStart(y, m + 1) then m else MonthFrom(y, offset, m + 1)
  }

  lemma YearSpan(y: nat)
    ensures YearStart(y + 1) == YearStart(y) + MonthStart(y, 13)
  {
    YearOfMonths(y);
  }

  /** The civil date of a day, as toISOString computes it. */
  function CivilOf(n: nat): (c: Civil)
    ensures 1 <= c.month <= 12 && 1 <= c.day <= MonthLength(c.year, c.month)
    ensures DayNumber(c) == n
  {
    var y := YearFrom(n, 0);
    YearSpan(y);
    var m := MonthFrom(y, n - YearStart(y), 1);
    Civil(y, m, n - YearStart(y) - MonthStart(y, m) + 1)
  }

  lemma YearUnique(n: int, a: nat, b: nat)
    requires YearStart(a) <= n < YearStart(a + 1)
    requires YearStart(b) <= n < YearStart(b + 1)
    ensures a == b
  {
    YearsIncrease(a + 1, b);
    YearsIncrease(b + 1, a);
  }

  lemma MonthUnique(y: nat, offset: int, a: nat, b: nat)
    requires 1 <= a <= 12 && 1 <= b <= 12
    requires MonthStart(y, a) <= offset < MonthStart(y, a + 1)
    requires MonthStart(y, b) <= offset < MonthStart(y, b + 1)
    ensures a == b
  {
    MonthsIncrease(y, a + 1, b);
    MonthsIncrease(y, b + 1, a);
  }

  lemma DayInYear(c: Civil)
    requires 1 <= c.month <= 12 && 1 <= c.day <= MonthLength(c.year, c.month)
    ensures YearStart(c.year) <= DayNumber(c) < YearStart(c.year + 1)
    ensures 0 <= DayNumber(c)
  {
    MonthsIncrease(c.year, c.month + 1, 13);
    YearOfMonths(c.year);
    YearsIncrease(0, c.year);
  }

  /** Reading a triple as a day and printing the day gives the triple back
      exactly when the triple is a date of the calendar. */
  lemma TripleSurvivesIffReal(c: Civil)
    requires 1 <= c.month <= 12 && 1 <= c.day <= 31
    ensures DayNumber(c) >= 0
    ensures CivilOf(DayNumber(c)) == c <==> c.day <= MonthLength(c.year, c.month)
  {
    YearsIncrease(0, c.year);
    if c.day <= MonthLength(c.year, c.month) {
      DayInYear(c);
      var r := CivilOf(DayNumber(c));
      DayInYear(r);
      YearUnique(DayNumber(c), c.year, r.year);
      MonthUnique(c.year, DayNumber(c) - YearStart(c.year), c.month, r.month);
    }
  }

  /** The days whose ISO date has a four-digit year. */
  const DAYS_10000: int := YearStart(10000)

  predicate Printable(n: int) { 0 <= n < DAYS_10000 }

  lemma FourDigitYear(n: nat)
    requires Printable(n)
    ensures RealDate(CivilOf(n))
  {
    var c := CivilOf(n);
    DayInYear(c);
    YearsIncrease(10000, c.year);
  }

  lemma RealDatesPrintable(c: Civil)
    requires RealDate(c)
    ensures Printable(DayNumber(c)) && CivilOf(DayNumber(c)) == c
  {
    hide YearStart, CivilOf, Leap;
    DayInYear(c);
    YearsIncrease(c.year + 1, 10000);
    TripleSurvivesIffReal(c);
  }

  /** The date part of toISOString. */
  function IsoDate(c: Civil): (s: string)
    ensures |s| == 10
  {
    Pad(c.year, 4) + "-" + Pad(c.month, 2) + "-" + Pad(c.day, 2)
  }

  /** Day of the week as getUTCDay returns it: 0 is Sunday. */
  function WeekDay(n: int): nat { (n + 6) % 7 }

  /** Leap years before a year, counted by the rule. */
  function LeapsBefore(y: nat): nat {
    if y == 0 then 0 else (y - 1) / 4 - (y - 1) / 100 + (y - 1) / 400 + 1
  }

  function Multiples(y: int, d: int): int
    requires d > 0
  {
    y / d
  }

  predicate Divides(d: int, y: int)
    requires d > 0
  {
    y % d == 0
  }

  lemma QuotientSteps(y: int)
    ensures Multiples(y, 4) == Multiples(y - 1, 4) + if Divides(4, y) then 1 else 0
    ensures Multiples(y, 100) == Multiples(y - 1, 100) + if Divides(100, y) then 1 else 0
    ensures Multiples(y, 400) == Multiples(y - 1, 400) + if Divides(400, y) then 1 else 0
  {
  }

  lemma LeapByDivisors(y: nat)
    ensures Leap(y) <==> Divides(4, y) && (!Divides(100, y) || Divides(400, y))
    ensures Divides(400, y) ==> Divides(100, y)
    ensures Divides(100, y) ==> Divides(4, y)
  {
    if Divides(400, y) { OfFourHundred(y / 400, y); }
    if Divides(100, y) { OfHundred(y / 100, y); }
  }

  lemma OfFourHundred(k: nat, y: nat)
    requires y == 400 * k
    ensures y % 100 == 0
  {
    var m := 4 * k;
    assert y == 100 * m;
  }

  lemma OfHundred(k: nat, y: nat)
    requires y == 100 * k
    ensures y % 4 == 0
  {
    var m := 25 * k;
    assert y == 4 * m;
  }

  lemma LeapsByMultiples(y: nat)
    requires y > 0
    ensures LeapsBefore(y) == Multiples(y - 1, 4) - Multiples(y - 1, 100) + Multiples(y - 1, 400) + 1
  {
  }

  lemma LeapCount(y: nat)
    ensures LeapsBefore(y + 1) == LeapsBefore(y) + if Leap(y) then 1 else 0
  {
    if y > 0 {
      hide Multiples, Divides, Leap, LeapsBefore;
      QuotientSteps(y);
      LeapByDivisors(y);
      LeapsByMultiples(y);
      LeapsByMultiples(y + 1);
    }
  }

  /** The recursive day count against the closed formula. */
  lemma {:induction false} YearStartClosed(y: nat)
    ensures YearStart(y) == 365 * y + LeapsBefore(y)
  {
    if y > 0 {
      YearStartClosed(y - 1);
      LeapCount(y - 1);
    }
  }

  /** The epoch of the program's clock, 1970-01-01, is day 719528, a Thursday. */
  lemma EpochIsThursday()
    ensures DayNumber(Civil(1970, 1, 1)) == 719528 && WeekDay(719528) == 4
  {
    YearStartClosed(1970);
  }
}
