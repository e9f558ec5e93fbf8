/** The date of Easter, by the Meeus/Jones/Butcher formula, against the calendar it is a date of. */
module CalendarEaster {
  import opened Calendar

  /** The day of a date, counted as in Calendar. */
  function DayNumber(year: int, month: int, day: int): int
    requires 1 <= month <= 12
  {
    DaysBeforeYear(year) + DaysBeforeMonth(year, month) + day - 1
  }

  /** 2 January 2000 was a Sunday. */
  predicate Sunday(year: int, month: int, day: int)
    requires 1 <= month <= 12
  {
    (DayNumber(year, month, day) - DayNumber(2000, 1, 2)) % 7 == 0
  }

  // ---- the rule of the church: golden number, epact, full moon

  function GoldenNumber(year: nat): nat { year % 19 + 1 }

  /** The age of the moon on 1 January, from the golden number, the leap days dropped by the Gregorian
      calendar, and the correction for the length of the lunar cycle. */
  function Epact(year: nat): nat {
    var century := year / 100 + 1;
    var dropped := 3 * century / 4 - 12;
    var lunar := (8 * century + 5) / 25 - 5;
    (11 * GoldenNumber(year) + 20 + lunar - dropped) % 30
  }

  /** Days after 21 March of the full moon of Easter; two late moons are moved one day forward. */
  function PaschalMoon(year: nat): nat {
    var e := Epact(year);
    var e' := if e == 24 || (e == 25 && GoldenNumber(year) > 11) then e + 1 else e;
    if e' <= 23 then 23 - e' else 53 - e'
  }

  /** The day is the Sunday after the full moon. */
  predicate IsEaster(year: nat, month: int, day: int) {
    && (if month == 3 then 22 <= day <= 31 else month == 4 && 1 <= day <= 25)
    && Sunday(year, month, day)
    && PaschalMoon(year) < AfterMarch21(month, day) <= PaschalMoon(year) + 7
  }

  /** Days of a date in March or April after 21 March. */
  function AfterMarch21(month: int, day: int): int {
    if month == 3 then day - 21 else day + 10
  }

  // ---- days and Sundays of spring

  /** The century, year of the century, and their quotients and remainders by four. */
  lemma CenturyForm(year: nat)
    ensures var b, c := year / 100, year % 100;
            && year == 100 * b + c && b == 4 * (b / 4) + b % 4 && c == 4 * (c / 4) + c % 4
            && year / 4 == 25 * b + c / 4 && year / 400 == b / 4
            && 0 <= c < 100 && 0 <= b % 4 < 4 && 0 <= c % 4 < 4
  {
  }

  /** The day of a date of March or April as a sum of the parts that the formula takes apart. */
  lemma DayByParts(year: nat, month: int, day: int)
    requires month == 3 || month == 4
    ensures var b, c := year / 100, year % 100;
            DayNumber(year, month, day)
            == 36500 * b + 365 * c + 24 * b + c / 4 + b / 4 + 80 + AfterMarch21(month, day)
  {
    hide DaysBeforeYear, DaysBeforeMonth, Leap;
    YearsInClosedForm(year);
    MonthsInClosedForm(year, month);
    LeapCount(year);
    CenturyForm(year);
  }

  /** Which days of March and April are Sundays. */
  lemma SundayByParts(year: nat, month: int, day: int)
    requires month == 3 || month == 4
    ensures var b, c := year / 100, year % 100;
            Sunday(year, month, day)
            <==> (5 * (b % 4) + 5 * (c / 4) + c % 4 + 3 + AfterMarch21(month, day) - 1) % 7 == 0
  {
    DayByParts(year, month, day);
    CenturyForm(year);
    Millennium();
    var b, c, p := year / 100, year % 100, AfterMarch21(month, day);
    var n := DayNumber(year, month, day);
    var s := 5 * (b % 4) + 5 * (c / 4) + c % 4 + 3 + p - 1;
    hide DayNumber;
    assert n == 36524 * b + 365 * c + c / 4 + b / 4 + 80 + p;
    assert n - 730486 - s == 7 * (5217 * b + 3 * (b / 4) + 52 * c - 104344) + (c - 4 * (c / 4) - c % 4) by {
      assert b == 4 * (b / 4) + b % 4;
    }
    Congruent(n - 730486, s, 5217 * b + 3 * (b / 4) + 52 * c - 104344);
  }

  lemma Congruent(x: int, y: int, k: int)
    requires x - y == 7 * k
    ensures x % 7 == y % 7
  {
  }

  lemma Millennium()
    ensures DayNumber(2000, 1, 2) == 730486
  {
    YearsInClosedForm(2000);
  }

  // ---- the formula

  /** The nested division of the formula is the lunar correction. */
  lemma LunarCorrection(b: nat)
    ensures (b - (b + 8) / 25 + 1) / 3 == (8 * b + 13) / 25
  {
    var q, r := b / 25, b % 25;
    assert b == 25 * q + r;
    assert (b + 8) / 25 == q + (r + 8) / 25;
    assert (8 * b + 13) / 25 == 8 * q + (8 * r + 13) / 25;
    assert b - (b + 8) / 25 + 1 == 3 * (8 * q) + (r - (r + 8) / 25 + 1);
  }

  lemma LeapCorrection(b: nat)
    ensures 3 * (b + 1) / 4 == b - b / 4
  {
    var q, r := b / 4, b % 4;
    assert b == 4 * q + r;
    assert 3 * (b + 1) / 4 == 3 * q + 3 * (r + 1) / 4;
  }

  lemma Complementary(x: int, y: int, k: int)
    requires x + y == 30 * k + 53
    ensures x % 30 == if y % 30 <= 23 then 23 - y % 30 else 53 - y % 30
  {
  }

  /** The moon of the formula is the epact counted backwards. */
  lemma MoonOfFormula(year: nat)
    ensures var a, b, e := year % 19, year / 100, Epact(year);
            (19 * a + b - b / 4 - (b - (b + 8) / 25 + 1) / 3 + 15) % 30
            == if e <= 23 then 23 - e else 53 - e
  {
    var a, b := year % 19, year / 100;
    LunarCorrection(b);
    LeapCorrection(b);
    var g := (8 * b + 13) / 25;
    assert Epact(year) == (11 * (a + 1) + 20 + (g - 5) - (b - b / 4 - 12)) % 30 by {
      assert 8 * (b + 1) + 5 == 8 * b + 13;
    }
    Complementary(19 * a + b - b / 4 - g + 15, 11 * (a + 1) + 20 + (g - 5) - (b - b / 4 - 12), a);
  }

  /** What the moon of the formula means for the full moon of Easter. */
  lemma MoonAndPaschalMoon(year: nat, h: int)
    requires var e := Epact(year); h == if e <= 23 then 23 - e else 53 - e
    ensures PaschalMoon(year) == if h == 29 || (h == 28 && year % 19 > 10) then h - 1 else h
  {
    hide Epact;
    assert 0 <= Epact(year) < 30 by {
      EpactRange(year);
    }
  }

  lemma EpactRange(year: nat)
    ensures 0 <= Epact(year) < 30
  {
  }

  /** The Sunday that the formula picks within the week after its moon. */
  lemma SundayOfFormula(e: nat, i: nat, k: nat, h: nat, l: int, m: int)
    requires e < 4 && i < 25 && k < 4 && h < 30
    requires l == (32 + 2 * e + 2 * i - h - k) % 7
    ensures (5 * e + 5 * i + k + 3 + h + l - 7 * m) % 7 == 0
  {
    var q := (32 + 2 * e + 2 * i - h - k) / 7;
    assert 5 * e + 5 * i + k + 3 + h + l - 7 * m == 7 * (e + i + 5 - q - m);
  }

  /** The last step of the formula takes off a week exactly for the two late moons. */
  lemma LateMoons(a: nat, h: nat, l: nat)
    requires a < 19 && h < 30 && l < 7
    ensures var m := (a + 11 * h + 22 * l) / 451;
            m == if l == 6 && (h == 29 || (h == 28 && a > 10)) then 1 else 0
  {
  }

  /** The Meeus/Jones/Butcher formula. For every year from 0 on it gives the Sunday after the full moon
      of Easter, a date from 22 March to 25 April. */
  method Easter(year: int) returns (month: int, day: int)
    ensures year >= 0 ==> IsEaster(year, month, day)
  {
    var a := CRem(year, 19);
    var b := CDiv(year, 100);
    var c := CRem(year, 100);
    var d := CDiv(b, 4);
    var e := CRem(b, 4);
    var f := CDiv(b + 8, 25);
    var g := CDiv(b - f + 1, 3);
    var h := CRem(19 * a + b - d - g + 15, 30);
    var i := CDiv(c, 4);
    var k := CRem(c, 4);
    var l := CRem(32 + 2 * e + 2 * i - h - k, 7);
    var m := CDiv(a + 11 * h + 22 * l, 451);
    month := CDiv(h + l - 7 * m + 114, 31);
    day := CRem(h + l - 7 * m + 114, 31) + 1;
    if year >= 0 {
      FormulaIsEaster(year, h, l, m, month, day);
    }
  }

  lemma FormulaIsEaster(year: nat, h: int, l: int, m: int, month: int, day: int)
    requires var a, b, c := year % 19, year / 100, year % 100;
             && h == (19 * a + b - b / 4 - (b - (b + 8) / 25 + 1) / 3 + 15) % 30
             && l == (32 + 2 * (b % 4) + 2 * (c / 4) - h - c % 4) % 7
             && m == (a + 11 * h + 22 * l) / 451
    requires month == (h + l - 7 * m + 114) / 31 && day == (h + l - 7 * m + 114) % 31 + 1
    ensures IsEaster(year, month, day)
  {
    var b, c := year / 100, year % 100;
    LateMoons(year % 19, h, l);
    assert 0 <= h + l - 7 * m <= 34;
    assert month == 3 || month == 4;
    assert AfterMarch21(month, day) == h + l - 7 * m + 1;
    SundayOfFormula(b % 4, c / 4, c % 4, h, l, m);
    SundayByParts(year, month, day);
    MoonOfFormula(year);
    MoonAndPaschalMoon(year, h);
    hide Sunday, PaschalMoon, Epact;
  }

  lemma OneInAWeek(x: int, y: int, s: int, lo: int)
    requires lo < x <= lo + 7 && lo < y <= lo + 7
    requires (s + x) % 7 == 0 && (s + y) % 7 == 0
    ensures x == y
  {
  }

  /** A year has one Easter, so the formula and the rule determine each other. */
  lemma EasterIsUnique(year: nat, month: int, day: int, month': int, day': int)
    requires IsEaster(year, month, day) && IsEaster(year, month', day')
    ensures month == month' && day == day'
  {
    SundayByParts(year, month, day);
    SundayByParts(year, month', day');
    hide Sunday, PaschalMoon;
    var b, c := year / 100, year % 100;
    OneInAWeek(AfterMarch21(month, day), AfterMarch21(month', day'),
               5 * (b % 4) + 5 * (c / 4) + c % 4 + 2, PaschalMoon(year));
  }
}
