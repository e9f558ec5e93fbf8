/**
 Partial dates: a datetime whose missing fields are -1 stands for the interval of all complete
 datetimes that agree with its given fields. The bounds of that interval, and durations.
*/
module CalendarBounds {
  import opened Calendar

  /** The lowest value of a field; months and days count from 1. */
  function Lowest(i: nat): int { if i == 1 || i == 2 then 1 else 0 }

  /** How many fields are given; the year always is. */
  function Precision(p: DateTime): (k: nat)
    ensures 1 <= k <= 6
  {
    if p[1] == MISSING then 1
    else if p[2] == MISSING then 2
    else if p[3] == MISSING then 3
    else if p[4] == MISSING then 4
    else if p[5] == MISSING then 5
    else 6
  }

  /** The missing fields filled with the lowest values they can have. */
  function Lower(p: DateTime): DateTime {
    seq(6, i requires 0 <= i < 6 => if i > 0 && p[i] == MISSING then Lowest(i) else p[i])
  }

  /** The first k fields of a datetime, the others at their lowest. */
  function Floor(t: DateTime, k: nat): DateTime
    requires 1 <= k <= 6
  {
    [t[0], if k > 1 then t[1] else 1, if k > 2 then t[2] else 1,
     if k > 3 then t[3] else 0, if k > 4 then t[4] else 0, if k > 5 then t[5] else 0]
  }

  /** The first k fields of a datetime, the others at their highest. */
  function Highest(t: DateTime, k: nat): DateTime
    requires 1 <= k <= 6 && (k >= 2 ==> 1 <= t[1] <= 12)
  {
    var month := if k > 1 then t[1] else 12;
    [t[0], month, if k > 2 then t[2] else DaysInMonth(t[0], month),
     if k > 3 then t[3] else 23, if k > 4 then t[4] else 59, if k > 5 then t[5] else 59]
  }

  /** Given fields in range, and nothing given after a missing field. */
  predicate WellFormed(p: DateTime) {
    InRange(Lower(p)) && forall i :: Precision(p) <= i < 6 ==> p[i] == MISSING
  }

  /** A complete datetime has the fields that p gives. */
  predicate Agrees(t: DateTime, p: DateTime) {
    t[0] == p[0] && forall i :: 1 <= i < 6 && p[i] != MISSING ==> t[i] == p[i]
  }

  /** What `upperbound` hands to `normalise`: missing fields at their lowest, the last given field
      incremented, one second taken off. */
  function Bumped(p: DateTime): DateTime {
    var d := seq(6, i requires 0 <= i < 6 =>
                      if p[i] == MISSING then Lowest(i)
                      else if i != 5 && p[i + 1] != MISSING then p[i]
                      else p[i] + 1);
    d[5 := d[5] - 1]
  }

  // ---- the programs

  method LowerBound(src: array<int>, dst: array<int>)
    requires src.Length == 6 && dst.Length == 6 && src != dst
    modifies dst
    ensures dst[..] == Lower(src[..])
  {
    dst[0] := src[0];
    dst[1] := if src[1] != MISSING then src[1] else 1;
    dst[2] := if src[2] != MISSING then src[2] else 1;
    dst[3] := if src[3] != MISSING then src[3] else 0;
    dst[4] := if src[4] != MISSING then src[4] else 0;
    dst[5] := if src[5] != MISSING then src[5] else 0;
  }

  method UpperBound(src: array<int>, dst: array<int>)
    requires src.Length == 6 && dst.Length == 6 && src != dst
    modifies dst
    ensures InRange(dst[..]) && Instant(dst[..]) == Instant(Bumped(src[..]))
  {
    for i := 0 to 6
      invariant forall j :: 0 <= j < i ==> dst[j] == Bumped(src[..])[j] + if j == 5 then 1 else 0
    {
      if src[i] == MISSING {
        dst[i] := if i == 1 || i == 2 then 1 else 0;
      } else if i != 5 && src[i + 1] != MISSING {
        dst[i] := src[i];
      } else {
        dst[i] := src[i] + 1;
      }
    }
    dst[5] := dst[5] - 1;
    assert dst[..] == Bumped(src[..]);
    Normalise(dst);
  }

  method UpperBoundInPlace(val: array<int>)
    requires val.Length == 6
    modifies val
    ensures InRange(val[..]) && Instant(val[..]) == old(Instant(Bumped(val[..])))
  {
    ghost var p: DateTime := val[..];
    for i := 0 to 6
      invariant forall j :: 0 <= j < i ==> val[j] == Bumped(p)[j] + if j == 5 then 1 else 0
      invariant forall j :: i <= j < 6 ==> val[j] == p[j]
    {
      if val[i] == MISSING {
        val[i] := if i == 1 || i == 2 then 1 else 0;
      } else if i != 5 && val[i + 1] != MISSING {
      } else {
        val[i] := val[i] + 1;
      }
    }
    val[5] := val[5] - 1;
    assert val[..] == Bumped(p);
    Normalise(val);
  }

  // ---- the bounds are what they are called

  lemma LowerIsFloor(p: DateTime)
    requires WellFormed(p)
    ensures Lower(p) == Floor(p, Precision(p))
  {
  }

  lemma HighestInRange(p: DateTime)
    requires WellFormed(p)
    ensures InRange(Highest(p, Precision(p)))
  {
  }

  lemma NextYearStart(y: int)
    ensures Instant([y + 1, 1, 1, 0, 0, -1]) == Instant([y, 12, 31, 23, 59, 59])
  {
    LastMonth(y);
    hide MonthStart;
  }

  lemma LastMonth(y: int)
    ensures MonthStart(y + 1, 0) == MonthStart(y, 11) + 31
  {
    YearStep(y);
    TwelveMonths(y);
    assert DaysBeforeMonth(y, 13) == DaysBeforeMonth(y, 12) + 31;
    assert DaysBeforeMonth(y + 1, 1) == 0;
  }

  lemma NextMonthStart(y: int, m: int)
    requires 1 <= m <= 12
    ensures Instant([y, m + 1, 1, 0, 0, -1]) == Instant([y, m, DaysInMonth(y, m), 23, 59, 59])
  {
    hide MonthStart, DaysInMonth;
    NextMonth(y, m);
  }

  lemma NextMonth(y: int, m: int)
    requires 1 <= m <= 12
    ensures MonthStart(y, m) == MonthStart(y, m - 1) + DaysInMonth(y, m)
  {
    hide MonthStart, DaysInMonth;
    MonthStep(y, m - 1);
    assert (m - 1) / 12 == 0 && (m - 1) % 12 == m - 1;
  }

  /** The year of p is not taken for a missing field, or is the only field. */
  predicate YearCounts(p: DateTime) { p[0] != MISSING || Precision(p) == 1 }

  /** One second after the highest completion comes the completion with the last given field
      incremented. */
  lemma BumpedIsHighest(p: DateTime)
    requires WellFormed(p) && YearCounts(p)
    ensures Instant(Bumped(p)) == Instant(Highest(p, Precision(p)))
  {
    var k := Precision(p);
    BumpedForm(p);
    if k == 1 {
      NextYearStart(p[0]);
    } else if k == 2 {
      NextMonthStart(p[0], p[1]);
    } else {
      hide MonthStart;
    }
  }

  lemma BumpedForm(p: DateTime)
    requires WellFormed(p) && YearCounts(p)
    ensures var k := Precision(p);
            Bumped(p) == if k == 1 then [p[0] + 1, 1, 1, 0, 0, -1]
                         else if k == 2 then [p[0], p[1] + 1, 1, 0, 0, -1]
                         else if k == 3 then [p[0], p[1], p[2] + 1, 0, 0, -1]
                         else if k == 4 then [p[0], p[1], p[2], p[3] + 1, 0, -1]
                         else if k == 5 then [p[0], p[1], p[2], p[3], p[4] + 1, -1]
                         else p
  {
  }

  /** What the documentation says: the upper bound fills in the highest values the missing fields can
      have, and a complete datetime is its own upper bound. */
  lemma UpperBoundFillsIn(p: DateTime, u: DateTime)
    requires WellFormed(p) && YearCounts(p) && InRange(u)
    ensures Instant(u) == Instant(Bumped(p)) <==> u == Highest(p, Precision(p))
  {
    BumpedIsHighest(p);
    HighestInRange(p);
    InstantOrder(u, Highest(p, Precision(p)));
    hide Instant, Bumped, Highest, InRange;
  }

  /** Not before: equal, or later. */
  lemma NotBefore(t: DateTime, u: DateTime)
    requires InRange(t) && InRange(u)
    ensures Instant(t) <= Instant(u) <==> !Before(u, t)
  {
    InstantOrder(u, t);
  }

  lemma AgreesPrefix(t: DateTime, p: DateTime)
    requires WellFormed(p)
    ensures Agrees(t, p) <==> t[..Precision(p)] == p[..Precision(p)]
  {
    var k := Precision(p);
    if t[..k] == p[..k] {
      forall i | 0 <= i < k
        ensures t[i] == p[i]
      {
        assert t[i] == t[..k][i] == p[..k][i];
      }
    }
  }

  /** A datetime in range lies between the lowest and the highest completion of p exactly when it has
      the fields of p. */
  lemma BetweenCompletions(t: DateTime, p: DateTime)
    requires WellFormed(p) && InRange(t)
    ensures var k := Precision(p);
            t[..k] == p[..k] <==> !Before(t, Lower(p)) && !Before(Highest(p, k), t)
  {
    var k := Precision(p);
    var l, h := Lower(p), Highest(p, k);
    LowerIsFloor(p);
    if t[..k] == p[..k] {
      Completion(t, p, k);
    } else {
      var i := FirstDifference(t, p, k);
      assert t[..i] == l[..i] == h[..i] == p[..i];
      assert t[i] < l[i] || h[i] < t[i];
    }
  }

  lemma Completion(t: DateTime, p: DateTime, k: nat)
    requires WellFormed(p) && k == Precision(p) && InRange(t) && t[..k] == p[..k]
    ensures !Before(t, Lower(p)) && !Before(Highest(p, k), t)
  {
    var l, h := Lower(p), Highest(p, k);
    forall i | 0 <= i < k
      ensures t[i] == p[i] == l[i] == h[i]
    {
      assert t[i] == t[..k][i] == p[..k][i];
    }
    assert forall i :: k <= i < 6 ==> l[i] <= t[i];
    assert forall i :: k <= i < 6 && i != 2 ==> t[i] <= h[i];
    forall j: nat | j < 6 && h[..j] == t[..j]
      ensures t[j] <= h[j]
    {
      if j == 2 && k <= 2 {
        assert h[1] == h[..2][1] == t[..2][1] == t[1];
      }
    }
  }

  lemma {:induction false} FirstDifference(t: DateTime, p: DateTime, k: nat) returns (i: nat)
    requires k <= 6 && t[..k] != p[..k]
    ensures i < k && t[..i] == p[..i] && t[i] != p[i]
  {
    assert t[..k] == t[..k - 1] + [t[k - 1]] && p[..k] == p[..k - 1] + [p[k - 1]];
    if t[..k - 1] == p[..k - 1] {
      return k - 1;
    } else {
      i := FirstDifference(t, p, k - 1);
    }
  }

  predicate ExactAt(p: DateTime, t: DateTime) {
    Agrees(t, p) <==> Instant(Lower(p)) <= Instant(t) <= Instant(Bumped(p))
  }

  /** The bounds of a partial date are exact: a complete datetime agrees with the given fields exactly
      when it lies between the two bounds. */
  lemma BoundsAreExact(p: DateTime, t: DateTime)
    requires WellFormed(p) && YearCounts(p) && InRange(t)
    ensures ExactAt(p, t)
  {
    var h := Highest(p, Precision(p));
    BumpedIsHighest(p);
    HighestInRange(p);
    NotBefore(Lower(p), t);
    NotBefore(t, h);
    AgreesPrefix(t, p);
    BetweenCompletions(t, p);
  }

  /** Year -1 with further fields is the one family for which they are not: `upperbound` takes the year
      for a missing field and answers with a datetime of year 0. */
  lemma YearMinusOne(p: DateTime)
    requires WellFormed(p) && !YearCounts(p)
    ensures exists t: DateTime :: InRange(t) && !ExactAt(p, t)
  {
    var q: DateTime := p[0 := 0];
    assert Precision(q) == Precision(p) && Bumped(q) == Bumped(p);
    var t := Lower(q);
    assert t == Lower(p)[0 := 0];
    assert InRange(t) && WellFormed(q) && Agrees(t, q);
    BoundsAreExact(q, t);
    assert Lower(p)[..0] == t[..0];
    InstantOrder(Lower(p), t);
    assert !Agrees(t, p);
  }

  /** So the bounds of a well-formed partial date are exact if and only if it does not have year -1
      together with a month. */
  lemma BoundsAreExactIff(p: DateTime)
    requires WellFormed(p)
    ensures (forall t: DateTime :: InRange(t) ==> ExactAt(p, t)) <==> p[0] != MISSING || p[1] == MISSING
  {
    if YearCounts(p) {
      forall t: DateTime | InRange(t)
        ensures ExactAt(p, t)
      {
        BoundsAreExact(p, t);
      }
    } else {
      YearMinusOne(p);
    }
  }
}
