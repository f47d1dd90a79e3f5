/** Calendar dates of the years 1 to 9999 and their day numbers. */
module Calendar {
  import opened Wrappers

  datatype Date = Date(year: int, month: int, day: int)

  const MAX_YEAR := 9999

  predicate Leap(y: int) {
    y % 4 == 0 && (y % 100 != 0 || y % 400 == 0)
  }

  function DaysInMonth(y: int, m: int): (d: int)
    ensures 28 <= d <= 31
  {
    if m == 2 then (if Leap(y) then 29 else 28)
    else if m == 4 || m == 6 || m == 9 || m == 11 then 30
    else 31
  }

  predicate Valid(d: Date) {
    1 <= d.year <= MAX_YEAR && 1 <= d.month <= 12 && 1 <= d.day <= DaysInMonth(d.year, d.month)
  }

  /** Dates compare by year, then month, then day. */
  predicate Le(a: Date, b: Date) {
    a.year < b.year || (a.year == b.year && (a.month < b.month || (a.month == b.month && a.day <= b.day)))
  }

  function DaysBeforeYear(y: int): int {
    365 * (y - 1) + (y - 1) / 4 - (y - 1) / 100 + (y - 1) / 400
  }

  function DaysBeforeMonth(y: int, m: int): (n: int)
    ensures n >= 0
    decreases m
  {
    if m <= 1 then 0 else DaysBeforeMonth(y, m - 1) + DaysInMonth(y, m - 1)
  }

  /** The day number of a date; the first of January of the year 1 is day 1. */
  function Ordinal(d: Date): int {
    DaysBeforeYear(d.year) + DaysBeforeMonth(d.year, d.month) + d.day
  }

  function YearLength(y: int): int {
    if Leap(y) then 366 else 365
  }

  lemma FourthStep(y: int)
    ensures y / 4 - (y - 1) / 4 == if y % 4 == 0 then 1 else 0
  {
  }

  lemma By100(t: int, q: int, r: int)
    requires t == 100 * q + r && 0 <= r < 100
    ensures t / 100 == q && t % 100 == r
  {
  }

  lemma By400(t: int, q: int, r: int)
    requires t == 400 * q + r && 0 <= r < 400
    ensures t / 400 == q && t % 400 == r
  {
  }

  lemma By4(t: int, q: int)
    requires t == 4 * q
    ensures t % 4 == 0
  {
  }

  lemma Step100(y: int, q: int, r: int)
    requires y == 100 * q + r && 0 <= r < 100
    ensures y / 100 == q && y % 100 == r
    ensures (y - 1) / 100 == if r == 0 then q - 1 else q
  {
    By100(y, q, r);
    if r == 0 {
      By100(y - 1, q - 1, 99);
    } else {
      By100(y - 1, q, r - 1);
    }
  }

  lemma Step400(y: int, q: int, r: int)
    requires y == 400 * q + r && 0 <= r < 400
    ensures y / 400 == q && y % 400 == r
    ensures (y - 1) / 400 == if r == 0 then q - 1 else q
  {
    By400(y, q, r);
    if r == 0 {
      By400(y - 1, q - 1, 399);
    } else {
      By400(y - 1, q, r - 1);
    }
  }

  lemma Parts100(y: int) returns (q: int, r: int)
    ensures y == 100 * q + r && 0 <= r < 100
  {
    q, r := y / 100, y % 100;
  }

  lemma Parts400(y: int) returns (q: int, r: int)
    ensures y == 400 * q + r && 0 <= r < 400
  {
    q, r := y / 400, y % 400;
  }

  lemma HundredthStep(y: int)
    ensures y / 100 - (y - 1) / 100 == if y % 100 == 0 then 1 else 0
    ensures y % 100 == 0 ==> y % 4 == 0
  {
    var q, r := Parts100(y);
    Step100(y, q, r);
    if r == 0 {
      By4(y, 25 * q);
    }
  }

  lemma FourHundredthStep(y: int)
    ensures y / 400 - (y - 1) / 400 == if y % 400 == 0 then 1 else 0
    ensures y % 400 == 0 ==> y % 100 == 0
  {
    var q, r := Parts400(y);
    Step400(y, q, r);
    if r == 0 {
      By100(y, 4 * q, 0);
    }
  }

  lemma NextYear(y: int)
    ensures DaysBeforeYear(y + 1) == DaysBeforeYear(y) + YearLength(y)
  {
    FourthStep(y);
    HundredthStep(y);
    FourHundredthStep(y);
  }

  lemma MonthsFillYear(y: int)
    ensures DaysBeforeMonth(y, 13) == YearLength(y)
  {
    var f := DaysInMonth(y, 2);
    assert DaysBeforeMonth(y, 2) == 31;
    assert DaysBeforeMonth(y, 4) == DaysBeforeMonth(y, 3) + 31 == 62 + f;
    assert DaysBeforeMonth(y, 6) == DaysBeforeMonth(y, 5) + 31 == 123 + f;
    assert DaysBeforeMonth(y, 8) == DaysBeforeMonth(y, 7) + 31 == 184 + f;
    assert DaysBeforeMonth(y, 10) == DaysBeforeMonth(y, 9) + 30 == 245 + f;
    assert DaysBeforeMonth(y, 12) == DaysBeforeMonth(y, 11) + 30 == 306 + f;
  }

  lemma {:induction false} MonthsMonotone(y: int, m: int, n: int)
    requires 1 <= m <= n
    ensures DaysBeforeMonth(y, m) <= DaysBeforeMonth(y, n)
    ensures m < n ==> DaysBeforeMonth(y, m) + DaysInMonth(y, m) <= DaysBeforeMonth(y, n)
    decreases n
  {
    if m < n {
      MonthsMonotone(y, m, n - 1);
    }
  }

  lemma {:induction false} YearsMonotone(x: int, y: int)
    requires x <= y
    ensures DaysBeforeYear(x) <= DaysBeforeYear(y)
    ensures x < y ==> DaysBeforeYear(x) + YearLength(x) <= DaysBeforeYear(y)
    decreases y - x
  {
    if x < y {
      YearsMonotone(x, y - 1);
      NextYear(y - 1);
    }
  }

  /** A date's day number falls within its year. */
  lemma OrdinalInYear(d: Date)
    requires Valid(d)
    ensures DaysBeforeYear(d.year) < Ordinal(d) <= DaysBeforeYear(d.year + 1)
  {
    MonthsFillYear(d.year);
    MonthsMonotone(d.year, d.month, 13);
    NextYear(d.year);
  }

  /** Day numbers order dates as the dates themselves do. */
  lemma OrdinalOrders(a: Date, b: Date)
    requires Valid(a) && Valid(b)
    ensures Le(a, b) <==> Ordinal(a) <= Ordinal(b)
    ensures Ordinal(a) == Ordinal(b) ==> a == b
  {
    OrdinalInYear(a);
    OrdinalInYear(b);
    if a.year < b.year {
      YearsMonotone(a.year + 1, b.year);
    } else if b.year < a.year {
      YearsMonotone(b.year + 1, a.year);
    } else if a.month < b.month {
      MonthsMonotone(a.year, a.month, b.month);
    } else if b.month < a.month {
      MonthsMonotone(a.year, b.month, a.month);
    }
  }

  // ----- back from day numbers

  function YearFrom(n: int, y: int): (r: int)
    requires 1 <= y <= MAX_YEAR
    requires DaysBeforeYear(y) < n <= DaysBeforeYear(MAX_YEAR + 1)
    ensures y <= r <= MAX_YEAR
    ensures DaysBeforeYear(r) < n <= DaysBeforeYear(r + 1)
    decreases MAX_YEAR - y
  {
    if n <= DaysBeforeYear(y + 1) then y else YearFrom(n, y + 1)
  }

  function MonthFrom(y: int, n: int, m: int): (r: int)
    requires 1 <= m <= 12
    requires DaysBeforeMonth(y, m) < n <= DaysBeforeMonth(y, 13)
    ensures m <= r <= 12
    ensures DaysBeforeMonth(y, r) < n <= DaysBeforeMonth(y, r + 1)
    decreases 12 - m
  {
    if n <= DaysBeforeMonth(y, m + 1) then m else MonthFrom(y, n, m + 1)
  }

  const MAX_ORDINAL := 3652059

  lemma LastDay()
    ensures DaysBeforeYear(MAX_YEAR + 1) == MAX_ORDINAL
  {
  }

  /** The date of a day number. */
  function FromOrdinal(n: int): (d: Date)
    requires 1 <= n <= MAX_ORDINAL
    ensures Valid(d) && Ordinal(d) == n
  {
    LastDay();
    var y := YearFrom(n, 1);
    NextYear(y);
    MonthsFillYear(y);
    var rest := n - DaysBeforeYear(y);
    var m := MonthFrom(y, rest, 1);
    Date(y, m, rest - DaysBeforeMonth(y, m))
  }

  lemma FromOrdinalInverts(d: Date)
    requires Valid(d)
    ensures 1 <= Ordinal(d) <= MAX_ORDINAL && FromOrdinal(Ordinal(d)) == d
  {
    OrdinalInYear(d);
    LastDay();
    YearsMonotone(1, d.year);
    YearsMonotone(d.year + 1, MAX_YEAR + 1);
    OrdinalOrders(FromOrdinal(Ordinal(d)), d);
  }
}
