/**
  Calendar dates of the proleptic Gregorian calendar (the one pandas uses),
  their order, and the three chart granularities of the investment-growth
  chart: a day, a month (keyed by its first day, as `to_period('M').start_time`
  gives it) and a year (keyed by 1 January, as `to_period('Y').start_time`).
  `PeriodRange` is `pd.date_range(lo, hi, freq)` with freq 'D', 'MS' or 'YS'.
 */
module Dates {
  import opened Orders

  datatype Date = Date(year: int, month: int, day: int)

  predicate IsLeapYear(y: int) {
    (y % 4 == 0 && y % 100 != 0) || y % 400 == 0
  }

  function DaysInMonth(y: int, m: int): (n: int)
    ensures 28 <= n <= 31
    ensures m == 2 ==> (n == 29 <==> IsLeapYear(y))
  {
    if m == 2 then (if IsLeapYear(y) then 29 else 28)
    else if m == 4 || m == 6 || m == 9 || m == 11 then 30
    else 31
  }

  predicate ValidDate(d: Date) {
    1 <= d.month <= 12 && 1 <= d.day <= DaysInMonth(d.year, d.month)
  }

  /** Chronological order: `a` is strictly earlier than `b`. */
  predicate Before(a: Date, b: Date) {
    a.year < b.year
    || (a.year == b.year && (a.month < b.month || (a.month == b.month && a.day < b.day)))
  }

  /** `a <= b` chronologically. */
  predicate NotAfter(a: Date, b: Date) {
    !Before(b, a)
  }

  lemma BeforeIsStrictTotalOrder()
    ensures StrictTotalOrder(Before)
  {
  }

  datatype Granularity = Daily | Monthly | Yearly

  /** The key of the period that contains `d`: the day itself, the first of its month, or 1 January. */
  function PeriodStart(g: Granularity, d: Date): Date {
    match g
    case Daily => d
    case Monthly => Date(d.year, d.month, 1)
    case Yearly => Date(d.year, 1, 1)
  }

  /** `d` is a valid date that is the key of a period of granularity `g`. */
  predicate IsPeriodStart(g: Granularity, d: Date) {
    ValidDate(d) &&
    match g
    case Daily => true
    case Monthly => d.day == 1
    case Yearly => d.month == 1 && d.day == 1
  }

  /** One step of the granularity: the next day, the first of the next month, or 1 January of the next year. */
  function NextPeriod(g: Granularity, d: Date): Date {
    match g
    case Daily =>
      if d.day < DaysInMonth(d.year, d.month) then Date(d.year, d.month, d.day + 1)
      else if d.month < 12 then Date(d.year, d.month + 1, 1)
      else Date(d.year + 1, 1, 1)
    case Monthly =>
      if d.month < 12 then Date(d.year, d.month + 1, 1) else Date(d.year + 1, 1, 1)
    case Yearly => Date(d.year + 1, 1, 1)
  }

  lemma PeriodStartContains(g: Granularity, d: Date)
    requires ValidDate(d)
    ensures IsPeriodStart(g, PeriodStart(g, d))
    ensures NotAfter(PeriodStart(g, d), d)
    ensures IsPeriodStart(g, d) ==> PeriodStart(g, d) == d
  {
  }

  /**
    The next period is a later period key, and no period key lies strictly
    between a key and its successor: the axis built by stepping has no gaps.
   */
  lemma NextPeriodIsSuccessor(g: Granularity, p: Date)
    requires IsPeriodStart(g, p)
    ensures IsPeriodStart(g, NextPeriod(g, p))
    ensures Before(p, NextPeriod(g, p))
    ensures forall q :: IsPeriodStart(g, q) && Before(p, q) ==> NotAfter(NextPeriod(g, p), q)
  {
  }

  /** An integer rank that grows with the chronological order of valid dates. */
  function Ordinal(d: Date): int {
    d.year * 372 + d.month * 31 + d.day
  }

  lemma OrdinalGrows(a: Date, b: Date)
    requires ValidDate(a) && ValidDate(b) && Before(a, b)
    ensures Ordinal(a) < Ordinal(b)
  {
  }

  /**
    `pd.date_range(lo, hi, freq)` for a period key `lo`: the keys `lo`,
    `NextPeriod(lo)`, ... up to and including `hi`; empty when `hi` is before `lo`.
   */
  function PeriodRange(g: Granularity, lo: Date, hi: Date): seq<Date>
    requires IsPeriodStart(g, lo) && ValidDate(hi)
    decreases Ordinal(hi) - Ordinal(lo)
  {
    if Before(lo, hi) then
      NextPeriodIsSuccessor(g, lo);
      OrdinalGrows(lo, hi);
      OrdinalGrows(lo, NextPeriod(g, lo));
      [lo] + PeriodRange(g, NextPeriod(g, lo), hi)
    else if lo == hi then [lo]
    else []
  }

  /** `ds` are period keys, each the successor of the one before it. */
  ghost predicate Stepwise(g: Granularity, ds: seq<Date>) {
    && (forall i :: 0 <= i < |ds| ==> IsPeriodStart(g, ds[i]))
    && (forall i, j :: 0 <= i && j == i + 1 && j < |ds| ==> ds[j] == NextPeriod(g, ds[i]))
  }

  /** Consecutive period keys are strictly increasing. */
  lemma {:induction false} StepwiseIncreasing(g: Granularity, ds: seq<Date>)
    requires Stepwise(g, ds)
    ensures forall i, j :: 0 <= i < j < |ds| ==> Before(ds[i], ds[j])
  {
    if |ds| > 1 {
      var rest := ds[1..];
      assert Stepwise(g, rest) by {
        forall i, j | 0 <= i && j == i + 1 && j < |rest| ensures rest[j] == NextPeriod(g, rest[i]) {
          assert rest[i] == ds[i + 1] && rest[j] == ds[j + 1];
        }
      }
      StepwiseIncreasing(g, rest);
      NextPeriodIsSuccessor(g, ds[0]);
      assert Before(ds[0], ds[1]);
      forall i, j | 0 <= i < j < |ds| ensures Before(ds[i], ds[j]) {
        if i > 0 {
          assert ds[i] == rest[i - 1] && ds[j] == rest[j - 1];
        } else if j > 1 {
          assert Before(ds[1], ds[j]) by { assert ds[1] == rest[0] && ds[j] == rest[j - 1]; }
        }
      }
    }
  }

  /**
    Between two period keys `lo <= hi` the range starts at `lo`, ends at
    `hi`, and is made of consecutive period keys; it is empty when `hi` is
    before `lo`.
   */
  lemma {:induction false} PeriodRangeSpec(g: Granularity, lo: Date, hi: Date)
    requires IsPeriodStart(g, lo) && IsPeriodStart(g, hi)
    ensures var r := PeriodRange(g, lo, hi);
      && (Before(hi, lo) <==> r == [])
      && (NotAfter(lo, hi) ==> r[0] == lo && r[|r| - 1] == hi)
      && Stepwise(g, r)
    decreases Ordinal(hi) - Ordinal(lo)
  {
    var r := PeriodRange(g, lo, hi);
    if Before(lo, hi) {
      var n := NextPeriod(g, lo);
      NextPeriodIsSuccessor(g, lo);
      OrdinalGrows(lo, hi);
      OrdinalGrows(lo, n);
      PeriodRangeSpec(g, n, hi);
      var rest := PeriodRange(g, n, hi);
      assert r == [lo] + rest;
      assert NotAfter(n, hi);
      assert rest != [] && rest[0] == n;
      forall i, j | 0 <= i && j == i + 1 && j < |r| ensures r[j] == NextPeriod(g, r[i]) {
        if i > 0 {
          assert r[i] == rest[i - 1] && r[j] == rest[i];
        }
      }
      forall i | 0 < i < |r| ensures IsPeriodStart(g, r[i]) {
        assert r[i] == rest[i - 1];
      }
    }
  }

  /** The range holds exactly the period keys from `lo` to `hi`: none is skipped and nothing else is in it. */
  lemma {:induction false} PeriodRangeMembers(g: Granularity, lo: Date, hi: Date)
    requires IsPeriodStart(g, lo) && IsPeriodStart(g, hi)
    ensures var r := PeriodRange(g, lo, hi);
      forall d :: d in r <==> IsPeriodStart(g, d) && NotAfter(lo, d) && NotAfter(d, hi)
    decreases Ordinal(hi) - Ordinal(lo)
  {
    var r := PeriodRange(g, lo, hi);
    if Before(lo, hi) {
      var n := NextPeriod(g, lo);
      NextPeriodIsSuccessor(g, lo);
      OrdinalGrows(lo, hi);
      OrdinalGrows(lo, n);
      PeriodRangeMembers(g, n, hi);
      assert r == [lo] + PeriodRange(g, n, hi);
      forall d ensures d in r <==> IsPeriodStart(g, d) && NotAfter(lo, d) && NotAfter(d, hi) {
        if IsPeriodStart(g, d) && Before(lo, d) {
          assert NotAfter(n, d);
        }
      }
    }
  }
}
