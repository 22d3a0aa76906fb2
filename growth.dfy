/**
  The "accumulated invested value" chart of the portfolio page: the ledger
  entries bought within a date window are bucketed by day, month or year,
  the `Valor` of each bucket is summed, a cumulative sum is taken, and the
  result is reindexed onto every period from the first bucket to the last
  with forward fill, so that periods without purchases repeat the row
  before them.
 */
module Growth {
  import opened Options
  import opened Orders
  import opened Dates
  import opened Tables
  import opened Portfolio

  /** One bar of the chart: the period key, `Valor` and `Valor Acumulado`. */
  datatype PeriodRow = PeriodRow(period: Date, total: real, cumulative: real)

  function DateOf(e: Entry): Date { e.date }

  /** The entries bought from `start` to `stop`, both included. */
  function InWindow(es: seq<Entry>, start: Date, stop: Date): seq<Entry> {
    Between(es, DateOf, start, stop)
  }

  /** The column the entries are grouped by: `dia`, `mes` or `ano`. */
  function BucketKey(g: Granularity): Entry -> Date {
    (e: Entry) => PeriodStart(g, e.date)
  }

  /** The groups' summed `Valor` with a running total (`cumsum`) added, starting from `acc`. */
  function Accumulate(gs: seq<Group<Date, Entry>>, acc: real): (r: seq<PeriodRow>)
    ensures |r| == |gs|
    ensures forall i :: 0 <= i < |gs| ==>
      r[i].period == gs[i].key && r[i].total == SumOf(gs[i].members, ValueOf)
    ensures gs != [] ==> r[0].cumulative == acc + r[0].total
  {
    if gs == [] then []
    else
      var t := SumOf(gs[0].members, ValueOf);
      [PeriodRow(gs[0].key, t, acc + t)] + Accumulate(gs[1..], acc + t)
  }

  /** Label lookup of `reindex`: the first row for period `d`, if any. */
  function Lookup(rows: seq<PeriodRow>, d: Date): (r: Option<PeriodRow>)
    ensures r.Some? ==> r.value.period == d
  {
    if rows == [] then None
    else if rows[0].period == d then Some(rows[0])
    else Lookup(rows[1..], d)
  }

  /** `rows[i]` is the first row for period `d`. */
  predicate FirstRowAt(rows: seq<PeriodRow>, d: Date, i: int) {
    0 <= i < |rows| && rows[i].period == d && forall j :: 0 <= j < i ==> rows[j].period != d
  }

  /** The lookup finds nothing exactly when no row has period `d`, and otherwise the first row that has. */
  lemma {:induction false} LookupSpec(rows: seq<PeriodRow>, d: Date)
    ensures Lookup(rows, d).None? <==> forall i :: 0 <= i < |rows| ==> rows[i].period != d
    ensures Lookup(rows, d).Some? ==> exists i :: FirstRowAt(rows, d, i) && rows[i] == Lookup(rows, d).value
  {
    if rows != [] && rows[0].period != d {
      LookupSpec(rows[1..], d);
      if Lookup(rows, d).Some? {
        var i :| FirstRowAt(rows[1..], d, i) && rows[1..][i] == Lookup(rows, d).value;
        assert FirstRowAt(rows, d, i + 1);
      } else {
        forall i | 0 < i < |rows| ensures rows[i].period != d {
          assert rows[i] == rows[1..][i - 1];
        }
      }
    } else if rows != [] {
      assert FirstRowAt(rows, d, 0);
    }
  }

  /**
    `reindex(axis).ffill()`: for each period of the axis, its row if there is
    one, and otherwise the previous output row (for the first period, `carry`)
    carried forward under the new period key, both columns included.
   */
  function FillForward(axis: seq<Date>, rows: seq<PeriodRow>, carry: PeriodRow): (r: seq<PeriodRow>)
    ensures |r| == |axis|
    ensures forall k :: 0 <= k < |axis| ==> r[k].period == axis[k]
  {
    if axis == [] then []
    else
      var here := match Lookup(rows, axis[0])
        case Some(row) => row
        case None => PeriodRow(axis[0], carry.total, carry.cumulative);
      [here] + FillForward(axis[1..], rows, here)
  }

  /**
    The filled series takes the period's row where the lookup finds one; at
    a period without a row it repeats the totals of the row before it (of
    `carry` at the first period).
   */
  lemma {:induction false} FillForwardSpec(axis: seq<Date>, rows: seq<PeriodRow>, carry: PeriodRow)
    ensures var r := FillForward(axis, rows, carry);
      && (forall k :: 0 <= k < |axis| && Lookup(rows, axis[k]).Some? ==> r[k] == Lookup(rows, axis[k]).value)
      && (axis != [] && Lookup(rows, axis[0]).None? ==> r[0] == PeriodRow(axis[0], carry.total, carry.cumulative))
      && (forall k, j :: 0 <= k && j == k + 1 && j < |axis| && Lookup(rows, axis[j]).None? ==>
            r[j] == PeriodRow(axis[j], r[k].total, r[k].cumulative))
  {
    if axis != [] {
      var r := FillForward(axis, rows, carry);
      var here := r[0];
      var rest := FillForward(axis[1..], rows, here);
      FillForwardSpec(axis[1..], rows, here);
      assert r == [here] + rest;
      forall k | 0 < k < |axis| && Lookup(rows, axis[k]).Some? ensures r[k] == Lookup(rows, axis[k]).value {
        assert r[k] == rest[k - 1] && axis[k] == axis[1..][k - 1];
      }
      forall k, j | 0 <= k && j == k + 1 && j < |axis| && Lookup(rows, axis[j]).None?
        ensures r[j] == PeriodRow(axis[j], r[k].total, r[k].cumulative)
      {
        assert r[j] == rest[j - 1] && axis[j] == axis[1..][j - 1];
        if k > 0 {
          assert r[k] == rest[k - 1];
        }
      }
    }
  }

  predicate ValidDates(es: seq<Entry>) {
    forall e :: e in es ==> ValidDate(e.date)
  }

  /** Every group key of valid-dated entries is a period key, and there are groups as soon as there are entries. */
  lemma KeysArePeriods(g: Granularity, w: seq<Entry>)
    requires ValidDates(w)
    ensures var gs := GroupBy(w, BucketKey(g), Before);
      && (w != [] ==> gs != [])
      && StrictlySorted(gs, Before)
      && NonEmptyGroups(gs)
      && (forall i :: 0 <= i < |gs| ==> IsPeriodStart(g, gs[i].key))
      && (forall i :: 0 <= i < |gs| ==> gs[i].members == Filter(w, BucketKey(g), gs[i].key))
  {
    var gs := GroupBy(w, BucketKey(g), Before);
    BeforeIsStrictTotalOrder();
    GroupBySpec(w, BucketKey(g), Before);
    forall i | 0 <= i < |gs|
      ensures IsPeriodStart(g, gs[i].key) && gs[i].members == Filter(w, BucketKey(g), gs[i].key)
    {
      MembersAt(gs, i, Before);
      var x := gs[i].members[0];
      assert x in Filter(w, BucketKey(g), gs[i].key);
      PeriodStartContains(g, x.date);
    }
    if w != [] {
      var e := w[|w| - 1];
      assert Filter(w, BucketKey(g), PeriodStart(g, e.date)) != [];
    }
  }

  /** `groupby(bucket)['Valor'].sum()` followed by `cumsum()`: one row per period with purchases. */
  function PeriodTotals(g: Granularity, w: seq<Entry>): seq<PeriodRow> {
    Accumulate(GroupBy(w, BucketKey(g), Before), 0.0)
  }

  /** `reindex(pd.date_range(first, last, freq)).ffill()`: the rows spread onto every period from the first row's to the last row's. */
  function FillAxis(g: Granularity, rows: seq<PeriodRow>): seq<PeriodRow>
    requires rows != [] ==> IsPeriodStart(g, rows[0].period) && IsPeriodStart(g, rows[|rows| - 1].period)
  {
    if rows == [] then []
    else FillForward(PeriodRange(g, rows[0].period, rows[|rows| - 1].period), rows, rows[0])
  }

  /** The chart of entries `w` already cut to the window. */
  function SeriesOf(g: Granularity, w: seq<Entry>): seq<PeriodRow>
    requires ValidDates(w)
  {
    PeriodTotalsSpec(g, w);
    FillAxis(g, PeriodTotals(g, w))
  }

  /** `GrowthSeries`: the rows of the chart for entries `es`, window `start`..`stop` and granularity `g`. */
  function GrowthSeries(g: Granularity, es: seq<Entry>, start: Date, stop: Date): seq<PeriodRow>
    requires ValidDates(es)
  {
    SeriesOf(g, InWindow(es, start, stop))
  }

  // ---------------------------------------------------------------------
  // Reference definitions and the facts that connect them to the pipeline

  /** The total `Valor` of the entries whose period is `a` or earlier. */
  function InvestedUpTo(es: seq<Entry>, g: Granularity, a: Date): real {
    if es == [] then 0.0
    else
      var e := es[|es| - 1];
      InvestedUpTo(es[..|es| - 1], g, a) + (if NotAfter(PeriodStart(g, e.date), a) then e.value else 0.0)
  }

  /** The summed `Valor` of those groups whose key is `a` or earlier. */
  function GroupsUpTo(gs: seq<Group<Date, Entry>>, a: Date): real {
    if gs == [] then 0.0
    else (if NotAfter(gs[0].key, a) then SumOf(gs[0].members, ValueOf) else 0.0) + GroupsUpTo(gs[1..], a)
  }

  lemma {:induction false} InsertUpTo(gs: seq<Group<Date, Entry>>, x: Entry, g: Granularity, a: Date)
    ensures GroupsUpTo(Insert(gs, x, BucketKey(g), Before), a) ==
      GroupsUpTo(gs, a) + (if NotAfter(PeriodStart(g, x.date), a) then x.value else 0.0)
  {
    var k := BucketKey(g)(x);
    if gs == [] {
      assert SumOf([x], ValueOf) == x.value by { SumOfSnoc([], x, ValueOf); }
    } else if gs[0].key == k {
      SumOfSnoc(gs[0].members, x, ValueOf);
      assert Insert(gs, x, BucketKey(g), Before)[1..] == gs[1..];
    } else if Before(k, gs[0].key) {
      assert SumOf([x], ValueOf) == x.value by { SumOfSnoc([], x, ValueOf); }
      assert Insert(gs, x, BucketKey(g), Before)[1..] == gs;
    } else {
      InsertUpTo(gs[1..], x, g, a);
      assert Insert(gs, x, BucketKey(g), Before)[1..] == Insert(gs[1..], x, BucketKey(g), Before);
    }
  }

  /** Summing the groups up to `a` is summing the entries up to `a`. */
  lemma {:induction false} GroupByUpTo(xs: seq<Entry>, g: Granularity, a: Date)
    ensures GroupsUpTo(GroupBy(xs, BucketKey(g), Before), a) == InvestedUpTo(xs, g, a)
  {
    if xs != [] {
      GroupByUpTo(xs[..|xs| - 1], g, a);
      InsertUpTo(GroupBy(xs[..|xs| - 1], BucketKey(g), Before), xs[|xs| - 1], g, a);
    }
  }

  lemma {:induction false} GroupsUpToAbove(gs: seq<Group<Date, Entry>>, a: Date)
    requires Above(gs, a, Before)
    ensures GroupsUpTo(gs, a) == 0.0
  {
    if gs != [] {
      GroupsUpToAbove(gs[1..], a);
    }
  }

  /** Over groups sorted by period, the running total at a group is the sum of the groups up to its period. */
  lemma {:induction false} AccumulateIsRunningTotal(gs: seq<Group<Date, Entry>>, acc: real, i: nat)
    requires StrictlySorted(gs, Before) && i < |gs|
    ensures Accumulate(gs, acc)[i].cumulative == acc + GroupsUpTo(gs, gs[i].key)
  {
    var t := SumOf(gs[0].members, ValueOf);
    var rest := gs[1..];
    if i == 0 {
      assert Above(rest, gs[0].key, Before) by {
        forall k | 0 <= k < |rest| ensures Before(gs[0].key, rest[k].key) {
          assert rest[k] == gs[k + 1];
        }
      }
      GroupsUpToAbove(rest, gs[0].key);
    } else {
      assert StrictlySorted(rest, Before) by {
        forall a, b | 0 <= a < b < |rest| ensures Before(rest[a].key, rest[b].key) {
          assert rest[a] == gs[a + 1] && rest[b] == gs[b + 1];
        }
      }
      AccumulateIsRunningTotal(rest, acc + t, i - 1);
      assert rest[i - 1] == gs[i];
      assert Before(gs[0].key, gs[i].key);
    }
  }

  /** A period in which nothing was bought adds nothing to the total up to the period before it. */
  lemma {:induction false} UpToGap(es: seq<Entry>, g: Granularity, p: Date)
    requires ValidDates(es) && IsPeriodStart(g, p)
    requires Filter(es, BucketKey(g), NextPeriod(g, p)) == []
    ensures InvestedUpTo(es, g, NextPeriod(g, p)) == InvestedUpTo(es, g, p)
  {
    if es != [] {
      var init, e := es[..|es| - 1], es[|es| - 1];
      assert Filter(init, BucketKey(g), NextPeriod(g, p)) == [];
      UpToGap(init, g, p);
      var k := PeriodStart(g, e.date);
      PeriodStartContains(g, e.date);
      NextPeriodIsSuccessor(g, p);
      assert k != NextPeriod(g, p);
    }
  }

  /** With no negative `Valor`, the total up to a period never decreases with the period. */
  lemma {:induction false} UpToMonotone(es: seq<Entry>, g: Granularity, a: Date, b: Date)
    requires NotAfter(a, b)
    requires forall e :: e in es ==> e.value >= 0.0
    ensures InvestedUpTo(es, g, a) <= InvestedUpTo(es, g, b)
  {
    if es != [] {
      UpToMonotone(es[..|es| - 1], g, a, b);
      assert es[|es| - 1] in es;
    }
  }

  /**
    What grouped, summed and accumulated rows say about entries `w`: there is
    one row per period in which something was bought, in increasing order of
    period, holding the summed `Valor` of the period and the total up to it.
   */
  ghost predicate Summarises(g: Granularity, w: seq<Entry>, rows: seq<PeriodRow>) {
    && (forall i, j :: 0 <= i < j < |rows| ==> Before(rows[i].period, rows[j].period))
    && (forall i :: 0 <= i < |rows| ==> IsPeriodStart(g, rows[i].period))
    && (forall i :: 0 <= i < |rows| ==> Filter(w, BucketKey(g), rows[i].period) != [])
    && (forall i :: 0 <= i < |rows| ==> rows[i].total == SumOf(Filter(w, BucketKey(g), rows[i].period), ValueOf))
    && (forall i :: 0 <= i < |rows| ==> rows[i].cumulative == InvestedUpTo(w, g, rows[i].period))
    && (forall d :: Filter(w, BucketKey(g), d) != [] ==> exists i :: 0 <= i < |rows| && rows[i].period == d)
  }

  /** The grouped rows are empty exactly when there are no entries, and they summarise the entries. */
  lemma PeriodTotalsSpec(g: Granularity, w: seq<Entry>)
    requires ValidDates(w)
    ensures w == [] <==> PeriodTotals(g, w) == []
    ensures Summarises(g, w, PeriodTotals(g, w))
    ensures var rows := PeriodTotals(g, w); rows != [] ==> rows[0].cumulative == rows[0].total
  {
    var gs := GroupBy(w, BucketKey(g), Before);
    var rows := PeriodTotals(g, w);
    KeysArePeriods(g, w);
    BeforeIsStrictTotalOrder();
    GroupBySpec(w, BucketKey(g), Before);
    forall i | 0 <= i < |rows| ensures rows[i].cumulative == InvestedUpTo(w, g, rows[i].period) {
      AccumulateIsRunningTotal(gs, 0.0, i);
      GroupByUpTo(w, g, gs[i].key);
    }
    forall d | Filter(w, BucketKey(g), d) != [] ensures exists i :: 0 <= i < |rows| && rows[i].period == d {
      var i := FindGroup(gs, d);
      assert rows[i].period == d;
    }
  }

  /** A period with purchases has a row, and the lookup returns a row of that period. */
  lemma LookupBought(g: Granularity, w: seq<Entry>, rows: seq<PeriodRow>, d: Date)
    requires Summarises(g, w, rows) && Filter(w, BucketKey(g), d) != []
    ensures Lookup(rows, d).Some?
    ensures Lookup(rows, d).value.total == SumOf(Filter(w, BucketKey(g), d), ValueOf)
    ensures Lookup(rows, d).value.cumulative == InvestedUpTo(w, g, d)
  {
    LookupSpec(rows, d);
    var i :| 0 <= i < |rows| && rows[i].period == d;
    var k :| FirstRowAt(rows, d, k) && rows[k] == Lookup(rows, d).value;
  }

  /** A period without purchases has no row. */
  lemma LookupGap(g: Granularity, w: seq<Entry>, rows: seq<PeriodRow>, d: Date)
    requires Summarises(g, w, rows) && Filter(w, BucketKey(g), d) == []
    ensures Lookup(rows, d).None?
  {
    LookupSpec(rows, d);
  }

  /** The cumulative column of the filled series, by induction along the axis. */
  lemma {:induction false} FilledCumulative(g: Granularity, w: seq<Entry>, rows: seq<PeriodRow>, axis: seq<Date>, k: nat)
    requires ValidDates(w) && Summarises(g, w, rows) && rows != []
    requires Stepwise(g, axis) && k < |axis| && axis[0] == rows[0].period
    ensures FillForward(axis, rows, rows[0])[k].cumulative == InvestedUpTo(w, g, axis[k])
  {
    var s := FillForward(axis, rows, rows[0]);
    FillForwardSpec(axis, rows, rows[0]);
    if Filter(w, BucketKey(g), axis[k]) != [] {
      LookupBought(g, w, rows, axis[k]);
    } else {
      LookupGap(g, w, rows, axis[k]);
      LookupBought(g, w, rows, axis[0]);
      assert k != 0;
      FilledCumulative(g, w, rows, axis, k - 1);
      assert s[k] == PeriodRow(axis[k], s[k - 1].total, s[k - 1].cumulative);
      UpToGap(w, g, axis[k - 1]);
    }
  }

  /** The first row's period is not after the last row's. */
  lemma RowsSpan(g: Granularity, w: seq<Entry>, rows: seq<PeriodRow>)
    requires Summarises(g, w, rows) && rows != []
    ensures NotAfter(rows[0].period, rows[|rows| - 1].period)
  {
    if |rows| > 1 {
      assert Before(rows[0].period, rows[|rows| - 1].period);
    }
  }

  /**
    The filled rows are empty exactly when there are no rows; otherwise their
    periods follow each other one step apart, increasing, from the first
    row's period to the last row's, and the first filled row is the first row.
   */
  lemma FillAxisShape(g: Granularity, w: seq<Entry>, rows: seq<PeriodRow>)
    requires Summarises(g, w, rows)
    ensures var s := FillAxis(g, rows);
      && (s == [] <==> rows == [])
      && (forall i, j :: 0 <= i && j == i + 1 && j < |s| ==> s[j].period == NextPeriod(g, s[i].period))
      && (forall i, j :: 0 <= i < j < |s| ==> Before(s[i].period, s[j].period))
      && (s != [] ==> s[0] == rows[0] && s[|s| - 1].period == rows[|rows| - 1].period)
  {
    if rows != [] {
      var lo, hi := rows[0].period, rows[|rows| - 1].period;
      RowsSpan(g, w, rows);
      var axis := PeriodRange(g, lo, hi);
      PeriodRangeSpec(g, lo, hi);
      StepwiseIncreasing(g, axis);
      FillForwardSpec(axis, rows, rows[0]);
      assert Lookup(rows, axis[0]) == Some(rows[0]);
    }
  }

  /** Every period with purchases is a period of the filled rows. */
  lemma FillAxisCovers(g: Granularity, w: seq<Entry>, rows: seq<PeriodRow>)
    requires Summarises(g, w, rows)
    ensures var s := FillAxis(g, rows);
      forall d :: Filter(w, BucketKey(g), d) != [] ==> exists i :: 0 <= i < |s| && s[i].period == d
  {
    var s := FillAxis(g, rows);
    forall d | Filter(w, BucketKey(g), d) != [] ensures exists i :: 0 <= i < |s| && s[i].period == d {
      var j :| 0 <= j < |rows| && rows[j].period == d;
      var lo, hi := rows[0].period, rows[|rows| - 1].period;
      var axis := PeriodRange(g, lo, hi);
      assert NotAfter(lo, d) && NotAfter(d, hi) by {
        if 0 < j { assert Before(rows[0].period, rows[j].period); }
        if j < |rows| - 1 { assert Before(rows[j].period, rows[|rows| - 1].period); }
      }
      PeriodRangeMembers(g, lo, hi);
      var i :| 0 <= i < |axis| && axis[i] == d;
      assert s[i].period == d;
    }
  }

  /** The cumulative column of the filled rows is the total bought up to the period. */
  lemma FillAxisCumulative(g: Granularity, w: seq<Entry>, rows: seq<PeriodRow>)
    requires ValidDates(w) && Summarises(g, w, rows)
    ensures var s := FillAxis(g, rows);
      forall i :: 0 <= i < |s| ==> s[i].cumulative == InvestedUpTo(w, g, s[i].period)
  {
    if rows != [] {
      var axis := PeriodRange(g, rows[0].period, rows[|rows| - 1].period);
      RowsSpan(g, w, rows);
      PeriodRangeSpec(g, rows[0].period, rows[|rows| - 1].period);
      forall i | 0 <= i < |axis| ensures FillForward(axis, rows, rows[0])[i].cumulative == InvestedUpTo(w, g, axis[i]) {
        FilledCumulative(g, w, rows, axis, i);
      }
    }
  }

  /** At a period with purchases, the filled row's total is their summed `Valor`. */
  lemma FillAxisTotals(g: Granularity, w: seq<Entry>, rows: seq<PeriodRow>)
    requires Summarises(g, w, rows)
    ensures var s := FillAxis(g, rows);
      forall i :: 0 <= i < |s| && Filter(w, BucketKey(g), s[i].period) != [] ==>
        s[i].total == SumOf(Filter(w, BucketKey(g), s[i].period), ValueOf)
  {
    if rows != [] {
      var axis := PeriodRange(g, rows[0].period, rows[|rows| - 1].period);
      FillForwardSpec(axis, rows, rows[0]);
      forall i | 0 <= i < |axis| && Filter(w, BucketKey(g), axis[i]) != []
        ensures FillForward(axis, rows, rows[0])[i].total == SumOf(Filter(w, BucketKey(g), axis[i]), ValueOf)
      {
        LookupBought(g, w, rows, axis[i]);
      }
    }
  }

  /** At a period without purchases, the filled row repeats both columns of the row before it. */
  lemma FillAxisGaps(g: Granularity, w: seq<Entry>, rows: seq<PeriodRow>)
    requires Summarises(g, w, rows)
    ensures var s := FillAxis(g, rows);
      forall i, j :: 0 <= i && j == i + 1 && j < |s| && Filter(w, BucketKey(g), s[j].period) == [] ==>
        s[j].total == s[i].total && s[j].cumulative == s[i].cumulative
  {
    if rows != [] {
      var axis := PeriodRange(g, rows[0].period, rows[|rows| - 1].period);
      var s := FillForward(axis, rows, rows[0]);
      FillForwardSpec(axis, rows, rows[0]);
      forall i, j | 0 <= i && j == i + 1 && j < |axis| && Filter(w, BucketKey(g), axis[j]) == []
        ensures s[j].total == s[i].total && s[j].cumulative == s[i].cumulative
      {
        LookupGap(g, w, rows, axis[j]);
      }
    }
  }

  /** The period of an entry is a period with purchases. */
  lemma EntryBought(g: Granularity, w: seq<Entry>, e: Entry)
    requires e in w
    ensures Filter(w, BucketKey(g), PeriodStart(g, e.date)) != []
  {
    var b := PeriodStart(g, e.date);
    FilterMultiset(w, BucketKey(g), b);
    assert multiset(Filter(w, BucketKey(g), b))[e] > 0;
  }

  /**
    The chart's series: empty exactly when there are no entries; otherwise
    its periods run one step apart, increasing, from a period in which
    something was bought to another, and cover the period of every entry.
    The cumulative column at each period is the total `Valor` bought up to
    and including it; at a period with purchases the per-period column is
    their summed `Valor`, and at a period without, both columns repeat the
    row before. The first row's cumulative total is its own period total.
   */
  lemma SeriesSpec(g: Granularity, w: seq<Entry>)
    requires ValidDates(w)
    ensures var s := SeriesOf(g, w);
      && (s == [] <==> w == [])
      && (forall i, j :: 0 <= i && j == i + 1 && j < |s| ==> s[j].period == NextPeriod(g, s[i].period))
      && (forall i, j :: 0 <= i < j < |s| ==> Before(s[i].period, s[j].period))
      && (s != [] ==> Filter(w, BucketKey(g), s[0].period) != [] && Filter(w, BucketKey(g), s[|s| - 1].period) != [])
      && (forall e :: e in w ==> exists i :: 0 <= i < |s| && s[i].period == PeriodStart(g, e.date))
      && (forall i :: 0 <= i < |s| ==> s[i].cumulative == InvestedUpTo(w, g, s[i].period))
      && (forall i :: 0 <= i < |s| && Filter(w, BucketKey(g), s[i].period) != [] ==>
            s[i].total == SumOf(Filter(w, BucketKey(g), s[i].period), ValueOf))
      && (forall i, j :: 0 <= i && j == i + 1 && j < |s| && Filter(w, BucketKey(g), s[j].period) == [] ==>
            s[j].total == s[i].total && s[j].cumulative == s[i].cumulative)
      && (s != [] ==> s[0].cumulative == s[0].total)
  {
    PeriodTotalsSpec(g, w);
    var rows := PeriodTotals(g, w);
    FillAxisShape(g, w, rows);
    FillAxisCovers(g, w, rows);
    FillAxisCumulative(g, w, rows);
    FillAxisTotals(g, w, rows);
    FillAxisGaps(g, w, rows);
    forall e | e in w ensures Filter(w, BucketKey(g), PeriodStart(g, e.date)) != [] {
      EntryBought(g, w, e);
    }
  }

  /** With no negative `Valor` (quantities and prices are never negative), the cumulative column never decreases. */
  lemma SeriesNonDecreasing(g: Granularity, w: seq<Entry>)
    requires ValidDates(w)
    requires forall e :: e in w ==> e.value >= 0.0
    ensures var s := SeriesOf(g, w);
      forall i, j :: 0 <= i <= j < |s| ==> s[i].cumulative <= s[j].cumulative
  {
    var s := SeriesOf(g, w);
    SeriesSpec(g, w);
    forall i, j | 0 <= i <= j < |s| ensures s[i].cumulative <= s[j].cumulative {
      assert i < j ==> Before(s[i].period, s[j].period);
      UpToMonotone(w, g, s[i].period, s[j].period);
    }
  }

  /**
    The chart for a window: empty exactly when nothing was bought in the
    window; otherwise it runs one period at a time over the window's
    purchases, covers the period of each entry in the window, and its
    cumulative column is the total bought in the window up to each period.
   */
  lemma GrowthSeriesSpec(g: Granularity, es: seq<Entry>, start: Date, stop: Date)
    requires ValidDates(es)
    ensures var s := GrowthSeries(g, es, start, stop);
      var w := InWindow(es, start, stop);
      && (forall e :: e in w <==> e in es && NotAfter(start, e.date) && NotAfter(e.date, stop))
      && (s == [] <==> forall e :: e in es ==> !(NotAfter(start, e.date) && NotAfter(e.date, stop)))
      && (forall i, j :: 0 <= i && j == i + 1 && j < |s| ==> s[j].period == NextPeriod(g, s[i].period))
      && (forall e :: e in w ==> exists i :: 0 <= i < |s| && s[i].period == PeriodStart(g, e.date))
      && (forall i :: 0 <= i < |s| ==> s[i].cumulative == InvestedUpTo(w, g, s[i].period))
  {
    var w := InWindow(es, start, stop);
    SeriesSpec(g, w);
    if w != [] {
      assert w[0] in w;
    }
  }

  /**
    Purchases of 100 in January and 50 in March, charted monthly: February
    is filled in, and `ffill` repeats January's row there, the per-period
    `Valor` included, so the bars read 100, 100, 150.
   */
  lemma MonthlyGapExample()
    ensures var jan, mar := Date(2024, 1, 10), Date(2024, 3, 5);
      var w := [Entry("A", 1.0, 100.0, 100.0, jan), Entry("B", 2.0, 25.0, 50.0, mar)];
      SeriesOf(Monthly, w) == [
        PeriodRow(Date(2024, 1, 1), 100.0, 100.0),
        PeriodRow(Date(2024, 2, 1), 100.0, 100.0),
        PeriodRow(Date(2024, 3, 1), 50.0, 150.0)]
  {
    var w := [Entry("A", 1.0, 100.0, 100.0, Date(2024, 1, 10)), Entry("B", 2.0, 25.0, 50.0, Date(2024, 3, 5))];
    var d1, d2, d3 := Date(2024, 1, 1), Date(2024, 2, 1), Date(2024, 3, 1);
    var rows := [PeriodRow(d1, 100.0, 100.0), PeriodRow(d3, 50.0, 150.0)];
    GapExampleTotals();
    GapExampleFill();
    assert PeriodTotals(Monthly, w) == rows;
    assert PeriodRange(Monthly, d1, d3) == [d1, d2, d3];
  }

  lemma GapExampleTotals()
    ensures PeriodTotals(Monthly, [Entry("A", 1.0, 100.0, 100.0, Date(2024, 1, 10)), Entry("B", 2.0, 25.0, 50.0, Date(2024, 3, 5))])
      == [PeriodRow(Date(2024, 1, 1), 100.0, 100.0), PeriodRow(Date(2024, 3, 1), 50.0, 150.0)]
  {
    var a, b := Entry("A", 1.0, 100.0, 100.0, Date(2024, 1, 10)), Entry("B", 2.0, 25.0, 50.0, Date(2024, 3, 5));
    var w := [a, b];
    var key := BucketKey(Monthly);
    assert w[..1] == [a] && [a][..0] == [];
    assert key(a) == Date(2024, 1, 1) && key(b) == Date(2024, 3, 1);
    var g1 := GroupBy([a], key, Before);
    assert GroupBy([a][..0], key, Before) == [];
    assert g1 == Insert([], a, key, Before) == [Group(Date(2024, 1, 1), [a])];
    var gs := GroupBy(w, key, Before);
    assert gs == Insert(g1, b, key, Before);
    assert g1[0].key != key(b) && !Before(key(b), g1[0].key);
    assert Insert(g1[1..], b, key, Before) == [Group(key(b), [b])];
    assert gs == [Group(Date(2024, 1, 1), [a]), Group(Date(2024, 3, 1), [b])];
    assert SumOf([a], ValueOf) == 100.0 by {
      assert [a][..0] == [];
    }
    assert SumOf([b], ValueOf) == 50.0 by {
      assert [b][..0] == [];
      assert ValueOf(b) == 50.0;
    }
  }

  lemma GapExampleFill()
    ensures var rows := [PeriodRow(Date(2024, 1, 1), 100.0, 100.0), PeriodRow(Date(2024, 3, 1), 50.0, 150.0)];
      FillForward([Date(2024, 1, 1), Date(2024, 2, 1), Date(2024, 3, 1)], rows, rows[0]) == [
        PeriodRow(Date(2024, 1, 1), 100.0, 100.0),
        PeriodRow(Date(2024, 2, 1), 100.0, 100.0),
        PeriodRow(Date(2024, 3, 1), 50.0, 150.0)]
  {
    var d1, d2, d3 := Date(2024, 1, 1), Date(2024, 2, 1), Date(2024, 3, 1);
    var rows := [PeriodRow(d1, 100.0, 100.0), PeriodRow(d3, 50.0, 150.0)];
    var axis := [d1, d2, d3];
    assert Lookup(rows, d1) == Some(rows[0]);
    assert Lookup(rows, d2) == None by {
      var rest := rows[1..];
      assert rest == [rows[1]] && rest[1..] == [];
      assert Lookup(rest, d2) == Lookup(rest[1..], d2);
    }
    assert Lookup(rows, d3) == Some(rows[1]);
    var feb1 := PeriodRow(d2, 100.0, 100.0);
    assert FillForward(axis[2..], rows, feb1) == [rows[1]] by {
      assert axis[2..][1..] == [];
    }
    assert FillForward(axis[1..], rows, rows[0]) == [feb1, rows[1]];
  }
}
