/**
  The multi-asset backtest page: a table of daily closing prices is cut to
  a date window and to the selected tickers; each ticker gets a return
  (first to last close of the window), a growth curve relative to its
  earliest close, and a per-year variation; the years of all tickers are
  joined into one table with 0 where a ticker has no price that year.
 */
module Backtest {
  import opened Orders
  import opened Dates
  import opened Tables

  /** One row of the price table: a ticker's closing price on a day. */
  datatype Quote = Quote(ticker: string, date: Date, close: real)

  function DateOf(q: Quote): Date { q.date }

  function TickerOf(q: Quote): string { q.ticker }

  /** `df['Datetime'].dt.year`. */
  function YearOf(q: Quote): int { q.date.year }

  /** Closing prices are positive, so every division by a close is defined. */
  predicate PositiveCloses(qs: seq<Quote>) {
    forall q :: q in qs ==> q.close > 0.0
  }

  /** `(last / first - 1) * 100`: the change from `first` to `last` in percent. */
  function Variation(first: real, last: real): real
    requires first != 0.0
  {
    (last / first - 1.0) * 100.0
  }

  /** A positive price grew exactly when the variation is positive, and stayed put exactly when it is 0. */
  lemma VariationSign(first: real, last: real)
    requires first > 0.0
    ensures Variation(first, last) > 0.0 <==> last > first
    ensures Variation(first, last) == 0.0 <==> last == first
    ensures first * (1.0 + Variation(first, last) / 100.0) == last
  {
    assert last / first * first == last;
  }

  lemma DivideDifference(a: real, b: real, c: real)
    requires c != 0.0
    ensures (a - b) / c == a / c - b / c
  {
  }

  // ---------------------------------------------------------------------
  // Selecting the rows: date window, tickers with data, tickers without.
  // ---------------------------------------------------------------------

  /** The tickers that occur in `qs`. */
  function TickersIn(qs: seq<Quote>): set<string> {
    set q | q in qs :: q.ticker
  }

  /** `set(monitor_tickers).intersection(df_filtered['Ticker'].unique())`. */
  function TickersWithData(monitor: seq<string>, window: seq<Quote>): (r: set<string>)
    ensures forall t :: t in r <==> t in monitor && exists q :: q in window && q.ticker == t
  {
    (set t | t in monitor) * TickersIn(window)
  }

  /** `set(monitor_tickers).symmetric_difference(tickers)`: the selected tickers reported as having no data. */
  function NoData(monitor: seq<string>, window: seq<Quote>): set<string> {
    var selected := set t | t in monitor;
    var tickers := TickersWithData(monitor, window);
    (selected - tickers) + (tickers - selected)
  }

  /**
    The symmetric difference is the plain difference, because every ticker
    with data was selected: the selection splits into the tickers with
    data and the tickers without, and a ticker lacks data exactly when no
    row of the window carries it.
   */
  lemma NoDataSpec(monitor: seq<string>, window: seq<Quote>)
    ensures NoData(monitor, window) == (set t | t in monitor) - TickersIn(window)
    ensures TickersWithData(monitor, window) * NoData(monitor, window) == {}
    ensures TickersWithData(monitor, window) + NoData(monitor, window) == set t | t in monitor
    ensures forall t :: t in NoData(monitor, window) <==>
      t in monitor && forall q :: q in window ==> q.ticker != t
  {
    var selected := set t | t in monitor;
    var tickers := TickersWithData(monitor, window);
    assert tickers - selected == {};
    forall t | t in tickers ensures t in TickersIn(window) {
      var q :| q in window && q.ticker == t;
    }
  }

  /** `df[df['Ticker'].isin(ts)]`: the rows of the given tickers, in their order. */
  function WithTickers(xs: seq<Quote>, ts: set<string>): (r: seq<Quote>)
    ensures forall x {:trigger multiset(r)[x]} :: (multiset(r)[x] ==
      if x.ticker in ts then multiset(xs)[x] else 0)
    ensures forall x :: x in r <==> x in xs && x.ticker in ts
  {
    if xs == [] then []
    else
      var init, x := xs[..|xs| - 1], xs[|xs| - 1];
      assert xs == init + [x];
      WithTickers(init, ts) + (if x.ticker in ts then [x] else [])
  }

  /**
    The rows the page works on: those dated from `start` to `stop` (both
    included) whose ticker is selected and has data in that window.
   */
  function Selection(qs: seq<Quote>, monitor: seq<string>, start: Date, stop: Date): (r: seq<Quote>)
    ensures forall q {:trigger multiset(r)[q]} :: (multiset(r)[q] ==
      if NotAfter(start, q.date) && NotAfter(q.date, stop) && q.ticker in monitor then multiset(qs)[q] else 0)
    ensures forall q :: q in r <==>
      q in qs && NotAfter(start, q.date) && NotAfter(q.date, stop) && q.ticker in monitor
  {
    var window := Between(qs, DateOf, start, stop);
    var tickers := TickersWithData(monitor, window);
    var r := WithTickers(window, tickers);
    assert forall q {:trigger multiset(r)[q]} :: (multiset(r)[q] ==
      if NotAfter(start, q.date) && NotAfter(q.date, stop) && q.ticker in monitor then multiset(qs)[q] else 0) by {
      forall q ensures multiset(r)[q] ==
        if NotAfter(start, q.date) && NotAfter(q.date, stop) && q.ticker in monitor then multiset(qs)[q] else 0
      {
        if multiset(window)[q] > 0 {
          assert q in window;
        }
      }
    }
    r
  }

  /** `isin` keeps, for each listed ticker, all of its rows and in their order. */
  lemma {:induction false} FilterWithTickers(xs: seq<Quote>, ts: set<string>, t: string)
    requires t in ts
    ensures Filter(WithTickers(xs, ts), TickerOf, t) == Filter(xs, TickerOf, t)
  {
    if xs != [] {
      var init, x := xs[..|xs| - 1], xs[|xs| - 1];
      FilterWithTickers(init, ts, t);
      var w := WithTickers(init, ts) + (if x.ticker in ts then [x] else []);
      assert WithTickers(xs, ts) == w;
      FilterConcat(WithTickers(init, ts), if x.ticker in ts then [x] else [], TickerOf, t);
      if x.ticker in ts {
        assert Filter([x], TickerOf, t) == (if x.ticker == t then [x] else []) by {
          assert [x][..0] == [];
        }
      } else {
        assert x.ticker != t;
      }
    }
  }

  /**
    Each selected ticker's rows in the selection are its rows of the date
    window, in the frame's order, and every other ticker has none.
   */
  lemma SelectionFilter(qs: seq<Quote>, monitor: seq<string>, start: Date, stop: Date, t: string)
    ensures Filter(Selection(qs, monitor, start, stop), TickerOf, t) ==
      if t in monitor then Filter(Between(qs, DateOf, start, stop), TickerOf, t) else []
  {
    var window := Between(qs, DateOf, start, stop);
    var tickers := TickersWithData(monitor, window);
    var r := Selection(qs, monitor, start, stop);
    if t in tickers {
      FilterWithTickers(window, tickers, t);
    } else {
      FilterNone(r, TickerOf, t);
      if t in monitor {
        FilterNone(window, TickerOf, t);
      }
    }
  }

  /** The mask picking ticker `t`'s rows dated from `start` to `stop`, both included. */
  function WindowRow(start: Date, stop: Date, t: string): Quote -> bool {
    (q: Quote) => NotAfter(start, q.date) && NotAfter(q.date, stop) && q.ticker == t
  }

  /** A ticker's working rows are its rows of `qs` inside the window, in the order of `qs`. */
  lemma SelectionIsFilter(qs: seq<Quote>, monitor: seq<string>, start: Date, stop: Date, t: string)
    requires t in monitor
    ensures Filter(Selection(qs, monitor, start, stop), TickerOf, t) == Filter(qs, WindowRow(start, stop, t), true)
  {
    var inside := (q: Quote) => NotAfter(start, q.date) && NotAfter(q.date, stop);
    BetweenIsFilter(qs, DateOf, start, stop, inside);
    FilterFilter(qs, inside, TickerOf, t, WindowRow(start, stop, t));
    SelectionFilter(qs, monitor, start, stop, t);
  }

  /**
    So a selected ticker with data has working rows, the first of them is
    its first row of `qs` inside the window and the last its last such row.
   */
  lemma SelectionEnds(qs: seq<Quote>, monitor: seq<string>, start: Date, stop: Date, t: string)
    requires t in TickersWithData(monitor, Between(qs, DateOf, start, stop))
    ensures var f := Filter(Selection(qs, monitor, start, stop), TickerOf, t);
      && f != []
      && (exists i :: FirstWithKey(qs, WindowRow(start, stop, t), true, i) && qs[i] == f[0])
      && (exists i :: LastWithKey(qs, WindowRow(start, stop, t), true, i) && qs[i] == f[|f| - 1])
  {
    SelectionSpec(qs, monitor, start, stop);
    SelectionIsFilter(qs, monitor, start, stop, t);
    FilterFirst(qs, WindowRow(start, stop, t), true);
    FilterLast(qs, WindowRow(start, stop, t), true);
  }

  /**
    The returns-table line of a ticker with data, computed from the working
    rows, starts at the date and close of the ticker's first row of `qs`
    inside the window and ends at the close of its last such row.
   */
  lemma ResultOfSelection(qs: seq<Quote>, monitor: seq<string>, start: Date, stop: Date, t: string, investment: real)
    requires PositiveCloses(qs)
    requires t in TickersWithData(monitor, Between(qs, DateOf, start, stop))
    ensures var f := Filter(Selection(qs, monitor, start, stop), TickerOf, t);
      && f != []
      && var r := ResultOf(Selection(qs, monitor, start, stop), t, investment);
         && (exists i :: FirstWithKey(qs, WindowRow(start, stop, t), true, i)
               && r.initialDate == qs[i].date && r.initialPrice == qs[i].close)
         && (exists i :: LastWithKey(qs, WindowRow(start, stop, t), true, i) && r.finalPrice == qs[i].close)
         && r.profitPct == Variation(r.initialPrice, r.finalPrice)
  {
    var sel := Selection(qs, monitor, start, stop);
    SelectionEnds(qs, monitor, start, stop, t);
    var f := Filter(sel, TickerOf, t);
    assert f[0] in f;
    TickerReturnSpec(t, f, investment);
  }

  /**
    The selection is empty exactly when no selected ticker has data in the
    window (the page then shows its "no values found" notice), and each
    ticker with data keeps at least one row, so each has a first and a last price.
   */
  lemma SelectionSpec(qs: seq<Quote>, monitor: seq<string>, start: Date, stop: Date)
    ensures var window := Between(qs, DateOf, start, stop);
      && (Selection(qs, monitor, start, stop) == [] <==> TickersWithData(monitor, window) == {})
      && forall t :: t in TickersWithData(monitor, window) ==>
           Filter(Selection(qs, monitor, start, stop), TickerOf, t) != []
  {
    var window := Between(qs, DateOf, start, stop);
    var r := Selection(qs, monitor, start, stop);
    forall t | t in TickersWithData(monitor, window)
      ensures Filter(r, TickerOf, t) != []
    {
      var q :| q in window && q.ticker == t;
      FilterMembers(r, TickerOf, t);
      assert q in Filter(r, TickerOf, t);
    }
    if r != [] {
      assert r[0].ticker in TickersWithData(monitor, window);
    }
  }

  // ---------------------------------------------------------------------
  // The returns table.
  // ---------------------------------------------------------------------

  /** One line of the returns table. */
  datatype TickerResult = TickerResult(
    ticker: string, initialDate: Date, initialPrice: real, finalPrice: real,
    profit: real, profitPct: real)

  /** The return of one ticker over its rows, first row to last row, on `investment`. */
  function TickerReturn(t: string, rows: seq<Quote>, investment: real): TickerResult
    requires rows != [] && rows[0].close > 0.0
  {
    var initial, final := rows[0].close, rows[|rows| - 1].close;
    TickerResult(t, rows[0].date, initial, final,
      (final - initial) / initial * investment, (final - initial) / initial * 100.0)
  }

  /**
    A line reports the ticker, the date and close of its first row and the
    close of its last row; the return in percent is the variation of the
    price, and the gain is that percentage of the investment.
   */
  lemma TickerReturnSpec(t: string, rows: seq<Quote>, investment: real)
    requires rows != [] && rows[0].close > 0.0
    ensures var r := TickerReturn(t, rows, investment);
      && r.ticker == t && r.initialDate == rows[0].date
      && r.initialPrice == rows[0].close && r.finalPrice == rows[|rows| - 1].close
      && r.profitPct == Variation(r.initialPrice, r.finalPrice)
      && r.profit == r.profitPct * investment / 100.0
  {
    DivideDifference(rows[|rows| - 1].close, rows[0].close, rows[0].close);
  }

  /** The line of ticker `t`: the return over its rows in `qs`. */
  function ResultOf(qs: seq<Quote>, t: string, investment: real): TickerResult
    requires PositiveCloses(qs) && Filter(qs, TickerOf, t) != []
  {
    var rows := Filter(qs, TickerOf, t);
    assert rows[0] in rows;
    TickerReturn(t, rows, investment)
  }

  /** Each line is the return of a ticker of `done`. */
  ghost predicate LinesOf(qs: seq<Quote>, investment: real, results: seq<TickerResult>, done: set<string>) {
    && PositiveCloses(qs)
    && forall i :: 0 <= i < |results| ==>
         && results[i].ticker in done
         && Filter(qs, TickerOf, results[i].ticker) != []
         && results[i] == ResultOf(qs, results[i].ticker, investment)
  }

  /** No ticker has two lines. */
  predicate DistinctTickers(results: seq<TickerResult>) {
    forall i, j :: 0 <= i < j < |results| ==> results[i].ticker != results[j].ticker
  }

  /** Every ticker of `done` has a line. */
  ghost predicate Covers(results: seq<TickerResult>, done: set<string>) {
    forall t :: t in done ==> exists i :: 0 <= i < |results| && results[i].ticker == t
  }

  lemma LinesOfStep(qs: seq<Quote>, investment: real, results: seq<TickerResult>, done: set<string>, t: string)
    requires LinesOf(qs, investment, results, done) && Filter(qs, TickerOf, t) != []
    ensures LinesOf(qs, investment, results + [ResultOf(qs, t, investment)], done + {t})
  {
    var after := results + [ResultOf(qs, t, investment)];
    forall i | 0 <= i < |after|
      ensures after[i].ticker in done + {t} && Filter(qs, TickerOf, after[i].ticker) != []
      ensures after[i] == ResultOf(qs, after[i].ticker, investment)
    {
      if i < |results| {
        assert after[i] == results[i];
      }
    }
  }

  lemma DistinctStep(results: seq<TickerResult>, done: set<string>, line: TickerResult)
    requires DistinctTickers(results) && forall i :: 0 <= i < |results| ==> results[i].ticker in done
    requires line.ticker !in done
    ensures DistinctTickers(results + [line])
  {
    var after := results + [line];
    forall i, j | 0 <= i < j < |after| ensures after[i].ticker != after[j].ticker {
      assert after[i] == results[i];
      if j < |results| {
        assert after[j] == results[j];
      }
    }
  }

  lemma CoversStep(results: seq<TickerResult>, done: set<string>, line: TickerResult)
    requires Covers(results, done)
    ensures Covers(results + [line], done + {line.ticker})
  {
    var after := results + [line];
    forall u | u in done + {line.ticker} ensures exists i :: 0 <= i < |after| && after[i].ticker == u {
      if u == line.ticker {
        assert after[|results|].ticker == u;
      } else {
        var i :| 0 <= i < |results| && results[i].ticker == u;
        assert after[i].ticker == u;
      }
    }
  }

  /** Distinct lines, one for each ticker of `done` and no other, are as many as the tickers. */
  lemma {:induction false} CountLines(results: seq<TickerResult>, done: set<string>)
    requires DistinctTickers(results) && Covers(results, done)
    requires forall i :: 0 <= i < |results| ==> results[i].ticker in done
    ensures |results| == |done|
  {
    if results != [] {
      var init, last := results[..|results| - 1], results[|results| - 1];
      var rest := done - {last.ticker};
      assert DistinctTickers(init) by {
        forall i, j | 0 <= i < j < |init| ensures init[i].ticker != init[j].ticker {
          assert init[i] == results[i] && init[j] == results[j];
        }
      }
      forall i | 0 <= i < |init| ensures init[i].ticker in rest {
        assert init[i] == results[i];
      }
      forall u | u in rest ensures exists i :: 0 <= i < |init| && init[i].ticker == u {
        var i :| 0 <= i < |results| && results[i].ticker == u;
        assert init[i] == results[i];
      }
      CountLines(init, rest);
    }
  }

  /**
    The loop over the tickers with data: one line per ticker, each the
    return over that ticker's rows, in whatever order the set is visited.
   */
  method ReturnsTable(qs: seq<Quote>, tickers: set<string>, investment: real) returns (results: seq<TickerResult>)
    requires PositiveCloses(qs)
    requires forall t :: t in tickers ==> Filter(qs, TickerOf, t) != []
    ensures |results| == |tickers|
    ensures LinesOf(qs, investment, results, tickers)
    ensures DistinctTickers(results) && Covers(results, tickers)
  {
    results := [];
    var remaining := tickers;
    ghost var done: set<string> := {};
    while remaining != {}
      invariant remaining !! done && remaining + done == tickers
      invariant LinesOf(qs, investment, results, done)
      invariant DistinctTickers(results) && Covers(results, done)
      decreases remaining
    {
      var ticker :| ticker in remaining;
      var line := ResultOf(qs, ticker, investment);
      LinesOfStep(qs, investment, results, done, ticker);
      DistinctStep(results, done, line);
      CoversStep(results, done, line);
      results := results + [line];
      remaining := remaining - {ticker};
      done := done + {ticker};
    }
    CountLines(results, tickers);
  }

  // ---------------------------------------------------------------------
  // The growth curve of one ticker.
  // ---------------------------------------------------------------------

  predicate SortedByDate(qs: seq<Quote>) {
    forall i, j :: 0 <= i < j < |qs| ==> NotAfter(qs[i].date, qs[j].date)
  }

  /** Puts `q` into `s` just before the first row strictly later than it. */
  function InsertByDate(s: seq<Quote>, q: Quote): (r: seq<Quote>)
    ensures |r| == |s| + 1
  {
    if s == [] then [q]
    else if Before(q.date, s[0].date) then [q] + s
    else [s[0]] + InsertByDate(s[1..], q)
  }

  lemma {:induction false} InsertByDateMultiset(s: seq<Quote>, q: Quote)
    ensures multiset(InsertByDate(s, q)) == multiset(s) + multiset{q}
  {
    if s != [] && !Before(q.date, s[0].date) {
      InsertByDateMultiset(s[1..], q);
      assert s == [s[0]] + s[1..];
    }
  }

  /** `sort_values(by="Datetime")`, taken as stable: the rows by date, rows of equal date in their order. */
  function SortByDate(xs: seq<Quote>): (r: seq<Quote>)
    ensures |r| == |xs|
  {
    if xs == [] then []
    else InsertByDate(SortByDate(xs[..|xs| - 1]), xs[|xs| - 1])
  }

  /** Inserting a row no earlier than `d` into rows no earlier than `d` gives rows no earlier than `d`. */
  lemma {:induction false} InsertByDateFloor(s: seq<Quote>, q: Quote, d: Date)
    requires forall i :: 0 <= i < |s| ==> NotAfter(d, s[i].date)
    requires NotAfter(d, q.date)
    ensures forall i :: 0 <= i < |s| + 1 ==> NotAfter(d, InsertByDate(s, q)[i].date)
  {
    var r := InsertByDate(s, q);
    if s != [] && !Before(q.date, s[0].date) {
      var rest := s[1..];
      assert forall i :: 0 <= i < |rest| ==> rest[i] == s[i + 1];
      InsertByDateFloor(rest, q, d);
      assert forall i :: 0 < i < |r| ==> r[i] == InsertByDate(rest, q)[i - 1];
    } else if s != [] {
      assert forall i :: 0 < i < |r| ==> r[i] == s[i - 1];
    }
  }

  lemma {:induction false} InsertByDateSorted(s: seq<Quote>, q: Quote)
    requires SortedByDate(s)
    ensures SortedByDate(InsertByDate(s, q))
  {
    var r := InsertByDate(s, q);
    if s == [] {
    } else if Before(q.date, s[0].date) {
      forall i, j | 0 <= i < j < |r| ensures NotAfter(r[i].date, r[j].date) {
        assert r[j] == s[j - 1];
        if i > 0 {
          assert r[i] == s[i - 1];
        } else if j > 1 {
          assert NotAfter(s[0].date, s[j - 1].date);
        }
      }
    } else {
      var rest := s[1..];
      assert forall i :: 0 <= i < |rest| ==> rest[i] == s[i + 1];
      InsertByDateSorted(rest, q);
      InsertByDateFloor(rest, q, s[0].date);
      var t := InsertByDate(rest, q);
      assert forall i :: 0 < i < |r| ==> r[i] == t[i - 1];
    }
  }

  /** The sorted rows are ordered by date and are the same rows, each as often. */
  lemma {:induction false} SortByDateSpec(xs: seq<Quote>)
    ensures SortedByDate(SortByDate(xs))
    ensures multiset(SortByDate(xs)) == multiset(xs) && |SortByDate(xs)| == |xs|
  {
    if xs != [] {
      SortByDateSpec(xs[..|xs| - 1]);
      InsertByDateSorted(SortByDate(xs[..|xs| - 1]), xs[|xs| - 1]);
      InsertByDateMultiset(SortByDate(xs[..|xs| - 1]), xs[|xs| - 1]);
      assert xs == xs[..|xs| - 1] + [xs[|xs| - 1]];
    }
  }

  /** A row no earlier than all rows of `s` goes to the end. */
  lemma {:induction false} InsertAtEnd(s: seq<Quote>, q: Quote)
    requires forall i :: 0 <= i < |s| ==> NotAfter(s[i].date, q.date)
    ensures InsertByDate(s, q) == s + [q]
  {
    if s != [] {
      var rest := s[1..];
      assert forall i :: 0 <= i < |rest| ==> rest[i] == s[i + 1];
      InsertAtEnd(rest, q);
      assert s == [s[0]] + rest;
    }
  }

  /** Rows already in date order are left as they are: the sort moves no row it need not move. */
  lemma {:induction false} SortedUnchanged(xs: seq<Quote>)
    requires SortedByDate(xs)
    ensures SortByDate(xs) == xs
  {
    if xs != [] {
      var init, last := xs[..|xs| - 1], xs[|xs| - 1];
      assert SortedByDate(init) by {
        forall i, j | 0 <= i < j < |init| ensures NotAfter(init[i].date, init[j].date) {
          assert init[i] == xs[i] && init[j] == xs[j];
        }
      }
      forall i | 0 <= i < |init| ensures NotAfter(init[i].date, last.date) {
        assert init[i] == xs[i];
      }
      SortedUnchanged(init);
      InsertAtEnd(init, last);
      assert xs[..|xs| - 1] == init;
      assert SortByDate(xs) == InsertByDate(SortByDate(init), last);
      assert xs == init + [last];
    }
  }

  /** Sorting brings in no row that was not there. */
  lemma SortByDateMembers(xs: seq<Quote>)
    ensures forall i :: 0 <= i < |SortByDate(xs)| ==> SortByDate(xs)[i] in xs
  {
    var s := SortByDate(xs);
    SortByDateSpec(xs);
    forall i | 0 <= i < |s| ensures s[i] in xs {
      assert s[i] in multiset(xs);
    }
  }

  /** The first row after sorting is no later than any row. */
  lemma SortByDateEarliest(xs: seq<Quote>)
    requires xs != []
    ensures SortByDate(xs)[0] in xs
    ensures forall x :: x in xs ==> NotAfter(SortByDate(xs)[0].date, x.date)
  {
    var s := SortByDate(xs);
    SortByDateSpec(xs);
    assert s[0] in multiset(xs);
    forall x | x in xs ensures NotAfter(s[0].date, x.date) {
      assert x in multiset(s);
      var k :| 0 <= k < |s| && s[k] == x;
      if k > 0 {
        assert NotAfter(s[0].date, s[k].date);
      }
    }
  }

  /** One point of the growth chart: a row and its `Percentual_Crescimento`. */
  datatype GrowthPoint = GrowthPoint(quote: Quote, pct: real)

  /**
    `calcular_variacao_percentual`: the rows by date, each with the
    variation of its close against the close of the earliest row.
   */
  function PercentGrowth(rows: seq<Quote>): seq<GrowthPoint>
    requires rows != [] && PositiveCloses(rows)
  {
    var s := SortByDate(rows);
    SortByDateMembers(rows);
    seq(|s|, i requires 0 <= i < |s| => GrowthPoint(s[i], Variation(s[0].close, s[i].close)))
  }

  /**
    The growth curve has one point per row, the rows in date order
    (`SortByDateSpec` says what that order is); it starts at 0 percent, and
    each point is the variation of its close against the first close,
    above 0 exactly where the price is higher than at the start.
   */
  lemma PercentGrowthSpec(rows: seq<Quote>)
    requires rows != [] && PositiveCloses(rows)
    ensures var p := PercentGrowth(rows);
      && |p| == |rows|
      && (forall i :: 0 <= i < |p| ==> p[i].quote == SortByDate(rows)[i])
      && p[0].quote.close > 0.0
      && p[0].pct == 0.0
      && forall i :: 0 <= i < |p| ==>
           && p[i].pct == Variation(p[0].quote.close, p[i].quote.close)
           && (p[i].pct > 0.0 <==> p[i].quote.close > p[0].quote.close)
  {
    var p := PercentGrowth(rows);
    var s := SortByDate(rows);
    SortByDateMembers(rows);
    VariationSign(s[0].close, s[0].close);
    forall i | 0 <= i < |p| ensures p[i].pct > 0.0 <==> p[i].quote.close > p[0].quote.close {
      VariationSign(s[0].close, s[i].close);
    }
  }

  /** Three days with closes 10, 12 and 9 grow by 0, 20 and -10 percent. */
  lemma PercentGrowthExample()
    ensures var rows := [Quote("A", Date(2024, 1, 2), 10.0), Quote("A", Date(2024, 1, 3), 12.0),
                         Quote("A", Date(2024, 1, 4), 9.0)];
      var p := PercentGrowth(rows);
      |p| == 3 && p[0].pct == 0.0 && p[1].pct == 20.0 && p[2].pct == -10.0
  {
    var a, b, c := Quote("A", Date(2024, 1, 2), 10.0), Quote("A", Date(2024, 1, 3), 12.0),
                   Quote("A", Date(2024, 1, 4), 9.0);
    var rows := [a, b, c];
    SortedUnchanged(rows);
  }

  /**
    `pd.concat([calcular_variacao_percentual(df[df['Ticker'] == t]) for t in order])`:
    each ticker's growth curve, one after the other.
   */
  function GrowthChart(qs: seq<Quote>, order: seq<string>): (r: seq<GrowthPoint>)
    requires PositiveCloses(qs)
    requires forall t :: t in order ==> Filter(qs, TickerOf, t) != []
    ensures forall p :: p in r ==> p.quote in qs && p.quote.ticker in order
  {
    if order == [] then []
    else
      var rows := Filter(qs, TickerOf, order[0]);
      var head := PercentGrowth(rows);
      PercentGrowthSpec(rows);
      SortByDateMembers(rows);
      head + GrowthChart(qs, order[1..])
  }

  /** Every row of a charted ticker is a point of the chart. */
  lemma {:induction false} GrowthChartCovers(qs: seq<Quote>, order: seq<string>)
    requires PositiveCloses(qs)
    requires forall t :: t in order ==> Filter(qs, TickerOf, t) != []
    ensures forall q :: q in qs && q.ticker in order ==>
      exists p :: p in GrowthChart(qs, order) && p.quote == q
  {
    if order != [] {
      var rows := Filter(qs, TickerOf, order[0]);
      var head := PercentGrowth(rows);
      var r := GrowthChart(qs, order);
      GrowthChartCovers(qs, order[1..]);
      assert r == head + GrowthChart(qs, order[1..]);
      FilterMembers(qs, TickerOf, order[0]);
      SortByDateSpec(rows);
      PercentGrowthSpec(rows);
      forall q | q in qs && q.ticker in order ensures exists p :: p in r && p.quote == q {
        if q.ticker == order[0] {
          var s := SortByDate(rows);
          assert q in rows;
          assert q in multiset(s);
          var i :| 0 <= i < |s| && s[i] == q;
          assert head[i] in r;
        } else {
          assert q.ticker in order[1..];
        }
      }
    }
  }

  function PointTicker(p: GrowthPoint): string { p.quote.ticker }

  /** No ticker is listed twice, as in the set the page iterates over. */
  predicate NoRepeats(order: seq<string>) {
    forall i, j :: 0 <= i < j < |order| ==> order[i] != order[j]
  }

  /** The points of one ticker's growth curve all carry that ticker. */
  lemma PercentGrowthTicker(qs: seq<Quote>, t: string)
    requires PositiveCloses(qs) && Filter(qs, TickerOf, t) != []
    ensures forall p :: p in PercentGrowth(Filter(qs, TickerOf, t)) ==> p.quote.ticker == t
  {
    var rows := Filter(qs, TickerOf, t);
    PercentGrowthSpec(rows);
    SortByDateMembers(rows);
  }

  /** Every point of the chart is a point of its own ticker's growth curve. */
  lemma {:induction false} GrowthChartPoints(qs: seq<Quote>, order: seq<string>)
    requires PositiveCloses(qs)
    requires forall t :: t in order ==> Filter(qs, TickerOf, t) != []
    ensures forall p :: p in GrowthChart(qs, order) ==>
      p in PercentGrowth(Filter(qs, TickerOf, p.quote.ticker))
  {
    if order != [] {
      var head := PercentGrowth(Filter(qs, TickerOf, order[0]));
      assert GrowthChart(qs, order) == head + GrowthChart(qs, order[1..]);
      GrowthChartPoints(qs, order[1..]);
      PercentGrowthTicker(qs, order[0]);
    }
  }

  /**
    With each ticker listed once, the chart's points of ticker `t` are
    exactly `t`'s growth curve, in date order, and a ticker not listed has
    no points: the chart draws one line per ticker, holding all its rows.
   */
  lemma {:induction false} GrowthChartTicker(qs: seq<Quote>, order: seq<string>, t: string)
    requires PositiveCloses(qs)
    requires forall t :: t in order ==> Filter(qs, TickerOf, t) != []
    requires NoRepeats(order)
    ensures Filter(GrowthChart(qs, order), PointTicker, t) ==
      if t in order then PercentGrowth(Filter(qs, TickerOf, t)) else []
  {
    var r := GrowthChart(qs, order);
    if t !in order {
      FilterNone(r, PointTicker, t);
    } else {
      var head := PercentGrowth(Filter(qs, TickerOf, order[0]));
      var rest := GrowthChart(qs, order[1..]);
      assert r == head + rest;
      FilterConcat(head, rest, PointTicker, t);
      PercentGrowthTicker(qs, order[0]);
      if t == order[0] {
        FilterAll(head, PointTicker, t);
        assert t !in order[1..];
        FilterNone(rest, PointTicker, t);
        assert head + [] == head;
      } else {
        FilterNone(head, PointTicker, t);
        assert t in order[1..];
        GrowthChartTicker(qs, order[1..], t);
        assert [] + Filter(rest, PointTicker, t) == Filter(rest, PointTicker, t);
      }
    }
  }

  // ---------------------------------------------------------------------
  // Variation per year, and the year table of all tickers.
  // ---------------------------------------------------------------------

  /** One row of `calcular_variacao_anual`: a year and its `Percentual_Variacao`. */
  datatype YearChange = YearChange(year: int, pct: real)

  /**
    `calcular_variacao_anual`: group the rows by year (years ascending) and
    take the variation from the year's first close to its last, in row order.
   */
  function YearlyVariation(rows: seq<Quote>): seq<YearChange>
    requires PositiveCloses(rows)
  {
    var gs := GroupBy(rows, YearOf, IntLess);
    IntLessIsStrictTotalOrder();
    GroupsAreFilters(rows, YearOf, IntLess);
    seq(|gs|, i requires 0 <= i < |gs| =>
      YearChange(gs[i].key, Variation(gs[i].members[0].close, gs[i].members[|gs[i].members| - 1].close)))
  }

  /** `df[df['Year'] == y]`: the rows of one year. */
  function RowsOfYear(rows: seq<Quote>, y: int): seq<Quote> {
    Filter(rows, YearOf, y)
  }

  /** One line per year that has rows, each year once, years ascending. */
  lemma YearlyVariationYears(rows: seq<Quote>)
    requires PositiveCloses(rows)
    ensures var r := YearlyVariation(rows);
      && (forall i, j :: 0 <= i < j < |r| ==> r[i].year < r[j].year)
      && (forall y :: (exists i :: 0 <= i < |r| && r[i].year == y) <==> RowsOfYear(rows, y) != [])
  {
    var r := YearlyVariation(rows);
    var gs := GroupBy(rows, YearOf, IntLess);
    IntLessIsStrictTotalOrder();
    GroupsAreFilters(rows, YearOf, IntLess);
    forall y | RowsOfYear(rows, y) != [] ensures exists i :: 0 <= i < |r| && r[i].year == y {
      var i :| 0 <= i < |gs| && gs[i].key == y;
      assert r[i].year == y;
    }
  }

  /**
    The line of a year holds the variation from that year's first close to
    its last, in row order, which is 0 when the year has a single observation.
   */
  lemma YearlyVariationValues(rows: seq<Quote>)
    requires PositiveCloses(rows)
    ensures var r := YearlyVariation(rows);
      forall i :: 0 <= i < |r| ==>
        var f := RowsOfYear(rows, r[i].year);
        && f != [] && f[0].close > 0.0
        && r[i].pct == Variation(f[0].close, f[|f| - 1].close)
        && (|f| == 1 ==> r[i].pct == 0.0)
  {
    var r := YearlyVariation(rows);
    IntLessIsStrictTotalOrder();
    GroupsAreFilters(rows, YearOf, IntLess);
    forall i | 0 <= i < |r| ensures |RowsOfYear(rows, r[i].year)| == 1 ==> r[i].pct == 0.0 {
      var f := RowsOfYear(rows, r[i].year);
      if |f| == 1 {
        VariationSign(f[0].close, f[0].close);
      }
    }
  }

  /** The variation of year `y` in a per-year table, or 0 when the table has no line for it (`fillna(0)`). */
  function Cell(vs: seq<YearChange>, y: int): real {
    if vs == [] then 0.0
    else if vs[0].year == y then vs[0].pct
    else Cell(vs[1..], y)
  }

  lemma {:induction false} CellSpec(vs: seq<YearChange>, y: int)
    requires forall i, j :: 0 <= i < j < |vs| ==> vs[i].year < vs[j].year
    ensures (forall i :: 0 <= i < |vs| ==> vs[i].year != y) ==> Cell(vs, y) == 0.0
    ensures forall i :: 0 <= i < |vs| && vs[i].year == y ==> Cell(vs, y) == vs[i].pct
  {
    if vs != [] && vs[0].year != y {
      var rest := vs[1..];
      assert forall i, j :: 0 <= i < j < |rest| ==> rest[i].year < rest[j].year by {
        forall i, j | 0 <= i < j < |rest| ensures rest[i].year < rest[j].year {
          assert rest[i] == vs[i + 1] && rest[j] == vs[j + 1];
        }
      }
      CellSpec(rest, y);
      forall i | 0 < i < |vs| ensures vs[i] == rest[i - 1] {
      }
    } else if vs != [] {
      forall i | 0 < i < |vs| ensures vs[i].year != y {
        assert vs[0].year < vs[i].year;
      }
    }
  }

  /** A line of the year table: a year and one cell per selected ticker, in selection order. */
  datatype YearRow = YearRow(year: int, cells: seq<real>)

  function KeysOf(gs: seq<Group<int, Quote>>): seq<int> {
    seq(|gs|, i requires 0 <= i < |gs| => gs[i].key)
  }

  /**
    `pd.concat([... for ticker in monitor_tickers], axis=1).fillna(0)`, with
    its index sorted descending: the union of the years of all selected
    tickers, newest first, and for each ticker its variation of that year or 0.
   */
  function YearTable(rows: seq<Quote>, monitor: seq<string>): seq<YearRow>
    requires PositiveCloses(rows)
  {
    YearLines(KeysOf(GroupBy(WithTickers(rows, set t | t in monitor), YearOf, IntGreater)), rows, monitor)
  }

  /** One line per year of `years`, with the cell of each selected ticker. */
  function YearLines(years: seq<int>, rows: seq<Quote>, monitor: seq<string>): seq<YearRow>
    requires PositiveCloses(rows)
  {
    seq(|years|, i requires 0 <= i < |years| =>
      YearRow(years[i], seq(|monitor|, c requires 0 <= c < |monitor| =>
        Cell(YearlyVariation(Filter(rows, TickerOf, monitor[c])), years[i]))))
  }

  /** The rows of ticker `t` in year `y`. */
  function TickerYear(rows: seq<Quote>, t: string, y: int): seq<Quote> {
    RowsOfYear(Filter(rows, TickerOf, t), y)
  }

  /**
    The cell of ticker `t` and year `y`: 0 where the ticker has no row in
    that year, otherwise the variation from its first to its last close of the year.
   */
  lemma YearCell(rows: seq<Quote>, t: string, y: int)
    requires PositiveCloses(rows)
    ensures var f := TickerYear(rows, t, y);
      var v := Cell(YearlyVariation(Filter(rows, TickerOf, t)), y);
      && (f == [] ==> v == 0.0)
      && (f != [] ==> f[0].close > 0.0 && v == Variation(f[0].close, f[|f| - 1].close))
  {
    var own := Filter(rows, TickerOf, t);
    var vs := YearlyVariation(own);
    YearlyVariationYears(own);
    YearlyVariationValues(own);
    CellSpec(vs, y);
    if RowsOfYear(own, y) != [] {
      var k :| 0 <= k < |vs| && vs[k].year == y;
    }
  }

  /** The year table has a line for `y`. */
  predicate Listed(t: seq<YearRow>, y: int) {
    exists i :: 0 <= i < |t| && t[i].year == y
  }

  /** Some selected ticker has a row in year `y`. */
  predicate Observed(rows: seq<Quote>, monitor: seq<string>, y: int) {
    exists c :: 0 <= c < |monitor| && TickerYear(rows, monitor[c], y) != []
  }

  /** A row of the selected tickers in year `y` is a row of one of them in that year. */
  lemma SelectedYearObserved(rows: seq<Quote>, monitor: seq<string>, y: int)
    requires RowsOfYear(WithTickers(rows, set c | c in monitor), y) != []
    ensures Observed(rows, monitor, y)
  {
    var w := WithTickers(rows, set c | c in monitor);
    var q := Filter(w, YearOf, y)[0];
    assert q in w && YearOf(q) == y;
    var c :| 0 <= c < |monitor| && monitor[c] == q.ticker;
    FilterMembers(rows, TickerOf, q.ticker);
    FilterMembers(Filter(rows, TickerOf, q.ticker), YearOf, y);
    assert q in Filter(Filter(rows, TickerOf, q.ticker), YearOf, y);
  }

  /** A row of one selected ticker in year `y` is a row of the selected tickers in that year. */
  lemma ObservedSelectedYear(rows: seq<Quote>, monitor: seq<string>, y: int)
    requires Observed(rows, monitor, y)
    ensures RowsOfYear(WithTickers(rows, set c | c in monitor), y) != []
  {
    var w := WithTickers(rows, set c | c in monitor);
    var c :| 0 <= c < |monitor| && TickerYear(rows, monitor[c], y) != [];
    var own := Filter(rows, TickerOf, monitor[c]);
    var q := Filter(own, YearOf, y)[0];
    assert q in own && YearOf(q) == y;
    assert q in rows && q.ticker == monitor[c];
    assert q.ticker in (set c | c in monitor);
    assert q in w;
    FilterMembers(w, YearOf, y);
    assert q in Filter(w, YearOf, y);
  }

  /**
    The year table lists the years in which some selected ticker has rows
    (the outer join of the per-ticker year indexes), each once, newest first.
   */
  lemma YearTableYears(rows: seq<Quote>, monitor: seq<string>)
    requires PositiveCloses(rows)
    ensures var t := YearTable(rows, monitor);
      && (forall i, j :: 0 <= i < j < |t| ==> t[i].year > t[j].year)
      && forall y :: Listed(t, y) <==> Observed(rows, monitor, y)
  {
    var t := YearTable(rows, monitor);
    var w := WithTickers(rows, set c | c in monitor);
    var gs := GroupBy(w, YearOf, IntGreater);
    IntGreaterIsStrictTotalOrder();
    GroupsAreFilters(w, YearOf, IntGreater);
    assert forall i :: 0 <= i < |t| ==> t[i].year == gs[i].key;
    forall y ensures Listed(t, y) <==> Observed(rows, monitor, y) {
      if Observed(rows, monitor, y) {
        ObservedSelectedYear(rows, monitor, y);
      }
      if RowsOfYear(w, y) != [] {
        SelectedYearObserved(rows, monitor, y);
        var i :| 0 <= i < |gs| && gs[i].key == y;
        assert t[i].year == y;
      }
    }
  }

  /**
    Each line of `t` has one cell per selected ticker, in selection order,
    and the cell is that ticker's variation in that year, or 0 (`fillna(0)`)
    where the ticker has no row in that year.
   */
  predicate CellsAgree(rows: seq<Quote>, monitor: seq<string>, t: seq<YearRow>) {
    forall i, c :: 0 <= i < |t| && 0 <= c < |monitor| ==>
      var f := TickerYear(rows, monitor[c], t[i].year);
      && |t[i].cells| == |monitor|
      && (f == [] ==> t[i].cells[c] == 0.0)
      && (f != [] ==> f[0].close > 0.0 && t[i].cells[c] == Variation(f[0].close, f[|f| - 1].close))
  }

  /** The cells of the year table are the per-ticker yearly variations, 0 where a ticker has no row. */
  lemma YearTableCells(rows: seq<Quote>, monitor: seq<string>)
    requires PositiveCloses(rows)
    ensures CellsAgree(rows, monitor, YearTable(rows, monitor))
  {
    var years := KeysOf(GroupBy(WithTickers(rows, set t | t in monitor), YearOf, IntGreater));
    YearLinesCells(years, rows, monitor);
  }

  lemma YearLinesCells(years: seq<int>, rows: seq<Quote>, monitor: seq<string>)
    requires PositiveCloses(rows)
    ensures CellsAgree(rows, monitor, YearLines(years, rows, monitor))
  {
    var t := YearLines(years, rows, monitor);
    forall i, c | 0 <= i < |t| && 0 <= c < |monitor|
      ensures var f := TickerYear(rows, monitor[c], t[i].year);
        && (f == [] ==> t[i].cells[c] == 0.0)
        && (f != [] ==> f[0].close > 0.0 && t[i].cells[c] == Variation(f[0].close, f[|f| - 1].close))
    {
      YearCell(rows, monitor[c], t[i].year);
    }
  }
}
