/**
  The table operations the pages apply to their data frames, on sequences
  of rows: a boolean-mask date filter, `df[df[col] == k]`, a column `sum`,
  and `groupby(col)`, which yields one group per distinct key, keys in
  ascending order, each group keeping its rows in their original order.
 */
module Tables {
  import opened Orders
  import opened Dates

  /** `df[(df[date] >= lo) & (df[date] <= hi)]`: the rows dated from `lo` to `hi`, both included, in their order. */
  function Between<T(!new)>(xs: seq<T>, dateOf: T -> Date, lo: Date, hi: Date): (r: seq<T>)
    ensures forall x {:trigger multiset(r)[x]} :: (multiset(r)[x] ==
      if NotAfter(lo, dateOf(x)) && NotAfter(dateOf(x), hi) then multiset(xs)[x] else 0)
    ensures forall x :: x in r <==> x in xs && NotAfter(lo, dateOf(x)) && NotAfter(dateOf(x), hi)
  {
    if xs == [] then []
    else
      var init, x := xs[..|xs| - 1], xs[|xs| - 1];
      assert xs == init + [x];
      var keep := NotAfter(lo, dateOf(x)) && NotAfter(dateOf(x), hi);
      Between(init, dateOf, lo, hi) + (if keep then [x] else [])
  }

  /** `df[df[col] == k]`: the rows whose key is `k`, in their order. */
  function Filter<T, K(==)>(xs: seq<T>, key: T -> K, k: K): (r: seq<T>)
    ensures |r| <= |xs|
    ensures forall x :: x in r ==> x in xs && key(x) == k
  {
    if xs == [] then []
    else
      var x := xs[|xs| - 1];
      Filter(xs[..|xs| - 1], key, k) + (if key(x) == k then [x] else [])
  }

  /** Filtering keeps every row with key `k` as often as it occurs, and no other row. */
  lemma {:induction false} FilterMultiset<T, K>(xs: seq<T>, key: T -> K, k: K)
    ensures forall x {:trigger multiset(Filter(xs, key, k))[x]} ::
      (multiset(Filter(xs, key, k))[x] == if key(x) == k then multiset(xs)[x] else 0)
  {
    if xs != [] {
      var init, x := xs[..|xs| - 1], xs[|xs| - 1];
      assert xs == init + [x];
      FilterMultiset(init, key, k);
    }
  }

  lemma FilterPermutation<T, K>(xs: seq<T>, ys: seq<T>, key: T -> K, k: K)
    requires multiset(xs) == multiset(ys)
    ensures multiset(Filter(xs, key, k)) == multiset(Filter(ys, key, k))
  {
    FilterMultiset(xs, key, k);
    FilterMultiset(ys, key, k);
  }

  /** `df[col].sum()` for the column that `f` reads. */
  function SumOf<T>(xs: seq<T>, f: T -> real): real {
    if xs == [] then 0.0 else SumOf(xs[..|xs| - 1], f) + f(xs[|xs| - 1])
  }

  lemma SumOfSnoc<T>(xs: seq<T>, x: T, f: T -> real)
    ensures SumOf(xs + [x], f) == SumOf(xs, f) + f(x)
  {
    assert (xs + [x])[..|xs|] == xs;
  }

  lemma {:induction false} SumOfConcat<T>(xs: seq<T>, ys: seq<T>, f: T -> real)
    ensures SumOf(xs + ys, f) == SumOf(xs, f) + SumOf(ys, f)
    decreases |ys|
  {
    if ys == [] {
      assert xs + ys == xs;
    } else {
      var init, y := ys[..|ys| - 1], ys[|ys| - 1];
      assert xs + ys == (xs + init) + [y];
      assert ys == init + [y];
      SumOfSnoc(xs + init, y, f);
      SumOfSnoc(init, y, f);
      SumOfConcat(xs, init, f);
    }
  }

  /** A sum does not depend on the order of the rows. */
  lemma {:induction false} SumOfPermutation<T>(xs: seq<T>, ys: seq<T>, f: T -> real)
    requires multiset(xs) == multiset(ys)
    ensures SumOf(xs, f) == SumOf(ys, f)
    decreases |xs|
  {
    if xs != [] {
      var init, x := xs[..|xs| - 1], xs[|xs| - 1];
      assert xs == init + [x];
      assert x in multiset(ys);
      var j :| 0 <= j < |ys| && ys[j] == x;
      var rest := ys[..j] + ys[j + 1..];
      assert ys == ys[..j] + [x] + ys[j + 1..];
      assert multiset(ys) == multiset(rest) + multiset{x};
      assert multiset(xs) == multiset(init) + multiset{x};
      assert multiset(init) == multiset(xs) - multiset{x};
      assert multiset(rest) == multiset(ys) - multiset{x};
      SumOfPermutation(init, rest, f);
      SumOfConcat(ys[..j] + [x], ys[j + 1..], f);
      SumOfConcat(ys[..j], ys[j + 1..], f);
      SumOfSnoc(ys[..j], x, f);
    }
  }

  datatype Group<K, T> = Group(key: K, members: seq<T>)

  predicate StrictlySorted<K, T>(gs: seq<Group<K, T>>, less: (K, K) -> bool) {
    forall i, j :: 0 <= i < j < |gs| ==> less(gs[i].key, gs[j].key)
  }

  /** Every key of `gs` is above `b`. */
  predicate Above<K, T>(gs: seq<Group<K, T>>, b: K, less: (K, K) -> bool) {
    forall i :: 0 <= i < |gs| ==> less(b, gs[i].key)
  }

  predicate NonEmptyGroups<K, T>(gs: seq<Group<K, T>>) {
    forall i :: 0 <= i < |gs| ==> gs[i].members != []
  }

  /** `grouped.get_group(k)`, or no rows when `k` is not a key. */
  function Members<K(==), T>(gs: seq<Group<K, T>>, k: K): seq<T> {
    if gs == [] then []
    else if gs[0].key == k then gs[0].members
    else Members(gs[1..], k)
  }

  /** Adds row `x` at the end of the group of its key, opening that group at its sorted place if it is new. */
  function Insert<T, K(==)>(gs: seq<Group<K, T>>, x: T, key: T -> K, less: (K, K) -> bool): seq<Group<K, T>> {
    if gs == [] then [Group(key(x), [x])]
    else if gs[0].key == key(x) then [Group(key(x), gs[0].members + [x])] + gs[1..]
    else if less(key(x), gs[0].key) then [Group(key(x), [x])] + gs
    else [gs[0]] + Insert(gs[1..], x, key, less)
  }

  /** `df.groupby(key)`: the rows folded into groups one at a time, in row order. */
  function GroupBy<T, K(==)>(xs: seq<T>, key: T -> K, less: (K, K) -> bool): seq<Group<K, T>> {
    if xs == [] then []
    else Insert(GroupBy(xs[..|xs| - 1], key, less), xs[|xs| - 1], key, less)
  }

  lemma {:induction false} MembersAbove<K(!new), T>(gs: seq<Group<K, T>>, b: K, less: (K, K) -> bool)
    requires StrictTotalOrder(less) && Above(gs, b, less)
    ensures Members(gs, b) == []
  {
    if gs != [] {
      assert less(b, gs[0].key);
      MembersAbove(gs[1..], b, less);
    }
  }

  lemma {:induction false} InsertAbove<K, T>(gs: seq<Group<K, T>>, x: T, key: T -> K, less: (K, K) -> bool, b: K)
    requires Above(gs, b, less) && less(b, key(x))
    ensures Above(Insert(gs, x, key, less), b, less)
  {
    if gs != [] && gs[0].key != key(x) && !less(key(x), gs[0].key) {
      InsertAbove(gs[1..], x, key, less, b);
    }
  }

  /** Inserting a row keeps the keys strictly sorted and the groups non-empty, and adds the row to its key's group only. */
  lemma {:induction false} InsertSpec<K(!new), T>(gs: seq<Group<K, T>>, x: T, key: T -> K, less: (K, K) -> bool)
    requires StrictTotalOrder(less) && StrictlySorted(gs, less) && NonEmptyGroups(gs)
    ensures StrictlySorted(Insert(gs, x, key, less), less)
    ensures NonEmptyGroups(Insert(gs, x, key, less))
    ensures forall k :: (Members(Insert(gs, x, key, less), k) ==
      Members(gs, k) + (if key(x) == k then [x] else []))
  {
    var r := Insert(gs, x, key, less);
    if gs == [] {
    } else if gs[0].key == key(x) {
      assert r == [Group(key(x), gs[0].members + [x])] + gs[1..];
      forall k ensures Members(r, k) == Members(gs, k) + (if key(x) == k then [x] else []) {
        if k != key(x) {
          assert Members(r, k) == Members(gs[1..], k);
        }
      }
    } else if less(key(x), gs[0].key) {
      assert Above(gs, key(x), less);
      MembersAbove(gs, key(x), less);
    } else {
      assert less(gs[0].key, key(x));
      var rest := gs[1..];
      InsertSpec(rest, x, key, less);
      assert Above(rest, gs[0].key, less);
      InsertAbove(rest, x, key, less, gs[0].key);
      assert r == [gs[0]] + Insert(rest, x, key, less);
    }
  }

  /**
    `df.groupby(key)` is correct: its keys are strictly ascending, no group
    is empty, and the group of every key `k` holds exactly the rows of `xs`
    whose key is `k`, in row order (so every key that occurs has a group).
   */
  lemma {:induction false} GroupBySpec<T, K(!new)>(xs: seq<T>, key: T -> K, less: (K, K) -> bool)
    requires StrictTotalOrder(less)
    ensures StrictlySorted(GroupBy(xs, key, less), less)
    ensures NonEmptyGroups(GroupBy(xs, key, less))
    ensures forall k :: Members(GroupBy(xs, key, less), k) == Filter(xs, key, k)
  {
    if xs != [] {
      var init := xs[..|xs| - 1];
      GroupBySpec(init, key, less);
      InsertSpec(GroupBy(init, key, less), xs[|xs| - 1], key, less);
    }
  }

  /** In sorted groups, a group's rows are what `Members` finds for its key. */
  lemma {:induction false} MembersAt<K(!new), T>(gs: seq<Group<K, T>>, i: nat, less: (K, K) -> bool)
    requires StrictTotalOrder(less) && StrictlySorted(gs, less) && i < |gs|
    ensures Members(gs, gs[i].key) == gs[i].members
  {
    if i > 0 {
      assert less(gs[0].key, gs[i].key);
      MembersAt(gs[1..], i - 1, less);
    }
  }

  /** A key with rows has a group. */
  lemma {:induction false} FindGroup<K, T>(gs: seq<Group<K, T>>, k: K) returns (i: nat)
    requires Members(gs, k) != []
    ensures i < |gs| && gs[i].key == k && gs[i].members == Members(gs, k)
  {
    if gs[0].key == k {
      i := 0;
    } else {
      var j := FindGroup(gs[1..], k);
      i := j + 1;
    }
  }

  /** Two sorted groupings with the same keys have the same key sequence. */
  lemma {:induction false} SameKeys<K(!new), T>(gs: seq<Group<K, T>>, hs: seq<Group<K, T>>, less: (K, K) -> bool)
    requires StrictTotalOrder(less)
    requires StrictlySorted(gs, less) && StrictlySorted(hs, less)
    requires NonEmptyGroups(gs) && NonEmptyGroups(hs)
    requires forall k :: (Members(gs, k) == []) == (Members(hs, k) == [])
    ensures |gs| == |hs| && forall i :: 0 <= i < |gs| ==> gs[i].key == hs[i].key
  {
    if gs == [] || hs == [] {
      if gs != [] {
        assert Members(gs, gs[0].key) == gs[0].members;
      } else if hs != [] {
        assert Members(hs, hs[0].key) == hs[0].members;
      }
    } else {
      var g, h := gs[0].key, hs[0].key;
      assert Members(gs, g) != [];
      var j := FindGroup(hs, g);
      assert Members(hs, h) != [];
      var i := FindGroup(gs, h);
      assert j == 0 || less(h, g);
      assert i == 0 || less(g, h);
      assert g == h;
      var gs', hs' := gs[1..], hs[1..];
      assert Above(gs', g, less) && Above(hs', g, less);
      MembersAbove(gs', g, less);
      MembersAbove(hs', g, less);
      forall k ensures (Members(gs', k) == []) == (Members(hs', k) == []) {
        if k != g {
          assert Members(gs, k) == Members(gs', k) && Members(hs, k) == Members(hs', k);
        }
      }
      SameKeys(gs', hs', less);
    }
  }

  /**
    Grouping does not depend on row order: a permutation of the rows gives
    the same keys in the same order, each group holding a permutation of
    the same rows.
   */
  lemma GroupByPermutation<T, K(!new)>(xs: seq<T>, ys: seq<T>, key: T -> K, less: (K, K) -> bool)
    requires StrictTotalOrder(less) && multiset(xs) == multiset(ys)
    ensures var gs, hs := GroupBy(xs, key, less), GroupBy(ys, key, less);
      && |gs| == |hs|
      && forall i :: 0 <= i < |gs| ==>
           gs[i].key == hs[i].key && multiset(gs[i].members) == multiset(hs[i].members)
  {
    var gs, hs := GroupBy(xs, key, less), GroupBy(ys, key, less);
    GroupBySpec(xs, key, less);
    GroupBySpec(ys, key, less);
    forall k ensures multiset(Members(gs, k)) == multiset(Members(hs, k)) {
      FilterPermutation(xs, ys, key, k);
    }
    SameKeys(gs, hs, less);
    forall i | 0 <= i < |gs|
      ensures multiset(gs[i].members) == multiset(hs[i].members)
    {
      MembersAt(gs, i, less);
      MembersAt(hs, i, less);
    }
  }

  /** A row is kept by `df[df[col] == k]` exactly when it is a row of the table with key `k`. */
  lemma FilterMembers<T, K>(xs: seq<T>, key: T -> K, k: K)
    ensures forall x :: x in Filter(xs, key, k) <==> x in xs && key(x) == k
  {
    FilterMultiset(xs, key, k);
    forall x | x in xs && key(x) == k ensures x in Filter(xs, key, k) {
      assert multiset(Filter(xs, key, k))[x] > 0;
    }
  }

  /** Filtering a concatenation filters each part. */
  lemma {:induction false} FilterConcat<T, K>(xs: seq<T>, ys: seq<T>, key: T -> K, k: K)
    ensures Filter(xs + ys, key, k) == Filter(xs, key, k) + Filter(ys, key, k)
  {
    if ys == [] {
      assert xs + ys == xs;
    } else {
      var init, y := ys[..|ys| - 1], ys[|ys| - 1];
      assert (xs + ys)[..|xs + ys| - 1] == xs + init;
      FilterConcat(xs, init, key, k);
    }
  }

  /** A table whose every row has key `k` is its own filter. */
  lemma {:induction false} FilterAll<T, K>(xs: seq<T>, key: T -> K, k: K)
    requires forall x :: x in xs ==> key(x) == k
    ensures Filter(xs, key, k) == xs
  {
    if xs != [] {
      var init, x := xs[..|xs| - 1], xs[|xs| - 1];
      assert xs == init + [x];
      assert key(x) == k;
      FilterAll(init, key, k);
      calc {
        Filter(xs, key, k);
        Filter(init, key, k) + [x];
        init + [x];
      }
    }
  }

  /** A table with no row of key `k` filters to nothing. */
  lemma {:induction false} FilterNone<T, K>(xs: seq<T>, key: T -> K, k: K)
    requires forall x :: x in xs ==> key(x) != k
    ensures Filter(xs, key, k) == []
  {
    if xs != [] {
      var init := xs[..|xs| - 1];
      assert forall x :: x in init ==> x in xs;
      FilterNone(init, key, k);
    }
  }

  /** The date mask is a filter on the predicate `inside`, so it keeps the rows in their order. */
  lemma {:induction false} BetweenIsFilter<T(!new)>(xs: seq<T>, dateOf: T -> Date, lo: Date, hi: Date, inside: T -> bool)
    requires forall x :: inside(x) == (NotAfter(lo, dateOf(x)) && NotAfter(dateOf(x), hi))
    ensures Between(xs, dateOf, lo, hi) == Filter(xs, inside, true)
  {
    if xs != [] {
      BetweenIsFilter(xs[..|xs| - 1], dateOf, lo, hi, inside);
    }
  }

  /** Two masks applied one after the other are the mask of their conjunction `both`. */
  lemma {:induction false} FilterFilter<T, K>(xs: seq<T>, p: T -> bool, key: T -> K, k: K, both: T -> bool)
    requires forall x :: both(x) == (p(x) && key(x) == k)
    ensures Filter(Filter(xs, p, true), key, k) == Filter(xs, both, true)
  {
    if xs != [] {
      var init, x := xs[..|xs| - 1], xs[|xs| - 1];
      FilterFilter(init, p, key, k, both);
      var tail := if p(x) then [x] else [];
      assert Filter(xs, p, true) == Filter(init, p, true) + tail;
      FilterConcat(Filter(init, p, true), tail, key, k);
      if p(x) {
        assert Filter(tail, key, k) == (if key(x) == k then [x] else []) by {
          assert tail[..0] == [];
        }
      }
    }
  }

  /** `xs[i]` is the first row of `xs` with key `k`. */
  predicate FirstWithKey<T, K(==)>(xs: seq<T>, key: T -> K, k: K, i: int) {
    0 <= i < |xs| && key(xs[i]) == k && forall j :: 0 <= j < i ==> key(xs[j]) != k
  }

  /** `xs[i]` is the last row of `xs` with key `k`. */
  predicate LastWithKey<T, K(==)>(xs: seq<T>, key: T -> K, k: K, i: int) {
    0 <= i < |xs| && key(xs[i]) == k && forall j :: i < j < |xs| ==> key(xs[j]) != k
  }

  /** The filter keeps the row order: its first row is the table's first row with key `k`. */
  lemma {:induction false} FilterFirst<T, K>(xs: seq<T>, key: T -> K, k: K)
    requires Filter(xs, key, k) != []
    ensures exists i :: FirstWithKey(xs, key, k, i) && xs[i] == Filter(xs, key, k)[0]
  {
    var init, x := xs[..|xs| - 1], xs[|xs| - 1];
    if Filter(init, key, k) != [] {
      FilterFirst(init, key, k);
      var i :| FirstWithKey(init, key, k, i) && init[i] == Filter(init, key, k)[0];
      assert forall j :: 0 <= j <= i ==> xs[j] == init[j];
      assert FirstWithKey(xs, key, k, i);
    } else {
      FilterMembers(init, key, k);
      forall j | 0 <= j < |xs| - 1 ensures key(xs[j]) != k {
        assert xs[j] == init[j] && init[j] in init;
      }
      assert FirstWithKey(xs, key, k, |xs| - 1);
    }
  }

  /** Likewise the filter's last row is the table's last row with key `k`. */
  lemma {:induction false} FilterLast<T, K>(xs: seq<T>, key: T -> K, k: K)
    requires Filter(xs, key, k) != []
    ensures var f := Filter(xs, key, k);
      exists i :: LastWithKey(xs, key, k, i) && xs[i] == f[|f| - 1]
  {
    var init, x := xs[..|xs| - 1], xs[|xs| - 1];
    if key(x) == k {
      assert LastWithKey(xs, key, k, |xs| - 1);
    } else {
      FilterLast(init, key, k);
      var f := Filter(init, key, k);
      var i :| LastWithKey(init, key, k, i) && init[i] == f[|f| - 1];
      assert forall j :: 0 <= j < |init| ==> xs[j] == init[j];
      assert LastWithKey(xs, key, k, i);
    }
  }

  /**
    The groups of `groupby` are keyed by exactly the values the key column
    takes, ascending, and each group holds the rows `df[df[col] == k]` of its key.
   */
  lemma GroupsAreFilters<T, K(!new)>(xs: seq<T>, key: T -> K, less: (K, K) -> bool)
    requires StrictTotalOrder(less)
    ensures var gs := GroupBy(xs, key, less);
      && StrictlySorted(gs, less)
      && (forall i :: 0 <= i < |gs| ==> gs[i].members != [] && gs[i].members == Filter(xs, key, gs[i].key))
      && (forall k :: (exists i :: 0 <= i < |gs| && gs[i].key == k) <==> Filter(xs, key, k) != [])
  {
    var gs := GroupBy(xs, key, less);
    GroupBySpec(xs, key, less);
    forall i | 0 <= i < |gs| ensures gs[i].members == Filter(xs, key, gs[i].key) {
      MembersAt(gs, i, less);
    }
    forall k | Filter(xs, key, k) != [] ensures exists i :: 0 <= i < |gs| && gs[i].key == k {
      var i := FindGroup(gs, k);
    }
  }
}
