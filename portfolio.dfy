/**
  The investment ledger of the portfolio page and the holdings derived from it.

  The ledger is a data frame of buy entries (`Ativo, Quantidade, Preço,
  Valor, Data de Compra`). Every row also carries its pandas index label,
  and an entry's id is that label plus one. Creating an entry rebuilds the
  index as 0, 1, 2, ... (a concatenation that ignores the old index);
  updating keeps it; removing drops the matching row with its label, so
  the labels of the rows after it, and their ids, do not change until the
  index is rebuilt.
 */
module Portfolio {
  import opened Options
  import opened Orders
  import opened Dates
  import opened Tables

  datatype Entry = Entry(asset: string, quantity: real, price: real, value: real, date: Date)

  /** A data-frame row: the pandas index label and the entry's columns. */
  datatype Row = Row(indexLabel: nat, entry: Entry)

  /** How a ledger operation ended: done, or rejected with the page's error message. */
  datatype Status =
    | Ok
    | QuantityAndPriceMustBePositive  // "Quantidade e preço devem ser positivos."
    | PriceMustBePositive             // "O preço deve ser positivo."
    | QuantityMustNotBeNegative       // "A quantidade não pode ser negativa."

  /** The optional arguments of an update: `None` leaves the column as it is. */
  datatype Changes = Changes(price: Option<real>, quantity: Option<real>, asset: Option<string>, date: Option<Date>)

  /** The derived column: `Valor == Quantidade * Preço`. */
  predicate ValueMatches(e: Entry) {
    e.value == e.quantity * e.price
  }

  predicate Consistent(t: seq<Row>) {
    forall i :: 0 <= i < |t| ==> ValueMatches(t[i].entry)
  }

  /** Index labels strictly increase down the frame, as every operation here keeps them. */
  predicate Labelled(t: seq<Row>) {
    forall i, j :: 0 <= i < j < |t| ==> t[i].indexLabel < t[j].indexLabel
  }

  /** The index is the default 0, 1, 2, ... */
  predicate Dense(t: seq<Row>) {
    forall i :: 0 <= i < |t| ==> t[i].indexLabel == i
  }

  function EntriesOf(t: seq<Row>): (es: seq<Entry>)
    ensures |es| == |t| && forall i :: 0 <= i < |t| ==> es[i] == t[i].entry
  {
    seq(|t|, i requires 0 <= i < |t| => t[i].entry)
  }

  /** `df['ID'] = df.index + 1`: the id shown for each row. */
  function Ids(t: seq<Row>): (ids: seq<int>)
    ensures |ids| == |t| && forall i :: 0 <= i < |t| ==> ids[i] == t[i].indexLabel + 1
  {
    seq(|t|, i requires 0 <= i < |t| => t[i].indexLabel + 1)
  }

  /** A frame over `es` with a fresh default index. */
  function Renumbered(es: seq<Entry>): (t: seq<Row>)
    ensures |t| == |es| && Dense(t) && Labelled(t) && EntriesOf(t) == es
  {
    seq(|es|, i requires 0 <= i < |es| => Row(i, es[i]))
  }

  /** The validation of `novo_lancamento`. */
  function CheckCreation(quantity: real, price: real): (s: Status)
    ensures s == Ok <==> quantity > 0.0 && price > 0.0
    ensures s == Ok || s == QuantityAndPriceMustBePositive
  {
    if quantity <= 0.0 || price <= 0.0 then QuantityAndPriceMustBePositive else Ok
  }

  /** The validation of `atualiza_lancamento`: the price first, then the quantity; a zero quantity passes. */
  function CheckChanges(c: Changes): (s: Status)
    ensures s == Ok <==>
      (c.price.Some? ==> c.price.value > 0.0) && (c.quantity.Some? ==> c.quantity.value >= 0.0)
    ensures s == PriceMustBePositive <==> c.price.Some? && c.price.value <= 0.0
    ensures s == QuantityMustNotBeNegative <==>
      !(c.price.Some? && c.price.value <= 0.0) && c.quantity.Some? && c.quantity.value < 0.0
  {
    if c.price.Some? && c.price.value <= 0.0 then PriceMustBePositive
    else if c.quantity.Some? && c.quantity.value < 0.0 then QuantityMustNotBeNegative
    else Ok
  }

  /** One row after an update: each supplied column replaced, then `Valor` recomputed. */
  function Revised(e: Entry, c: Changes): Entry {
    var price := if c.price.Some? then c.price.value else e.price;
    var quantity := if c.quantity.Some? then c.quantity.value else e.quantity;
    var asset := if c.asset.Some? then c.asset.value else e.asset;
    var date := if c.date.Some? then c.date.value else e.date;
    Entry(asset, quantity, price, quantity * price, date)
  }

  /**
    An update replaces exactly the columns it is given, keeps the others,
    and leaves `Valor` equal to the row's resulting quantity times price.
   */
  lemma RevisedSpec(e: Entry, c: Changes)
    ensures var r := Revised(e, c);
      && ValueMatches(r)
      && r.price == (if c.price.Some? then c.price.value else e.price)
      && r.quantity == (if c.quantity.Some? then c.quantity.value else e.quantity)
      && r.asset == (if c.asset.Some? then c.asset.value else e.asset)
      && r.date == (if c.date.Some? then c.date.value else e.date)
  {
  }

  /** Applying the same update twice is the same as applying it once. */
  lemma RevisedIdempotent(e: Entry, c: Changes)
    ensures Revised(Revised(e, c), c) == Revised(e, c)
  {
  }

  /** An update with no arguments changes nothing in a row whose `Valor` is already right. */
  lemma RevisedNothing(e: Entry)
    requires ValueMatches(e)
    ensures Revised(e, Changes(None, None, None, None)) == e
  {
  }

  /** The position of the row whose id is `id`, or -1 when no row has it. */
  function RowOf(t: seq<Row>, id: int): (j: int)
    ensures -1 <= j < |t|
    ensures j >= 0 ==> t[j].indexLabel + 1 == id
    ensures j < 0 ==> forall i :: 0 <= i < |t| ==> t[i].indexLabel + 1 != id
  {
    if t == [] then -1
    else if t[0].indexLabel + 1 == id then 0
    else
      var j := RowOf(t[1..], id);
      if j < 0 then -1 else j + 1
  }

  /** In a frame with the default index, id `k` is the `k`-th row. */
  lemma DenseRowOf(t: seq<Row>, id: int)
    requires Dense(t)
    ensures RowOf(t, id) == if 1 <= id <= |t| then id - 1 else -1
  {
    if 1 <= id <= |t| {
      assert t[id - 1].indexLabel + 1 == id;
    }
  }

  /** The `.loc[df['ID'] == id, ...] = ...` assignments: every row with that id is revised. */
  function ReviseWhere(t: seq<Row>, id: int, c: Changes): (r: seq<Row>)
    ensures |r| == |t|
  {
    seq(|t|, i requires 0 <= i < |t| =>
      if t[i].indexLabel + 1 == id then Row(t[i].indexLabel, Revised(t[i].entry, c)) else t[i])
  }

  /** `df.loc[df['ID'] != id]`: the rows with another id, labels kept. */
  function DropWhere(t: seq<Row>, id: int): seq<Row> {
    if t == [] then []
    else (if t[0].indexLabel + 1 != id then [t[0]] else []) + DropWhere(t[1..], id)
  }

  lemma {:induction false} DropWhereNone(t: seq<Row>, id: int)
    requires forall i :: 0 <= i < |t| ==> t[i].indexLabel + 1 != id
    ensures DropWhere(t, id) == t
  {
    if t != [] {
      DropWhereNone(t[1..], id);
    }
  }

  lemma LabelledTail(t: seq<Row>)
    requires Labelled(t) && t != []
    ensures Labelled(t[1..])
    ensures forall i :: 0 <= i < |t| - 1 ==> t[0].indexLabel < t[1..][i].indexLabel
  {
    var rest := t[1..];
    forall a, b | 0 <= a < b < |rest| ensures rest[a].indexLabel < rest[b].indexLabel {
      assert rest[a] == t[a + 1] && rest[b] == t[b + 1];
    }
    forall i | 0 <= i < |rest| ensures t[0].indexLabel < rest[i].indexLabel {
      assert rest[i] == t[i + 1];
    }
  }

  /** Cutting position `j` out of `t` is keeping the head and cutting `j - 1` out of the tail. */
  lemma CutAfterHead(t: seq<Row>, j: int)
    requires 1 <= j < |t|
    ensures [t[0]] + (t[1..][..j - 1] + t[1..][j..]) == t[..j] + t[j + 1..]
  {
    assert t[1..][..j - 1] == t[1..j] && t[1..][j..] == t[j + 1..];
    assert [t[0]] + t[1..j] == t[..j];
  }

  /** Cutting one row out keeps the labels increasing and every `Valor` that was right. */
  lemma CutKeeps(t: seq<Row>, j: int)
    requires 0 <= j < |t|
    ensures Labelled(t) ==> Labelled(t[..j] + t[j + 1..])
    ensures Consistent(t) ==> Consistent(t[..j] + t[j + 1..])
  {
    var u := t[..j] + t[j + 1..];
    assert forall i :: 0 <= i < |u| ==> u[i] == if i < j then t[i] else t[i + 1];
  }

  /**
    Since labels strictly increase, at most one row has a given id, so the
    mask drops that one row, keeping all others in order, or drops nothing.
   */
  lemma {:induction false} DropWhereSpec(t: seq<Row>, id: int)
    requires Labelled(t)
    ensures var j := RowOf(t, id);
      DropWhere(t, id) == if j < 0 then t else t[..j] + t[j + 1..]
  {
    if t != [] {
      var rest := t[1..];
      LabelledTail(t);
      if t[0].indexLabel + 1 == id {
        DropWhereNone(rest, id);
      } else {
        DropWhereSpec(rest, id);
        var k := RowOf(rest, id);
        if k >= 0 {
          CutAfterHead(t, k + 1);
        } else {
          assert [t[0]] + rest == t;
        }
      }
    }
  }

  /** Likewise the update revises that one row, keeping its label, or nothing. */
  lemma ReviseWhereSpec(t: seq<Row>, id: int, c: Changes)
    requires Labelled(t)
    ensures var j := RowOf(t, id);
      ReviseWhere(t, id, c) ==
        if j < 0 then t else t[j := Row(t[j].indexLabel, Revised(t[j].entry, c))]
  {
  }

  /** The ids and entries of a frame with the default index once its `k`-th row is cut out. */
  lemma CutFromDense(t: seq<Row>, k: int)
    requires Dense(t) && 1 <= k <= |t|
    ensures var t' := t[..k - 1] + t[k..];
      && EntriesOf(t') == EntriesOf(t)[..k - 1] + EntriesOf(t)[k..]
      && (forall j :: 0 <= j < k - 1 ==> Ids(t')[j] == Ids(t)[j])
      && (forall j :: k - 1 <= j < |t'| ==> Ids(t')[j] == Ids(t)[j + 1])
      && (forall j :: k - 1 <= j < |t'| ==> Ids(Renumbered(EntriesOf(t')))[j] == Ids(t)[j + 1] - 1)
  {
    var t' := t[..k - 1] + t[k..];
    assert forall j :: 0 <= j < |t'| ==> t'[j] == if j < k - 1 then t[j] else t[j + 1];
    var es := EntriesOf(t);
    assert EntriesOf(t') == es[..k - 1] + es[k..];
  }

  /**
    Removing id `k` from a frame with the default index removes exactly the
    `k`-th entry and keeps the others in order. The rows before it keep
    their ids; the rows after it keep theirs too while the old labels stay,
    and their ids drop by one once the index is rebuilt (as the next
    creation, or the next load of the ledger, does).
   */
  lemma RemoveFromDense(t: seq<Row>, id: int)
    requires Dense(t) && 1 <= id <= |t|
    ensures var t' := DropWhere(t, id);
      && EntriesOf(t') == EntriesOf(t)[..id - 1] + EntriesOf(t)[id..]
      && (forall j :: 0 <= j < id - 1 ==> Ids(t')[j] == Ids(t)[j])
      && (forall j :: id - 1 <= j < |t'| ==> Ids(t')[j] == Ids(t)[j + 1])
      && (forall j :: id - 1 <= j < |t'| ==> Ids(Renumbered(EntriesOf(t')))[j] == Ids(t)[j + 1] - 1)
  {
    DenseRowOf(t, id);
    DropWhereSpec(t, id);
    CutFromDense(t, id);
  }

  /** The entries of the ledger in memory (`st.session_state.lancamentos`). */
  class Ledger {
    var table: seq<Row>

    ghost predicate Valid()
      reads this
    {
      Labelled(table)
    }

    function Contents(): (es: seq<Entry>)
      reads this
      ensures |es| == |table|
    {
      EntriesOf(table)
    }

    /** A session starts from the stored entries with a default index. */
    constructor (stored: seq<Entry>)
      ensures Valid() && Dense(table) && Contents() == stored
    {
      table := Renumbered(stored);
    }

    /** `novo_lancamento`: a rejected entry changes nothing; an accepted one is appended and the index rebuilt. */
    method Create(asset: string, quantity: real, price: real, date: Date) returns (status: Status)
      requires Valid()
      modifies this
      ensures Valid()
      ensures status == CheckCreation(quantity, price)
      ensures status != Ok ==> table == old(table)
      ensures status == Ok ==>
        && Contents() == old(Contents()) + [Entry(asset, quantity, price, quantity * price, date)]
        && Dense(table)
      ensures old(Consistent(table)) ==> Consistent(table)
    {
      status := CheckCreation(quantity, price);
      if status == Ok {
        table := Renumbered(EntriesOf(table) + [Entry(asset, quantity, price, quantity * price, date)]);
      }
    }

    /**
      `atualiza_lancamento`: a rejected update changes nothing; otherwise the
      row with that id, if there is one, gets the supplied columns and a
      recomputed `Valor`, and every other row stays as it was. An id that
      matches no row is not an error: nothing changes.
     */
    method Update(id: int, changes: Changes) returns (status: Status)
      requires Valid()
      modifies this
      ensures Valid()
      ensures status == CheckChanges(changes)
      ensures status != Ok ==> table == old(table)
      ensures status == Ok ==> table == ReviseWhere(old(table), id, changes)
      ensures status == Ok ==>
        var j := RowOf(old(table), id);
        && |table| == |old(table)|
        && (forall i :: 0 <= i < |table| && i != j ==> table[i] == old(table)[i])
        && (j >= 0 ==> table[j] == Row(old(table)[j].indexLabel, Revised(old(table)[j].entry, changes)))
      ensures old(Consistent(table)) ==> Consistent(table)
    {
      status := CheckChanges(changes);
      if status == Ok {
        ReviseWhereSpec(table, id, changes);
        table := ReviseWhere(table, id, changes);
      }
    }

    /** `remove_lancamento`: the row with that id, if any, is dropped; the rest keep their order and labels. */
    method Remove(id: int)
      requires Valid()
      modifies this
      ensures Valid()
      ensures table == DropWhere(old(table), id)
      ensures var j := RowOf(old(table), id);
        table == if j < 0 then old(table) else old(table)[..j] + old(table)[j + 1..]
      ensures old(Consistent(table)) ==> Consistent(table)
    {
      DropWhereSpec(table, id);
      var j := RowOf(table, id);
      if j >= 0 {
        CutKeeps(table, j);
      }
      table := DropWhere(table, id);
    }
  }

  // ---------------------------------------------------------------------
  // Holdings: `carregar_carteira`

  /** One line of the portfolio: `Ativo, Quantidade, Valor, Preço Médio`. */
  datatype Holding = Holding(asset: string, quantity: real, value: real, averagePrice: real)

  function AssetOf(e: Entry): string { e.asset }
  function QuantityOf(e: Entry): real { e.quantity }
  function ValueOf(e: Entry): real { e.value }
  function PriceOf(e: Entry): real { e.price }

  /** The arithmetic mean of the prices (`'Preço', 'mean'`), not weighted by quantity. */
  function MeanPrice(es: seq<Entry>): real {
    if es == [] then 0.0 else SumOf(es, PriceOf) / (|es| as real)
  }

  function Summary(g: Group<string, Entry>): Holding {
    Holding(g.key, SumOf(g.members, QuantityOf), SumOf(g.members, ValueOf), MeanPrice(g.members))
  }

  /** `carregar_carteira`: group the entries by asset, sum quantity and value, average the price. */
  function Holdings(es: seq<Entry>): seq<Holding> {
    var gs := GroupBy(es, AssetOf, StrLess);
    seq(|gs|, i requires 0 <= i < |gs| => Summary(gs[i]))
  }

  /**
    One holding per distinct asset, in ascending order of asset name; each
    holds the sum of that asset's quantities, the sum of its values and the
    unweighted mean of its prices. No entries give no holdings.
   */
  lemma HoldingsSpec(es: seq<Entry>)
    ensures var r := Holdings(es);
      && (es == [] <==> r == [])
      && (forall i, j :: 0 <= i < j < |r| ==> StrLess(r[i].asset, r[j].asset))
      && (forall e :: e in es ==> exists i :: 0 <= i < |r| && r[i].asset == e.asset)
      && (forall i :: 0 <= i < |r| ==>
            var rows := Filter(es, AssetOf, r[i].asset);
            && rows != []
            && r[i].quantity == SumOf(rows, QuantityOf)
            && r[i].value == SumOf(rows, ValueOf)
            && r[i].averagePrice == SumOf(rows, PriceOf) / (|rows| as real))
  {
    var gs := GroupBy(es, AssetOf, StrLess);
    var r := Holdings(es);
    StrLessIsStrictTotalOrder();
    GroupBySpec(es, AssetOf, StrLess);
    forall i | 0 <= i < |gs| ensures gs[i].members == Filter(es, AssetOf, gs[i].key) {
      MembersAt(gs, i, StrLess);
    }
    forall e | e in es ensures exists i :: 0 <= i < |r| && r[i].asset == e.asset {
      assert Filter(es, AssetOf, e.asset) != [] by {
        FilterMultiset(es, AssetOf, e.asset);
        assert multiset(Filter(es, AssetOf, e.asset))[e] > 0;
      }
      var i := FindGroup(gs, e.asset);
      assert r[i].asset == e.asset;
    }
    if es != [] {
      assert es[0] in es;
    }
  }

  /** Aggregation does not depend on the order of the ledger. */
  lemma HoldingsOrderIndependent(es: seq<Entry>, es': seq<Entry>)
    requires multiset(es) == multiset(es')
    ensures Holdings(es) == Holdings(es')
  {
    var gs, hs := GroupBy(es, AssetOf, StrLess), GroupBy(es', AssetOf, StrLess);
    StrLessIsStrictTotalOrder();
    GroupByPermutation(es, es', AssetOf, StrLess);
    forall i | 0 <= i < |gs| ensures Summary(gs[i]) == Summary(hs[i]) {
      var a, b := gs[i].members, hs[i].members;
      SumOfPermutation(a, b, QuantityOf);
      SumOfPermutation(a, b, ValueOf);
      SumOfPermutation(a, b, PriceOf);
      assert |a| == |multiset(a)| == |multiset(b)| == |b|;
    }
  }
}
