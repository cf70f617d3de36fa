/**
 * The grouping step of upload_prices: the flat CSV rows become the list
 * products_data, one entry per distinct product id, each carrying that
 * product's price rows in row order.
 *
 * DataFrame.groupby is a library call; it is modelled by the function
 * GroupBy, whose keys come out in ascending order (pandas' default
 * sort=True) and whose groups keep the rows' original order.
 */
module PriceGrouping {

  /** The price column. The source converts it to a float; the model keeps it as read. */
  type Amount = int

  /** One row of the input CSV. */
  datatype Row = Row(productId: int, market: string, channel: string, price: Amount,
                     validFrom: string, validUntil: string)

  /** One element of an entry's "prices" list: a row without its product id. */
  datatype Price = Price(market: string, channel: string, price: Amount,
                         validFrom: string, validUntil: string)

  /** One element of products_data: {"product_id": ..., "prices": [...]}. */
  datatype ProductEntry = ProductEntry(productId: int, prices: seq<Price>)

  /** One group yielded by DataFrame.groupby: a key and the rows carrying it. */
  datatype Group = Group(key: int, rows: seq<Row>)

  predicate StrictlyAscending(s: seq<int>) {
    forall i, j :: 0 <= i < j < |s| ==> s[i] < s[j]
  }

  predicate Distinct(s: seq<int>) {
    forall i, j :: 0 <= i < j < |s| ==> s[i] != s[j]
  }

  /** The set of product ids occurring in the rows. */
  function Ids(rows: seq<Row>): set<int> {
    set r | r in rows :: r.productId
  }

  // ---------------------------------------------------------------------
  // Rows and prices
  // ---------------------------------------------------------------------

  /** Puts a product id back in front of one of its prices. */
  function RowOf(productId: int, p: Price): Row {
    Row(productId, p.market, p.channel, p.price, p.validFrom, p.validUntil)
  }

  /** The dictionary appended to `prices` for one row: every field but the product id. */
  function PriceOf(row: Row): (p: Price)
    ensures RowOf(row.productId, p) == row
  {
    Price(row.market, row.channel, row.price, row.validFrom, row.validUntil)
  }

  function ToPrices(rows: seq<Row>): seq<Price> {
    seq(|rows|, i requires 0 <= i < |rows| => PriceOf(rows[i]))
  }

  /** The rows an entry stands for: its prices, each with the entry's product id. */
  function Unpack(productId: int, prices: seq<Price>): seq<Row> {
    seq(|prices|, i requires 0 <= i < |prices| => RowOf(productId, prices[i]))
  }

  /** All rows that a list of entries stands for, entry after entry. */
  function Ungroup(entries: seq<ProductEntry>): seq<Row> {
    if entries == [] then []
    else Unpack(entries[0].productId, entries[0].prices) + Ungroup(entries[1..])
  }

  /** The number of prices across all entries. */
  function TotalPrices(entries: seq<ProductEntry>): nat {
    if entries == [] then 0 else |entries[0].prices| + TotalPrices(entries[1..])
  }

  // ---------------------------------------------------------------------
  // DataFrame.groupby('product_id')
  // ---------------------------------------------------------------------

  /** The group of one key: exactly the rows with that product id, in row order. */
  function RowsOf(rows: seq<Row>, id: int): (rs: seq<Row>)
    ensures forall r :: r in rs <==> r in rows && r.productId == id
  {
    if rows == [] then []
    else (if rows[0].productId == id then [rows[0]] else []) + RowsOf(rows[1..], id)
  }

  /** A product id that occurs has a non-empty group. */
  lemma RowsOfNonEmpty(rows: seq<Row>, id: int)
    requires id in Ids(rows)
    ensures RowsOf(rows, id) != []
  {
    var r :| r in rows && r.productId == id;
    assert r in RowsOf(rows, id);
  }

  /** Inserting a key into a strictly ascending list of keys. */
  function Insert(keys: seq<int>, k: int): (r: seq<int>)
    requires StrictlyAscending(keys)
    ensures StrictlyAscending(r)
    ensures forall x :: x in r <==> x in keys || x == k
  {
    if keys == [] || k < keys[0] then [k] + keys
    else if k == keys[0] then keys
    else
      var tail := Insert(keys[1..], k);
      var r := [keys[0]] + tail;
      assert StrictlyAscending(r) by {
        forall i, j | 0 <= i < j < |r| ensures r[i] < r[j] {
          assert r[j] == tail[j - 1] && tail[j - 1] in tail;
          if i > 0 {
            assert r[i] == tail[i - 1];
          }
        }
      }
      r
  }

  /** The keys groupby iterates over: the distinct product ids, ascending. */
  function SortedIds(rows: seq<Row>): (keys: seq<int>)
    ensures StrictlyAscending(keys)
    ensures forall x :: x in keys <==> x in Ids(rows)
  {
    if rows == [] then []
    else
      assert forall x :: x in Ids(rows) <==> x == rows[0].productId || x in Ids(rows[1..]) by {
        assert rows == [rows[0]] + rows[1..];
      }
      Insert(SortedIds(rows[1..]), rows[0].productId)
  }

  /**
   * DataFrame.groupby('product_id'): keys strictly ascending, a group for
   * exactly the product ids that occur, and each group non-empty and made
   * of exactly the rows carrying its key.
   */
  function GroupBy(rows: seq<Row>): (groups: seq<Group>)
    ensures forall i, j :: 0 <= i < j < |groups| ==> groups[i].key < groups[j].key
    ensures forall id :: id in Ids(rows) <==> exists i :: 0 <= i < |groups| && groups[i].key == id
    ensures forall i :: 0 <= i < |groups| ==> groups[i].rows != []
    ensures forall i, r :: 0 <= i < |groups| ==>
      (r in groups[i].rows <==> r in rows && r.productId == groups[i].key)
  {
    GroupsForCover(rows, SortedIds(rows));
    GroupsForNonEmpty(rows);
    GroupsFor(rows, SortedIds(rows))
  }

  /** One group per key, in the order of the keys. */
  function GroupsFor(rows: seq<Row>, keys: seq<int>): seq<Group> {
    seq(|keys|, i requires 0 <= i < |keys| => Group(keys[i], RowsOf(rows, keys[i])))
  }

  lemma GroupsForCover(rows: seq<Row>, keys: seq<int>)
    requires forall id :: id in Ids(rows) ==> id in keys
    ensures forall id :: id in Ids(rows) ==>
      exists i :: 0 <= i < |GroupsFor(rows, keys)| && GroupsFor(rows, keys)[i].key == id
  {
    forall id | id in Ids(rows)
      ensures exists i :: 0 <= i < |GroupsFor(rows, keys)| && GroupsFor(rows, keys)[i].key == id
    {
      var i :| 0 <= i < |keys| && keys[i] == id;
      assert GroupsFor(rows, keys)[i].key == id;
    }
  }

  lemma GroupsForNonEmpty(rows: seq<Row>)
    ensures forall i :: 0 <= i < |GroupsFor(rows, SortedIds(rows))| ==> GroupsFor(rows, SortedIds(rows))[i].rows != []
  {
    var keys := SortedIds(rows);
    forall i | 0 <= i < |keys| ensures GroupsFor(rows, keys)[i].rows != [] {
      RowsOfNonEmpty(rows, keys[i]);
    }
  }

  /** The entries built for the given keys. */
  function EntriesFor(rows: seq<Row>, keys: seq<int>): seq<ProductEntry> {
    seq(|keys|, i requires 0 <= i < |keys| => ProductEntry(keys[i], ToPrices(RowsOf(rows, keys[i]))))
  }

  /** The products_data list the grouping block is meant to build. */
  function Grouped(rows: seq<Row>): seq<ProductEntry> {
    EntriesFor(rows, SortedIds(rows))
  }

  /** The rows of every key in turn. */
  function Collect(rows: seq<Row>, keys: seq<int>): seq<Row> {
    if keys == [] then [] else RowsOf(rows, keys[0]) + Collect(rows, keys[1..])
  }

  // ---------------------------------------------------------------------
  // The grouping loop
  // ---------------------------------------------------------------------

  /** The inner loop of the grouping block: the prices of one group's rows, in row order. */
  method CollectPrices(group: seq<Row>) returns (prices: seq<Price>)
    ensures |prices| == |group|
    ensures forall i :: 0 <= i < |group| ==> RowOf(group[i].productId, prices[i]) == group[i]
  {
    prices := [];
    for j := 0 to |group|
      invariant |prices| == j
      invariant forall i :: 0 <= i < j ==> prices[i] == PriceOf(group[i])
    {
      prices := prices + [PriceOf(group[j])];
    }
  }

  /**
   * The outer loop of the grouping block: for every group yielded by
   * groupby, collect the prices of its rows, then append the entry.
   */
  method GroupByProduct(rows: seq<Row>) returns (products: seq<ProductEntry>)
    ensures products == Grouped(rows)
  {
    products := [];
    var groups := GroupBy(rows);
    ghost var target := Grouped(rows);
    for g := 0 to |groups|
      invariant products == target[..g]
    {
      var prices := CollectPrices(groups[g].rows);
      assert prices == ToPrices(groups[g].rows);
      assert target[..g + 1] == target[..g] + [ProductEntry(groups[g].key, prices)];
      products := products + [ProductEntry(groups[g].key, prices)];
    }
    assert target[..|groups|] == target;
  }

  // ---------------------------------------------------------------------
  // Properties of the grouping
  // ---------------------------------------------------------------------

  /** Grouping keeps row order: the group of a concatenation is the concatenation of groups. */
  lemma {:induction false} RowsOfAppend(a: seq<Row>, b: seq<Row>, id: int)
    ensures RowsOf(a + b, id) == RowsOf(a, id) + RowsOf(b, id)
  {
    if a == [] {
      assert a + b == b;
    } else {
      assert (a + b)[1..] == a[1..] + b;
      RowsOfAppend(a[1..], b, id);
    }
  }

  /** Entries come in strictly ascending product id order, so no id appears twice. */
  lemma GroupedIdsAscending(rows: seq<Row>)
    ensures forall i, j :: 0 <= i < j < |Grouped(rows)| ==>
      Grouped(rows)[i].productId < Grouped(rows)[j].productId
  {
    var keys := SortedIds(rows);
    assert forall i :: 0 <= i < |keys| ==> Grouped(rows)[i].productId == keys[i];
  }

  /** There is an entry for a product id exactly when some row carries it. */
  lemma GroupedIdsExact(rows: seq<Row>)
    ensures forall id :: id in Ids(rows) <==>
      exists i :: 0 <= i < |Grouped(rows)| && Grouped(rows)[i].productId == id
  {
    var keys := SortedIds(rows);
    var g := Grouped(rows);
    forall id
      ensures id in Ids(rows) <==> exists i :: 0 <= i < |g| && g[i].productId == id
    {
      if id in Ids(rows) {
        var i :| 0 <= i < |keys| && keys[i] == id;
        assert g[i].productId == id;
      }
    }
  }

  /** Unpacking prices with their own product id gives back the rows they came from. */
  lemma UnpackToPrices(rows: seq<Row>, id: int)
    requires forall r :: r in rows ==> r.productId == id
    ensures Unpack(id, ToPrices(rows)) == rows
  {
    forall i | 0 <= i < |rows| ensures Unpack(id, ToPrices(rows))[i] == rows[i] {
      assert rows[i] in rows;
    }
  }

  /**
   * Each entry's prices are exactly the rows with its product id, in row
   * order, every field copied; and no entry is empty.
   */
  lemma GroupedPricesAreRows(rows: seq<Row>)
    ensures forall i :: 0 <= i < |Grouped(rows)| ==>
      |Grouped(rows)[i].prices| > 0 &&
      Unpack(Grouped(rows)[i].productId, Grouped(rows)[i].prices) == RowsOf(rows, Grouped(rows)[i].productId)
  {
    var keys := SortedIds(rows);
    var g := Grouped(rows);
    forall i | 0 <= i < |g|
      ensures |g[i].prices| > 0 && Unpack(g[i].productId, g[i].prices) == RowsOf(rows, g[i].productId)
    {
      var id := keys[i];
      UnpackToPrices(RowsOf(rows, id), id);
      assert id in Ids(rows);
      var r :| r in rows && r.productId == id;
      assert r in RowsOf(rows, id);
    }
  }

  lemma {:induction false} UngroupEntriesFor(rows: seq<Row>, keys: seq<int>)
    ensures Ungroup(EntriesFor(rows, keys)) == Collect(rows, keys)
  {
    if keys != [] {
      var e := EntriesFor(rows, keys);
      assert e[1..] == EntriesFor(rows, keys[1..]);
      UngroupEntriesFor(rows, keys[1..]);
      UnpackToPrices(RowsOf(rows, keys[0]), keys[0]);
    }
  }

  lemma {:induction false} CollectNoRows(keys: seq<int>)
    ensures Collect([], keys) == []
  {
    if keys != [] {
      CollectNoRows(keys[1..]);
    }
  }

  /** The tail of a list of distinct keys is distinct and does not hold its head. */
  lemma DistinctTail(keys: seq<int>)
    requires Distinct(keys) && keys != []
    ensures Distinct(keys[1..]) && keys[0] !in keys[1..]
  {
    forall i, j | 0 <= i < j < |keys[1..]| ensures keys[1..][i] != keys[1..][j] {
      assert keys[1..][i] == keys[i + 1] && keys[1..][j] == keys[j + 1];
    }
    forall j | 0 <= j < |keys[1..]| ensures keys[1..][j] != keys[0] {
      assert keys[1..][j] == keys[j + 1];
    }
  }

  /** Adding one row in front adds it to the collection once, if its key is listed. */
  lemma {:induction false} CollectCons(r: Row, rest: seq<Row>, keys: seq<int>)
    requires Distinct(keys)
    ensures multiset(Collect([r] + rest, keys)) ==
      multiset(Collect(rest, keys)) + (if r.productId in keys then multiset{r} else multiset{})
  {
    if keys != [] {
      var rows := [r] + rest;
      assert rows[0] == r && rows[1..] == rest;
      DistinctTail(keys);
      CollectCons(r, rest, keys[1..]);
      assert Collect(rows, keys) == RowsOf(rows, keys[0]) + Collect(rows, keys[1..]);
      assert Collect(rest, keys) == RowsOf(rest, keys[0]) + Collect(rest, keys[1..]);
      assert RowsOf(rows, keys[0]) == (if r.productId == keys[0] then [r] else []) + RowsOf(rest, keys[0]);
      assert r.productId in keys <==> r.productId == keys[0] || r.productId in keys[1..];
    }
  }

  /** Collecting the groups of distinct keys covering every row is a permutation of the rows. */
  lemma {:induction false} CollectPermutation(rows: seq<Row>, keys: seq<int>)
    requires Distinct(keys)
    requires forall r :: r in rows ==> r.productId in keys
    ensures multiset(Collect(rows, keys)) == multiset(rows)
  {
    if rows == [] {
      CollectNoRows(keys);
    } else {
      assert rows == [rows[0]] + rows[1..];
      CollectCons(rows[0], rows[1..], keys);
      CollectPermutation(rows[1..], keys);
    }
  }

  /**
   * No row is lost or duplicated: the rows the entries stand for are a
   * permutation of the input rows.
   */
  lemma GroupedPermutation(rows: seq<Row>)
    ensures multiset(Ungroup(Grouped(rows))) == multiset(rows)
  {
    var keys := SortedIds(rows);
    UngroupEntriesFor(rows, keys);
    forall r | r in rows ensures r.productId in keys {
      assert r.productId in Ids(rows);
    }
    CollectPermutation(rows, keys);
  }

  lemma {:induction false} UngroupLength(entries: seq<ProductEntry>)
    ensures |Ungroup(entries)| == TotalPrices(entries)
  {
    if entries != [] {
      UngroupLength(entries[1..]);
    }
  }

  /** The entries hold as many prices in all as there are input rows. */
  lemma GroupedTotal(rows: seq<Row>)
    ensures TotalPrices(Grouped(rows)) == |rows|
  {
    GroupedPermutation(rows);
    UngroupLength(Grouped(rows));
    assert |multiset(Ungroup(Grouped(rows)))| == |multiset(rows)|;
  }
}
