/** `GET /api/orders/totals`: the quantity ordered per item name, upper-cased,
    over the rows of one period. */
module ItemTotals {
  import opened Wrappers
  import opened Text
  import opened Sums
  import opened OrderModel

  /** Why the route answers with an error: the `orderanke` parameter is
      missing or empty (400), or the query failed (500). */
  datatype TotalsError = OrderankeRequired | TotalsQueryFailed

  /** The rows `.eq("orderanke", p)` selects. */
  function RowsOfPeriod(table: seq<OrderRow>, p: int): seq<OrderRow> {
    Filter(table, (r: OrderRow) => r.orderanke == p)
  }

  /** `row.item.toUpperCase()`, the key a row is counted under. */
  function TotalKey(r: OrderRow): string { Upper(r.item) }

  function RowQty(r: OrderRow): int { r.qty }

  /** The `forEach` fold: `totals[key] = (totals[key] || 0) + row.qty` for
      each row in order. */
  function TotalsOf(rows: seq<OrderRow>): map<string, int> {
    if rows == [] then map[]
    else
      var m := TotalsOf(rows[..|rows| - 1]);
      var k := TotalKey(rows[|rows| - 1]);
      m[k := (if k in m then m[k] else 0) + rows[|rows| - 1].qty]
  }

  /** Each key of the totals is the upper-cased item of some row, each such
      key is there, and its value is the quantity of the rows carrying it. */
  lemma {:induction false} TotalsMeaning(rows: seq<OrderRow>, k: string)
    ensures k in TotalsOf(rows) <==> k in DistinctKeys(rows, TotalKey)
    ensures k in TotalsOf(rows) ==> TotalsOf(rows)[k] == SumKey(rows, TotalKey, k, RowQty)
  {
    if rows != [] {
      var p := rows[..|rows| - 1];
      TotalsMeaning(p, k);
      assert forall i :: 0 <= i < |p| ==> rows[i] == p[i];
      if k !in TotalsOf(p) {
        SumKeyAbsent(p, TotalKey, k, RowQty);
      }
    }
  }

  /** The sum of `m[k]` over the keys `ks`. */
  function SumValues(m: map<string, int>, ks: seq<string>): int
    requires forall k :: k in ks ==> k in m
  {
    if ks == [] then 0 else SumValues(m, ks[..|ks| - 1]) + m[ks[|ks| - 1]]
  }

  /** The totals lose and duplicate nothing: summed over their keys they give
      the quantity of all rows. */
  lemma TotalsAddUp(rows: seq<OrderRow>)
    ensures forall k :: k in DistinctKeys(rows, TotalKey) ==> k in TotalsOf(rows)
    ensures SumValues(TotalsOf(rows), DistinctKeys(rows, TotalKey)) == SumAll(rows, RowQty)
  {
    var ks := DistinctKeys(rows, TotalKey);
    forall k | k in ks
      ensures k in TotalsOf(rows) && TotalsOf(rows)[k] == SumKey(rows, TotalKey, k, RowQty)
    {
      TotalsMeaning(rows, k);
    }
    SumValuesIsSumOverKeys(rows, ks);
    PartitionSum(rows, TotalKey, RowQty);
  }

  lemma {:induction false} SumValuesIsSumOverKeys(rows: seq<OrderRow>, ks: seq<string>)
    requires forall k :: k in ks ==> k in TotalsOf(rows) && TotalsOf(rows)[k] == SumKey(rows, TotalKey, k, RowQty)
    ensures SumValues(TotalsOf(rows), ks) == SumOverKeys(rows, TotalKey, ks, RowQty)
  {
    if ks != [] {
      var q := ks[..|ks| - 1];
      assert forall k :: k in q ==> k in ks;
      SumValuesIsSumOverKeys(rows, q);
    }
  }

  /** The fold as the handler runs it, one row after the other. */
  method Accumulate(rows: seq<OrderRow>) returns (totals: map<string, int>)
    ensures totals == TotalsOf(rows)
  {
    totals := map[];
    var i := 0;
    while i < |rows|
      invariant 0 <= i <= |rows|
      invariant totals == TotalsOf(rows[..i])
    {
      var row := rows[i];
      var key := Upper(row.item);
      assert rows[..i + 1][..i] == rows[..i];
      totals := totals[key := (if key in totals then totals[key] else 0) + row.qty];
      i := i + 1;
    }
    assert rows[..i] == rows;
  }

  /** The route: `orderanke` is the query parameter (None when missing or
      empty), `table` the store's answer for `orders`. */
  method Totals(orderanke: Option<int>, table: Fetch<seq<OrderRow>>) returns (r: Result<map<string, int>, TotalsError>)
    ensures orderanke.None? ==> r == Failure(OrderankeRequired)
    ensures orderanke.Some? && table.QueryFailed? ==> r == Failure(TotalsQueryFailed)
    ensures orderanke.Some? && table.Fetched? ==> r == Success(TotalsOf(RowsOfPeriod(table.data, orderanke.value)))
  {
    if orderanke.None? {
      return Failure(OrderankeRequired);
    }
    if table.QueryFailed? {
      return Failure(TotalsQueryFailed);
    }
    var data := RowsOfPeriod(table.data, orderanke.value);
    var totals := Accumulate(data);
    return Success(totals);
  }
}
