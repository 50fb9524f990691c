/** Expansion of `payload.items` into the rows to insert: `map` to a row per
    item, then `filter` out the rows without an item name or with no
    positive quantity. */
module RowBuilder {
  import opened Text
  import opened Sums
  import opened OrderModel

  /** The fields every row of one submission shares. */
  datatype RowContext = RowContext(
    orderId: string, memberId: int, nama: string, orderanke: int, delivered: bool, waktu: Time)

  /** `it.itemName || it.itemId`: the item's name, or its id when the name is
      empty. */
  function ItemKey(it: ItemRequest): string {
    if it.itemName != "" then it.itemName else it.itemId
  }

  /** The row the `map` step builds for one item. */
  function MakeRow(ctx: RowContext, it: ItemRequest): (r: OrderRow)
    ensures r.item == Trim(ItemKey(it)) && r.qty == it.qty && r.harga == it.harga
    ensures r.subtotal == r.harga * r.qty && r.kategori == Trim(it.kategori)
    ensures InContext(r, ctx)
    ensures Trim(r.item) == r.item
  {
    TrimTwice(ItemKey(it));
    OrderRow(ctx.orderId, ctx.memberId, ctx.nama, Trim(ItemKey(it)), it.qty, ctx.orderanke,
             ctx.delivered, ctx.waktu, it.harga, it.harga * it.qty, Trim(it.kategori))
  }

  predicate InContext(r: OrderRow, ctx: RowContext) {
    r.orderId == ctx.orderId && r.memberId == ctx.memberId && r.nama == ctx.nama
    && r.orderanke == ctx.orderanke && r.delivered == ctx.delivered && r.waktu == ctx.waktu
  }

  /** The `filter` condition `r.item && r.qty > 0`. */
  predicate Keep(r: OrderRow) {
    r.item != "" && r.qty > 0
  }

  /** The `map` step. */
  function MappedRows(ctx: RowContext, items: seq<ItemRequest>): (m: seq<OrderRow>)
    ensures |m| == |items|
    ensures forall i :: 0 <= i < |items| ==> m[i] == MakeRow(ctx, items[i])
  {
    seq(|items|, i requires 0 <= i < |items| => MakeRow(ctx, items[i]))
  }

  /** `a` is `b` with some elements left out, the rest in their order. */
  predicate Subsequence<T(==)>(a: seq<T>, b: seq<T>)
    decreases |b|
  {
    a == [] || (b != [] && ((a[|a| - 1] == b[|b| - 1] && Subsequence(a[..|a| - 1], b[..|b| - 1]))
                            || Subsequence(a, b[..|b| - 1])))
  }

  /** The kept rows, in their order: every row that passes the filter is
      there and nothing else is. */
  lemma KeptRowsSpec(m: seq<OrderRow>)
    ensures forall i :: 0 <= i < |Filter(m, Keep)| ==> Keep(Filter(m, Keep)[i]) && Filter(m, Keep)[i] in m
    ensures forall i :: 0 <= i < |m| && Keep(m[i]) ==> m[i] in Filter(m, Keep)
    ensures Subsequence(Filter(m, Keep), m)
  {
    forall x | x in Filter(m, Keep) || x in m
      ensures x in Filter(m, Keep) <==> x in m && Keep(x)
    {
      FilterMembers(m, Keep, x);
    }
    KeptInOrder(m);
  }

  /** The kept rows keep the order they have in `m`. */
  lemma {:induction false} KeptInOrder(m: seq<OrderRow>)
    ensures Subsequence(Filter(m, Keep), m)
  {
    if m != [] {
      var p := m[..|m| - 1];
      KeptInOrder(p);
      var kp := Filter(p, Keep);
      if Keep(m[|m| - 1]) {
        var k := kp + [m[|m| - 1]];
        assert Filter(m, Keep) == k;
        assert k[..|k| - 1] == kp;
      } else {
        assert Filter(m, Keep) == kp + [] == kp;
      }
    }
  }

  /** The filter keeps each passing row as often as it occurs and drops
      every other row. */
  lemma {:induction false} KeptRowsCount(m: seq<OrderRow>)
    ensures forall x :: multiset(Filter(m, Keep))[x] == if Keep(x) then multiset(m)[x] else 0
  {
    if m != [] {
      var p := m[..|m| - 1];
      KeptRowsCount(p);
      assert m == p + [m[|m| - 1]];
      assert multiset(m) == multiset(p) + multiset{m[|m| - 1]};
      if Keep(m[|m| - 1]) {
        assert multiset(Filter(m, Keep)) == multiset(Filter(p, Keep)) + multiset{m[|m| - 1]};
      }
    }
  }

  /** Step 4 of the route: the rows of one submission, the `map` step and
      then the `filter` step. */
  function BuildRows(ctx: RowContext, items: seq<ItemRequest>): (rows: seq<OrderRow>)
    ensures |rows| <= |items|
  {
    Filter(MappedRows(ctx, items), Keep)
  }

  /** Every built row passes the filter, carries the submission's shared
      fields, has `subtotal = harga * qty` and a trimmed item, and the rows
      keep the order of the items they come from. */
  lemma BuildRowsShape(ctx: RowContext, items: seq<ItemRequest>)
    ensures var rows := BuildRows(ctx, items);
      (forall i :: 0 <= i < |rows| ==>
         Keep(rows[i]) && InContext(rows[i], ctx) && rows[i].subtotal == rows[i].harga * rows[i].qty
         && Trim(rows[i].item) == rows[i].item)
      && Subsequence(rows, MappedRows(ctx, items))
  {
    var m := MappedRows(ctx, items);
    forall r | r in m
      ensures InContext(r, ctx) && r.subtotal == r.harga * r.qty && Trim(r.item) == r.item
    {
      var j :| 0 <= j < |m| && m[j] == r;
    }
    KeptRowsSpec(m);
  }

  /** Trimming is idempotent. */
  lemma TrimTwice(s: string)
    ensures Trim(Trim(s)) == Trim(s)
  {
    TrimEnds(s);
    TrimFixed(Trim(s));
  }

  /** Whether an item survives the row filter depends only on the item. */
  predicate Survives(it: ItemRequest) {
    Trim(ItemKey(it)) != "" && it.qty > 0
  }

  /** Every row comes from an item, and every surviving item gives a row. */
  lemma BuildRowsComplete(ctx: RowContext, items: seq<ItemRequest>)
    ensures forall r :: r in BuildRows(ctx, items) ==>
      exists i :: 0 <= i < |items| && Survives(items[i]) && r == MakeRow(ctx, items[i])
    ensures forall i :: 0 <= i < |items| && Survives(items[i]) ==> MakeRow(ctx, items[i]) in BuildRows(ctx, items)
  {
    var m := MappedRows(ctx, items);
    var rows := BuildRows(ctx, items);
    KeptRowsSpec(m);
    assert rows == Filter(m, Keep);
    forall r | r in rows
      ensures exists i :: 0 <= i < |items| && Survives(items[i]) && r == MakeRow(ctx, items[i])
    {
      var k :| 0 <= k < |rows| && rows[k] == r;
      var j :| 0 <= j < |m| && m[j] == r;
      assert Keep(m[j]);
    }
    forall i | 0 <= i < |items| && Survives(items[i])
      ensures MakeRow(ctx, items[i]) in rows
    {
      assert m[i] == MakeRow(ctx, items[i]) && Keep(m[i]);
    }
  }

  /** Mapping then filtering the rows is filtering the items then mapping:
      the rows are exactly one row per surviving item, in the items' order. */
  lemma {:induction false} BuildRowsExact(ctx: RowContext, items: seq<ItemRequest>)
    ensures BuildRows(ctx, items) == MappedRows(ctx, Filter(items, Survives))
    ensures |BuildRows(ctx, items)| == |Filter(items, Survives)|
  {
    if items != [] {
      var p := items[..|items| - 1];
      var x := items[|items| - 1];
      BuildRowsExact(ctx, p);
      BuildRowsSnoc(ctx, items);
      var f := Filter(p, Survives);
      assert Filter(items, Survives) == f + (if Survives(x) then [x] else []);
      if Survives(x) {
        MappedRowsSnoc(ctx, f, x);
      }
    }
  }

  /** The last item adds its row exactly when it survives. */
  lemma BuildRowsSnoc(ctx: RowContext, items: seq<ItemRequest>)
    requires items != []
    ensures var x := items[|items| - 1];
      BuildRows(ctx, items)
      == BuildRows(ctx, items[..|items| - 1]) + (if Survives(x) then [MakeRow(ctx, x)] else [])
  {
    var m := MappedRows(ctx, items);
    assert m[..|m| - 1] == MappedRows(ctx, items[..|items| - 1]);
  }

  lemma MappedRowsSnoc(ctx: RowContext, a: seq<ItemRequest>, x: ItemRequest)
    ensures MappedRows(ctx, a + [x]) == MappedRows(ctx, a) + [MakeRow(ctx, x)]
  {
  }

  /** No row survives exactly when no item survives; the route then refuses
      the submission. */
  lemma BuildRowsEmpty(ctx: RowContext, items: seq<ItemRequest>)
    ensures BuildRows(ctx, items) == [] <==> forall i :: 0 <= i < |items| ==> !Survives(items[i])
  {
    BuildRowsComplete(ctx, items);
    var rows := BuildRows(ctx, items);
    if rows != [] {
      assert rows[0] in rows;
    }
  }

  function Subtotal(r: OrderRow): int { r.subtotal }

  function Cost(it: ItemRequest): int { it.harga * it.qty }

  /** Filtering then summing is summing over the kept rows. */
  lemma {:induction false} SumKeptRows(m: seq<OrderRow>)
    ensures SumAll(Filter(m, Keep), Subtotal) == SumWhere(m, Keep, Subtotal)
  {
    if m != [] {
      var p := m[..|m| - 1];
      SumKeptRows(p);
      var kp := Filter(p, Keep);
      if Keep(m[|m| - 1]) {
        assert (kp + [m[|m| - 1]])[..|kp|] == kp;
      } else {
        assert Filter(m, Keep) == kp + [] == kp;
      }
    }
  }

  lemma {:induction false} SumMappedRows(ctx: RowContext, items: seq<ItemRequest>)
    ensures SumWhere(MappedRows(ctx, items), Keep, Subtotal) == SumWhere(items, Survives, Cost)
  {
    if items != [] {
      var m := MappedRows(ctx, items);
      assert m[..|m| - 1] == MappedRows(ctx, items[..|items| - 1]);
      SumMappedRows(ctx, items[..|items| - 1]);
    }
  }

  /** The subtotals of the built rows add up to `harga * qty` summed over the
      surviving items. */
  lemma SubtotalsAddUp(ctx: RowContext, items: seq<ItemRequest>)
    ensures SumAll(BuildRows(ctx, items), Subtotal) == SumWhere(items, Survives, Cost)
  {
    SumKeptRows(MappedRows(ctx, items));
    SumMappedRows(ctx, items);
  }
}
