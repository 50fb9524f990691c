/** `POST /api/orders`: the two accepted body shapes, and for the structured
    one the walk member id -> member -> period -> rows -> rules -> insert,
    stopping at the first failure. */
module SubmitOrder {
  import opened Wrappers
  import opened Sums
  import opened ItemName
  import opened OrderModel
  import opened Period
  import opened RowBuilder
  import opened QuantityRules

  /** `!memberId || memberId <= 0` refuses NaN, zero and negative ids. */
  predicate ValidMemberId(id: Option<int>) {
    id.Some? && id.value > 0
  }

  /** What a structured submission asks to insert, step by step as the
      handler takes them: the rows, or the first reason to refuse them. */
  function PreparedRows(sub: Submission, store: Store, now: Time, orderId: string, waktu: Time): Result<seq<OrderRow>, Rejection> {
    if !ValidMemberId(sub.memberId) then Failure(InvalidMemberId)
    else if store.member.QueryFailed? then Failure(MemberQueryFailed)
    else if store.member.data.None? then Failure(MemberNotFound)
    else
      var member := store.member.data.value;
      var period := ResolvePeriod(sub.orderanke, store.windows, now);
      if period.None? then Failure(NoActivePeriod)
      else
        var ctx := RowContext(orderId, sub.memberId.value, member.nama, period.value, sub.delivered, waktu);
        var rows := BuildRows(ctx, sub.items);
        if rows == [] then Failure(EmptyItems)
        else
          var verdict := CheckRules(member, period.value, rows, sub.items, Visible(store.orders));
          if verdict.Some? then Failure(verdict.value) else Success(rows)
  }

  /** The route's decision: a row array goes to the insert as it is, a
      structured body once it has passed every check, anything else is
      refused. */
  function SubmitSpec(body: Body, store: Store, now: Time, orderId: string, waktu: Time): Response {
    match body
    case RowArray(rows) => Insert(store, rows)
    case Unshaped => Failure(UnshapedBody)
    case Structured(sub) =>
      match PreparedRows(sub, store, now, orderId, waktu)
      case Success(rows) => Insert(store, rows)
      case Failure(e) => Failure(e)
  }

  /** The handler: `rowsToInsert` is the row array itself or what the
      structured checks let through, and goes to one insert at the end. */
  method Submit(body: Body, store: Store, now: Time, orderId: string, waktu: Time) returns (resp: Response)
    ensures resp == SubmitSpec(body, store, now, orderId, waktu)
    ensures body.RowArray? ==> resp == Insert(store, body.rows)
    ensures body.Unshaped? ==> resp == Failure(UnshapedBody)
  {
    var rowsToInsert: seq<OrderRow> := [];
    if body.RowArray? {
      rowsToInsert := body.rows;
    } else if body.Structured? {
      var prepared := PrepareRows(body.submission, store, now, orderId, waktu);
      if prepared.Failure? {
        return Failure(prepared.error);
      }
      rowsToInsert := prepared.value;
    } else {
      return Failure(UnshapedBody);
    }
    resp := Insert(store, rowsToInsert);
  }

  /** Steps 1 to 7 for a structured body, returning before the insert at the
      first refusal; `orderankeOverride` is set from the payload or from the
      active window. */
  method PrepareRows(payload: Submission, store: Store, now: Time, orderId: string, waktu: Time)
    returns (prepared: Result<seq<OrderRow>, Rejection>)
    ensures prepared == PreparedRows(payload, store, now, orderId, waktu)
  {
    if !ValidMemberId(payload.memberId) {
      return Failure(InvalidMemberId);
    }
    var memberId := payload.memberId.value;
    if store.member.QueryFailed? {
      return Failure(MemberQueryFailed);
    }
    if store.member.data.None? {
      return Failure(MemberNotFound);
    }
    var member := store.member.data.value;

    var orderankeOverride: int;
    if payload.orderanke.None? {
      var win := ActiveWindow(store.windows, now);
      if win.None? {
        return Failure(NoActivePeriod);
      }
      orderankeOverride := win.value;
    } else {
      orderankeOverride := payload.orderanke.value;
    }
    assert ResolvePeriod(payload.orderanke, store.windows, now) == Some(orderankeOverride);

    var ctx := RowContext(orderId, memberId, member.nama, orderankeOverride, payload.delivered, waktu);
    var rowsToInsert := BuildRows(ctx, payload.items);
    if |rowsToInsert| == 0 {
      return Failure(EmptyItems);
    }

    var table := Visible(store.orders);
    var verdict := CheckBatch(member, orderankeOverride, rowsToInsert, payload.items, table);
    if verdict.Some? {
      return Failure(verdict.value);
    }
    return Success(rowsToInsert);
  }

  /** Steps 5 to 7 as the handler runs them: the hangaround rule, then the
      vest cap (only when the batch holds vests), then the item caps. */
  method CheckBatch(member: Member, period: int, rows: seq<OrderRow>, items: seq<ItemRequest>, table: seq<OrderRow>)
    returns (verdict: Option<Rejection>)
    ensures verdict == CheckRules(member, period, rows, items, table)
  {
    if member.isHangaround && HasInvalidVest(rows) {
      return Some(HangaroundVest);
    }
    var vestInCart := CartVestQty(rows);
    if vestInCart > 0 {
      var existingVest := StoredVestQty(table, member.nama, period);
      if existingVest + vestInCart > VestCap {
        return Some(VestLimit(Max(0, VestCap - existingVest)));
      }
    }
    assert VestRule(member.nama, period, rows, table).None?;
    verdict := CheckCaps(items, table, period);
  }

  /** Step 7 as the handler runs it: `for (const it of payload.items)`,
      returning at the first item over its cap. */
  method CheckCaps(items: seq<ItemRequest>, table: seq<OrderRow>, period: int) returns (failure: Option<Rejection>)
    ensures failure == FirstCapViolation(items, table, period)
  {
    var i := 0;
    while i < |items|
      invariant 0 <= i <= |items|
      invariant FirstFrom(items, CapExceeded(items, table, period), i) == FirstFrom(items, CapExceeded(items, table, period), 0)
    {
      var verdict := CapCheck(items[i], items, table, period);
      if verdict.Some? {
        FirstCapViolationAt(items, table, period, i);
        return verdict;
      }
      assert !CapExceeded(items, table, period)(items[i]);
      i := i + 1;
    }
    assert FirstCapViolation(items, table, period) == None;
    return None;
  }

  /** The loop body for one item: only an item with a numeric `maxQty` is
      checked, against the stored quantity of its normalized name in the
      period plus the cart quantity of that name. */
  method CapCheck(it: ItemRequest, items: seq<ItemRequest>, table: seq<OrderRow>, period: int)
    returns (verdict: Option<Rejection>)
    ensures verdict.None? <==> !ExceedsCap(it, items, table, period)
    ensures verdict.Some? ==> it.maxQty.Some? && verdict.value == CapRejection(it, table, period)
  {
    if it.maxQty.None? {
      return None;
    }
    var norm := NormItemName(ItemKey(it));
    var cartQty := CartQty(items, norm);
    var dbQty := StoredItemQty(table, period, norm);
    ExceedsCapAt(it, items, table, period);
    if dbQty + cartQty > it.maxQty.value {
      return Some(ItemLimit(it.itemName, it.maxQty.value, Max(0, it.maxQty.value - dbQty)));
    }
    return None;
  }

  /** When item `i` is the first to exceed its cap, the caps report it. */
  lemma FirstCapViolationAt(items: seq<ItemRequest>, table: seq<OrderRow>, period: int, i: nat)
    requires i < |items| && ExceedsCap(items[i], items, table, period)
    requires FirstFrom(items, CapExceeded(items, table, period), i) == FirstFrom(items, CapExceeded(items, table, period), 0)
    ensures FirstCapViolation(items, table, period) == Some(CapRejection(items[i], table, period))
  {
    assert CapExceeded(items, table, period)(items[i]);
    assert FirstFrom(items, CapExceeded(items, table, period), 0) == Some(i);
  }
}

/** What the submission route promises, stated on its specification. */
module SubmitOrderFacts {
  import opened Wrappers
  import opened Sums
  import opened ItemName
  import opened OrderModel
  import opened Period
  import opened RowBuilder
  import opened QuantityRules
  import opened SubmitOrder

  /** A structured submission the route lets through, stated without the
      order of the checks: a valid id, a member, a period, at least one row,
      and a batch the three rules admit. */
  predicate Acceptable(sub: Submission, store: Store, now: Time, orderId: string, waktu: Time) {
    ValidMemberId(sub.memberId) && store.member.Fetched? && store.member.data.Some?
    && ResolvePeriod(sub.orderanke, store.windows, now).Some?
    && var member := store.member.data.value;
       var period := ResolvePeriod(sub.orderanke, store.windows, now).value;
       var rows := BuildRows(RowContext(orderId, sub.memberId.value, member.nama, period, sub.delivered, waktu), sub.items);
       rows != [] && Admissible(member, period, rows, sub.items, Visible(store.orders))
  }

  /** The rows a structured submission builds once its member and period are
      known. */
  function RowsOf(sub: Submission, store: Store, now: Time, orderId: string, waktu: Time): seq<OrderRow>
    requires ValidMemberId(sub.memberId) && store.member.Fetched? && store.member.data.Some?
    requires ResolvePeriod(sub.orderanke, store.windows, now).Some?
  {
    var member := store.member.data.value;
    var period := ResolvePeriod(sub.orderanke, store.windows, now).value;
    BuildRows(RowContext(orderId, sub.memberId.value, member.nama, period, sub.delivered, waktu), sub.items)
  }

  /** A structured submission is stored exactly when it is acceptable and the
      insert succeeds, and what is stored is the rows it builds. */
  lemma AcceptedExactly(sub: Submission, store: Store, now: Time, orderId: string, waktu: Time)
    ensures SubmitSpec(Structured(sub), store, now, orderId, waktu).Success?
        <==> Acceptable(sub, store, now, orderId, waktu) && store.insertSucceeds
    ensures SubmitSpec(Structured(sub), store, now, orderId, waktu).Success? ==>
      SubmitSpec(Structured(sub), store, now, orderId, waktu).value == RowsOf(sub, store, now, orderId, waktu)
  {
    if ValidMemberId(sub.memberId) && store.member.Fetched? && store.member.data.Some?
       && ResolvePeriod(sub.orderanke, store.windows, now).Some?
    {
      var member := store.member.data.value;
      var period := ResolvePeriod(sub.orderanke, store.windows, now).value;
      var rows := RowsOf(sub, store, now, orderId, waktu);
      CheckRulesAdmissible(member, period, rows, sub.items, Visible(store.orders));
    }
  }

  /** Every refusal other than a failed insert happens before the insert:
      the outcome is the same whether or not the insert would succeed. */
  lemma RefusedBeforeInsert(sub: Submission, store: Store, now: Time, orderId: string, waktu: Time, b: bool)
    requires SubmitSpec(Structured(sub), store, now, orderId, waktu).Failure?
    requires SubmitSpec(Structured(sub), store, now, orderId, waktu).error != InsertFailed
    ensures SubmitSpec(Structured(sub), store.(insertSucceeds := b), now, orderId, waktu)
         == SubmitSpec(Structured(sub), store, now, orderId, waktu)
  {
    assert PreparedRows(sub, store.(insertSucceeds := b), now, orderId, waktu) == PreparedRows(sub, store, now, orderId, waktu);
  }

  /** Without a payload `orderanke`, a failed window query is refused with
      400 exactly as when no window is active. */
  lemma FailedWindowQueryRefused(sub: Submission, store: Store, now: Time, orderId: string, waktu: Time)
    requires ValidMemberId(sub.memberId) && store.member.Fetched? && store.member.data.Some?
    requires sub.orderanke.None? && store.windows.QueryFailed?
    ensures SubmitSpec(Structured(sub), store, now, orderId, waktu) == Failure(NoActivePeriod)
    ensures Status(NoActivePeriod) == 400
  {
  }

  /** A failed orders query decides nothing by itself: the vest and `maxQty`
      checks then see an empty table, and the outcome is the one an empty
      table would give. */
  lemma FailedOrdersQueryIsEmptyTable(body: Body, store: Store, now: Time, orderId: string, waktu: Time)
    requires store.orders.QueryFailed?
    ensures SubmitSpec(body, store, now, orderId, waktu)
         == SubmitSpec(body, store.(orders := Fetched([])), now, orderId, waktu)
  {
    if body.Structured? {
      assert PreparedRows(body.submission, store, now, orderId, waktu)
          == PreparedRows(body.submission, store.(orders := Fetched([])), now, orderId, waktu);
    }
  }

  /** The id check comes first: a missing, zero or negative id is refused
      whatever the store holds, and only such an id is refused for it. */
  lemma InvalidIdRefused(sub: Submission, store: Store, now: Time, orderId: string, waktu: Time)
    ensures SubmitSpec(Structured(sub), store, now, orderId, waktu) == Failure(InvalidMemberId)
        <==> !ValidMemberId(sub.memberId)
  {
    if ValidMemberId(sub.memberId) && store.member.Fetched? && store.member.data.Some?
       && ResolvePeriod(sub.orderanke, store.windows, now).Some?
    {
      var member := store.member.data.value;
      var period := ResolvePeriod(sub.orderanke, store.windows, now).value;
      var rows := RowsOf(sub, store, now, orderId, waktu);
      var verdict := CheckRules(member, period, rows, sub.items, Visible(store.orders));
      if verdict.Some? {
        CheckRulesNever(member, period, rows, sub.items, Visible(store.orders));
      }
    }
  }

  /** The rules refuse only with their own three reasons. */
  lemma CheckRulesNever(member: Member, period: int, rows: seq<OrderRow>, items: seq<ItemRequest>, table: seq<OrderRow>)
    ensures CheckRules(member, period, rows, items, table).Some? ==>
      var e := CheckRules(member, period, rows, items, table).value;
      e.HangaroundVest? || e.VestLimit? || e.ItemLimit?
  {
  }

  /** The rows of one submission carry its member's name and its period, so
      inserting them adds exactly their vest quantity to what the vest query
      counts for that member and period. */
  lemma {:induction false} VestQtyAfterInsert(table: seq<OrderRow>, rows: seq<OrderRow>, nama: string, period: int)
    requires forall i :: 0 <= i < |rows| ==> rows[i].nama == nama && rows[i].orderanke == period
    ensures StoredVestQty(table + rows, nama, period) == StoredVestQty(table, nama, period) + CartVestQty(rows)
  {
    var P := (r: OrderRow) => StoredVestMatch(r, nama, period);
    var Q := (r: OrderRow) => IsVestItem(r.item);
    SumWhereAppend(table, rows, P, Qty);
    forall i | 0 <= i < |rows|
      ensures P(rows[i]) == Q(rows[i])
    {
      VestItemIsVestMatch(rows[i].item);
    }
    SumWhereSame(rows, P, Q, Qty);
  }

  /** The vest cap holds after every accepted structured submission that
      adds vests: the member's stored vest quantity for the period, as the
      vest query counts it, is then at most five. */
  lemma VestCapAfterInsert(sub: Submission, store: Store, now: Time, orderId: string, waktu: Time)
    requires SubmitSpec(Structured(sub), store, now, orderId, waktu).Success?
    requires store.orders.Fetched?
    ensures var member := store.member.data.value;
      var period := ResolvePeriod(sub.orderanke, store.windows, now).value;
      var rows := SubmitSpec(Structured(sub), store, now, orderId, waktu).value;
      var after := StoredVestQty(store.orders.data + rows, member.nama, period);
      var before := StoredVestQty(store.orders.data, member.nama, period);
      (CartVestQty(rows) > 0 ==> after <= VestCap) && (CartVestQty(rows) <= 0 ==> after == before + CartVestQty(rows))
  {
    AcceptedExactly(sub, store, now, orderId, waktu);
    var member := store.member.data.value;
    var period := ResolvePeriod(sub.orderanke, store.windows, now).value;
    var ctx := RowContext(orderId, sub.memberId.value, member.nama, period, sub.delivered, waktu);
    var rows := BuildRows(ctx, sub.items);
    assert rows == RowsOf(sub, store, now, orderId, waktu);
    BuildRowsShape(ctx, sub.items);
    VestQtyAfterInsert(store.orders.data, rows, member.nama, period);
  }
}
