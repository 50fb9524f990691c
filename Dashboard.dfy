/** `GET /api/dashboard`: the orders of one period, optionally narrowed to
    the members whose name contains a filter, grouped by member in order of
    first appearance, each with per-item quantities and subtotals and a
    total. */
module Dashboard {
  import opened Wrappers
  import opened Text
  import opened Sums
  import opened OrderModel
  import opened ItemTotals

  /** Why the route answers with an error: no usable period (400) or a failed
      query (500). */
  datatype DashError = PeriodRequired | DashQueryFailed

  /** One entry of a member's `items`. */
  datatype ItemSummary = ItemSummary(name: string, qty: int, subtotal: int)

  /** One entry of the result: `member_name`, `items` and `total`. */
  datatype MemberSummary = MemberSummary(memberName: string, items: seq<ItemSummary>, total: int)

  /** A per-item accumulator `{ qty, subtotal }`. */
  datatype Tally = Tally(qty: int, subtotal: int)

  /** A numeric query parameter after `x ? Number(x) : null`: None when it is
      missing, empty or not a number; truthy when present and not zero. */
  predicate Truthy(x: Option<int>) { x.Some? && x.value != 0 }

  /** The period: a truthy `orderanke`, otherwise `month * 10 + week` when
      both are truthy, otherwise none. */
  function DashboardPeriod(orderanke: Option<int>, month: Option<int>, week: Option<int>): Option<int> {
    if Truthy(orderanke) then orderanke
    else if Truthy(month) && Truthy(week) then Some(month.value * 10 + week.value)
    else None
  }

  /** With a week from 1 to 9 the encoding `month * 10 + week` keeps both
      parts: the period gives back its month and week. */
  lemma PeriodEncoding(month: int, week: int)
    requires month >= 1 && 1 <= week <= 9
    ensures var p := DashboardPeriod(None, Some(month), Some(week));
      p.Some? && p.value / 10 == month && p.value % 10 == week
  {
  }

  /** `(name || "").toString().trim().toLowerCase()` */
  function NameFilter(name: string): string { Lower(Trim(name)) }

  /** `row.nama || "Unknown"` */
  function MemberName(r: OrderRow): string { if r.nama != "" then r.nama else "Unknown" }

  /** The rows the name filter lets through: all of them for an empty
      filter, otherwise those whose lower-cased member name contains it. */
  predicate Passes(f: string, r: OrderRow) {
    f == "" || Contains(Lower(MemberName(r)), f)
  }

  /** `Passes` as the condition handed to `Filter`. */
  function NameMatches(f: string): OrderRow -> bool {
    (r: OrderRow) => Passes(f, r)
  }

  /** `r.item || "Unknown"` */
  function ItemLabel(r: OrderRow): string { if r.item != "" then r.item else "Unknown" }

  /** `r.subtotal || (harga * qty) || 0`: the stored subtotal unless it is
      zero, then price times quantity. */
  function LineTotal(r: OrderRow): int { if r.subtotal != 0 then r.subtotal else r.harga * r.qty }

  /** The item summaries of one member's rows for the item labels `ks`. */
  function ItemsOver(list: seq<OrderRow>, ks: seq<string>): (items: seq<ItemSummary>)
    ensures |items| == |ks|
  {
    if ks == [] then []
    else
      var k := ks[|ks| - 1];
      ItemsOver(list, ks[..|ks| - 1])
        + [ItemSummary(k, SumKey(list, ItemLabel, k, RowQty), SumKey(list, ItemLabel, k, LineTotal))]
  }

  /** One member's entry: an item summary per item label in order of first
      appearance, and the total of the line totals. */
  function Summarize(name: string, list: seq<OrderRow>): MemberSummary {
    MemberSummary(name, ItemsOver(list, DistinctKeys(list, ItemLabel)), SumAll(list, LineTotal))
  }

  /** The entries of the members `ms` over the kept rows. */
  function ReportOver(kept: seq<OrderRow>, ms: seq<string>): (report: seq<MemberSummary>)
    ensures |report| == |ms|
  {
    if ms == [] then []
    else
      var m := ms[|ms| - 1];
      ReportOver(kept, ms[..|ms| - 1]) + [Summarize(m, FilterKey(kept, MemberName, m))]
  }

  /** The result for the kept rows: one entry per member name, in order of
      first appearance. */
  function Report(kept: seq<OrderRow>): seq<MemberSummary> {
    ReportOver(kept, DistinctKeys(kept, MemberName))
  }

  function MemberTotal(s: MemberSummary): int { s.total }

  function ItemSubtotal(s: ItemSummary): int { s.subtotal }

  // ---- what the result promises ----

  /** Entry `j` of the report is member `ms[j]`, summarizing exactly that
      member's rows. */
  lemma {:induction false} ReportOverAt(kept: seq<OrderRow>, ms: seq<string>, j: int)
    requires 0 <= j < |ms|
    ensures ReportOver(kept, ms)[j] == Summarize(ms[j], FilterKey(kept, MemberName, ms[j]))
  {
    if j < |ms| - 1 {
      ReportOverAt(kept, ms[..|ms| - 1], j);
    }
  }

  /** The report's entries are named by the distinct member names, one entry
      per name, in the same order; so every entry is the member of some kept
      row. */
  lemma ReportNames(kept: seq<OrderRow>)
    ensures |Report(kept)| == |DistinctKeys(kept, MemberName)|
    ensures forall j :: 0 <= j < |Report(kept)| ==> Report(kept)[j].memberName == DistinctKeys(kept, MemberName)[j]
    ensures forall j :: 0 <= j < |Report(kept)| ==>
      exists i :: 0 <= i < |kept| && MemberName(kept[i]) == Report(kept)[j].memberName
  {
    var ms := DistinctKeys(kept, MemberName);
    DistinctKeysSpec(kept, MemberName);
    forall j | 0 <= j < |ms|
      ensures Report(kept)[j].memberName == ms[j]
      ensures exists i :: 0 <= i < |kept| && MemberName(kept[i]) == ms[j]
    {
      ReportOverAt(kept, ms, j);
      assert ms[j] in ms;
    }
  }

  /** The report has one entry per member name of the kept rows, each name
      once and no other name, and each entry holds exactly the kept rows of
      that member. */
  lemma ReportMembers(kept: seq<OrderRow>)
    ensures var report := Report(kept);
      (forall j :: 0 <= j < |report| ==>
         report[j] == Summarize(report[j].memberName, FilterKey(kept, MemberName, report[j].memberName)))
      && (forall i, j :: 0 <= i < j < |report| ==> report[i].memberName != report[j].memberName)
      && (forall i :: 0 <= i < |kept| ==> exists j :: 0 <= j < |report| && report[j].memberName == MemberName(kept[i]))
      && (forall j :: 0 <= j < |report| ==> exists i :: 0 <= i < |kept| && MemberName(kept[i]) == report[j].memberName)
  {
    var ms := DistinctKeys(kept, MemberName);
    DistinctKeysSpec(kept, MemberName);
    var report := Report(kept);
    forall j | 0 <= j < |report|
      ensures report[j].memberName == ms[j]
      ensures report[j] == Summarize(ms[j], FilterKey(kept, MemberName, ms[j]))
    {
      ReportOverAt(kept, ms, j);
    }
    forall i | 0 <= i < |kept|
      ensures exists j :: 0 <= j < |report| && report[j].memberName == MemberName(kept[i])
    {
      assert MemberName(kept[i]) in ms;
      var j :| 0 <= j < |ms| && ms[j] == MemberName(kept[i]);
      assert report[j].memberName == ms[j];
    }
    ReportNames(kept);
  }

  /** Entry `j` of the item list is label `ks[j]` with the summed quantity
      and line total of the rows carrying it. */
  lemma {:induction false} ItemsOverAt(list: seq<OrderRow>, ks: seq<string>, j: int)
    requires 0 <= j < |ks|
    ensures ItemsOver(list, ks)[j]
      == ItemSummary(ks[j], SumKey(list, ItemLabel, ks[j], RowQty), SumKey(list, ItemLabel, ks[j], LineTotal))
  {
    if j < |ks| - 1 {
      ItemsOverAt(list, ks[..|ks| - 1], j);
    }
  }

  /** A member's item entries are named by the distinct item labels of its
      rows, one entry per label, in the same order. */
  lemma SummaryNames(name: string, list: seq<OrderRow>)
    ensures |Summarize(name, list).items| == |DistinctKeys(list, ItemLabel)|
    ensures forall j :: 0 <= j < |Summarize(name, list).items| ==>
      Summarize(name, list).items[j].name == DistinctKeys(list, ItemLabel)[j]
    ensures forall j :: 0 <= j < |Summarize(name, list).items| ==>
      exists i :: 0 <= i < |list| && ItemLabel(list[i]) == Summarize(name, list).items[j].name
  {
    var ks := DistinctKeys(list, ItemLabel);
    DistinctKeysSpec(list, ItemLabel);
    forall j | 0 <= j < |ks|
      ensures Summarize(name, list).items[j].name == ks[j]
      ensures exists i :: 0 <= i < |list| && ItemLabel(list[i]) == ks[j]
    {
      ItemsOverAt(list, ks, j);
      assert ks[j] in ks;
    }
  }

  /** A member's item list has one entry per item label of its rows, each
      label once and no other label, each with the quantity and line total
      summed over the rows carrying that label. */
  lemma SummaryItems(name: string, list: seq<OrderRow>)
    ensures var items := Summarize(name, list).items;
      (forall j :: 0 <= j < |items| ==>
         items[j] == ItemSummary(items[j].name, SumKey(list, ItemLabel, items[j].name, RowQty),
                                 SumKey(list, ItemLabel, items[j].name, LineTotal)))
      && (forall i, j :: 0 <= i < j < |items| ==> items[i].name != items[j].name)
      && (forall i :: 0 <= i < |list| ==> exists j :: 0 <= j < |items| && items[j].name == ItemLabel(list[i]))
      && (forall j :: 0 <= j < |items| ==> exists i :: 0 <= i < |list| && ItemLabel(list[i]) == items[j].name)
  {
    var ks := DistinctKeys(list, ItemLabel);
    DistinctKeysSpec(list, ItemLabel);
    var items := Summarize(name, list).items;
    forall j | 0 <= j < |items|
      ensures items[j].name == ks[j]
      ensures items[j] == ItemSummary(ks[j], SumKey(list, ItemLabel, ks[j], RowQty), SumKey(list, ItemLabel, ks[j], LineTotal))
    {
      ItemsOverAt(list, ks, j);
    }
    forall i | 0 <= i < |list|
      ensures exists j :: 0 <= j < |items| && items[j].name == ItemLabel(list[i])
    {
      assert ItemLabel(list[i]) in ks;
      var j :| 0 <= j < |ks| && ks[j] == ItemLabel(list[i]);
      assert items[j].name == ks[j];
    }
    SummaryNames(name, list);
  }

  /** The report lists the members in order of first appearance: of two
      entries, the earlier one's member has a kept row before any row of the
      later one's. */
  lemma ReportOrder(kept: seq<OrderRow>, i: nat, j: nat)
    requires i < j < |Report(kept)|
    ensures var a := FirstFrom(kept, HasKey(MemberName, Report(kept)[i].memberName), 0);
      var b := FirstFrom(kept, HasKey(MemberName, Report(kept)[j].memberName), 0);
      a.Some? && b.Some? && a.value < b.value
  {
    ReportNames(kept);
    DistinctKeysOrder(kept, MemberName, i, j);
  }

  /** A member's items come in order of first appearance of their labels. */
  lemma SummaryOrder(name: string, list: seq<OrderRow>, i: nat, j: nat)
    requires i < j < |Summarize(name, list).items|
    ensures var a := FirstFrom(list, HasKey(ItemLabel, Summarize(name, list).items[i].name), 0);
      var b := FirstFrom(list, HasKey(ItemLabel, Summarize(name, list).items[j].name), 0);
      a.Some? && b.Some? && a.value < b.value
  {
    SummaryNames(name, list);
    DistinctKeysOrder(list, ItemLabel, i, j);
  }

  /** Every kept row is in the group of its own member and in no other
      group. */
  lemma RowInOneGroup(kept: seq<OrderRow>, i: int, m: string)
    requires 0 <= i < |kept|
    ensures kept[i] in FilterKey(kept, MemberName, m) <==> m == MemberName(kept[i])
  {
    InFilterKey(kept, MemberName, i);
    var g := FilterKey(kept, MemberName, m);
    if kept[i] in g {
      var j :| 0 <= j < |g| && g[j] == kept[i];
    }
  }

  lemma {:induction false} SumTotalsOver(kept: seq<OrderRow>, ms: seq<string>)
    ensures SumAll(ReportOver(kept, ms), MemberTotal) == SumOverKeys(kept, MemberName, ms, LineTotal)
  {
    if ms != [] {
      var q := ms[..|ms| - 1];
      SumTotalsOver(kept, q);
      var r := ReportOver(kept, ms);
      assert r[..|r| - 1] == ReportOver(kept, q);
      SumOfGroup(kept, MemberName, ms[|ms| - 1], LineTotal);
    }
  }

  /** The member totals add up to the line totals of all kept rows: grouping
      loses and duplicates nothing. */
  lemma ReportTotalsAddUp(kept: seq<OrderRow>)
    ensures SumAll(Report(kept), MemberTotal) == SumAll(kept, LineTotal)
  {
    SumTotalsOver(kept, DistinctKeys(kept, MemberName));
    PartitionSum(kept, MemberName, LineTotal);
  }

  lemma {:induction false} SumSubtotalsOver(list: seq<OrderRow>, ks: seq<string>)
    ensures SumAll(ItemsOver(list, ks), ItemSubtotal) == SumOverKeys(list, ItemLabel, ks, LineTotal)
  {
    if ks != [] {
      var q := ks[..|ks| - 1];
      SumSubtotalsOver(list, q);
      var r := ItemsOver(list, ks);
      assert r[..|r| - 1] == ItemsOver(list, q);
    }
  }

  /** A member's total is the sum of its item subtotals. */
  lemma SummaryTotalAddsUp(name: string, list: seq<OrderRow>)
    ensures SumAll(Summarize(name, list).items, ItemSubtotal) == Summarize(name, list).total
  {
    SumSubtotalsOver(list, DistinctKeys(list, ItemLabel));
    PartitionSum(list, ItemLabel, LineTotal);
  }

  /** Without a name filter every row of the period is kept; with one, a
      kept row's lower-cased member name contains the filter. */
  lemma FilterMeaning(rows: seq<OrderRow>, name: string, r: OrderRow)
    ensures NameFilter(name) == "" ==> Filter(rows, NameMatches(NameFilter(name))) == rows
    ensures r in Filter(rows, NameMatches(NameFilter(name))) <==>
      r in rows && (NameFilter(name) == "" || Contains(Lower(MemberName(r)), NameFilter(name)))
  {
    if NameFilter(name) == "" {
      FilterAll(rows, NameMatches(NameFilter(name)));
    }
    FilterMembers(rows, NameMatches(NameFilter(name)), r);
  }

  // ---- the handler ----

  /** `order` lists the members of `kept` in order of first appearance and
      `grouped` maps each of them, and nothing else, to its rows. */
  ghost predicate Grouped(kept: seq<OrderRow>, order: seq<string>, grouped: map<string, seq<OrderRow>>) {
    && order == DistinctKeys(kept, MemberName)
    && (forall m :: m in grouped <==> m in order)
    && (forall m :: m in grouped ==> grouped[m] == FilterKey(kept, MemberName, m))
  }

  /** Appending a row to its member's list, opening the list first when the
      member is new, keeps the grouping of the kept rows. */
  lemma GroupStep(kept: seq<OrderRow>, row: OrderRow, order: seq<string>, grouped: map<string, seq<OrderRow>>)
    requires Grouped(kept, order, grouped)
    ensures var m := MemberName(row);
      Grouped(kept + [row], if m in grouped then order else order + [m],
              grouped[m := (if m in grouped then grouped[m] else []) + [row]])
  {
    var mn := MemberName(row);
    DistinctKeysSnoc(kept, row, MemberName);
    if mn !in grouped {
      NewMemberHasNoRows(kept, mn);
    }
    var g := grouped[mn := (if mn in grouped then grouped[mn] else []) + [row]];
    forall m | m in g
      ensures g[m] == FilterKey(kept + [row], MemberName, m)
    {
      FilterKeySnoc(kept, row, MemberName, m);
    }
  }

  /** A member without a list yet has no kept rows so far. */
  lemma NewMemberHasNoRows(kept: seq<OrderRow>, m: string)
    requires m !in DistinctKeys(kept, MemberName)
    ensures FilterKey(kept, MemberName, m) == []
  {
    DistinctKeysSpec(kept, MemberName);
    var g := FilterKey(kept, MemberName, m);
    if g != [] {
      assert g[0] in g;
      FilterKeyMembers(kept, MemberName, m, g[0]);
    }
  }

  /** The rows a name filter keeps from a prefix grow by the next row exactly
      when that row passes the filter. */
  lemma KeptPrefix(data: seq<OrderRow>, i: nat, f: string)
    requires i < |data|
    ensures Filter(data[..i + 1], NameMatches(f)) ==
      if NameMatches(f)(data[i]) then Filter(data[..i], NameMatches(f)) + [data[i]]
      else Filter(data[..i], NameMatches(f))
  {
    assert data[..i + 1] == data[..i] + [data[i]];
    FilterSnoc(data[..i], data[i], NameMatches(f));
  }

  /** The first loop: the kept rows appended to their member's list, the
      members in order of first appearance. */
  method GroupByMember(data: seq<OrderRow>, f: string) returns (order: seq<string>, grouped: map<string, seq<OrderRow>>)
    ensures Grouped(Filter(data, NameMatches(f)), order, grouped)
  {
    order := [];
    grouped := map[];
    ghost var kept: seq<OrderRow> := [];
    var i := 0;
    while i < |data|
      invariant 0 <= i <= |data|
      invariant kept == Filter(data[..i], NameMatches(f))
      invariant Grouped(kept, order, grouped)
    {
      var row := data[i];
      KeptPrefix(data, i, f);
      if !Passes(f, row) {
        i := i + 1;
        continue;
      }
      order, grouped := AddRow(kept, row, order, grouped);
      kept := kept + [row];
      i := i + 1;
    }
    assert data[..i] == data;
  }

  /** `grouped[name] = grouped[name] || []; grouped[name].push(row)`, with
      the member noted in `order` when it is new. */
  method AddRow(ghost kept: seq<OrderRow>, row: OrderRow, order: seq<string>, grouped: map<string, seq<OrderRow>>)
    returns (order': seq<string>, grouped': map<string, seq<OrderRow>>)
    requires Grouped(kept, order, grouped)
    ensures Grouped(kept + [row], order', grouped')
  {
    var mname := MemberName(row);
    GroupStep(kept, row, order, grouped);
    var list := if mname in grouped then grouped[mname] else [];
    order' := if mname in grouped then order else order + [mname];
    grouped' := grouped[mname := list + [row]];
  }

  /** `itemOrder` lists the item labels of `seen` in order of first
      appearance, `itemAgg` maps each of them, and nothing else, to its summed
      quantity and line total, and `total` is the sum of all line totals. */
  ghost predicate Tallied(seen: seq<OrderRow>, itemOrder: seq<string>, itemAgg: map<string, Tally>, total: int) {
    && itemOrder == DistinctKeys(seen, ItemLabel)
    && (forall k :: k in itemAgg <==> k in itemOrder)
    && (forall k :: k in itemAgg ==>
          itemAgg[k] == Tally(SumKey(seen, ItemLabel, k, RowQty), SumKey(seen, ItemLabel, k, LineTotal)))
    && total == SumAll(seen, LineTotal)
  }

  /** Adding one row's quantity and line total to its label's tally, opening
      the tally first when the label is new, keeps the tallies of the rows
      seen. */
  lemma TallyStep(seen: seq<OrderRow>, r: OrderRow, itemOrder: seq<string>, itemAgg: map<string, Tally>, total: int)
    requires Tallied(seen, itemOrder, itemAgg, total)
    ensures var k := ItemLabel(r);
      var prev := if k in itemAgg then itemAgg[k] else Tally(0, 0);
      Tallied(seen + [r], if k in itemAgg then itemOrder else itemOrder + [k],
              itemAgg[k := Tally(prev.qty + r.qty, prev.subtotal + LineTotal(r))], total + LineTotal(r))
  {
    var key := ItemLabel(r);
    if key !in itemAgg {
      SumKeyAbsent(seen, ItemLabel, key, RowQty);
      SumKeyAbsent(seen, ItemLabel, key, LineTotal);
    }
    DistinctKeysSnoc(seen, r, ItemLabel);
    SumAllSnoc(seen, r, LineTotal);
    forall k
      ensures SumKey(seen + [r], ItemLabel, k, RowQty) == SumKey(seen, ItemLabel, k, RowQty) + (if key == k then r.qty else 0)
      ensures SumKey(seen + [r], ItemLabel, k, LineTotal) == SumKey(seen, ItemLabel, k, LineTotal) + (if key == k then LineTotal(r) else 0)
    {
      SumKeySnoc(seen, r, ItemLabel, k, RowQty);
      SumKeySnoc(seen, r, ItemLabel, k, LineTotal);
    }
  }

  /** The body of the inner loop over one row:
      `itemAgg[key] = itemAgg[key] || { qty: 0, subtotal: 0 }`, then add the
      row's quantity and line total to it and to the member total. */
  method TallyRow(ghost seen: seq<OrderRow>, r: OrderRow, itemOrder: seq<string>, itemAgg: map<string, Tally>, total: int)
    returns (itemOrder': seq<string>, itemAgg': map<string, Tally>, total': int)
    requires Tallied(seen, itemOrder, itemAgg, total)
    ensures Tallied(seen + [r], itemOrder', itemAgg', total')
  {
    TallyStep(seen, r, itemOrder, itemAgg, total);
    var key := if r.item != "" then r.item else "Unknown";
    var prev := if key in itemAgg then itemAgg[key] else Tally(0, 0);
    itemOrder' := if key in itemAgg then itemOrder else itemOrder + [key];
    var line := if r.subtotal != 0 then r.subtotal else r.harga * r.qty;
    itemAgg' := itemAgg[key := Tally(prev.qty + r.qty, prev.subtotal + line)];
    total' := total + line;
  }

  /** The loop over one member's rows. */
  method TallyAll(list: seq<OrderRow>) returns (itemOrder: seq<string>, itemAgg: map<string, Tally>, total: int)
    ensures Tallied(list, itemOrder, itemAgg, total)
  {
    itemOrder := [];
    itemAgg := map[];
    total := 0;
    ghost var seen: seq<OrderRow> := [];
    var i := 0;
    while i < |list|
      invariant 0 <= i <= |list|
      invariant seen == list[..i]
      invariant Tallied(seen, itemOrder, itemAgg, total)
    {
      assert list[..i + 1] == seen + [list[i]];
      itemOrder, itemAgg, total := TallyRow(seen, list[i], itemOrder, itemAgg, total);
      seen := seen + [list[i]];
      i := i + 1;
    }
    assert list[..i] == list;
  }

  /** `Object.entries(itemAgg).map(...)`: one item summary per label, in
      `itemOrder`. */
  method ListItems(ghost list: seq<OrderRow>, itemOrder: seq<string>, itemAgg: map<string, Tally>)
    returns (items: seq<ItemSummary>)
    requires forall k :: k in itemOrder ==>
      (k in itemAgg && itemAgg[k] == Tally(SumKey(list, ItemLabel, k, RowQty), SumKey(list, ItemLabel, k, LineTotal)))
    ensures items == ItemsOver(list, itemOrder)
  {
    items := [];
    var j := 0;
    while j < |itemOrder|
      invariant 0 <= j <= |itemOrder|
      invariant items == ItemsOver(list, itemOrder[..j])
    {
      var name := itemOrder[j];
      assert itemOrder[..j + 1][..j] == itemOrder[..j];
      items := items + [ItemSummary(name, itemAgg[name].qty, itemAgg[name].subtotal)];
      j := j + 1;
    }
    assert itemOrder[..j] == itemOrder;
  }

  /** The inner loops for one member: tally quantity and line total per
      item label, in order of first appearance, and the member total; then
      list the tallies. */
  method Aggregate(mname: string, list: seq<OrderRow>) returns (summary: MemberSummary)
    ensures summary == Summarize(mname, list)
  {
    var itemOrder, itemAgg, total := TallyAll(list);
    var items := ListItems(list, itemOrder, itemAgg);
    summary := MemberSummary(mname, items, total);
  }

  /** The route: the query parameters (`name` is "" when missing) and the
      store's answer for `orders`. */
  method DashboardRoute(orderanke: Option<int>, month: Option<int>, week: Option<int>, name: string,
                        table: Fetch<seq<OrderRow>>)
    returns (r: Result<seq<MemberSummary>, DashError>)
    ensures DashboardPeriod(orderanke, month, week).None? ==> r == Failure(PeriodRequired)
    ensures DashboardPeriod(orderanke, month, week).Some? && table.QueryFailed? ==> r == Failure(DashQueryFailed)
    ensures DashboardPeriod(orderanke, month, week).Some? && table.Fetched? ==>
      r == Success(Report(Filter(RowsOfPeriod(table.data, DashboardPeriod(orderanke, month, week).value),
                                 NameMatches(NameFilter(name)))))
  {
    var period := DashboardPeriod(orderanke, month, week);
    if period.None? {
      return Failure(PeriodRequired);
    }
    if table.QueryFailed? {
      return Failure(DashQueryFailed);
    }
    var nameFilter := NameFilter(name);
    var data := RowsOfPeriod(table.data, period.value);
    var order, grouped := GroupByMember(data, nameFilter);
    var result := Summaries(Filter(data, NameMatches(nameFilter)), order, grouped);
    return Success(result);
  }

  /** The outer loop: one entry per member, in `order`. */
  method Summaries(ghost kept: seq<OrderRow>, order: seq<string>, grouped: map<string, seq<OrderRow>>)
    returns (result: seq<MemberSummary>)
    requires Grouped(kept, order, grouped)
    ensures result == Report(kept)
  {
    result := [];
    var j := 0;
    while j < |order|
      invariant 0 <= j <= |order|
      invariant result == ReportOver(kept, order[..j])
    {
      var mname := order[j];
      assert order[..j + 1][..j] == order[..j];
      var summary := Aggregate(mname, grouped[mname]);
      result := result + [summary];
      j := j + 1;
    }
    assert order[..j] == order;
  }
}
