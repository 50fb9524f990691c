/** Steps 5 to 7 of the submission route: the hangaround-vest rule, the cap
    of five vests per member and period, and the per-item `maxQty` caps, in
    that order, the first failure deciding. */
module QuantityRules {
  import opened Wrappers
  import opened Text
  import opened Sums
  import opened ItemName
  import opened OrderModel
  import opened RowBuilder

  /** At most this many vests per member and period. */
  const VestCap := 5

  function Qty(r: OrderRow): int { r.qty }

  function ReqQty(it: ItemRequest): int { it.qty }

  /** The rows a quantity query sees: `data || []`, so a failed query counts
      as no rows. */
  function Visible(orders: Fetch<seq<OrderRow>>): (t: seq<OrderRow>)
    ensures orders.Fetched? ==> t == orders.data
    ensures orders.QueryFailed? ==> t == []
  {
    if orders.Fetched? then orders.data else []
  }

  /** `ilike` without wildcards: equality up to case. */
  predicate SameIgnoringCase(a: string, b: string) {
    Upper(a) == Upper(b)
  }

  // ---- hangaround rule ----

  /** A row a hangaround member may not order: its normalized name is
      exactly "VEST" and its upper-cased text lacks "MEDIUM". */
  predicate ForbiddenForHangaround(r: OrderRow) {
    NormItemName(r.item) == "VEST" && !Contains(Upper(r.item), "MEDIUM")
  }

  /** `rowsToInsert.some(...)` */
  predicate HasInvalidVest(rows: seq<OrderRow>) {
    exists i :: 0 <= i < |rows| && ForbiddenForHangaround(rows[i])
  }

  /** The "MEDIUM" clause never changes the outcome: the hangaround rule
      rejects exactly the batches with a row whose normalized name is
      "VEST", and keeps names such as "Vest Small". */
  lemma HangaroundRuleIsExactVest(rows: seq<OrderRow>)
    ensures HasInvalidVest(rows) <==> exists i :: 0 <= i < |rows| && NormItemName(rows[i].item) == "VEST"
  {
    forall i | 0 <= i < |rows| && NormItemName(rows[i].item) == "VEST"
      ensures ForbiddenForHangaround(rows[i])
    {
      ExactVestHasNoMedium(rows[i].item);
    }
  }

  // ---- vest cap ----

  /** `vestInCart`: the quantity of the batch's vest rows. */
  function CartVestQty(rows: seq<OrderRow>): int {
    SumWhere(rows, (r: OrderRow) => IsVestItem(r.item), Qty)
  }

  /** The vest query's filter: same `nama`, same period, item matching
      `%VEST%` up to case. */
  predicate StoredVestMatch(r: OrderRow, nama: string, period: int) {
    r.nama == nama && r.orderanke == period && Contains(Upper(r.item), "VEST")
  }

  /** `existingVest`: the vest quantity already stored for the member and
      period. */
  function StoredVestQty(table: seq<OrderRow>, nama: string, period: int): int {
    SumWhere(table, (r: OrderRow) => StoredVestMatch(r, nama, period), Qty)
  }

  /** Step 6 on the two quantities: no check when the batch holds no vest
      quantity; otherwise refuse when stored plus new vests exceed five,
      reporting what is left of the five. */
  function VestVerdict(existing: int, inCart: int): (r: Option<Rejection>)
    ensures inCart <= 0 ==> r.None?
    ensures inCart > 0 ==> (r.Some? <==> existing + inCart > VestCap)
    ensures r.Some? ==> r.value.VestLimit? && r.value.remaining >= 0
    ensures r.Some? && existing <= VestCap ==> r.value.remaining == VestCap - existing
    ensures r.Some? && existing > VestCap ==> r.value.remaining == 0
  {
    if inCart > 0 then
      if existing + inCart > VestCap then Some(VestLimit(Max(0, VestCap - existing))) else None
    else None
  }

  /** Step 6 on the batch and the stored rows. */
  function VestRule(nama: string, period: int, rows: seq<OrderRow>, table: seq<OrderRow>): Option<Rejection> {
    VestVerdict(StoredVestQty(table, nama, period), CartVestQty(rows))
  }

  // ---- per-item caps ----

  /** `cartQty`: the quantity of every payload item, kept or dropped by the
      row filter, whose normalized name is `norm`. */
  function CartQty(items: seq<ItemRequest>, norm: string): int {
    SumWhere(items, (x: ItemRequest) => NormItemName(ItemKey(x)) == norm, ReqQty)
  }

  /** `dbQty`: the stored quantity of the period whose item equals `norm` up
      to case, whoever ordered it. */
  function StoredItemQty(table: seq<OrderRow>, period: int, norm: string): int {
    SumWhere(table, (r: OrderRow) => r.orderanke == period && SameIgnoringCase(r.item, norm), Qty)
  }

  /** An item with a numeric `maxQty` whose stored plus cart quantity
      exceeds it. */
  predicate ExceedsCap(it: ItemRequest, items: seq<ItemRequest>, table: seq<OrderRow>, period: int) {
    it.maxQty.Some? &&
    var norm := NormItemName(ItemKey(it));
    StoredItemQty(table, period, norm) + CartQty(items, norm) > it.maxQty.value
  }

  /** For an item with a cap: whether it exceeds it, and the error it then
      raises, in terms of its normalized name. */
  lemma ExceedsCapAt(it: ItemRequest, items: seq<ItemRequest>, table: seq<OrderRow>, period: int)
    requires it.maxQty.Some?
    ensures var norm := NormItemName(ItemKey(it));
      ExceedsCap(it, items, table, period) <==> StoredItemQty(table, period, norm) + CartQty(items, norm) > it.maxQty.value
    ensures CapRejection(it, table, period)
      == ItemLimit(it.itemName, it.maxQty.value, Max(0, it.maxQty.value - StoredItemQty(table, period, NormItemName(ItemKey(it)))))
  {
  }

  /** The error for such an item: its `itemName`, its cap and what is left of it. */
  function CapRejection(it: ItemRequest, table: seq<OrderRow>, period: int): (rej: Rejection)
    requires it.maxQty.Some?
    ensures rej.ItemLimit? && rej.itemName == it.itemName && rej.maxQty == it.maxQty.value
    ensures rej.remaining == Max(0, it.maxQty.value - StoredItemQty(table, period, NormItemName(ItemKey(it))))
  {
    var dbQty := StoredItemQty(table, period, NormItemName(ItemKey(it)));
    ItemLimit(it.itemName, it.maxQty.value, Max(0, it.maxQty.value - dbQty))
  }

  /** `ExceedsCap` for the items of one batch, as a predicate on items. */
  function CapExceeded(items: seq<ItemRequest>, table: seq<OrderRow>, period: int): ItemRequest -> bool {
    (x: ItemRequest) => ExceedsCap(x, items, table, period)
  }

  /** Step 7: the first item, in payload order, that exceeds its cap. */
  function FirstCapViolation(items: seq<ItemRequest>, table: seq<OrderRow>, period: int): (r: Option<Rejection>) {
    var k := FirstFrom(items, CapExceeded(items, table, period), 0);
    if k.None? then None
    else
      assert ExceedsCap(items[k.value], items, table, period);
      Some(CapRejection(items[k.value], table, period))
  }

  /** The caps reject exactly when some item exceeds its cap, and then they
      name the first such item. */
  lemma FirstCapViolationSpec(items: seq<ItemRequest>, table: seq<OrderRow>, period: int)
    ensures FirstCapViolation(items, table, period).None? <==> forall i :: 0 <= i < |items| ==> !ExceedsCap(items[i], items, table, period)
    ensures FirstCapViolation(items, table, period).Some? ==>
      exists i :: FirstToExceed(items, table, period, i) && FirstCapViolation(items, table, period) == Some(CapRejection(items[i], table, period))
  {
    var k := FirstFrom(items, CapExceeded(items, table, period), 0);
    FirstFromSpec(items, CapExceeded(items, table, period), 0);
    if k.Some? {
      assert FirstToExceed(items, table, period, k.value);
    } else {
      forall i | 0 <= i < |items|
        ensures !ExceedsCap(items[i], items, table, period)
      {
        assert !CapExceeded(items, table, period)(items[i]);
      }
    }
  }

  /** Item `i` exceeds its cap and no earlier item does. */
  predicate FirstToExceed(items: seq<ItemRequest>, table: seq<OrderRow>, period: int, i: int) {
    0 <= i < |items| && ExceedsCap(items[i], items, table, period)
    && forall j :: 0 <= j < i ==> !ExceedsCap(items[j], items, table, period)
  }

  // ---- the three rules together ----

  /** Steps 5 to 7 in their order; None when all pass. */
  function CheckRules(member: Member, period: int, rows: seq<OrderRow>, items: seq<ItemRequest>, table: seq<OrderRow>): Option<Rejection>
  {
    if member.isHangaround && HasInvalidVest(rows) then Some(HangaroundVest)
    else
      var vest := VestRule(member.nama, period, rows, table);
      if vest.Some? then vest
      else FirstCapViolation(items, table, period)
  }

  /** What an admissible batch is, stated without the order of the checks. */
  predicate Admissible(member: Member, period: int, rows: seq<OrderRow>, items: seq<ItemRequest>, table: seq<OrderRow>) {
    (member.isHangaround ==> forall i :: 0 <= i < |rows| ==> NormItemName(rows[i].item) != "VEST")
    && (CartVestQty(rows) > 0 ==> StoredVestQty(table, member.nama, period) + CartVestQty(rows) <= VestCap)
    && (forall i :: 0 <= i < |items| && items[i].maxQty.Some? ==>
          var norm := NormItemName(ItemKey(items[i]));
          StoredItemQty(table, period, norm) + CartQty(items, norm) <= items[i].maxQty.value)
  }

  /** The checks pass exactly on admissible batches. */
  lemma CheckRulesAdmissible(member: Member, period: int, rows: seq<OrderRow>, items: seq<ItemRequest>, table: seq<OrderRow>)
    ensures CheckRules(member, period, rows, items, table).None? <==> Admissible(member, period, rows, items, table)
  {
    HangaroundRuleIsExactVest(rows);
    FirstCapViolationSpec(items, table, period);
  }

  /** Each refusal of the checks comes from the first rule that fails. */
  lemma CheckRulesSpec(member: Member, period: int, rows: seq<OrderRow>, items: seq<ItemRequest>, table: seq<OrderRow>)
    ensures CheckRules(member, period, rows, items, table) == Some(HangaroundVest) <==>
      member.isHangaround && (exists i :: 0 <= i < |rows| && NormItemName(rows[i].item) == "VEST")
    ensures CheckRules(member, period, rows, items, table).Some? && CheckRules(member, period, rows, items, table).value.VestLimit? <==>
      !(member.isHangaround && HasInvalidVest(rows))
      && CartVestQty(rows) > 0 && StoredVestQty(table, member.nama, period) + CartVestQty(rows) > VestCap
    ensures CheckRules(member, period, rows, items, table).Some? && CheckRules(member, period, rows, items, table).value.VestLimit? ==>
      CheckRules(member, period, rows, items, table).value.remaining == Max(0, VestCap - StoredVestQty(table, member.nama, period))
    ensures CheckRules(member, period, rows, items, table).Some? && CheckRules(member, period, rows, items, table).value.ItemLimit? ==>
      !(member.isHangaround && HasInvalidVest(rows)) && VestRule(member.nama, period, rows, table).None?
      && exists i ::
           FirstToExceed(items, table, period, i)
           && CheckRules(member, period, rows, items, table) == Some(CapRejection(items[i], table, period))
  {
    HangaroundRuleIsExactVest(rows);
    FirstCapViolationSpec(items, table, period);
  }
}
