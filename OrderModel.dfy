/** The entities of the order-submission route and the inputs that stand
    for the store's answers. */
module OrderModel {
  import opened Wrappers

  /** An instant, ordered as the store orders its timestamp columns. */
  type Time = int

  /** The member columns the route selects: `nama` and `is_hangaround`. */
  datatype Member = Member(nama: string, isHangaround: bool)

  /** A row of `order_windows`. */
  datatype Window = Window(orderanke: int, startTime: Time, endTime: Time, isActive: bool)

  /** One entry of `payload.items`. An absent text field is "", an absent
      number 0; `maxQty` is present exactly when it is a number. */
  datatype ItemRequest = ItemRequest(
    itemName: string, itemId: string, qty: int, harga: int, kategori: string, maxQty: Option<int>)

  /** A row of `orders`. */
  datatype OrderRow = OrderRow(
    orderId: string, memberId: int, nama: string, item: string, qty: int, orderanke: int,
    delivered: bool, waktu: Time, harga: int, subtotal: int, kategori: string)

  /** The structured body `{ memberId, items, orderanke?, delivered? }`:
      `memberId` is the result of `parseInt` (None for NaN), `orderanke` is
      None when the payload's value is falsy and otherwise its parsed value,
      and `delivered` is `payload.delivered === true`. */
  datatype Submission = Submission(
    memberId: Option<int>, items: seq<ItemRequest>, orderanke: Option<int>, delivered: bool)

  /** The request body: an array of rows, an object with an `items` array,
      or anything else. */
  datatype Body = RowArray(rows: seq<OrderRow>) | Structured(submission: Submission) | Unshaped

  /** What the store answers during one request: the member lookup by id
      (`maybeSingle`, so at most one member), the `order_windows` table, the
      `orders` table as read by the quantity queries, and whether the final
      insert succeeds. */
  datatype Store = Store(
    member: Fetch<Option<Member>>, windows: Fetch<seq<Window>>, orders: Fetch<seq<OrderRow>>,
    insertSucceeds: bool)

  /** Why a submission is refused. */
  datatype Rejection =
    | UnshapedBody
    | InvalidMemberId
    | MemberQueryFailed
    | MemberNotFound
    | NoActivePeriod
    | EmptyItems
    | HangaroundVest
    | VestLimit(remaining: int)
    | ItemLimit(itemName: string, maxQty: int, remaining: int)
    | InsertFailed

  /** The HTTP status that goes with each rejection. */
  function Status(rej: Rejection): (s: int)
    ensures s == 400 || s == 404 || s == 500
    ensures s == 404 <==> rej == MemberNotFound
    ensures s == 500 <==> rej == MemberQueryFailed || rej == InsertFailed
  {
    match rej
    case MemberNotFound => 404
    case MemberQueryFailed => 500
    case InsertFailed => 500
    case _ => 400
  }

  type Response = Result<seq<OrderRow>, Rejection>

  /** The final `insert(rowsToInsert).select()`: the inserted rows, or
      `InsertFailed` when the store rejects them. */
  function Insert(store: Store, rows: seq<OrderRow>): (r: Response)
    ensures r.Success? <==> store.insertSucceeds
    ensures r.Success? ==> r.value == rows
    ensures r.Failure? ==> r.error == InsertFailed
  {
    if store.insertSucceeds then Success(rows) else Failure(InsertFailed)
  }
}
