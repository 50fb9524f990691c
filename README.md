# Order submission, item totals and dashboard of the vest-ordering API

This project models three handlers of an Express API that collects group
orders of merchandise (vests, and other items) per ordering period
("orderanke"):

- `POST /api/orders` (`src/routes/order.js`). A row array goes to the
  `orders` table as is. A structured body `{ memberId, items, orderanke?,
  delivered? }` goes through fixed steps, and the first failure answers:
  1. the member id is checked;
  2. the member is looked up;
  3. the period comes from the payload or from the latest active order
     window;
  4. the items become rows, and rows without an item name or without a
     positive quantity are dropped;
  5. a hangaround member may not order a plain "VEST";
  6. a member may hold at most five vests per period;
  7. each item with a numeric `maxQty` may not exceed it, counting what is
     already stored for the period.

  Then everything is inserted in one call.
- The helpers `normItemName` (upper-case, collapse white space, trim) and
  `isVestItem`.
- `GET /api/orders/totals`: the quantities of one period, summed per
  upper-cased item name.
- `GET /api/dashboard` (`src/routes/dashboard.js`): the rows of one period
  are optionally narrowed by a member-name filter. They are grouped by member
  in order of first appearance. For each member the route lists the quantity
  and line total per item label, and the member's total.

The data store (Supabase) is not modelled as a program. Each handler
receives the store's answers as inputs: `Fetch<T>` is either the data or a
failed query. The handlers are methods with the source's loops. Each method
is proved equal to a specification function, and the route's promises are
lemmas about those functions:

- **Submission:** the route refuses a submission exactly when a check fails,
  and each refusal comes from the first failing rule.
- **Vest cap:** after an accepted structured submission whose vest query
  succeeded, the member holds at most five vests for the period. A row-array
  body is inserted without any check, and a failed vest query counts as no
  stored vests, so neither case keeps the cap.
- **Name normalization:** `normItemName` is idempotent and its fixed points
  are exactly the normalized names.
- **Vest matching:** `isVestItem` agrees with the store's `%VEST%` match.
- **Totals:** they lose and duplicate nothing.
- **Dashboard:** it has one entry per member and one entry per item label,
  and its totals add up.

Modules: `Wrappers`, `Text` (the string functions of JavaScript the
handlers use), `Sums` (sums, filters and grouping over sequences),
`OrderModel`, `Period`, `ItemName`, `RowBuilder`, `QuantityRules`,
`SubmitOrder`, `SubmitOrderFacts`, `ItemTotals`, `Dashboard`.

Two behaviours of the code that a reader might not expect:

- **Hangaround rule** (`src/routes/order.js:106-110`). Only a row whose
  normalized name is exactly "VEST" is refused for a hangaround member. Such
  a name never contains "MEDIUM", so the MEDIUM clause never decides
  anything, and "Vest Small" is accepted
  (`QuantityRules.HangaroundRuleIsExactVest`).
- **Store errors.** A failed vest query or `maxQty` query counts as no
  stored rows, because the code reads `data || []`
  (`src/routes/order.js:129` and `:157`): the route's outcome is the one an
  empty orders table gives (`SubmitOrderFacts.FailedOrdersQueryIsEmptyTable`).
  A failed window query answers 400, the same as finding no active window
  (`src/routes/order.js:72`, `SubmitOrderFacts.FailedWindowQueryRefused`).

## Model

| member | source | states |
|---|---|---|
| OrderModel.Status | src/routes/order.js:46-181 | only a missing member answers 404; a failed member query or a failed insert answers 500; every other refusal answers 400 |
| Period.LatestActive | src/routes/order.js:63-71 | no result exactly when no window is active with `start_time <= now <= end_time`; otherwise the result is an `orderanke` of such a window, and no covering window has a greater one |
| Period.ResolvePeriod | src/routes/order.js:60-78 | a truthy `payload.orderanke` is used as parsed, without a window check; otherwise the period is the latest covering window, and there is none exactly when no window covers `now` |
| Text.Upper | src/routes/order.js:188 | same length, each character upper-cased (ASCII letters), white space kept |
| Text.UpperFixed | src/routes/order.js:188 | upper-casing a string without lower-case letters leaves it unchanged |
| Text.TrimIsSlice | src/routes/order.js:190 | `trim()` returns a contiguous slice of its input, and everything before and after that slice is white space |
| Text.TrimEnds | src/routes/order.js:190 | a non-empty trimmed string starts and ends with a non-space character |
| Text.TrimFixed | src/routes/order.js:190 | trimming a string without white space at either end leaves it unchanged |
| Text.CollapseSingleSpaced | src/routes/order.js:189 | after `replace(/\s+/g, " ")`, white space occurs only as single ' ' characters, never two in a row |
| Text.CollapseChars | src/routes/order.js:189 | the collapsed string holds only characters of its input and ' ' |
| Text.CollapseKeepsText | src/routes/order.js:189 | with white space deleted, the collapsed string equals the input: every other character survives, in its order, and none is added |
| Text.CollapseIsScan | src/routes/order.js:189 | collapsing equals a one-pass scan that writes ' ' for the first white-space character of a run, drops the rest of the run and copies every other character |
| Text.CollapseFixed | src/routes/order.js:189 | collapsing a single-spaced string leaves it unchanged |
| Text.ContainsCollapse | src/routes/order.js:189 | for a word without white space, collapsing white space neither creates nor destroys an occurrence |
| Text.ContainsTrimStart | src/routes/order.js:190 | for a word without white space, trimming the start keeps exactly the same occurrences |
| Text.ContainsTrimEnd | src/routes/order.js:190 | trimming the end, likewise |
| ItemName.NormIsNormal | src/routes/order.js:186-191 | `normItemName` returns a normalized name: no lower-case letter, no white space at either end, only single spaces inside |
| ItemName.NormFixedPoints | src/routes/order.js:186-191 | `normItemName(s) == s` exactly when `s` is normalized |
| ItemName.NormIdempotent | src/routes/order.js:186-191 | normalizing twice is normalizing once |
| ItemName.ContainsNorm | src/routes/order.js:186-194 | for a word without white space, the normalized name contains it exactly when the upper-cased name does |
| ItemName.VestItemIsVestMatch | src/routes/order.js:119-128 | `isVestItem` holds exactly when the upper-cased name contains "VEST", which is the store's `ilike %VEST%` |
| ItemName.ExactVestHasNoMedium | src/routes/order.js:106-110 | a name that normalizes to "VEST" is a vest item and never contains "MEDIUM" |
| RowBuilder.MakeRow | src/routes/order.js:84-96 | a built row takes its item from the trimmed `itemName`, or `itemId` when the name is empty; its `qty` and `harga` come from the item, `subtotal = harga * qty`, `kategori` is the trimmed `kategori`, and the shared fields (order id, member, period, `delivered`, time) come from the submission |
| RowBuilder.KeptRowsSpec | src/routes/order.js:97 | the filter keeps exactly the rows with a non-empty item and a positive `qty`, in their order |
| RowBuilder.KeptRowsCount | src/routes/order.js:97 | each row that passes the filter is kept as many times as it occurs, every other row not at all |
| RowBuilder.BuildRowsShape | src/routes/order.js:83-97 | every built row passes the filter, belongs to the submission, has `subtotal = harga * qty` and a trimmed item; the rows are a subsequence of the mapped items |
| RowBuilder.BuildRowsComplete | src/routes/order.js:83-97 | each row comes from a surviving item, and every surviving item gives its row |
| RowBuilder.BuildRowsExact | src/routes/order.js:83-97 | mapping and then filtering equals filtering the items and then mapping: exactly one row per surviving item, in the items' order |
| RowBuilder.BuildRowsEmpty | src/routes/order.js:97-101 | no rows exactly when no item has a non-empty trimmed name and a positive quantity |
| RowBuilder.SubtotalsAddUp | src/routes/order.js:94-97 | the rows' subtotals add up to `harga * qty` summed over the surviving items |
| QuantityRules.HangaroundRuleIsExactVest | src/routes/order.js:104-116 | the hangaround rule fires exactly when some row's normalized name is "VEST" |
| QuantityRules.VestVerdict | src/routes/order.js:119-143 | the vest cap is not checked without vests in the cart; otherwise it refuses exactly when stored plus cart vests exceed 5, reporting `max(0, 5 - stored)` |
| QuantityRules.CapRejection | src/routes/order.js:158-166 | the cap error names the item and its cap and reports `max(0, maxQty - dbQty)` |
| QuantityRules.FirstCapViolationSpec | src/routes/order.js:145-169 | the caps refuse exactly when some item with a numeric `maxQty` has stored plus cart quantity above it; the error then names the first such item in payload order |
| QuantityRules.CheckRulesAdmissible | src/routes/order.js:103-169 | steps 5 to 7 pass exactly on admissible batches: no hangaround member orders a plain "VEST", stored plus cart vests stay within 5 when the cart holds vests, and no item with a numeric `maxQty` exceeds it |
| QuantityRules.CheckRulesSpec | src/routes/order.js:103-169 | a hangaround refusal happens exactly for a plain "VEST"; a vest refusal happens exactly when the hangaround rule passes and the cap is exceeded; an item refusal names the first item over its cap |
| SubmitOrder.Submit | src/routes/order.js:30-183 | the handler computes the route's specification: a row array goes straight to the insert, an unshaped body is refused, and a structured body is inserted only when every check passes |
| SubmitOrder.PrepareRows | src/routes/order.js:31-169 | steps 1 to 4 and the rule checks, returning at the first refusal, compute the specification of a structured body |
| SubmitOrder.CheckBatch | src/routes/order.js:103-169 | the three rules run in the handler's order and give the combined verdict of steps 5 to 7 |
| SubmitOrder.CheckCaps | src/routes/order.js:145-169 | the `for` loop over the payload items returns the first cap violation, or none |
| SubmitOrder.CapCheck | src/routes/order.js:147-167 | one item refuses exactly when it has a numeric `maxQty` and its stored plus cart quantity exceeds it; the refusal is that item's cap error |
| SubmitOrderFacts.AcceptedExactly | src/routes/order.js:30-183 | a structured submission is stored exactly when its id is valid, its member exists, it has a period, at least one row survives, the rules admit the batch and the insert succeeds; what is stored is exactly the built rows |
| SubmitOrderFacts.RefusedBeforeInsert | src/routes/order.js:45-169 | every refusal other than a failed insert is decided before the insert, whatever the insert would do |
| SubmitOrderFacts.FailedWindowQueryRefused | src/routes/order.js:60-74 | without a payload `orderanke`, a failed window query refuses a submission with a valid id and a known member as `NoActivePeriod`, answered with 400 |
| SubmitOrderFacts.FailedOrdersQueryIsEmptyTable | src/routes/order.js:122-157 | when the orders query fails, every body gets the outcome it would get against an empty orders table |
| SubmitOrderFacts.InvalidIdRefused | src/routes/order.js:45-48 | a missing, zero or negative member id is refused whatever the store holds, and nothing else gives that refusal |
| SubmitOrderFacts.VestQtyAfterInsert | src/routes/order.js:119-132 | inserting a submission's rows adds exactly their cart vest quantity to the stored vest quantity the route counts |
| SubmitOrderFacts.VestCapAfterInsert | src/routes/order.js:118-143 | after an accepted structured submission that adds vests, and whose vest query succeeded, the member's stored vest quantity for the period is at most 5 |
| Sums.DistinctKeysSpec | src/routes/dashboard.js:22-28 | the distinct keys hold each key once, and exactly the keys of the elements |
| Sums.DistinctKeysOrder | src/routes/dashboard.js:22-28 | the distinct keys are in order of first appearance: of two listed keys, the earlier one first occurs earlier |
| Sums.PartitionSum | src/routes/order.js:236-241 | summing per key and then over the keys gives the sum over all elements |
| Sums.FilterMembers | src/routes/dashboard.js:23-25 | an element survives a filter exactly when it is in the input and passes the condition |
| ItemTotals.TotalsMeaning | src/routes/order.js:236-241 | a key is in the totals exactly when it is the upper-cased item of some row, and its value is the quantity of the rows with that key |
| ItemTotals.TotalsAddUp | src/routes/order.js:236-241 | the totals, summed over their keys, give the quantity of all rows of the period |
| ItemTotals.Accumulate | src/routes/order.js:236-241 | the `forEach` loop computes the fold over the rows |
| ItemTotals.Totals | src/routes/order.js:224-244 | a missing `orderanke` gives 400, a failed query 500; otherwise the result is the totals of the rows of that period |
| Dashboard.PeriodEncoding | src/routes/dashboard.js:10-14 | for a month of at least 1 and a week from 1 to 9, the period `month * 10 + week` gives back its month and its week |
| Dashboard.FilterMeaning | src/routes/dashboard.js:9-25 | with an empty filter every row of the period is kept; otherwise a row is kept exactly when its lower-cased member name contains the trimmed, lower-cased filter |
| Dashboard.RowInOneGroup | src/routes/dashboard.js:24-27 | every kept row is in its own member's group and in no other |
| Dashboard.GroupStep | src/routes/dashboard.js:26-27 | appending a row to its member's list, opening the list when the member is new, keeps the grouping of the rows seen |
| Dashboard.AddRow | src/routes/dashboard.js:26-27 | the loop body keeps `order`, the member map's insertion order, and the map's contents equal to the grouping of the rows seen |
| Dashboard.GroupByMember | src/routes/dashboard.js:22-28 | the first loop gives the members of the kept rows in order of first appearance, each mapped to exactly its kept rows |
| Dashboard.TallyStep | src/routes/dashboard.js:35-40 | adding a row to its label's tally and to the total keeps the per-label sums and the total of the rows seen |
| Dashboard.TallyRow | src/routes/dashboard.js:35-40 | the inner loop body keeps the tallies equal to the per-label sums of the rows seen |
| Dashboard.TallyAll | src/routes/dashboard.js:32-41 | the inner loop gives the item labels in order of first appearance, each label's summed `qty` and line total, and the member total |
| Dashboard.ListItems | src/routes/dashboard.js:44 | the item list has one entry per label, in insertion order, with its tally |
| Dashboard.Aggregate | src/routes/dashboard.js:31-46 | one member's entry is the summary of its rows |
| Dashboard.Summaries | src/routes/dashboard.js:30-47 | the outer loop gives one entry per member, in insertion order |
| Dashboard.DashboardRoute | src/routes/dashboard.js:6-50 | without a truthy `orderanke`, or a truthy month and week, it answers 400; a failed query gives 500; otherwise the result is the report of the period's rows that pass the name filter |
| Dashboard.ReportMembers | src/routes/dashboard.js:22-47 | the report has one entry per member name of the kept rows, each name once and no name without a kept row, and each entry summarizes exactly that member's rows |
| Dashboard.ReportNames | src/routes/dashboard.js:22-47 | the entries are named, one each and in the same order, by the distinct member names of the kept rows; every entry's name is that of some kept row |
| Dashboard.ReportOrder | src/routes/dashboard.js:22-47 | the members come in order of first appearance: of two entries, the earlier one's member has a kept row before the first row of the later one's |
| Dashboard.SummaryItems | src/routes/dashboard.js:32-46 | a member's item list has one entry per item label, each label once and no label without a row, each with the `qty` and line total summed over that label's rows |
| Dashboard.SummaryNames | src/routes/dashboard.js:32-46 | the item entries are named, one each and in the same order, by the distinct item labels of the member's rows; every entry's label is that of some row |
| Dashboard.SummaryOrder | src/routes/dashboard.js:32-46 | the items come in order of first appearance of their labels |
| Dashboard.ReportTotalsAddUp | src/routes/dashboard.js:30-47 | the member totals add up to the line totals of all kept rows |
| Dashboard.SummaryTotalAddsUp | src/routes/dashboard.js:33-46 | a member's total is the sum of its item subtotals |

## Left out

- The data store. Supabase queries, the insert and their errors are inputs
  (`Store`, `Fetch`). Store-side ordering, limits and SQL semantics are
  stated as functions on sequences.
- The orders table is one snapshot. The vest query and every `maxQty` query
  read the same `orders` answer, so a failure of any of them is one shared
  flag. The race between concurrent submissions, where two requests both
  pass the cap before either inserts, is not modelled.
- The clock, `Date.now()` and `Math.random()`. `now` (the window query's
  time), `waktu` and the order id are separate parameters.
- RowBuilder.RowContext: all rows of a submission get one `waktu`, while the
  source takes a fresh timestamp per row inside the `map`
  (`src/routes/order.js:92`).
- JavaScript numbers. Integers stand for JavaScript numbers. `parseInt`,
  `Number` and NaN appear only through their outcome: a payload `orderanke`
  or query parameter is absent when falsy. A truthy value that parses to NaN
  is not modelled, and neither are fractional quantities or prices.
- Text. Case mapping covers ASCII letters only; `toUpperCase` and
  `toLowerCase` on other scripts are out. White space is the set `\s` and
  `trim` use.
- `ilike`. With `norm` as pattern, the model compares `norm` with the stored
  item up to case. The wildcards `%` and `_` inside an item name are not
  interpreted.
- Field coercion. `String(...)` and `Number(...)` on non-string or
  non-number fields are not modelled. An absent payload text field is "",
  an absent number is 0, and a `maxQty` that is no number is absent.
- Stored rows with a NULL `item`. The model takes every stored row's `item`
  to be a string. The crash of `/totals` on `row.item.toUpperCase()` for a
  NULL item (`src/routes/order.js:239`) is not modelled, and neither is
  `ilike` never matching NULL. Read as "", a NULL item would be counted by
  the `maxQty` query for an item that normalizes to "", and by `/totals`
  under the key "".
- The JSON encoding of responses, and the key order of the totals object. An
  upper-cased key can never be a name such as `__proto__`, because every
  such name contains lower-case letters.
- Dashboard.DashboardPeriod: `month * 10 + week` is taken as computed; for a
  week outside 1 to 9 two periods can coincide (month 2 with week -1 and
  month 1 with week 9 both give 19) (`PeriodEncoding` states when
  they cannot).
- `data || []`. A successful query that returns no data object is not
  distinguished from an empty table.
- Express routing, middleware, authentication and the other routes of the
  repository: the order listings, posting to Discord, the dashboard's
  `/discord` stub, and the member and window CRUD routes.
