# TastyHut order engine, modelled in Dafny

TastyHut is a restaurant point-of-sale web client. Waiters pick a table, add and
remove menu items on it, and watch a running bill. This project models the client's
order engine and the three searches that sit in front of it:

- the store held by `App.jsx`: the catalog lists (`tables`, `items`), the per-table
  orders (`activeOrders`, each `{ items: { itemId: qty }, total }`) and the toast;
- `handleUpdateQty`: the quantity update with its line removal and its total recomputed
  over the current catalog;
- `handleClearOrder`: clearing a table after confirmation and a backend call;
- the state part of `fetchData`, and the message selection of `showToast`;
- the item search of the order modal, its displayed quantity and its -1/+1 buttons;
- the catalog search of the items tab;
- the table-number search of the tables tab, and how a card shows "Active Order",
  "Idle", the delete control and the total.

Modules, one per file:

| file | module | what it holds |
|---|---|---|
| `wrappers.dfy` | `Wrappers` | `Option` and `Result` |
| `text.dfy` | `Text` | `toLowerCase` on ASCII, `includes` as substring search, integer `toString` with its read-back |
| `filtering.dfy` | `Filtering` | `Array.prototype.filter` (`Keep`) with its counting and order guarantees |
| `orders.dfy` | `Orders` | the data model, catalog lookup, line adjustment, the bill total (`Total`) and the loop that sums it (`SumLines`), the update and clear specifications, worked scenarios |
| `toast.dfy` | `Toast` | the message `showToast` chooses |
| `app.dfy` | `App` | class `Store` with the handlers that change its fields |
| `order_modal.dfy` | `OrderModal` | the modal's filter, displayed quantity and buttons |
| `item_list.dfy` | `ItemList` | the catalog filter |
| `table_grid.dfy` | `TableGrid` | the table filter and the card rules |

Modelling choices:

- Prices and totals are exact integers in minor units (paise): 8.50 is `850`.
- Ids are strings, as JavaScript object keys are.
- The bill total is specified by the ghost function `Orders.Total`. It is defined by
  taking lines off the map one at a time. `Orders.TotalRemove` proves the result is the
  same whichever line goes first. `Orders.SumLines` is the `reduce` over
  `Object.entries(newItems)` written as a loop, and it is proved against `Total`.
- `Store.Valid()` says two things. Every stored quantity is at least 1. Every stored
  total is the bill total of its lines under the catalog that was current when that
  table was last updated. The ghost field `Store.pricedWith` records that catalog per
  table. A stored total need not match the current catalog: a refresh can change prices
  or drop items, and the source reprices only the table being edited
  (`Orders.StaleTotalAfterPriceChange`). Right after a successful update the touched
  table's total does match the current catalog.
- The user's answer to `window.confirm` and the outcome of each backend call are inputs
  to the methods.

Behaviour of the code that one might expect to be otherwise:

- A table whose last line reaches zero keeps its entry. `handleUpdateQty` always writes
  `[tableId]: { items: newItems, total: newTotal }` (client/src/App.jsx:142-145), so the
  entry stays with no lines and total 0, and the table still shows "Active Order" (see
  `Orders.DecrementCreatesEmptyEntry` and `TableGrid.ActiveWithEmptyOrder`).
- An unknown item id does not by itself make the update fail. The only failure is the
  `itemObj.price` dereference in the `reduce` (client/src/App.jsx:138-139), so the
  update fails exactly when an unknown id ends up among the new lines. A -1 on an
  unknown item that is not ordered succeeds (see `Orders.UnknownItemIncrementFails` and
  `Orders.UnknownItemDecrementSucceeds`). A line whose item has since left the catalog
  blocks every update on that table (see `Orders.StaleLineBlocksTable`).
- A failed clear is not shown to the user. The `catch` at client/src/App.jsx:159-161
  only writes to the console: there is no toast, and the orders are unchanged.

## Model

| member | source | states |
|---|---|---|
| Orders.Find | client/src/App.jsx:138 | finds an item exactly when the catalog holds one with that id, and what it returns is a catalog item with that id |
| Orders.FindFirst | client/src/App.jsx:138 | `find` returns the first catalog entry with the id, even when several share it |
| Orders.AdjustLines | client/src/App.jsx:125-134 | the new quantity is `max(0, old + delta)`, where an absent line counts as 0, so it is never negative; the line is stored exactly when that is positive; every other line is unchanged; lines that were all positive stay positive |
| Orders.TotalRemove | client/src/App.jsx:137-140 | the bill total does not depend on the order in which lines are summed: any one line contributes exactly price × quantity |
| Orders.TotalNonNegative | client/src/App.jsx:137-140 | with non-negative prices and positive quantities, the bill total is never negative |
| Orders.SumLines | client/src/App.jsx:137-140 | the fold succeeds exactly when every line's item is in the catalog, and then returns the bill total; otherwise it names a line whose item is missing |
| Orders.TotalOneLine | client/src/App.jsx:137-140 | when two sets of lines differ in one item only, their totals differ by that item's price times the change in its quantity |
| Orders.AdjustTotal | client/src/App.jsx:125-140 | adjusting one item by any delta changes the bill total by its price times the actual change in quantity, including when the quantity is floored at 0 |
| Orders.Adjusted | client/src/App.jsx:124-146 | the update fails exactly when some line of the new order names an item not in the catalog; on success the table's key is present (added if new) and every other table's order is identical |
| Orders.AdjustedOrder | client/src/App.jsx:125-145 | on success the touched table holds `max(0, old + delta)` of the item, every other line as before (the same keys and values apart from the item), the item has a line exactly when `old + delta` is positive, and the total equals the catalog total of its new lines |
| Orders.AdjustedPositive | client/src/App.jsx:129-134 | a successful update keeps every stored quantity at least 1 |
| Orders.Cleared | client/src/App.jsx:149-161 | the table's key is removed exactly when the user confirmed and the backend call succeeded; every remaining order is unchanged |
| Orders.ClearIdempotent | client/src/App.jsx:153-157 | clearing twice is the same as clearing once |
| Orders.ClearAbsent | client/src/App.jsx:153-157 | clearing a table with no order leaves the orders unchanged |
| Orders.ClearedPositive | client/src/App.jsx:153-157 | clearing keeps every stored quantity at least 1 |
| Orders.SingleItemScenario | client/src/App.jsx:120-147 | with one item at 8.50 on a fresh table, +1 gives total 8.50, +2 gives 25.50, and -5 gives no lines and total 0 while the table keeps its entry |
| Orders.TwoItemScenario | client/src/App.jsx:137-140 | one 5.00 item and one 3.25 item on a fresh table total 8.25 |
| Orders.DecrementCreatesEmptyEntry | client/src/App.jsx:125-145 | in any store, a -1 on a table with no entry adds that entry with no lines and total 0 and changes nothing else, for any catalog and item |
| Orders.StaleLineBlocksTable | client/src/App.jsx:138-139 | a line whose item has left the catalog makes every update of another item on that table fail |
| Orders.UnknownItemIncrementFails | client/src/App.jsx:133-139 | raising an unknown item to a positive quantity fails |
| Orders.UnknownItemDecrementSucceeds | client/src/App.jsx:126-144 | a non-positive delta on an unknown, unordered item succeeds and leaves the table's lines as they were |
| Text.Lower | client/src/components/ItemList.jsx:4 | lowercasing keeps the length and lowers each character on its own |
| Text.LowerIgnoresCase | client/src/components/ItemList.jsx:4 | strings equal up to letter case lowercase to the same string |
| Text.Includes | client/src/components/OrderModal.jsx:7 | `includes` is true exactly when the query occurs at some position of the string |
| Text.IncludedCharsOccur | client/src/components/TableGrid.jsx:5 | every character of a found query is a character of the string searched |
| Text.Digits | client/src/components/TableGrid.jsx:5 | a natural number renders as a non-empty string of decimal digits whose first digit is '0' exactly when the number is 0, so there are no leading zeros |
| Text.DecimalString | client/src/components/TableGrid.jsx:5 | an integer renders as a non-empty string that starts with '-' exactly when it is negative and is otherwise all digits; 0 renders as "0", and no other number has a leading zero |
| Text.DigitsRoundTrip | client/src/components/TableGrid.jsx:5 | reading back the digits of a natural number gives the number |
| Text.DecimalRoundTrip | client/src/components/TableGrid.jsx:5 | reading back the rendering of any integer gives the integer, so distinct table numbers render differently |
| Filtering.Keep | client/src/components/OrderModal.jsx:6 | the filtered list is no longer than the input, keeps each element the predicate accepts exactly as often as it occurs and no other, and is a subsequence of the input |
| Filtering.KeepAll | client/src/components/OrderModal.jsx:6 | a predicate accepting every element keeps the whole list |
| Filtering.KeepNone | client/src/components/OrderModal.jsx:6 | a predicate accepting no element keeps nothing |
| Filtering.KeepRefines | client/src/components/OrderModal.jsx:6 | filtering by a weaker and then a stronger predicate is filtering by the stronger one |
| Toast.Truthy | client/src/App.jsx:53-55 | a missing field is falsy, and a present string is truthy exactly when it is non-empty |
| Toast.FirstTruthy | client/src/App.jsx:53-59 | the result is the first truthy field, or the fallback when none is truthy |
| Toast.Message | client/src/App.jsx:49-59 | a string is shown as it is; an object shows its backend error, else its message, else its JSON rendering; a falsy value shows 'An unexpected error occurred' |
| Toast.BackendErrorFirst | client/src/App.jsx:53-54 | a non-empty backend error text wins over the transport's own message |
| App.Store.constructor | client/src/App.jsx:14-27 | the store starts with no tables, no items, no orders and a hidden toast |
| App.Store.OrderOf | client/src/App.jsx:199 | the modal's order is the table's entry, or the empty order when there is none; its quantities are positive, and a stored entry's total is the bill total under the catalog of its last update |
| App.Store.AdjustQuantity | client/src/App.jsx:120-147 | the new orders are exactly `Orders.Adjusted`, or unchanged on failure with the offending item id returned; on success the touched table's total is the bill total under the current catalog; both store invariants are kept |
| App.Store.ClearOrder | client/src/App.jsx:149-163 | the orders become `Orders.Cleared`; the backend call is made exactly when the user confirmed, whether or not the table has an order |
| App.Store.Refresh | client/src/App.jsx:30-42 | both lists are replaced, a non-array body becoming `[]`, only when both requests succeed; otherwise both lists stay and the connection-error toast shows; orders are never touched |
| App.Store.ShowToast | client/src/App.jsx:48-61 | the toast shows the message `Toast.Message` selects |
| App.Store.DismissToast | client/src/App.jsx:62 | the toast is hidden with an empty message |
| App.OrderTwice | client/src/App.jsx:120-147 | through the store, +1 and then +2 of an 8.50 item on a fresh table leave 3 of it and total 25.50 |
| App.EmptyAndClear | client/src/App.jsx:120-163 | through the store, -5 empties the lines but keeps the entry, and a confirmed, successful clear removes it |
| ItemList.FilteredItems | client/src/components/ItemList.jsx:4-9 | an item is kept exactly when the lowercased query occurs in its lowercased name, code or category; multiplicities and order are kept |
| ItemList.EmptyQueryKeepsAll | client/src/components/ItemList.jsx:4-9 | an empty query keeps every item |
| ItemList.QueryCaseIgnored | client/src/components/ItemList.jsx:4-8 | queries that differ only in letter case give the same list |
| ItemList.CategoryFoundInAnyCase | client/src/components/ItemList.jsx:8 | the query "STARTERS" finds an item of category "Starters" |
| OrderModal.FilteredItems | client/src/components/OrderModal.jsx:5-9 | an item is listed exactly when the lowercased query occurs in its lowercased name or code; multiplicities and order are kept |
| OrderModal.EmptyQueryListsAll | client/src/components/OrderModal.jsx:5-9 | an empty query lists every item |
| OrderModal.NarrowerThanCatalogSearch | client/src/components/OrderModal.jsx:5-9 | the modal lists exactly those catalog-tab matches that also match on name or code |
| OrderModal.CategoryNotSearched | client/src/components/OrderModal.jsx:6-9 | a query matching only an item's category lists nothing in the modal, while the catalog tab finds the item |
| OrderModal.DisplayedQty | client/src/components/OrderModal.jsx:44 | the shown quantity is the stored one, or 0 when the item is not ordered; on well-formed lines it is never negative, and positive exactly when the item is ordered |
| OrderModal.DisplayedAfterAdjust | client/src/components/OrderModal.jsx:44 | after a successful update the shown quantity is the previous one plus delta, floored at 0 |
| OrderModal.Delta | client/src/components/OrderModal.jsx:53-60 | the buttons pass -1 and +1, the negative one being minus |
| OrderModal.Press | client/src/components/OrderModal.jsx:53-60 | a press changes only the pressed item's line: plus raises a well-formed line by one and leaves it stored, minus lowers it by one floored at 0, and well-formed lines stay well formed |
| OrderModal.MinusUndoesPlus | client/src/components/OrderModal.jsx:53-60 | on well-formed lines, plus then minus gives back the original lines |
| OrderModal.PlusAfterMinusAtZero | client/src/components/OrderModal.jsx:53-60 | minus then plus on an unordered item leaves it at 1, not absent, because minus floors at 0 |
| TableGrid.FilteredTables | client/src/components/TableGrid.jsx:4-6 | a table is kept exactly when the raw query occurs in the decimal rendering of its number; multiplicities and order are kept |
| TableGrid.EmptyQueryKeepsAll | client/src/components/TableGrid.jsx:4-6 | an empty query keeps every table |
| TableGrid.NonNumericQueryFindsNothing | client/src/components/TableGrid.jsx:4-6 | a query containing any character other than a digit or '-' finds no table |
| TableGrid.OwnNumberFound | client/src/components/TableGrid.jsx:4-6 | searching for a table's own number finds it |
| TableGrid.SubstringNotEquality | client/src/components/TableGrid.jsx:5 | the query "1" finds tables 1 and 12 and not table 3 |
| TableGrid.IsActive | client/src/components/TableGrid.jsx:31-37 | `order ?`: an active card's order is the stored entry, an entry with no lines still makes the card active, and a table without an entry is idle |
| TableGrid.StatusLabel | client/src/components/TableGrid.jsx:56 | the card reads "Active Order" exactly when the table has an entry in the orders, and "Idle" exactly when it has none |
| TableGrid.OffersDelete | client/src/components/TableGrid.jsx:41-51 | the delete control is offered exactly when the card reads "Idle" |
| TableGrid.ShownTotal | client/src/components/TableGrid.jsx:58-62 | a total is shown exactly on active cards, and it is the table's stored total |
| TableGrid.StatusFieldIgnored | client/src/components/TableGrid.jsx:31-60 | the backend's `status` column changes neither the label nor the delete control |
| TableGrid.ActiveAfterAdjust | client/src/components/TableGrid.jsx:31-56 | after any successful update the table reads "Active Order" and cannot be deleted |
| TableGrid.ActiveWithEmptyOrder | client/src/components/TableGrid.jsx:31-62 | in any store, a -1 on a table with no entry makes its card active and not deletable, with no lines and a shown total of 0 |
| TableGrid.IdleAfterClear | client/src/components/TableGrid.jsx:31-56 | after a confirmed, successful clear the table reads "Idle" and can be deleted, and every other card keeps its label |
| Orders.Price | client/src/App.jsx:138-139 | the price used for a line is the price of a catalog entry carrying that id (the first one, by `FindFirst`) |
| Orders.Qty | client/src/App.jsx:126 | the stored quantity when the item has a line and 0 when it has none; on well-formed lines never negative, and positive exactly when the item has a line |
| Orders.OrderFor | client/src/App.jsx:125 | the stored entry when the table has one, and the empty order `{ items: {}, total: 0 }` when it has none; positive lines when the store is well formed |
| Orders.Amount | client/src/App.jsx:139 | one line's contribution is the price of a catalog entry carrying its id times its quantity |
| Orders.Max | client/src/App.jsx:127 | `Math.max`: at least both arguments and equal to one of them |
| Orders.Total | client/src/App.jsx:137-140 | the bill sum of price × quantity over the lines; its order independence is `TotalRemove`, its value under a one-line change is `TotalOneLine`, and `SumLines` computes it |
| Orders.PricedUnlessMissing | client/src/App.jsx:137-140 | the lines can all be priced exactly when no line names an item missing from the catalog |
| Orders.CopyAdjusted | client/src/App.jsx:126-134 | the copied and edited line map is exactly `AdjustLines` of the old lines |
| Orders.AdjustedConsistent | client/src/App.jsx:137-145 | after a successful update, every stored total is still the bill total under its table's pricing catalog, the touched table's being the current catalog |
| Orders.AdjustedStore | client/src/App.jsx:124-146 | once the new lines and their total are known, the update stores exactly them and keeps both store invariants |
| Orders.ClearedConsistent | client/src/App.jsx:153-157 | clearing keeps every remaining total the bill total under its pricing catalog |
| Orders.StaleTotalAfterPriceChange | client/src/App.jsx:36-37 | a total computed at 8.50 stays 8.50 in the store after the catalog changes the price to 9.00, so it no longer matches the current catalog |
| App.AsList | client/src/App.jsx:36-37 | `Array.isArray(data) ? data : []`: an array body is taken as it is, anything else becomes the empty list |
| App.SingleItemRun | client/src/App.jsx:30-163 | a fresh store refreshed with a one-item catalog, taken through +1, +2, -5 and a confirmed, successful clear, ends well formed with that catalog and no orders |
| App.UpdateTo | client/src/App.jsx:120-147 | an update known to succeed leaves the store well formed with exactly the expected orders and the catalog lists untouched |
| App.ClearTo | client/src/App.jsx:149-163 | a confirmed, successful clear leaves the store well formed with exactly the expected orders and the catalog lists untouched |
| ItemList.Matches | client/src/components/ItemList.jsx:6-8 | the item's lowercased name, code or category contains the lowercased query |
| OrderModal.Matches | client/src/components/OrderModal.jsx:7-8 | the item's lowercased name or code contains the lowercased query; the category is not consulted |
| TableGrid.Matches | client/src/components/TableGrid.jsx:5 | the decimal rendering of the table number contains the raw query |
| TableGrid.ZeroDoesNotFindSeven | client/src/components/TableGrid.jsx:5 | the query "0" does not find table 7: the match is on the exact rendering "7" |

## Left out

- Orders.Total: prices are JavaScript doubles in the source. The model uses exact integers in paise, so rounding in the sum and the order of floating-point additions are not modelled. With exact integers the order of `Object.entries` does not matter.
- Text.Lower: lowers ASCII letters only. Unicode case mapping in `toLowerCase` is not modelled.
- Text.DecimalString: renders integers only. `Number.prototype.toString` for fractions, exponents, `NaN` and `Infinity` is not modelled.
- Toast.Message: the `JSON.stringify` rendering is an input. The `error` and `message` fields are taken to be strings, so `String(...)` of a non-string field is not modelled.
- App.Store.AdjustQuantity: in the source, a missing catalog item throws a `TypeError` inside the React state updater, which aborts rendering. The model keeps the previous orders and returns the missing id instead.
- App.Store.AdjustQuantity: the table comes from `selectedTable.id`, which throws when no table is selected. The model takes the table id as a parameter.
- App.Store.ClearOrder: `setIsModalOpen(false)` after a successful clear is not modelled, because it is modal state. The console log on failure is not modelled.
- App.Store.Refresh: the two requests, their timing and overlapping refreshes are not modelled, because they are network I/O. Each request's outcome is an input.
- App.Store.ShowToast: the 2500 ms `setTimeout` is not modelled, because it is clock-driven. `DismissToast` is its callback. A timer left over from an earlier toast can hide a later toast early, and the model does not capture that.
- The unused `items.find` at client/src/App.jsx:122 has no effect and is not modelled.
- Ids from the backend are treated as strings. If they were numbers, the string object key would never be `===` to the numeric `i.id` at client/src/App.jsx:138. The model cannot express that.
- `handleCreateRequest`, `handleDeleteItem`, `handleDeleteTable`, `handleOpenModal` and `handleOpenCreateModal` are backend round-trips and modal bookkeeping outside the order engine. Only their effect through `Refresh` and `ShowToast` is modelled.
- UI state is not modelled: `activeTab`, `searchQueries`, `selectedTable`, the modal flags, `createType` and `selectedEditItem`. The search queries are passed as parameters instead.
- `toFixed(2)` price formatting, and all markup and styling, are not modelled.
- server/server.js is not part of this model. It forwards every route to the database, and its one field-renaming map keeps no invariant.
- client/src/components/CreateModal.jsx is not part of this model. It parses form fields with `parseFloat` and `parseInt`.
- Notification.jsx, ConfirmDialog.jsx, BottomNav.jsx and Header.jsx are presentation only and are not part of this model.
