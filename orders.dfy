/**
 * The per-table order aggregates kept by the point-of-sale client, as values:
 * the catalog lookup `items.find(i => i.id === id)`, the line adjustment and the
 * total fold of `handleUpdateQty`, and the key removal of `handleClearOrder`.
 * Prices are exact integers in minor currency units (paise).
 */
module Orders {
  import opened Wrappers

  type ItemId = string
  type TableId = string

  datatype Item = Item(id: ItemId, name: string, code: string, price: int, category: string)

  datatype Status = Idle | Active

  datatype Table = Table(id: TableId, number: int, status: Status)

  /** The lines of one order: item id to quantity. */
  type Lines = map<ItemId, int>

  /** `{ items: { itemId: quantity }, total }` */
  datatype Order = Order(items: Lines, total: int)

  /** `activeOrders`: table id to that table's order. */
  type ActiveOrders = map<TableId, Order>

  /** The order a table without an entry is shown with, `{ items: {}, total: 0 }`. */
  const EmptyOrder := Order(map[], 0)

  /** `Math.max` of two integers. */
  function Max(a: int, b: int): (m: int)
    ensures m >= a && m >= b
    ensures m == a || m == b
  {
    if a < b then b else a
  }

  /** The ids the catalog carries. */
  function Ids(items: seq<Item>): set<ItemId>
  {
    set i | i in items :: i.id
  }

  /** `items.find(i => i.id === id)`: the first catalog entry with that id, if any. */
  function Find(items: seq<Item>, id: ItemId): (r: Option<Item>)
    ensures r.Some? <==> id in Ids(items)
    ensures r.Some? ==> r.value in items && r.value.id == id
    decreases |items|
  {
    if items == [] then None
    else if items[0].id == id then Some(items[0])
    else
      assert Ids(items) == {items[0].id} + Ids(items[1..]) by {
        assert forall i :: i in items <==> i == items[0] || i in items[1..];
      }
      Find(items[1..], id)
  }

  /** `find` returns the entry at the first index that carries the id. */
  lemma {:induction false} FindFirst(items: seq<Item>, id: ItemId, k: int)
    requires 0 <= k < |items| && items[k].id == id
    requires forall j :: 0 <= j < k ==> items[j].id != id
    ensures Find(items, id) == Some(items[k])
    decreases |items|
  {
    if k > 0 {
      assert items[0].id != id;
      assert forall j :: 0 <= j < k - 1 ==> items[1..][j].id != id by {
        forall j | 0 <= j < k - 1 ensures items[1..][j].id != id {
          assert items[1..][j] == items[j + 1];
        }
      }
      FindFirst(items[1..], id, k - 1);
    }
  }

  predicate HasItem(items: seq<Item>, id: ItemId)
  {
    id in Ids(items)
  }

  /** `itemObj.price` for the entry `find` returns. */
  function Price(items: seq<Item>, id: ItemId): (p: int)
    requires HasItem(items, id)
    ensures exists k :: 0 <= k < |items| && items[k].id == id && items[k].price == p
  {
    Find(items, id).value.price
  }

  /** Every line's item can be priced against the catalog. */
  predicate Priced(lines: Lines, items: seq<Item>)
  {
    lines.Keys <= Ids(items)
  }

  /** Lines fail to be priced exactly when some line names an item missing from the catalog. */
  lemma PricedUnlessMissing(lines: Lines, items: seq<Item>)
    ensures !Priced(lines, items) <==> exists id :: id in lines && id !in Ids(items)
  {
  }

  /** No stored line holds a zero or negative quantity. */
  predicate Positive(lines: Lines)
  {
    forall id :: id in lines ==> lines[id] >= 1
  }

  predicate AllPositive(orders: ActiveOrders)
  {
    forall t :: t in orders ==> Positive(orders[t].items)
  }

  /** `order.items[itemId] || 0`: the quantity of an item, 0 when it has no line. */
  function Qty(lines: Lines, id: ItemId): (q: int)
    ensures id in lines ==> q == lines[id]
    ensures id !in lines ==> q == 0
    ensures Positive(lines) ==> q >= 0 && (q > 0 <==> id in lines)
  {
    if id in lines then lines[id] else 0
  }

  /** `prev[tableId] || { items: {}, total: 0 }` */
  function OrderFor(orders: ActiveOrders, tableId: TableId): (o: Order)
    ensures tableId in orders ==> o == orders[tableId]
    ensures tableId !in orders ==> o == EmptyOrder
    ensures AllPositive(orders) ==> Positive(o.items)
  {
    if tableId in orders then orders[tableId] else EmptyOrder
  }

  /**
   * The line map after a tap: the item's quantity becomes `max(0, qty + delta)`,
   * a line that reaches 0 is deleted, and no other line changes.
   */
  function AdjustLines(lines: Lines, id: ItemId, delta: int): (r: Lines)
    ensures Qty(r, id) == Max(0, Qty(lines, id) + delta)
    ensures Qty(r, id) >= 0
    ensures id in r <==> Qty(lines, id) + delta > 0
    ensures r - {id} == lines - {id}
    ensures Positive(lines) ==> Positive(r)
  {
    var newQty := Max(0, Qty(lines, id) + delta);
    if newQty == 0 then
      assert lines - {id} - {id} == lines - {id};
      lines - {id}
    else
      assert lines[id := newQty] - {id} == lines - {id};
      lines[id := newQty]
  }

  /** `itemObj.price * qty` for one line. */
  function Amount(lines: Lines, items: seq<Item>, id: ItemId): (a: int)
    requires id in lines && HasItem(items, id)
    ensures exists k :: 0 <= k < |items| && items[k].id == id && a == items[k].price * lines[id]
  {
    Price(items, id) * lines[id]
  }

  /** Some line of a non-empty line map; which one does not matter (see `TotalRemove`). */
  ghost function Pick(lines: Lines): (id: ItemId)
    requires |lines| > 0
    ensures id in lines
  {
    assert exists id :: id in lines by {
      var id :| id in lines.Keys;
    }
    var id :| id in lines;
    id
  }

  lemma RemoveOne(lines: Lines, id: ItemId)
    requires id in lines
    ensures (lines - {id}).Keys == lines.Keys - {id}
    ensures |lines - {id}| == |lines| - 1
  {
    assert (lines - {id}).Keys == lines.Keys - {id};
  }

  /** The copy-then-edit of `handleUpdateQty`: `{ ...order.items }`, then delete or set the item's line. */
  method CopyAdjusted(lines: Lines, itemId: ItemId, delta: int) returns (newItems: Lines)
    ensures newItems == AdjustLines(lines, itemId, delta)
  {
    var currentQty := Qty(lines, itemId);
    var newQty := Max(0, currentQty + delta);
    newItems := lines;
    if newQty == 0 {
      newItems := newItems - {itemId};
    } else {
      newItems := newItems[itemId := newQty];
    }
  }

  /** The sum of `price * qty` over the lines, each priced against the catalog `items`. */
  ghost function Total(lines: Lines, items: seq<Item>): int
    requires Priced(lines, items)
    decreases |lines|
  {
    if |lines| == 0 then 0
    else
      var id := Pick(lines);
      RemoveOne(lines, id);
      Amount(lines, items, id) + Total(lines - {id}, items)
  }

  /** The total does not depend on which line is summed first. */
  lemma {:induction false} TotalRemove(lines: Lines, items: seq<Item>, id: ItemId)
    requires Priced(lines, items) && id in lines
    ensures Total(lines, items) == Amount(lines, items, id) + Total(lines - {id}, items)
    decreases |lines|
  {
    var k := Pick(lines);
    if k != id {
      var withoutK, withoutId := lines - {k}, lines - {id};
      var withoutBoth := withoutK - {id};
      RemoveOne(lines, k);
      RemoveOne(lines, id);
      assert withoutBoth == withoutId - {k};
      assert Total(lines, items) == Amount(lines, items, k) + Total(withoutK, items);
      TotalRemove(withoutK, items, id);
      TotalRemove(withoutId, items, k);
      assert Amount(withoutK, items, id) == Amount(lines, items, id);
      assert Amount(withoutId, items, k) == Amount(lines, items, k);
    }
  }

  lemma TotalSingle(items: seq<Item>, id: ItemId, q: int)
    requires HasItem(items, id)
    ensures Total(map[id := q], items) == Price(items, id) * q
  {
    TotalRemove(map[id := q], items, id);
    assert map[id := q] - {id} == map[];
  }

  lemma MulNonNegative(a: int, b: int)
    requires a >= 0 && b >= 0
    ensures a * b >= 0
  {
  }

  lemma MulSub(p: int, a: int, b: int)
    ensures p * a - p * b == p * (a - b)
  {
  }

  /** With non-negative prices and positive quantities the total is never negative. */
  lemma {:induction false} TotalNonNegative(lines: Lines, items: seq<Item>)
    requires Priced(lines, items) && Positive(lines)
    requires forall k :: 0 <= k < |items| ==> items[k].price >= 0
    ensures Total(lines, items) >= 0
    decreases |lines|
  {
    if |lines| > 0 {
      var id :| id in lines.Keys;
      TotalRemove(lines, items, id);
      assert (lines - {id}).Keys == lines.Keys - {id};
      TotalNonNegative(lines - {id}, items);
      assert Price(items, id) >= 0;
      MulNonNegative(Price(items, id), lines[id]);
    }
  }

  /** One step of the fold: adding a priced line that is not yet summed adds its amount. */
  lemma SumStep(done: Lines, items: seq<Item>, id: ItemId, q: int)
    requires Priced(done, items) && id !in done && HasItem(items, id)
    ensures Priced(done[id := q], items)
    ensures Total(done[id := q], items) == Total(done, items) + Price(items, id) * q
  {
    assert done[id := q] - {id} == done;
    TotalRemove(done[id := q], items, id);
  }

  lemma MoveLine(lines: Lines, pending: set<ItemId>, id: ItemId)
    requires id in pending && id in lines
    ensures (lines - pending)[id := lines[id]] == lines - (pending - {id})
  {
  }

  lemma MinusKeys(lines: Lines)
    ensures lines - lines.Keys == map[]
  {
  }

  lemma MinusNothing(lines: Lines)
    ensures lines - {} == lines
  {
  }

  /**
   * The fold `Object.entries(lines).reduce((sum, [id, qty]) => sum + itemObj.price * qty, 0)`.
   * It fails, naming the offending id, when some line's item is missing from the catalog
   * (`itemObj` is `undefined` and reading its price throws).
   */
  method SumLines(lines: Lines, items: seq<Item>) returns (r: Result<int, ItemId>)
    ensures r.Ok? <==> Priced(lines, items)
    ensures r.Ok? ==> r.value == Total(lines, items)
    ensures r.Err? ==> r.error in lines && !HasItem(items, r.error)
  {
    var pending := lines.Keys;
    var sum := 0;
    ghost var done: Lines := map[];
    MinusKeys(lines);
    while pending != {}
      invariant pending <= lines.Keys
      invariant done == lines - pending
      invariant Priced(done, items)
      invariant sum == Total(done, items)
      decreases |pending|
    {
      var id :| id in pending;
      var found := Find(items, id);
      if found.None? {
        return Err(id);
      }
      SumStep(done, items, id, lines[id]);
      MoveLine(lines, pending, id);
      sum := sum + found.value.price * lines[id];
      done := done[id := lines[id]];
      pending := pending - {id};
    }
    MinusNothing(lines);
    return Ok(sum);
  }

  /** The total is the item's share plus the total of every other line. */
  lemma TotalSplit(lines: Lines, items: seq<Item>, id: ItemId)
    requires Priced(lines, items) && HasItem(items, id)
    ensures Total(lines, items) == Price(items, id) * Qty(lines, id) + Total(lines - {id}, items)
  {
    if id in lines {
      TotalRemove(lines, items, id);
    } else {
      assert lines - {id} == lines;
      assert Price(items, id) * 0 == 0;
    }
  }

  /** Two line maps that differ only in one item's line differ in total by that item's price times the difference in quantity. */
  lemma TotalOneLine(before: Lines, after: Lines, items: seq<Item>, id: ItemId)
    requires Priced(before, items) && Priced(after, items) && HasItem(items, id)
    requires before - {id} == after - {id}
    ensures Total(after, items) == Total(before, items) + Price(items, id) * (Qty(after, id) - Qty(before, id))
  {
    var p, a, b := Price(items, id), Qty(after, id), Qty(before, id);
    TotalSplit(before, items, id);
    TotalSplit(after, items, id);
    MulSub(p, a, b);
  }

  /** Adjusting one line changes the total by that item's price times the change in its quantity. */
  lemma AdjustTotal(lines: Lines, items: seq<Item>, id: ItemId, delta: int)
    requires Priced(lines, items) && HasItem(items, id)
    ensures var after := AdjustLines(lines, id, delta);
      && Priced(after, items)
      && Total(after, items) == Total(lines, items) + Price(items, id) * (Qty(after, id) - Qty(lines, id))
  {
    TotalOneLine(lines, AdjustLines(lines, id, delta), items, id);
  }

  /**
   * `setActiveOrders(prev => ...)` in `handleUpdateQty`: the store after adjusting
   * `itemId` by `delta` on table `tableId`, or `None` when the new lines cannot be priced.
   */
  ghost function Adjusted(orders: ActiveOrders, items: seq<Item>, tableId: TableId, itemId: ItemId, delta: int)
    : (r: Option<ActiveOrders>)
    ensures r.None? <==> exists id :: id in AdjustLines(OrderFor(orders, tableId).items, itemId, delta) && id !in Ids(items)
    ensures r.Some? ==> r.value.Keys == orders.Keys + {tableId}
    ensures r.Some? ==> forall t :: t in orders && t != tableId ==> r.value[t] == orders[t]
  {
    var newLines := AdjustLines(OrderFor(orders, tableId).items, itemId, delta);
    PricedUnlessMissing(newLines, items);
    if Priced(newLines, items) then
      var order := Order(newLines, Total(newLines, items));
      WriteOne(orders, tableId, order);
      Some(orders[tableId := order])
    else
      None
  }

  /** Writing one table's entry adds its key and leaves every other entry as it was. */
  lemma WriteOne(orders: ActiveOrders, tableId: TableId, order: Order)
    ensures orders[tableId := order].Keys == orders.Keys + {tableId}
    ensures forall t :: t in orders && t != tableId ==> orders[tableId := order][t] == orders[t]
  {
  }

  /**
   * What a successful adjustment stores for the touched table: the item's quantity is
   * `max(0, old + delta)`, every other line is as before, and the total is the catalog
   * total of the new lines.
   */
  lemma AdjustedOrder(orders: ActiveOrders, items: seq<Item>, tableId: TableId, itemId: ItemId, delta: int)
    requires Adjusted(orders, items, tableId, itemId, delta).Some?
    ensures var order := Adjusted(orders, items, tableId, itemId, delta).value[tableId];
      && Qty(order.items, itemId) == Max(0, Qty(OrderFor(orders, tableId).items, itemId) + delta)
      && (forall id :: id != itemId ==> Qty(order.items, id) == Qty(OrderFor(orders, tableId).items, id))
      && order.items - {itemId} == OrderFor(orders, tableId).items - {itemId}
      && (itemId in order.items <==> Qty(OrderFor(orders, tableId).items, itemId) + delta > 0)
      && Priced(order.items, items)
      && order.total == Total(order.items, items)
  {
  }

  /** Adjusting keeps every stored quantity positive. */
  lemma AdjustedPositive(orders: ActiveOrders, items: seq<Item>, tableId: TableId, itemId: ItemId, delta: int)
    requires AllPositive(orders) && Adjusted(orders, items, tableId, itemId, delta).Some?
    ensures AllPositive(Adjusted(orders, items, tableId, itemId, delta).value)
  {
  }

  /**
   * Every stored total is the bill total of its lines under `pricedWith[t]`, the
   * catalog that was current when table `t` was last updated.
   */
  ghost predicate TotalsConsistent(orders: ActiveOrders, pricedWith: map<TableId, seq<Item>>)
  {
    forall t :: t in orders ==>
      t in pricedWith && Priced(orders[t].items, pricedWith[t]) && orders[t].total == Total(orders[t].items, pricedWith[t])
  }

  /** A successful update reprices the touched table under the current catalog and leaves the others as they were. */
  lemma AdjustedConsistent(orders: ActiveOrders, pricedWith: map<TableId, seq<Item>>, items: seq<Item>,
                           tableId: TableId, itemId: ItemId, delta: int)
    requires TotalsConsistent(orders, pricedWith) && Adjusted(orders, items, tableId, itemId, delta).Some?
    ensures TotalsConsistent(Adjusted(orders, items, tableId, itemId, delta).value, pricedWith[tableId := items])
  {
    var after := Adjusted(orders, items, tableId, itemId, delta).value;
    var priced := pricedWith[tableId := items];
    forall t | t in after
      ensures t in priced && Priced(after[t].items, priced[t]) && after[t].total == Total(after[t].items, priced[t])
    {
      if t == tableId {
        AdjustedOrder(orders, items, tableId, itemId, delta);
      } else {
        assert after[t] == orders[t] && priced[t] == pricedWith[t];
      }
    }
  }

  /**
   * `setActiveOrders` in `handleClearOrder`: the table's key is removed only when the
   * user confirmed and the backend call succeeded.
   */
  function Cleared(orders: ActiveOrders, tableId: TableId, confirmed: bool, backendOk: bool): (r: ActiveOrders)
    ensures r.Keys == if confirmed && backendOk then orders.Keys - {tableId} else orders.Keys
    ensures forall t :: t in r ==> r[t] == orders[t]
  {
    if confirmed && backendOk then orders - {tableId} else orders
  }

  /** Clearing twice is the same as clearing once. */
  lemma ClearIdempotent(orders: ActiveOrders, tableId: TableId, confirmed: bool, backendOk: bool)
    ensures Cleared(Cleared(orders, tableId, confirmed, backendOk), tableId, confirmed, backendOk)
         == Cleared(orders, tableId, confirmed, backendOk)
  {
  }

  /** Clearing a table that has no entry leaves the store as it was. */
  lemma ClearAbsent(orders: ActiveOrders, tableId: TableId, confirmed: bool, backendOk: bool)
    requires tableId !in orders
    ensures Cleared(orders, tableId, confirmed, backendOk) == orders
  {
  }

  lemma ClearedPositive(orders: ActiveOrders, tableId: TableId, confirmed: bool, backendOk: bool)
    requires AllPositive(orders)
    ensures AllPositive(Cleared(orders, tableId, confirmed, backendOk))
  {
  }

  /** What a successful update stores, with both store invariants carried over to it. */
  lemma AdjustedStore(orders: ActiveOrders, pricedWith: map<TableId, seq<Item>>, items: seq<Item>,
                      tableId: TableId, itemId: ItemId, delta: int, lines: Lines, total: int)
    requires AllPositive(orders) && TotalsConsistent(orders, pricedWith)
    requires lines == AdjustLines(OrderFor(orders, tableId).items, itemId, delta)
    requires Priced(lines, items) && total == Total(lines, items)
    ensures Adjusted(orders, items, tableId, itemId, delta) == Some(orders[tableId := Order(lines, total)])
    ensures AllPositive(orders[tableId := Order(lines, total)])
    ensures TotalsConsistent(orders[tableId := Order(lines, total)], pricedWith[tableId := items])
  {
    AdjustedTo(orders, items, tableId, itemId, delta, lines, total);
    AdjustedPositive(orders, items, tableId, itemId, delta);
    AdjustedConsistent(orders, pricedWith, items, tableId, itemId, delta);
  }

  /** Clearing keeps every remaining total consistent with the catalog it was computed under. */
  lemma ClearedConsistent(orders: ActiveOrders, pricedWith: map<TableId, seq<Item>>, tableId: TableId,
                          confirmed: bool, backendOk: bool)
    requires TotalsConsistent(orders, pricedWith)
    ensures TotalsConsistent(Cleared(orders, tableId, confirmed, backendOk), pricedWith)
  {
  }

  /** Clearing the only table leaves no orders. */
  lemma ClearOnlyTable(orders: ActiveOrders, tableId: TableId)
    requires orders.Keys == {tableId}
    ensures Cleared(orders, tableId, true, true) == map[]
  {
  }

  /**
   * The stored total follows the catalog of the last update, not the current one: after
   * a price change from 8.50 to 9.00 the stored 8.50 no longer matches.
   */
  lemma StaleTotalAfterPriceChange(orders: ActiveOrders, lines: Lines, repriced: seq<Item>)
    requires lines == map["i1" := 1] && orders == map["t1" := Order(lines, 850)]
    requires repriced == [Item("i1", "Paneer Tikka", "PT01", 900, "Starters")]
    ensures TotalsConsistent(orders, map["t1" := PaneerMenu])
    ensures Priced(lines, repriced) && orders["t1"].total != Total(lines, repriced)
  {
    assert Find(PaneerMenu, "i1") == Some(PaneerMenu[0]);
    TotalSingle(PaneerMenu, "i1", 1);
    assert Find(repriced, "i1") == Some(repriced[0]);
    TotalSingle(repriced, "i1", 1);
  }

  /** Reads off a successful adjustment once its new lines and their total are known. */
  lemma AdjustedTo(orders: ActiveOrders, items: seq<Item>, tableId: TableId, itemId: ItemId, delta: int,
                   lines: Lines, total: int)
    requires lines == AdjustLines(OrderFor(orders, tableId).items, itemId, delta)
    requires Priced(lines, items) && Total(lines, items) == total
    ensures Adjusted(orders, items, tableId, itemId, delta) == Some(orders[tableId := Order(lines, total)])
  {
  }

  /** A one-item catalog priced 8.50. */
  const PaneerMenu := [Item("i1", "Paneer Tikka", "PT01", 850, "Starters")]

  lemma PaneerStep(orders: ActiveOrders, delta: int, before: Lines, after: Lines, q: nat)
    requires OrderFor(orders, "t1").items == before
    requires AdjustLines(before, "i1", delta) == after
    requires after == if q == 0 then map[] else map["i1" := q]
    ensures Adjusted(orders, PaneerMenu, "t1", "i1", delta) == Some(orders["t1" := Order(after, 850 * q)])
  {
    PaneerTotal(after, q);
    AdjustedTo(orders, PaneerMenu, "t1", "i1", delta, after, 850 * q);
  }

  lemma PaneerTotal(lines: Lines, q: nat)
    requires lines == if q == 0 then map[] else map["i1" := q]
    ensures Priced(lines, PaneerMenu) && Total(lines, PaneerMenu) == 850 * q
  {
    assert Find(PaneerMenu, "i1") == Some(PaneerMenu[0]);
    if q > 0 {
      TotalSingle(PaneerMenu, "i1", q);
    }
  }

  /**
   * One item at 8.50: +1 gives a total of 8.50, +2 more gives 25.50, and -5 empties
   * the lines and brings the total to 0 while the table keeps its entry.
   */
  lemma {:induction false} SingleItemScenario()
    ensures var s1 := Adjusted(map[], PaneerMenu, "t1", "i1", 1);
      && s1 == Some(map["t1" := Order(map["i1" := 1], 850)])
      && var s2 := Adjusted(s1.value, PaneerMenu, "t1", "i1", 2);
      && s2 == Some(map["t1" := Order(map["i1" := 3], 2550)])
      && var s3 := Adjusted(s2.value, PaneerMenu, "t1", "i1", -5);
      && s3 == Some(map["t1" := Order(map[], 0)])
  {
    var o1 := map["t1" := Order(map["i1" := 1], 850)];
    var o2 := map["t1" := Order(map["i1" := 3], 2550)];
    StepOne(o1);
    StepTwo(o1, o2);
    StepThree(o2);
  }

  lemma StepOne(o1: ActiveOrders)
    requires o1 == map["t1" := Order(map["i1" := 1], 850)]
    ensures Adjusted(map[], PaneerMenu, "t1", "i1", 1) == Some(o1)
  {
    assert AdjustLines(map[], "i1", 1) == map["i1" := 1];
    PaneerStep(map[], 1, map[], map["i1" := 1], 1);
    assert map[]["t1" := Order(map["i1" := 1], 850)] == o1;
  }

  lemma StepTwo(o1: ActiveOrders, o2: ActiveOrders)
    requires o1 == map["t1" := Order(map["i1" := 1], 850)]
    requires o2 == map["t1" := Order(map["i1" := 3], 2550)]
    ensures Adjusted(o1, PaneerMenu, "t1", "i1", 2) == Some(o2)
  {
    assert AdjustLines(map["i1" := 1], "i1", 2) == map["i1" := 3];
    PaneerStep(o1, 2, map["i1" := 1], map["i1" := 3], 3);
    Overwrite(o1, "t1", Order(map["i1" := 1], 850), Order(map["i1" := 3], 2550));
  }

  lemma StepThree(o2: ActiveOrders)
    requires o2 == map["t1" := Order(map["i1" := 3], 2550)]
    ensures Adjusted(o2, PaneerMenu, "t1", "i1", -5) == Some(map["t1" := Order(map[], 0)])
  {
    assert AdjustLines(map["i1" := 3], "i1", -5) == map[];
    PaneerStep(o2, -5, map["i1" := 3], map[], 0);
    Overwrite(o2, "t1", Order(map["i1" := 3], 2550), Order(map[], 0));
  }

  /** A two-item catalog priced 5.00 and 3.25. */
  const SnackMenu := [Item("i1", "Lassi", "L1", 500, "Drinks"), Item("i2", "Samosa", "S1", 325, "Snacks")]

  /** One of each item on a fresh table: the total is 8.25. */
  lemma {:induction false} TwoItemScenario()
    ensures var s1 := Adjusted(map[], SnackMenu, "t2", "i1", 1);
      && s1.Some?
      && var s2 := Adjusted(s1.value, SnackMenu, "t2", "i2", 1);
      && s2 == Some(map["t2" := Order(map["i1" := 1, "i2" := 1], 825)])
  {
    var o1 := map["t2" := Order(map["i1" := 1], 500)];
    var o2 := map["t2" := Order(map["i1" := 1, "i2" := 1], 825)];
    SnackFirst(o1);
    SnackSecond(o1, o2);
  }

  lemma SnackFirst(o1: ActiveOrders)
    requires o1 == map["t2" := Order(map["i1" := 1], 500)]
    ensures Adjusted(map[], SnackMenu, "t2", "i1", 1) == Some(o1)
  {
    assert Find(SnackMenu, "i1") == Some(SnackMenu[0]);
    assert AdjustLines(map[], "i1", 1) == map["i1" := 1];
    TotalSingle(SnackMenu, "i1", 1);
    AdjustedTo(map[], SnackMenu, "t2", "i1", 1, map["i1" := 1], 500);
    assert map[]["t2" := Order(map["i1" := 1], 500)] == o1;
  }

  lemma SnackSecond(o1: ActiveOrders, o2: ActiveOrders)
    requires o1 == map["t2" := Order(map["i1" := 1], 500)]
    requires o2 == map["t2" := Order(map["i1" := 1, "i2" := 1], 825)]
    ensures Adjusted(o1, SnackMenu, "t2", "i2", 1) == Some(o2)
  {
    var both := map["i1" := 1, "i2" := 1];
    AddSecondLine(both);
    SumOfTwo(both);
    AdjustedTo(o1, SnackMenu, "t2", "i2", 1, both, 825);
    Overwrite(o1, "t2", Order(map["i1" := 1], 500), Order(both, 825));
  }

  lemma Overwrite(orders: ActiveOrders, tableId: TableId, before: Order, after: Order)
    requires orders == map[tableId := before]
    ensures orders[tableId := after] == map[tableId := after]
  {
  }

  lemma AddSecondLine(both: Lines)
    requires both == map["i1" := 1, "i2" := 1]
    ensures AdjustLines(map["i1" := 1], "i2", 1) == both
  {
  }

  lemma SumOfTwo(both: Lines)
    requires both == map["i1" := 1, "i2" := 1]
    ensures Priced(both, SnackMenu) && Total(both, SnackMenu) == 825
  {
    assert Find(SnackMenu, "i1") == Some(SnackMenu[0]);
    assert Find(SnackMenu, "i2") == Some(SnackMenu[1]);
    assert both - {"i2"} == map["i1" := 1];
    TotalRemove(both, SnackMenu, "i2");
    TotalSingle(SnackMenu, "i1", 1);
  }

  /** A `-1` on a table with no order still creates its entry, with no lines and total 0. */
  lemma {:induction false} DecrementCreatesEmptyEntry(orders: ActiveOrders, items: seq<Item>, tableId: TableId, itemId: ItemId)
    requires tableId !in orders
    ensures Adjusted(orders, items, tableId, itemId, -1) == Some(orders[tableId := EmptyOrder])
  {
    assert AdjustLines(map[], itemId, -1) == map[];
  }

  /**
   * A line whose item has left the catalog (deleted while still ordered) makes every
   * adjustment of another item on that table fail.
   */
  lemma StaleLineBlocksTable(orders: ActiveOrders, items: seq<Item>, tableId: TableId, stale: ItemId, itemId: ItemId, delta: int)
    requires tableId in orders && stale in orders[tableId].items && stale !in Ids(items)
    requires itemId != stale
    ensures Adjusted(orders, items, tableId, itemId, delta).None?
  {
    assert stale in AdjustLines(OrderFor(orders, tableId).items, itemId, delta);
  }

  /** Adding an item that is not in the catalog fails; the store is left as it was. */
  lemma UnknownItemIncrementFails(orders: ActiveOrders, items: seq<Item>, tableId: TableId, itemId: ItemId, delta: int)
    requires itemId !in Ids(items) && Qty(OrderFor(orders, tableId).items, itemId) + delta > 0
    ensures Adjusted(orders, items, tableId, itemId, delta).None?
  {
    assert itemId in AdjustLines(OrderFor(orders, tableId).items, itemId, delta);
  }

  /**
   * Taking away an item that is not in the catalog and not in the order does not fail:
   * the table's lines are priced as before and its entry is written.
   */
  lemma UnknownItemDecrementSucceeds(orders: ActiveOrders, items: seq<Item>, tableId: TableId, itemId: ItemId, delta: int)
    requires itemId !in Ids(items) && delta <= 0
    requires Priced(OrderFor(orders, tableId).items, items) && Positive(OrderFor(orders, tableId).items)
    ensures Adjusted(orders, items, tableId, itemId, delta).Some?
    ensures Adjusted(orders, items, tableId, itemId, delta).value[tableId].items == OrderFor(orders, tableId).items
  {
    var lines := OrderFor(orders, tableId).items;
    assert itemId !in lines;
    assert AdjustLines(lines, itemId, delta) == lines by {
      assert AdjustLines(lines, itemId, delta).Keys == lines.Keys;
    }
  }
}
