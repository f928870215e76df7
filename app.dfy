/**
 * The client's state store: the catalog lists, the per-table orders and the toast,
 * with the handlers that change them (`handleUpdateQty`, `handleClearOrder`,
 * `fetchData`, `showToast`). Backend outcomes and the user's confirmation are inputs.
 */
module App {
  import opened Wrappers
  import opened Orders
  import Toast

  /** A response body: a JSON array, or anything else. */
  datatype Payload<T> = List(elems: seq<T>) | NotList

  /** `Array.isArray(data) ? data : []` */
  function AsList<T>(p: Payload<T>): seq<T>
  {
    match p
    case List(elems) => elems
    case NotList => []
  }

  /** The toast state `{ show, message }`. */
  datatype Notice = Notice(show: bool, message: string)

  const Hidden := Notice(false, "")

  const ConnectionError := "Connection error: Could not fetch data from server."

  class Store {
    var tables: seq<Table>
    var items: seq<Item>
    var activeOrders: ActiveOrders
    var toast: Notice
    /** For each table with an order, the catalog its total was last computed under. */
    ghost var pricedWith: map<TableId, seq<Item>>

    /**
     * Every stored line holds a quantity of at least 1, and every stored total is the
     * bill total of its lines under the catalog of that table's last update.
     */
    ghost predicate Valid()
      reads this
    {
      AllPositive(activeOrders) && TotalsConsistent(activeOrders, pricedWith)
    }

    /** The initial state of the `useState` hooks. */
    constructor ()
      ensures Valid()
      ensures tables == [] && items == [] && activeOrders == map[] && toast == Hidden
    {
      tables, items, activeOrders, toast := [], [], map[], Hidden;
      pricedWith := map[];
    }

    /** `activeOrders[tableId] || { items: {}, total: 0 }`, the order the modal shows. */
    function OrderOf(tableId: TableId): (o: Order)
      reads this
      requires Valid()
      ensures Positive(o.items)
      ensures tableId !in activeOrders ==> o == EmptyOrder
      ensures tableId in activeOrders ==> o == activeOrders[tableId]
      ensures tableId in activeOrders ==> o.total == Total(o.items, pricedWith[tableId])
    {
      OrderFor(activeOrders, tableId)
    }

    /**
     * `handleUpdateQty(itemId, delta)` on table `tableId`. When some remaining line's item
     * is missing from the catalog the update throws; then nothing changes and the
     * offending id is returned.
     */
    method AdjustQuantity(tableId: TableId, itemId: ItemId, delta: int) returns (missing: Option<ItemId>)
      requires Valid()
      modifies this`activeOrders, this`pricedWith
      ensures Valid()
      ensures var expected := Adjusted(old(activeOrders), items, tableId, itemId, delta);
        && (missing.None? <==> expected.Some?)
        && activeOrders == if expected.Some? then expected.value else old(activeOrders)
      ensures missing.Some? ==>
        missing.value in AdjustLines(OrderFor(old(activeOrders), tableId).items, itemId, delta) && missing.value !in Ids(items)
      ensures pricedWith == if missing.None? then old(pricedWith)[tableId := items] else old(pricedWith)
      ensures missing.None? ==> activeOrders[tableId].total == Total(activeOrders[tableId].items, items)
    {
      var order := OrderFor(activeOrders, tableId);
      var newItems := CopyAdjusted(order.items, itemId, delta);
      var sum := SumLines(newItems, items);
      match sum
      case Err(id) =>
        assert id in newItems && id !in Ids(items);
        missing := Some(id);
      case Ok(total) =>
        AdjustedStore(activeOrders, pricedWith, items, tableId, itemId, delta, newItems, total);
        activeOrders := activeOrders[tableId := Order(newItems, total)];
        pricedWith := pricedWith[tableId := items];
        missing := None;
    }

    /**
     * `handleClearOrder(tableId)`: asks for confirmation, then calls the backend; the
     * table's entry goes only when that call succeeds. A failed call is only logged.
     * Returns whether the backend call was made.
     */
    method ClearOrder(tableId: TableId, confirmed: bool, backendOk: bool) returns (requested: bool)
      requires Valid()
      modifies this`activeOrders
      ensures Valid()
      ensures requested == confirmed
      ensures activeOrders == Cleared(old(activeOrders), tableId, confirmed, backendOk)
    {
      requested := false;
      if confirmed {
        requested := true;
        if backendOk {
          ClearedPositive(activeOrders, tableId, confirmed, backendOk);
          ClearedConsistent(activeOrders, pricedWith, tableId, confirmed, backendOk);
          activeOrders := activeOrders - {tableId};
        }
      }
    }

    /**
     * `fetchData`: both lists are replaced together when both requests succeed
     * (`None` is a failed request); on any failure both are kept and the
     * connection-error toast is shown. Orders are not touched.
     */
    method Refresh(tablesRes: Option<Payload<Table>>, itemsRes: Option<Payload<Item>>)
      requires Valid()
      modifies this`tables, this`items, this`toast
      ensures Valid()
      ensures tablesRes.Some? && itemsRes.Some? ==>
        tables == AsList(tablesRes.value) && items == AsList(itemsRes.value) && toast == old(toast)
      ensures tablesRes.Some? && itemsRes.Some? && tablesRes.value.NotList? ==> tables == []
      ensures tablesRes.Some? && itemsRes.Some? && itemsRes.value.NotList? ==> items == []
      ensures !(tablesRes.Some? && itemsRes.Some?) ==>
        tables == old(tables) && items == old(items) && toast == Notice(true, ConnectionError)
    {
      if tablesRes.Some? && itemsRes.Some? {
        tables := AsList(tablesRes.value);
        items := AsList(itemsRes.value);
      } else {
        ShowToast(Toast.Text(ConnectionError));
      }
    }

    /** `showToast(msg)`: shows the selected message. */
    method ShowToast(msg: Toast.Thrown)
      modifies this`toast
      ensures toast == Notice(true, Toast.Message(msg))
    {
      toast := Notice(true, Toast.Message(msg));
    }

    /** The timer callback that hides the toast again. */
    method DismissToast()
      modifies this`toast
      ensures toast == Hidden
    {
      toast := Hidden;
    }
  }

  /** The single-item walk-through (8.50, then 25.50, then an empty order), driven through the store. */
  method SingleItemRun() returns (store: Store)
    ensures store.Valid()
    ensures store.items == PaneerMenu && store.tables == []
    ensures store.activeOrders == map[]
  {
    store := new Store();
    store.Refresh(Some(List([])), Some(List(PaneerMenu)));
    OrderTwice(store);
    EmptyAndClear(store);
  }

  /** +1 then +2 on a fresh table: totals 8.50 and 25.50. */
  method OrderTwice(store: Store)
    requires store.Valid() && store.items == PaneerMenu && store.activeOrders == map[]
    modifies store
    ensures store.Valid() && store.items == PaneerMenu && store.tables == old(store.tables)
    ensures store.activeOrders == map["t1" := Order(map["i1" := 3], 2550)]
  {
    var o1 := map["t1" := Order(map["i1" := 1], 850)];
    var o2 := map["t1" := Order(map["i1" := 3], 2550)];
    StepOne(o1);
    UpdateTo(store, "t1", "i1", 1, o1);
    StepTwo(o1, o2);
    UpdateTo(store, "t1", "i1", 2, o2);
  }

  /** -5 empties the lines but keeps the entry; a confirmed, successful clear then removes it. */
  method EmptyAndClear(store: Store)
    requires store.Valid() && store.items == PaneerMenu
    requires store.activeOrders == map["t1" := Order(map["i1" := 3], 2550)]
    modifies store
    ensures store.Valid() && store.items == old(store.items) && store.tables == old(store.tables)
    ensures store.activeOrders == map[]
  {
    var emptied := map["t1" := EmptyOrder];
    StepThree(store.activeOrders);
    UpdateTo(store, "t1", "i1", -5, emptied);
    ClearOnlyTable(emptied, "t1");
    ClearTo(store, "t1", map[]);
  }

  /** One quantity update whose outcome is already known to succeed with `expected`. */
  method UpdateTo(store: Store, tableId: TableId, itemId: ItemId, delta: int, expected: ActiveOrders)
    requires store.Valid()
    requires Adjusted(store.activeOrders, store.items, tableId, itemId, delta) == Some(expected)
    modifies store
    ensures store.Valid() && store.activeOrders == expected
    ensures store.items == old(store.items) && store.tables == old(store.tables)
  {
    var missing := store.AdjustQuantity(tableId, itemId, delta);
  }

  /** A confirmed clear whose backend call succeeds, with its outcome already known to be `expected`. */
  method ClearTo(store: Store, tableId: TableId, expected: ActiveOrders)
    requires store.Valid()
    requires Cleared(store.activeOrders, tableId, true, true) == expected
    modifies store
    ensures store.Valid() && store.activeOrders == expected
    ensures store.items == old(store.items) && store.tables == old(store.tables)
  {
    var requested := store.ClearOrder(tableId, true, true);
  }
}
