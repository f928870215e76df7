/** The order-entry modal: its item search, the quantity it shows and its -1/+1 controls. */
module OrderModal {
  import opened Text
  import opened Filtering
  import opened Orders
  import ItemList

  /** The item's name or code, lowercased, contains the already lowercased `query`; category is not searched. */
  predicate Matches(query: string, item: Item)
  {
    Includes(Lower(item.name), query) || Includes(Lower(item.code), query)
  }

  /** `items.filter(...)` with the query lowercased once. */
  function FilteredItems(items: seq<Item>, searchQuery: string): (r: seq<Item>)
    ensures forall i :: i in r <==> i in items && Matches(Lower(searchQuery), i)
    ensures forall i :: multiset(r)[i] == if Matches(Lower(searchQuery), i) then multiset(items)[i] else 0
    ensures IsSubsequence(r, items)
  {
    var query := Lower(searchQuery);
    Keep(items, item => Matches(query, item))
  }

  /** An empty search lists every item. */
  lemma EmptyQueryListsAll(items: seq<Item>)
    ensures FilteredItems(items, "") == items
  {
    var query := Lower("");
    assert query == "";
    KeepAll(items, item => Matches(query, item));
  }

  /** The modal lists exactly the catalog tab's matches that also match on name or code. */
  lemma NarrowerThanCatalogSearch(items: seq<Item>, searchQuery: string)
    ensures FilteredItems(items, searchQuery)
         == Keep(ItemList.FilteredItems(items, searchQuery), item => Matches(Lower(searchQuery), item))
  {
    var query := Lower(searchQuery);
    KeepRefines(items, i => ItemList.Matches(query, i), item => Matches(query, item));
  }

  /** A category match alone does not list an item: "Starters" is the category, not the name or code. */
  lemma CategoryNotSearched()
    ensures FilteredItems(PaneerMenu, "starters") == []
    ensures ItemList.FilteredItems(PaneerMenu, "starters") == PaneerMenu
  {
    assert Lower("starters") == "starters";
    NameAndCodeMiss();
    KeepNone(PaneerMenu, item => Matches("starters", item));
    CategoryHits();
    KeepAll(PaneerMenu, i => ItemList.Matches("starters", i));
  }

  lemma NameAndCodeMiss()
    ensures !Matches("starters", PaneerMenu[0])
  {
    assert Lower("Paneer Tikka") == "paneer tikka";
    assert Lower("PT01") == "pt01";
    assert 's' !in "paneer tikka" && 's' !in "pt01";
    if Includes("paneer tikka", "starters") {
      IncludedCharsOccur("paneer tikka", "starters", 0);
    }
    if Includes("pt01", "starters") {
      IncludedCharsOccur("pt01", "starters", 0);
    }
  }

  lemma CategoryHits()
    ensures ItemList.Matches("starters", PaneerMenu[0])
  {
    assert Lower("Starters") == "starters";
  }

  /** `order.items[item.id] || 0`: the quantity shown next to an item. */
  function DisplayedQty(order: Order, id: ItemId): (q: int)
    ensures id in order.items ==> q == order.items[id]
    ensures id !in order.items ==> q == 0
    ensures Positive(order.items) ==> q >= 0
    ensures Positive(order.items) ==> (q > 0 <==> id in order.items)
  {
    Qty(order.items, id)
  }

  /** After a successful update the table's shown quantity is the old one plus delta, floored at 0. */
  lemma DisplayedAfterAdjust(orders: ActiveOrders, items: seq<Item>, tableId: TableId, itemId: ItemId, delta: int)
    requires Adjusted(orders, items, tableId, itemId, delta).Some?
    ensures DisplayedQty(Adjusted(orders, items, tableId, itemId, delta).value[tableId], itemId)
         == Max(0, DisplayedQty(OrderFor(orders, tableId), itemId) + delta)
  {
    AdjustedOrder(orders, items, tableId, itemId, delta);
  }

  /** The two buttons beside each listed item. */
  datatype Control = Minus | Plus

  /** The delta each button passes to the quantity update. */
  function Delta(c: Control): (d: int)
    ensures d == -1 || d == 1
    ensures d < 0 <==> c == Minus
  {
    match c
    case Minus => -1
    case Plus => 1
  }

  /** Pressing the button on a line. */
  function Press(lines: Lines, id: ItemId, c: Control): (r: Lines)
    ensures Positive(lines) && c == Plus ==> Qty(r, id) == Qty(lines, id) + 1 && id in r
    ensures c == Minus ==> Qty(r, id) == Max(0, Qty(lines, id) - 1)
    ensures r - {id} == lines - {id}
    ensures Positive(lines) ==> Positive(r)
  {
    AdjustLines(lines, id, Delta(c))
  }

  /** On well-formed lines, minus undoes plus. */
  lemma MinusUndoesPlus(lines: Lines, id: ItemId)
    requires Positive(lines)
    ensures Press(Press(lines, id, Plus), id, Minus) == lines
  {
    var up := Press(lines, id, Plus);
    var down := Press(up, id, Minus);
    assert down - {id} == lines - {id};
    if id in lines {
      assert down == lines - {id} + map[id := lines[id]];
    } else {
      assert down.Keys == lines.Keys;
    }
  }

  /** Plus does not undo minus on an item not yet ordered: the quantity is floored at 0 first. */
  lemma PlusAfterMinusAtZero(lines: Lines, id: ItemId)
    requires id !in lines
    ensures Press(Press(lines, id, Minus), id, Plus) == lines[id := 1]
    ensures Press(Press(lines, id, Minus), id, Plus) != lines
  {
    var down := Press(lines, id, Minus);
    assert down == lines;
  }
}
