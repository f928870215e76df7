/** The tables tab: its number search and how each card reflects the active orders. */
module TableGrid {
  import opened Wrappers
  import opened Text
  import opened Filtering
  import opened Orders

  /** The table's number, rendered in decimal, contains the raw query. */
  predicate Matches(searchQuery: string, t: Table)
  {
    Includes(DecimalString(t.number), searchQuery)
  }

  /** `tables.filter(t => t.number.toString().includes(searchQuery))` */
  function FilteredTables(tables: seq<Table>, searchQuery: string): (r: seq<Table>)
    ensures forall t :: t in r <==> t in tables && Matches(searchQuery, t)
    ensures forall t :: multiset(r)[t] == if Matches(searchQuery, t) then multiset(tables)[t] else 0
    ensures IsSubsequence(r, tables)
  {
    Keep(tables, t => Matches(searchQuery, t))
  }

  /** An empty search shows every table. */
  lemma EmptyQueryKeepsAll(tables: seq<Table>)
    ensures FilteredTables(tables, "") == tables
  {
    KeepAll(tables, t => Matches("", t));
  }

  /** A query holding any character other than a digit or '-' finds no table: there is no case folding or trimming. */
  lemma NonNumericQueryFindsNothing(tables: seq<Table>, searchQuery: string, j: int)
    requires 0 <= j < |searchQuery| && !IsDigit(searchQuery[j]) && searchQuery[j] != '-'
    ensures FilteredTables(tables, searchQuery) == []
  {
    forall t | t in tables ensures !Matches(searchQuery, t) {
      if Matches(searchQuery, t) {
        IncludedCharsOccur(DecimalString(t.number), searchQuery, j);
      }
    }
    KeepNone(tables, t => Matches(searchQuery, t));
  }

  /** Searching for a table's own number finds it. */
  lemma OwnNumberFound(tables: seq<Table>, t: Table)
    requires t in tables
    ensures t in FilteredTables(tables, DecimalString(t.number))
  {
    var s := DecimalString(t.number);
    assert OccursAt(s, s, 0) by {
      assert s[0..|s|] == s;
    }
  }

  /** The match is a substring match, not equality: "1" finds table 12 as well as table 1. */
  lemma SubstringNotEquality()
    ensures FilteredTables([Table("a", 1, Idle), Table("b", 12, Idle), Table("c", 3, Idle)], "1")
         == [Table("a", 1, Idle), Table("b", 12, Idle)]
  {
    OneMatchesOneAndTwelve();
    assert FilteredTables([Table("c", 3, Idle)], "1") == [];
  }

  lemma OneMatchesOneAndTwelve()
    ensures Matches("1", Table("a", 1, Idle)) && Matches("1", Table("b", 12, Idle))
    ensures !Matches("1", Table("c", 3, Idle))
  {
    assert DecimalString(1) == "1";
    assert DecimalString(12) == "12";
    assert DecimalString(3) == "3";
    assert Includes("12", "1");
    if Includes("3", "1") {
      IncludedCharsOccur("3", "1", 0);
    }
  }

  /**
   * `order ?` on `activeOrders[table.id]`: an entry is an object and so truthy, even one
   * with no lines and total 0; a table without an entry gives `undefined`.
   */
  predicate IsActive(activeOrders: ActiveOrders, t: Table): (active: bool)
    ensures active ==> t.id in activeOrders && OrderFor(activeOrders, t.id) == activeOrders[t.id]
    ensures t.id in activeOrders && activeOrders[t.id].items == map[] ==> active
    ensures t.id !in activeOrders ==> !active
  {
    t.id in activeOrders
  }

  /** The label under the table number. */
  function StatusLabel(activeOrders: ActiveOrders, t: Table): (shown: string)
    ensures shown == "Active Order" <==> IsActive(activeOrders, t)
    ensures shown == "Idle" <==> !IsActive(activeOrders, t)
  {
    if t.id in activeOrders then "Active Order" else "Idle"
  }

  /** Whether the card carries the delete control: only tables with no entry do. */
  function OffersDelete(activeOrders: ActiveOrders, t: Table): (b: bool)
    ensures b <==> StatusLabel(activeOrders, t) == "Idle"
  {
    t.id !in activeOrders
  }

  /** The total shown on an active card. */
  function ShownTotal(activeOrders: ActiveOrders, t: Table): (r: Option<int>)
    ensures r.Some? <==> StatusLabel(activeOrders, t) == "Active Order"
    ensures r.Some? ==> r.value == OrderFor(activeOrders, t.id).total
  {
    if t.id in activeOrders then Some(activeOrders[t.id].total) else None
  }

  /** The backend's `status` column plays no part in the card. */
  lemma StatusFieldIgnored(activeOrders: ActiveOrders, t: Table, s: Status)
    ensures StatusLabel(activeOrders, t.(status := s)) == StatusLabel(activeOrders, t)
    ensures OffersDelete(activeOrders, t.(status := s)) == OffersDelete(activeOrders, t)
  {
  }

  /** After any successful quantity update the table shows as active and cannot be deleted. */
  lemma ActiveAfterAdjust(orders: ActiveOrders, items: seq<Item>, itemId: ItemId, delta: int, t: Table)
    requires Adjusted(orders, items, t.id, itemId, delta).Some?
    ensures StatusLabel(Adjusted(orders, items, t.id, itemId, delta).value, t) == "Active Order"
    ensures !OffersDelete(Adjusted(orders, items, t.id, itemId, delta).value, t)
  {
  }

  /** Even a -1 on a table with no order makes it active, showing a total of 0. */
  lemma {:induction false} ActiveWithEmptyOrder(orders: ActiveOrders, items: seq<Item>, itemId: ItemId, t: Table)
    requires t.id !in orders
    ensures var after := Adjusted(orders, items, t.id, itemId, -1).value;
      && StatusLabel(after, t) == "Active Order"
      && !OffersDelete(after, t)
      && ShownTotal(after, t) == Some(0)
      && OrderFor(after, t.id).items == map[]
  {
    DecrementCreatesEmptyEntry(orders, items, t.id, itemId);
  }

  /** The search compares text: "0" does not find table 7, whose number renders as "7". */
  lemma ZeroDoesNotFindSeven()
    ensures FilteredTables([Table("a", 7, Idle)], "0") == []
  {
    assert DecimalString(7) == "7";
    if Includes("7", "0") {
      IncludedCharsOccur("7", "0", 0);
    }
    assert !Matches("0", Table("a", 7, Idle));
  }

  /** A confirmed and successful clear makes the table idle and deletable; other cards keep their label. */
  lemma IdleAfterClear(orders: ActiveOrders, t: Table, other: Table)
    requires other.id != t.id
    ensures StatusLabel(Cleared(orders, t.id, true, true), t) == "Idle"
    ensures OffersDelete(Cleared(orders, t.id, true, true), t)
    ensures StatusLabel(Cleared(orders, t.id, true, true), other) == StatusLabel(orders, other)
  {
  }
}
