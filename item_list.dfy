/** The catalog search of the item-management tab. */
module ItemList {
  import opened Text
  import opened Filtering
  import opened Orders

  /** The item's name, code or category, lowercased, contains the already lowercased `query`. */
  predicate Matches(query: string, i: Item)
  {
    Includes(Lower(i.name), query) || Includes(Lower(i.code), query) || Includes(Lower(i.category), query)
  }

  /** `items.filter(...)` with the query lowercased once. */
  function FilteredItems(items: seq<Item>, searchQuery: string): (r: seq<Item>)
    ensures forall i :: i in r <==> i in items && Matches(Lower(searchQuery), i)
    ensures forall i :: multiset(r)[i] == if Matches(Lower(searchQuery), i) then multiset(items)[i] else 0
    ensures IsSubsequence(r, items)
  {
    var query := Lower(searchQuery);
    Keep(items, i => Matches(query, i))
  }

  /** An empty search shows the whole catalog. */
  lemma EmptyQueryKeepsAll(items: seq<Item>)
    ensures FilteredItems(items, "") == items
  {
    var query := Lower("");
    assert query == "";
    KeepAll(items, i => Matches(query, i));
  }

  /** Two queries that differ only in letter case select the same items. */
  lemma QueryCaseIgnored(items: seq<Item>, q1: string, q2: string)
    requires EqualIgnoringCase(q1, q2)
    ensures FilteredItems(items, q1) == FilteredItems(items, q2)
  {
    LowerIgnoresCase(q1, q2);
  }

  /** Both sides are lowercased: the query "STARTERS" finds the category "Starters". */
  lemma CategoryFoundInAnyCase()
    ensures FilteredItems(PaneerMenu, "STARTERS") == PaneerMenu
  {
    var query := Lower("STARTERS");
    assert query == "starters";
    assert Lower("Starters") == "starters";
    assert Matches(query, PaneerMenu[0]);
    KeepAll(PaneerMenu, i => Matches(query, i));
  }
}
