/** What the library's calls make of each other, on the heap. */
module JsonIdentities {
  import opened Json
  import opened JsonText
  import opened JsonParse
  import opened JsonRoundTrip
  import opened JsonPrinter
  import opened JsonCompare
  import opened ItemList
  import opened ItemTree
  import opened ItemParser

  /**
   * Whenever printing a tree of items succeeds, parsing the printed text builds a fresh tree of the
   * same value, unless the tree is nested deeper than the parser goes.
   */
  method PrintThenParse(item: Item, format: bool, ghost sh: Shape, ghost v: Json)
    returns (ok: bool, again: Item?, ghost made: Shape)
    requires Built(item, sh, v) && IntTree(v)
    ensures ok <==> |Render(v, format, 0)| + 2 <= INT_MAX
    ensures ok ==> (again != null <==> Height(v) <= NESTING_LIMIT)
    ensures ok && again != null ==> Built(again, made, v) && fresh(Nodes(made))
  {
    hide Render, ParseText, Built, IntTree, Height;
    var printed;
    ok, printed := Print(item, sh, v, format);
    RoundTripTerminated(v, format);
    var end;
    ghost var w;
    again, end, made, w := ParseWithLengthOpts(if ok then printed[..] else [], true);
  }

  /** Comparing a recursive copy with its source says yes exactly when the source looks up its own members. */
  method DuplicateThenCompare(item: Item, ghost sh: Shape, ghost v: Json)
    returns (copy: Item, same: bool, ghost made: Shape)
    requires Built(item, sh, v) && IntTree(v)
    ensures Built(copy, made, v) && fresh(Nodes(made))
    ensures same <==> WellKeyed(v)
  {
    hide ValueOf, Compare, WellKeyed, Tree, Apart, IntTree, Below, RootSet, Inner;
    Settled(sh.kids);
    CompareReflexive(v);
    var twin;
    twin, made := Duplicate(item, true, sh);
    copy := twin;
    Settled(made.kids);
    same := CompareItems(item, copy, sh, made, v, v);
  }
}
