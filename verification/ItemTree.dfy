/** Whole trees of linked items, the value they stand for, and cJSON_Duplicate. */
module ItemTree {
  import opened Bytes
  import opened Json
  import opened JsonNumber
  import opened ItemList

  /** The items of a tree, level by level; which items they are does not depend on the heap. */
  datatype Shape = Shape(root: Item, kids: seq<Shape>)

  function Roots(kids: seq<Shape>): (r: seq<Item>)
    ensures |r| == |kids| && forall i :: 0 <= i < |kids| ==> r[i] == kids[i].root
  {
    seq(|kids|, i requires 0 <= i < |kids| => kids[i].root)
  }

  ghost function Nodes(sh: Shape): set<Item> {
    {sh.root} + Below(sh.kids)
  }

  ghost function Below(kids: seq<Shape>): set<Item> {
    if kids == [] then {} else {kids[0].root} + Below(kids[0].kids) + Below(kids[1..])
  }

  /** As Below, without the first level. */
  ghost function Inner(kids: seq<Shape>): set<Item> {
    if kids == [] then {} else Below(kids[0].kids) + Inner(kids[1..])
  }

  ghost function RootSet(kids: seq<Shape>): set<Item> {
    if kids == [] then {} else {kids[0].root} + RootSet(kids[1..])
  }

  lemma {:induction false} BelowParts(kids: seq<Shape>)
    ensures Below(kids) == RootSet(kids) + Inner(kids)
    ensures forall x :: x in Roots(kids) <==> x in RootSet(kids)
  {
    if kids != [] {
      BelowParts(kids[1..]);
      var r := Roots(kids);
      assert r == [kids[0].root] + Roots(kids[1..]);
    }
  }

  lemma {:induction false} BelowAllocated(kids: seq<Shape>)
    ensures forall x :: x in Below(kids) ==> allocated(x)
  {
    if kids != [] {
      BelowAllocated(kids[0].kids);
      BelowAllocated(kids[1..]);
    }
  }

  /** No item occurs twice. */
  ghost predicate Apart(sh: Shape) {
    sh.root !in Below(sh.kids) && ApartAll(sh.kids)
  }

  ghost predicate ApartAll(kids: seq<Shape>) {
    kids == [] || (Apart(kids[0]) && ApartAll(kids[1..]) && Nodes(kids[0]) !! Below(kids[1..]))
  }

  lemma {:induction false} RootsApart(kids: seq<Shape>)
    requires ApartAll(kids)
    ensures RootSet(kids) !! Inner(kids)
    ensures forall i, j :: 0 <= i < j < |kids| ==> kids[i].root != kids[j].root
  {
    if kids != [] {
      RootsApart(kids[1..]);
      BelowParts(kids[1..]);
      forall i, j | 0 <= i < j < |kids|
        ensures kids[i].root != kids[j].root
      {
        assert Roots(kids[1..])[j - 1] == kids[j].root;
        if i > 0 {
          assert kids[i] == kids[1..][i - 1] && kids[j] == kids[1..][j - 1];
        }
      }
    }
  }

  /** At every level the children are linked as the shape says; the root's own siblings do not matter. */
  ghost predicate Tree(sh: Shape)
    reads sh.root`child, Below(sh.kids)
    decreases sh, 1
  {
    BelowParts(sh.kids);
    Linked(sh.root, Roots(sh.kids)) && TreeAll(sh.kids)
  }

  ghost predicate TreeAll(kids: seq<Shape>)
    reads RootSet(kids)`child, Inner(kids)
    decreases kids, 0
  {
    kids == [] || (Tree(kids[0]) && TreeAll(kids[1..]))
  }

  datatype Data = Data(kind: Kind, number: real, integer: int, text: CString, name: CString)

  /** The contents of a tree, without its items. */
  datatype Content = Content(data: Data, kids: seq<Content>)

  ghost function DataOf(x: Item): Data
    reads x`kind, x`number, x`integer, x`text, x`name
  {
    Data(x.kind, x.number, x.integer, x.text, x.name)
  }

  ghost function ContentOf(sh: Shape): Content
    reads sh.root`kind, sh.root`number, sh.root`integer, sh.root`text, sh.root`name, Below(sh.kids)
    decreases sh, 1
  {
    BelowParts(sh.kids);
    Content(DataOf(sh.root), ContentsOf(sh.kids))
  }

  ghost function ContentsOf(kids: seq<Shape>): (cs: seq<Content>)
    reads RootSet(kids)`kind, RootSet(kids)`number, RootSet(kids)`integer, RootSet(kids)`text, RootSet(kids)`name
    reads Inner(kids)
    ensures |cs| == |kids|
    decreases kids, 0
  {
    if kids == [] then [] else [ContentOf(kids[0])] + ContentsOf(kids[1..])
  }

  // -------------------------------------------------------- lists built from the front

  /** A list under construction: linked forward and back, but the head has no prev link yet. */
  ghost predicate Open(parent: Item, items: seq<Item>)
    reads parent`child, items`next, items`prev
  {
    && parent !in items
    && (forall i, j :: 0 <= i < j < |items| ==> items[i] != items[j])
    && parent.child == (if items == [] then null else items[0])
    && (forall i :: 0 <= i < |items| ==> Hooked(items, i))
  }

  ghost predicate Hooked(items: seq<Item>, i: nat)
    requires i < |items|
    reads items`next, items`prev
  {
    && items[i].next == (if i + 1 < |items| then items[i + 1] else null)
    && (i > 0 ==> items[i].prev == items[i - 1])
  }

  /** Puts one more item behind the last one. */
  method Hook(parent: Item, last: Item?, item: Item, ghost items: seq<Item>)
    requires Open(parent, items) && item.next == null && item !in items && item != parent
    requires last == if items == [] then null else items[|items| - 1]
    modifies parent`child, item`prev, Opt(last)`next
    ensures Open(parent, items + [item])
  {
    ghost var now := items + [item];
    if last != null {
      last.next := item;
      item.prev := last;
    } else {
      parent.child := item;
    }
    forall i | 0 <= i < |now|
      ensures Hooked(now, i)
    {
      assert i < |items| ==> old(Hooked(items, i));
    }
  }

  /** Gives the head its link to the last item, which completes the list. */
  method Close(parent: Item, last: Item?, ghost items: seq<Item>)
    requires Open(parent, items)
    requires last == if items == [] then null else items[|items| - 1]
    modifies (set x | x in items)`prev
    ensures Linked(parent, items)
    ensures forall x :: x in items && x != items[0] ==> x.prev == old(x.prev)
  {
    if parent.child != null {
      parent.child.prev := last;
    }
    forall i | 0 <= i < |items|
      ensures Link(items, i)
    {
      assert old(Hooked(items, i));
    }
  }

  // ----------------------------------------------------------------- one more sibling

  lemma {:induction false} ParentsAppend(kids: seq<Shape>, sh: Shape)
    ensures Below(kids + [sh]) == Below(kids) + Nodes(sh)
    ensures Inner(kids + [sh]) == Inner(kids) + Below(sh.kids)
    ensures RootSet(kids + [sh]) == RootSet(kids) + {sh.root}
    ensures Roots(kids + [sh]) == Roots(kids) + [sh.root]
  {
    var now := kids + [sh];
    if kids != [] {
      ParentsAppend(kids[1..], sh);
      assert now[1..] == kids[1..] + [sh];
    }
  }

  lemma {:induction false} ApartAppend(kids: seq<Shape>, sh: Shape)
    requires ApartAll(kids) && Apart(sh) && Below(kids) !! Nodes(sh)
    ensures ApartAll(kids + [sh])
  {
    var now := kids + [sh];
    if kids != [] {
      ApartAppend(kids[1..], sh);
      ParentsAppend(kids[1..], sh);
      assert now[1..] == kids[1..] + [sh];
    }
  }

  lemma {:induction false} TreeAppend(kids: seq<Shape>, sh: Shape)
    requires TreeAll(kids) && Tree(sh)
    ensures TreeAll(kids + [sh])
    ensures ContentsOf(kids + [sh]) == ContentsOf(kids) + [ContentOf(sh)]
  {
    var now := kids + [sh];
    if kids != [] {
      TreeAppend(kids[1..], sh);
      assert now[1..] == kids[1..] + [sh];
      assert now[0] == kids[0];
    } else {
      assert now[0] == sh && now[1..] == [];
    }
  }

  /** The tree at i, and what is linked to its root. */
  lemma {:induction false} TreeAt(kids: seq<Shape>, i: nat)
    requires i < |kids| && ApartAll(kids) && TreeAll(kids)
    ensures Apart(kids[i]) && Tree(kids[i]) && ContentsOf(kids)[i] == ContentOf(kids[i])
  {
    if i > 0 {
      TreeAt(kids[1..], i - 1);
    }
  }

  /** The first children of parent, each with its finished tree. */
  ghost predicate Growing(parent: Item, kids: seq<Shape>)
    reads parent`child, Below(kids)
  {
    BelowParts(kids);
    Open(parent, Roots(kids)) && parent !in Below(kids) && ApartAll(kids) && TreeAll(kids)
  }

  ghost function LastRoot(kids: seq<Shape>): Item? {
    if kids == [] then null else kids[|kids| - 1].root
  }

  method Grow(parent: Item, last: Item?, item: Item, ghost kids: seq<Shape>, ghost sh: Shape)
    requires Growing(parent, kids) && Tree(sh) && Apart(sh) && sh.root == item && item.next == null
    requires Nodes(sh) !! Below(kids) && parent !in Nodes(sh) && last == LastRoot(kids)
    modifies parent`child, item`prev, Opt(last)`next
    ensures Growing(parent, kids + [sh])
    ensures ContentsOf(kids + [sh]) == old(ContentsOf(kids)) + [old(ContentOf(sh))]
  {
    hide Tree, TreeAll, ContentOf, ContentsOf, Hooked, ApartAll, Below, Inner;
    ParentsAppend(kids, sh);
    ApartAppend(kids, sh);
    BelowParts(kids);
    RootsApart(kids);
    BelowAllocated(kids);
    BelowAllocated(sh.kids);
    assert last != null ==> Roots(kids)[|kids| - 1] == last;
    Hook(parent, last, item, Roots(kids));
    assert TreeAll(kids) && ContentsOf(kids) == old(ContentsOf(kids));
    assert Tree(sh) && ContentOf(sh) == old(ContentOf(sh));
    TreeAppend(kids, sh);
  }

  /** Completes a list; only the head gets a new link. */
  method Finish(parent: Item, last: Item?, ghost kids: seq<Shape>)
    requires Growing(parent, kids) && last == LastRoot(kids)
    modifies RootSet(kids)`prev
    ensures Tree(Shape(parent, kids)) && Apart(Shape(parent, kids))
    ensures ContentsOf(kids) == old(ContentsOf(kids))
  {
    BelowParts(kids);
    RootsApart(kids);
    assert last != null ==> Roots(kids)[|kids| - 1] == last;
    BelowAllocated(kids);
    Close(parent, last, Roots(kids));
  }

  // ---------------------------------------------- lists that get their parent last

  /** As Open, for a list that no item has as its children yet. */
  ghost predicate Chain(head: Item?, items: seq<Item>)
    reads items`next, items`prev
  {
    && (forall i, j :: 0 <= i < j < |items| ==> items[i] != items[j])
    && head == (if items == [] then null else items[0])
    && (forall i :: 0 <= i < |items| ==> Hooked(items, i))
  }

  ghost predicate Chained(head: Item?, kids: seq<Shape>)
    reads Below(kids)
  {
    BelowParts(kids);
    Chain(head, Roots(kids)) && ApartAll(kids) && TreeAll(kids)
  }

  /** Attaches a new item, still without a value, behind the last one. */
  method HookNext(head: Item?, last: Item?, item: Item, ghost kids: seq<Shape>) returns (first: Item)
    requires Chained(head, kids) && last == LastRoot(kids) && item.next == null && item !in Below(kids)
    modifies item`prev, Opt(last)`next
    ensures Chain(first, Roots(kids) + [item]) && ApartAll(kids) && TreeAll(kids)
    ensures ContentsOf(kids) == old(ContentsOf(kids))
  {
    hide Tree, TreeAll, ContentOf, ContentsOf, Hooked, ApartAll;
    BelowParts(kids);
    RootsApart(kids);
    BelowAllocated(kids);
    assert last != null ==> Roots(kids)[|kids| - 1] == last;
    first := HookLast(head, last, item, Roots(kids));
  }

  method HookLast(head: Item?, last: Item?, item: Item, ghost items: seq<Item>) returns (first: Item)
    requires Chain(head, items) && item.next == null && item !in items
    requires last == if items == [] then null else items[|items| - 1]
    modifies item`prev, Opt(last)`next
    ensures Chain(first, items + [item])
  {
    ghost var now := items + [item];
    if head == null {
      first := item;
    } else {
      last.next := item;
      item.prev := last;
      first := head;
    }
    forall i | 0 <= i < |now|
      ensures Hooked(now, i)
    {
      assert i < |items| ==> old(Hooked(items, i));
    }
  }

  /** The new item has got its value. */
  lemma ChainedMore(head: Item?, kids: seq<Shape>, sh: Shape)
    requires Chain(head, Roots(kids) + [sh.root]) && ApartAll(kids) && TreeAll(kids)
    requires Tree(sh) && Apart(sh) && Nodes(sh) !! Below(kids)
    ensures Chained(head, kids + [sh])
    ensures ContentsOf(kids + [sh]) == ContentsOf(kids) + [ContentOf(sh)]
    ensures Below(kids + [sh]) == Below(kids) + Nodes(sh)
  {
    hide Chain, Tree, TreeAll, ContentOf, ContentsOf, ApartAll;
    ParentsAppend(kids, sh);
    ApartAppend(kids, sh);
    TreeAppend(kids, sh);
  }

  /** Gives the head its link to the last item and the list its parent. */
  method Adopt(parent: Item, head: Item?, last: Item?, ghost kids: seq<Shape>)
    requires Chained(head, kids) && parent !in Below(kids) && last == LastRoot(kids)
    modifies parent`child, RootSet(kids)`prev
    ensures Tree(Shape(parent, kids)) && Apart(Shape(parent, kids))
    ensures ContentsOf(kids) == old(ContentsOf(kids))
  {
    hide Tree, TreeAll, ContentOf, ContentsOf, ApartAll;
    BelowParts(kids);
    RootsApart(kids);
    BelowAllocated(kids);
    parent.child := head;
    assert Open(parent, Roots(kids));
    assert Growing(parent, kids);
    Finish(parent, last, kids);
  }

  /** What a walk along the children meets at i. */
  lemma ChildAt(sh: Shape, i: nat)
    requires Tree(sh) && Apart(sh) && i < |sh.kids|
    ensures Tree(sh.kids[i]) && Apart(sh.kids[i])
    ensures ContentsOf(sh.kids)[i] == ContentOf(sh.kids[i])
    ensures sh.kids[i].root.next == if i + 1 < |sh.kids| then sh.kids[i + 1].root else null
    ensures sh.kids[i].root in Below(sh.kids)
  {
    TreeAt(sh.kids, i);
    assert Link(Roots(sh.kids), i);
    BelowParts(sh.kids);
    assert Roots(sh.kids)[i] in Roots(sh.kids);
  }

  lemma NoneBelow()
    ensures Below([]) == RootSet([]) == Inner([]) == {}
  {
  }

  lemma LastInside(kids: seq<Shape>)
    ensures kids != [] ==> LastRoot(kids) in Below(kids)
  {
    BelowParts(kids);
    assert kids != [] ==> Roots(kids)[|kids| - 1] in Roots(kids);
  }

  lemma FirstChild(sh: Shape)
    requires Tree(sh)
    ensures sh.root.child == if sh.kids == [] then null else sh.kids[0].root
  {
    assert sh.kids != [] ==> Roots(sh.kids)[0] == sh.kids[0].root;
  }

  lemma NoKids(parent: Item)
    requires parent.child == null
    ensures Growing(parent, [])
  {
    assert Roots([]) == [];
  }

  /**
   * cJSON_Duplicate: a new tree that shares no item with the source, is linked level by level like
   * it, and has its content; without recursion only the item itself. The copy has no siblings.
   */
  method Duplicate(item: Item?, recurse: bool, ghost sh: Shape) returns (copy: Item?, ghost made: Shape)
    requires item != null ==> sh.root == item && Tree(sh) && Apart(sh)
    ensures copy == null <==> item == null
    ensures copy != null ==> made.root == copy && Tree(made) && Apart(made) && fresh(Nodes(made))
    ensures copy != null ==> copy.next == null && copy.prev == null
    ensures copy != null ==> ContentOf(made) == if recurse then ContentOf(sh) else Content(DataOf(item), [])
    decreases sh, 1
  {
    hide Linked, Link, ApartAll, TreeAll, Below, Inner, RootSet, ContentsOf;
    if item == null {
      return null, sh;
    }
    BelowAllocated(sh.kids);
    ghost var want := ContentOf(sh);
    copy := new Item(item.kind);
    copy.number, copy.integer, copy.text, copy.name := item.number, item.integer, item.text, item.name;
    assert ContentOf(sh) == want && Tree(sh);
    ghost var kids := [];
    if recurse {
      kids := DuplicateChildren(item, copy, sh);
    } else {
      NoneBelow();
      NoKids(copy);
      Finish(copy, null, []);
    }
    made := Shape(copy, kids);
    assert ContentOf(sh) == want && DataOf(copy) == want.data;
  }

  method DuplicateChildren(item: Item, copy: Item, ghost sh: Shape) returns (ghost kids: seq<Shape>)
    requires sh.root == item && Tree(sh) && Apart(sh) && copy.child == null && copy !in Nodes(sh)
    modifies copy`child
    ensures Tree(Shape(copy, kids)) && Apart(Shape(copy, kids)) && fresh(Below(kids))
    ensures ContentsOf(kids) == old(ContentsOf(sh.kids))
    decreases sh, 0
  {
    hide Tree, TreeAll, ContentOf, ContentsOf, Apart, ApartAll, Growing, Below, Inner, RootSet;
    BelowAllocated(sh.kids);
    BelowParts(sh.kids);
    NoneBelow();
    ghost var all := ContentsOf(sh.kids);
    var child, last := item.child, null;
    ghost var i := 0;
    kids := [];
    NoKids(copy);
    FirstChild(sh);
    while child != null
      invariant 0 <= i <= |sh.kids| && child == (if i < |sh.kids| then sh.kids[i].root else null)
      invariant Tree(sh) && ContentsOf(sh.kids) == all && copy !in Nodes(sh)
      invariant Growing(copy, kids) && fresh(Below(kids)) && last == LastRoot(kids)
      invariant ContentsOf(kids) == all[..i]
      decreases |sh.kids| - i
    {
      ChildAt(sh, i);
      LastInside(kids);
      ghost var sub;
      last, kids, sub := DuplicateChild(child, copy, last, sh.kids[i], kids);
      ChildAt(sh, i);
      assert all[..i] + [all[i]] == all[..i + 1];
      child := child.next;
      i := i + 1;
    }
    BelowParts(kids);
    Finish(copy, last, kids);
  }

  /** One turn of the loop. */
  method DuplicateChild(child: Item, copy: Item, last: Item?, ghost sh: Shape, ghost kids: seq<Shape>)
    returns (newchild: Item, ghost now: seq<Shape>, ghost sub: Shape)
    requires sh.root == child && Tree(sh) && Apart(sh) && Growing(copy, kids) && last == LastRoot(kids)
    modifies copy`child, Opt(last)`next
    ensures now == kids + [sub] && Growing(copy, now) && fresh(Nodes(sub)) && newchild == LastRoot(now)
    ensures Below(now) == Below(kids) + Nodes(sub)
    ensures ContentsOf(now) == old(ContentsOf(kids)) + [old(ContentOf(sh))]
    decreases sh, 2
  {
    hide Tree, TreeAll, ContentsOf, ContentOf, Apart, ApartAll, Growing, Below, Inner, RootSet;
    BelowAllocated(kids);
    BelowParts(kids);
    BelowAllocated(sh.kids);
    var made;
    made, sub := Duplicate(child, true, sh);
    newchild := made;
    assert ContentsOf(kids) == old(ContentsOf(kids)) && ContentOf(sub) == ContentOf(sh) == old(ContentOf(sh));
    ParentsAppend(kids, sub);
    Grow(copy, last, newchild, kids, sub);
    now := kids + [sub];
  }

  // ------------------------------------------------------------- values of item trees

  /** The tree a content stands for; only containers have children that count. */
  function ValueOf(c: Content): Json {
    match c.data.kind
    case IsNull => Null
    case IsFalse => Bool(false)
    case IsTrue => Bool(true)
    case IsNumber => Number(c.data.number)
    case IsString => String(c.data.text)
    case IsArray => Array(seq(|c.kids|, i requires 0 <= i < |c.kids| => ValueOf(c.kids[i])))
    case IsObject =>
      Object(seq(|c.kids|, i requires 0 <= i < |c.kids| => Member(c.kids[i].data.name, ValueOf(c.kids[i]))))
  }

  function ElemValues(cs: seq<Content>): seq<Json> {
    seq(|cs|, i requires 0 <= i < |cs| => ValueOf(cs[i]))
  }

  function MemberValue(c: Content): Member {
    Member(c.data.name, ValueOf(c))
  }

  function MemberValues(cs: seq<Content>): seq<Member> {
    seq(|cs|, i requires 0 <= i < |cs| => MemberValue(cs[i]))
  }

  lemma ContainerValue(c: Content)
    ensures c.data.kind == IsArray ==> ValueOf(c) == Array(ElemValues(c.kids))
    ensures c.data.kind == IsObject ==> ValueOf(c) == Object(MemberValues(c.kids))
  {
    var n := |c.kids|;
    if c.data.kind == IsArray {
      assert ValueOf(c).elems == ElemValues(c.kids);
    } else if c.data.kind == IsObject {
      assert ValueOf(c).members == MemberValues(c.kids);
    }
  }

  lemma ElemValuesMore(cs: seq<Content>, c: Content)
    ensures ElemValues(cs + [c]) == ElemValues(cs) + [ValueOf(c)]
  {
  }

  lemma MemberValuesMore(cs: seq<Content>, c: Content)
    ensures MemberValues(cs + [c]) == MemberValues(cs) + [MemberValue(c)]
  {
  }

  /** The tree at item has the links its shape says and stands for v. */
  ghost predicate Built(item: Item, sh: Shape, v: Json)
    reads sh.root, Below(sh.kids)
  {
    sh.root == item && Tree(sh) && Apart(sh) && ValueOf(ContentOf(sh)) == v
  }

  /** What the item's kind says about the value. */
  lemma KindOf(item: Item, sh: Shape, v: Json)
    requires Built(item, sh, v)
    ensures match v
      case Null => item.kind == IsNull
      case Bool(b) => item.kind == if b then IsTrue else IsFalse
      case Number(d) => item.kind == IsNumber && item.number == d
      case String(t) => item.kind == IsString && item.text == t
      case Array(es) => item.kind == IsArray
      case Object(ms) => item.kind == IsObject
  {
    hide Tree, Apart;
  }

  /** The items of the list are items, and allocated: nothing done to other objects concerns them. */
  lemma Settled(kids: seq<Shape>)
    ensures Below(kids) == RootSet(kids) + Inner(kids)
    ensures forall x :: x in Below(kids) ==> allocated(x)
  {
    BelowParts(kids);
    BelowAllocated(kids);
  }

  /** What a walk along the elements meets at i. */
  lemma ElemAt(item: Item, sh: Shape, es: seq<Json>, i: nat)
    requires Built(item, sh, Array(es)) && i < |es|
    ensures |sh.kids| == |es| && Built(sh.kids[i].root, sh.kids[i], es[i])
    ensures sh.kids[i].root.next == if i + 1 < |es| then sh.kids[i + 1].root else null
  {
    hide Tree, Apart, ContentsOf;
    ContainerValue(ContentOf(sh));
    ChildAt(sh, i);
  }

  /** What a walk along the members meets at i. */
  lemma MemberAt(item: Item, sh: Shape, ms: seq<Member>, i: nat)
    requires Built(item, sh, Object(ms)) && i < |ms|
    ensures |sh.kids| == |ms| && Built(sh.kids[i].root, sh.kids[i], ms[i].value) && sh.kids[i].root.name == ms[i].key
    ensures sh.kids[i].root.next == if i + 1 < |ms| then sh.kids[i + 1].root else null
  {
    hide Tree, Apart, ContentsOf;
    ContainerValue(ContentOf(sh));
    ChildAt(sh, i);
  }

  /** Where such a walk starts. */
  lemma FirstOf(item: Item, sh: Shape, v: Json)
    requires Built(item, sh, v)
    ensures item.child == if sh.kids == [] then null else sh.kids[0].root
    ensures v.Array? ==> |sh.kids| == |v.elems|
    ensures v.Object? ==> |sh.kids| == |v.members|
  {
    hide Apart, ContentsOf;
    FirstChild(sh);
    ContainerValue(ContentOf(sh));
  }

  function Leaf(d: real): Content {
    Content(Data(IsNumber, d, ValueInt(d), [], []), [])
  }

  /** cJSON_CreateNumber, with the number saturated to 32 bits beside it. */
  method CreateNumber(d: real) returns (item: Item, ghost sh: Shape)
    ensures fresh(item) && sh == Shape(item, []) && Tree(sh) && Apart(sh)
    ensures item.next == null && item.prev == null && ContentOf(sh) == Leaf(d)
  {
    item := new Item(IsNumber);
    item.number, item.integer := d, ValueInt(d);
    sh := Shape(item, []);
    assert Roots([]) == [];
  }

  function Leaves(numbers: seq<int>): (cs: seq<Content>)
    ensures |cs| == |numbers| && forall i :: 0 <= i < |numbers| ==> cs[i] == Leaf(numbers[i] as real)
  {
    seq(|numbers|, i requires 0 <= i < |numbers| => Leaf(numbers[i] as real))
  }

  /** cJSON_CreateIntArray: an array item whose children are linked in the order of the numbers. */
  method CreateIntArray(numbers: array?<int>, count: int) returns (r: Item?, ghost kids: seq<Shape>)
    requires numbers != null ==> count <= numbers.Length
    ensures r == null <==> numbers == null || count < 0
    ensures r != null ==> Tree(Shape(r, kids)) && Apart(Shape(r, kids)) && fresh(Nodes(Shape(r, kids)))
    ensures r != null ==> ContentOf(Shape(r, kids)) == Content(Data(IsArray, 0.0, 0, [], []), Leaves(numbers[..count]))
  {
    hide Tree, TreeAll, ContentsOf, Apart, ApartAll, Growing, Below, Inner, RootSet, Leaf, Leaves;
    kids := [];
    if count < 0 || numbers == null {
      return null, kids;
    }
    var a := new Item(IsArray);
    var last: Item? := null;
    NoKids(a);
    NoneBelow();
    ghost var leaves := Leaves(numbers[..count]);
    for i := 0 to count
      invariant Growing(a, kids) && fresh(Below(kids)) && last == LastRoot(kids)
      invariant ContentsOf(kids) == leaves[..i] && DataOf(a) == Data(IsArray, 0.0, 0, [], [])
    {
      LastInside(kids);
      var n;
      ghost var sub;
      kids, sub, n := AddNumber(a, last, numbers[i], kids);
      last := n;
      assert leaves[..i] + [leaves[i]] == leaves[..i + 1];
    }
    BelowParts(kids);
    Finish(a, last, kids);
    assert leaves[..count] == leaves;
    assert ContentOf(Shape(a, kids)) == Content(DataOf(a), ContentsOf(kids));
    r := a;
  }

  /** One turn of the loop. */
  method AddNumber(a: Item, last: Item?, number: int, ghost kids: seq<Shape>)
    returns (ghost now: seq<Shape>, ghost sub: Shape, n: Item)
    requires Growing(a, kids) && last == LastRoot(kids)
    modifies a`child, Opt(last)`next
    ensures now == kids + [sub] && Growing(a, now) && fresh(Nodes(sub)) && n == LastRoot(now)
    ensures Below(now) == Below(kids) + Nodes(sub)
    ensures ContentsOf(now) == old(ContentsOf(kids)) + [Leaf(number as real)]
  {
    hide Tree, TreeAll, ContentsOf, ContentOf, Apart, ApartAll, Growing, Inner, RootSet, Leaf;
    BelowAllocated(kids);
    BelowParts(kids);
    n, sub := CreateNumber(number as real);
    assert Below(sub.kids) == {};
    assert ContentsOf(kids) == old(ContentsOf(kids));
    ParentsAppend(kids, sub);
    Grow(a, last, n, kids, sub);
    now := kids + [sub];
  }

  /** The value of such an array. */
  lemma LeavesValue(numbers: seq<int>)
    ensures ValueOf(Content(Data(IsArray, 0.0, 0, [], []), Leaves(numbers)))
         == Array(seq(|numbers|, i requires 0 <= i < |numbers| => Number(numbers[i] as real)))
  {
  }
}
