/** cJSON_Compare with case-sensitive names, and what it decides. */
module JsonCompare {
  import opened Bytes
  import opened Json
  import opened ItemList
  import opened ItemTree

  // ---------------------------------------------------------------------- numbers

  /** DBL_EPSILON */
  const EPSILON: real := 1.0 / 4503599627370496.0

  function Abs(x: real): real {
    if x < 0.0 then -x else x
  }

  /** compare_double, over exact reals. */
  predicate CompareDouble(a: real, b: real) {
    var max := if Abs(a) > Abs(b) then Abs(a) else Abs(b);
    Abs(a - b) <= max * EPSILON
  }

  lemma CompareInts(a: real, b: real)
    requires IsInt32(a) && IsInt32(b)
    ensures CompareDouble(a, b) <==> a == b
  {
    var max := if Abs(a) > Abs(b) then Abs(a) else Abs(b);
    assert max <= 2147483648.0;
    assert max * EPSILON <= 2147483648.0 * EPSILON < 1.0;
    if a != b {
      var i, j := a.Floor, b.Floor;
      assert i != j;
      assert Abs((i - j) as real) >= 1.0;
    }
  }

  // ------------------------------------------------------------------ the function

  function Size(v: Json): nat {
    match v
    case Array(es) => 1 + SizeElems(es)
    case Object(ms) => 1 + SizeMembers(ms)
    case _ => 1
  }

  function SizeElems(es: seq<Json>): nat {
    if es == [] then 0 else 1 + Size(es[0]) + SizeElems(es[1..])
  }

  function SizeMembers(ms: seq<Member>): nat {
    if ms == [] then 0 else 1 + Size(ms[0].value) + SizeMembers(ms[1..])
  }

  /** get_object_item with case_sensitive: the first member of that name. */
  function Find(ms: seq<Member>, key: CString): (i: int)
    ensures -1 <= i < |ms|
    ensures i >= 0 ==> ms[i].key == key && forall j :: 0 <= j < i ==> ms[j].key != key
    ensures i < 0 ==> forall j :: 0 <= j < |ms| ==> ms[j].key != key
  {
    if ms == [] then -1
    else if ms[0].key == key then 0
    else
      var i := Find(ms[1..], key);
      if i < 0 then -1 else i + 1
  }

  lemma {:induction false} SizeAt(ms: seq<Member>, i: nat)
    requires i < |ms|
    ensures Size(ms[i].value) < SizeMembers(ms)
  {
    if i > 0 {
      SizeAt(ms[1..], i - 1);
    }
  }

  predicate Compare(a: Json, b: Json)
    decreases Size(a) + Size(b)
  {
    match (a, b)
    case (Null, Null) => true
    case (Bool(x), Bool(y)) => x == y
    case (Number(x), Number(y)) => CompareDouble(x, y)
    case (String(x), String(y)) => x == y
    case (Array(xs), Array(ys)) => CompareElems(xs, ys)
    case (Object(xs), Object(ys)) => CompareMembers(xs, ys) && CompareMembers(ys, xs)
    case _ => false
  }

  predicate CompareElems(xs: seq<Json>, ys: seq<Json>)
    decreases SizeElems(xs) + SizeElems(ys)
  {
    if xs == [] || ys == [] then xs == ys
    else Compare(xs[0], ys[0]) && CompareElems(xs[1..], ys[1..])
  }

  /** Every member of xs compares equal to the first of its name in ys. */
  predicate CompareMembers(xs: seq<Member>, ys: seq<Member>)
    decreases SizeMembers(xs) + SizeMembers(ys)
  {
    xs == [] ||
    (var i := Find(ys, xs[0].key);
     i >= 0 && (SizeAt(ys, i); Compare(xs[0].value, ys[i].value)) && CompareMembers(xs[1..], ys))
  }

  // ------------------------------------------------------------- what a tree means

  /** A tree with its objects read as maps from names to the first value of that name. */
  datatype Sense =
    | SNull
    | SBool(b: bool)
    | SNumber(d: real)
    | SString(s: CString)
    | SArray(elems: seq<Sense>)
    | SObject(fields: map<CString, Sense>)

  function Meaning(v: Json): Sense {
    match v
    case Null => SNull
    case Bool(b) => SBool(b)
    case Number(d) => SNumber(d)
    case String(s) => SString(s)
    case Array(es) => SArray(MeaningElems(es))
    case Object(ms) => SObject(MeaningMembers(ms))
  }

  function MeaningElems(es: seq<Json>): (r: seq<Sense>)
    ensures |r| == |es|
  {
    if es == [] then [] else [Meaning(es[0])] + MeaningElems(es[1..])
  }

  function MeaningMembers(ms: seq<Member>): map<CString, Sense> {
    if ms == [] then map[] else MeaningMembers(ms[1..])[ms[0].key := Meaning(ms[0].value)]
  }

  /** No object of the tree gives one name two different meanings. */
  predicate WellKeyed(v: Json) {
    match v
    case Array(es) => WellKeyedElems(es)
    case Object(ms) => WellKeyedMembers(ms)
    case _ => true
  }

  predicate WellKeyedElems(es: seq<Json>) {
    es == [] || (WellKeyed(es[0]) && WellKeyedElems(es[1..]))
  }

  predicate WellKeyedMembers(ms: seq<Member>) {
    ms == [] ||
    (&& WellKeyed(ms[0].value)
     && WellKeyedMembers(ms[1..])
     && (ms[0].key in MeaningMembers(ms[1..]) ==> MeaningMembers(ms[1..])[ms[0].key] == Meaning(ms[0].value)))
  }

  // --------------------------------------------------------------------- the theorem

  lemma {:induction false} FindMeaning(ms: seq<Member>, key: CString)
    ensures key in MeaningMembers(ms) <==> Find(ms, key) >= 0
    ensures Find(ms, key) >= 0 ==> MeaningMembers(ms)[key] == Meaning(ms[Find(ms, key)].value)
  {
    if ms != [] {
      FindMeaning(ms[1..], key);
    }
  }

  /** In a well-keyed object every member, not just the first of its name, has the name's meaning. */
  lemma {:induction false} MemberMeaning(ms: seq<Member>, i: nat)
    requires WellKeyedMembers(ms) && i < |ms|
    ensures WellKeyed(ms[i].value)
    ensures ms[i].key in MeaningMembers(ms) && MeaningMembers(ms)[ms[i].key] == Meaning(ms[i].value)
  {
    if i > 0 {
      MemberMeaning(ms[1..], i - 1);
    }
  }

  /** All members of ms have the meaning that fields gives their names. */
  ghost predicate Agree(ms: seq<Member>, fields: map<CString, Sense>) {
    forall i :: 0 <= i < |ms| ==>
      WellKeyed(ms[i].value) && ms[i].key in fields && fields[ms[i].key] == Meaning(ms[i].value)
  }

  lemma {:induction false} AgreeIsWellKeyed(ms: seq<Member>, fields: map<CString, Sense>)
    requires Agree(ms, fields)
    ensures WellKeyedMembers(ms)
    ensures forall k :: k in MeaningMembers(ms) ==> k in fields && fields[k] == MeaningMembers(ms)[k]
  {
    if ms != [] {
      assert Agree(ms[1..], fields) by {
        forall i | 0 <= i < |ms[1..]|
          ensures WellKeyed(ms[1..][i].value) && ms[1..][i].key in fields
          ensures fields[ms[1..][i].key] == Meaning(ms[1..][i].value)
        {
          assert ms[1..][i] == ms[i + 1];
        }
      }
      AgreeIsWellKeyed(ms[1..], fields);
      assert ms[0].key in fields;
    }
  }

  /**
   * Comparing two trees of integers decides, for all trees, whether they mean the same and neither
   * gives a name two meanings.
   */
  lemma {:induction false} CompareDecides(a: Json, b: Json)
    requires IntTree(a) && IntTree(b)
    ensures Compare(a, b) <==> WellKeyed(a) && WellKeyed(b) && Meaning(a) == Meaning(b)
    decreases Size(a) + Size(b), 1
  {
    match (a, b)
    case (Number(x), Number(y)) => CompareInts(x, y);
    case (Array(xs), Array(ys)) => CompareElemsDecides(xs, ys);
    case (Object(xs), Object(ys)) => CompareObjectsDecides(xs, ys);
    case _ =>
  }

  lemma {:induction false} CompareElemsDecides(xs: seq<Json>, ys: seq<Json>)
    requires IntTree(Array(xs)) && IntTree(Array(ys))
    ensures CompareElems(xs, ys) <==>
      WellKeyedElems(xs) && WellKeyedElems(ys) && MeaningElems(xs) == MeaningElems(ys)
    decreases SizeElems(xs) + SizeElems(ys), 0
  {
    if xs == [] || ys == [] {
      if CompareElems(xs, ys) {
        assert xs == [] == ys;
      } else {
        assert |MeaningElems(xs)| != |MeaningElems(ys)|;
      }
    } else {
      CompareDecides(xs[0], ys[0]);
      CompareElemsDecides(xs[1..], ys[1..]);
      var ms, ns := MeaningElems(xs), MeaningElems(ys);
      assert ms == ns <==> ms[0] == ns[0] && ms[1..] == ns[1..] by {
        assert ms == [ms[0]] + ms[1..] && ns == [ns[0]] + ns[1..];
      }
      assert ms[1..] == MeaningElems(xs[1..]) && ns[1..] == MeaningElems(ys[1..]);
    }
  }

  /** One pass over xs against ys, with every comparison decided by meaning. */
  lemma {:induction false} PassDecides(xs: seq<Member>, ys: seq<Member>)
    requires IntTree(Object(xs)) && IntTree(Object(ys))
    ensures CompareMembers(xs, ys) <==> forall i :: 0 <= i < |xs| ==> Matched(xs[i], ys)
    decreases SizeMembers(xs) + SizeMembers(ys), 0
  {
    if xs != [] {
      var i := Find(ys, xs[0].key);
      if i >= 0 {
        SizeAt(ys, i);
        CompareDecides(xs[0].value, ys[i].value);
      }
      PassDecides(xs[1..], ys);
      assert forall j :: 1 <= j < |xs| ==> xs[j] == xs[1..][j - 1];
    }
  }

  ghost predicate Matched(m: Member, ys: seq<Member>) {
    var i := Find(ys, m.key);
    i >= 0 && WellKeyed(m.value) && WellKeyed(ys[i].value) && Meaning(m.value) == Meaning(ys[i].value)
  }

  lemma MatchedAgree(xs: seq<Member>, ys: seq<Member>)
    requires forall i :: 0 <= i < |xs| ==> Matched(xs[i], ys)
    ensures Agree(xs, MeaningMembers(ys))
  {
    forall i | 0 <= i < |xs|
      ensures WellKeyed(xs[i].value) && xs[i].key in MeaningMembers(ys)
      ensures MeaningMembers(ys)[xs[i].key] == Meaning(xs[i].value)
    {
      assert Matched(xs[i], ys);
      FindMeaning(ys, xs[i].key);
    }
  }

  lemma WellKeyedMatched(xs: seq<Member>, ys: seq<Member>)
    requires WellKeyedMembers(xs) && WellKeyedMembers(ys) && MeaningMembers(xs) == MeaningMembers(ys)
    ensures forall i :: 0 <= i < |xs| ==> Matched(xs[i], ys)
  {
    forall i | 0 <= i < |xs|
      ensures Matched(xs[i], ys)
    {
      MemberMeaning(xs, i);
      FindMeaning(ys, xs[i].key);
      MemberMeaning(ys, Find(ys, xs[i].key));
    }
  }

  lemma CompareObjectsDecides(xs: seq<Member>, ys: seq<Member>)
    requires IntTree(Object(xs)) && IntTree(Object(ys))
    ensures CompareMembers(xs, ys) && CompareMembers(ys, xs) <==>
      WellKeyedMembers(xs) && WellKeyedMembers(ys) && MeaningMembers(xs) == MeaningMembers(ys)
    decreases SizeMembers(xs) + SizeMembers(ys), 1
  {
    PassDecides(xs, ys);
    PassDecides(ys, xs);
    if CompareMembers(xs, ys) && CompareMembers(ys, xs) {
      MatchedAgree(xs, ys);
      MatchedAgree(ys, xs);
      AgreeIsWellKeyed(xs, MeaningMembers(ys));
      AgreeIsWellKeyed(ys, MeaningMembers(xs));
    }
    if WellKeyedMembers(xs) && WellKeyedMembers(ys) && MeaningMembers(xs) == MeaningMembers(ys) {
      WellKeyedMatched(xs, ys);
      WellKeyedMatched(ys, xs);
    }
  }

  // --------------------------------------------------------------------- consequences

  /** Every object of the tree has pairwise different names. */
  predicate DistinctKeys(v: Json) {
    match v
    case Array(es) => forall i :: 0 <= i < |es| ==> DistinctKeys(es[i])
    case Object(ms) =>
      && (forall i :: 0 <= i < |ms| ==> DistinctKeys(ms[i].value))
      && (forall i, j :: 0 <= i < j < |ms| ==> ms[i].key != ms[j].key)
    case _ => true
  }

  lemma {:induction false} DistinctIsWellKeyed(v: Json)
    requires DistinctKeys(v)
    ensures WellKeyed(v)
    decreases v, 1
  {
    match v
    case Array(es) => DistinctElems(es);
    case Object(ms) => DistinctMembers(ms);
    case _ =>
  }

  lemma {:induction false} DistinctElems(es: seq<Json>)
    requires forall i :: 0 <= i < |es| ==> DistinctKeys(es[i])
    ensures WellKeyedElems(es)
    decreases es, 0
  {
    if es != [] {
      DistinctIsWellKeyed(es[0]);
      DistinctElems(es[1..]);
    }
  }

  lemma {:induction false} DistinctMembers(ms: seq<Member>)
    requires forall i :: 0 <= i < |ms| ==> DistinctKeys(ms[i].value)
    requires forall i, j :: 0 <= i < j < |ms| ==> ms[i].key != ms[j].key
    ensures WellKeyedMembers(ms)
    decreases ms, 0
  {
    if ms != [] {
      DistinctIsWellKeyed(ms[0].value);
      DistinctMembers(ms[1..]);
      FindMeaning(ms[1..], ms[0].key);
    }
  }

  /** On trees with distinct names comparing is equality of objects read as unordered maps. */
  lemma CompareIsMapEquality(a: Json, b: Json)
    requires IntTree(a) && IntTree(b) && DistinctKeys(a) && DistinctKeys(b)
    ensures Compare(a, b) <==> Meaning(a) == Meaning(b)
  {
    CompareDecides(a, b);
    DistinctIsWellKeyed(a);
    DistinctIsWellKeyed(b);
  }

  /** A tree compares equal to a copy of itself if and only if it is well keyed. */
  lemma CompareReflexive(a: Json)
    requires IntTree(a)
    ensures Compare(a, a) <==> WellKeyed(a)
  {
    CompareDecides(a, a);
  }

  /** {"a": 1, "a": 2} differs from its own copy. */
  lemma CompareMissesCopy()
    ensures var a := Object([Member([97], Number(1.0)), Member([97], Number(2.0))]); !Compare(a, a)
  {
    var ms := [Member([97], Number(1.0)), Member([97], Number(2.0))];
    CompareReflexive(Object(ms));
    assert ms[1..] == [Member([97], Number(2.0))];
    assert Meaning(ms[0].value) == SNumber(1.0) && Meaning(ms[1].value) == SNumber(2.0);
    assert MeaningMembers(ms[1..])[[97]] == SNumber(2.0);
  }

  lemma CompareTransitive(a: Json, b: Json, c: Json)
    requires IntTree(a) && IntTree(b) && IntTree(c) && Compare(a, b) && Compare(b, c)
    ensures Compare(a, c)
  {
    CompareDecides(a, b);
    CompareDecides(b, c);
    CompareDecides(a, c);
  }

  /** The order of the arguments never matters, for any numbers and any names. */
  lemma {:induction false} CompareSymmetric(a: Json, b: Json)
    ensures Compare(a, b) <==> Compare(b, a)
    decreases Size(a) + Size(b), 1
  {
    match (a, b)
    case (Array(xs), Array(ys)) => CompareElemsSymmetric(xs, ys);
    case _ =>
  }

  lemma {:induction false} CompareElemsSymmetric(xs: seq<Json>, ys: seq<Json>)
    ensures CompareElems(xs, ys) <==> CompareElems(ys, xs)
    decreases SizeElems(xs) + SizeElems(ys), 0
  {
    if xs != [] && ys != [] {
      CompareSymmetric(xs[0], ys[0]);
      CompareElemsSymmetric(xs[1..], ys[1..]);
    }
  }

  // ---------------------------------------------------------------------- the loops

  /** get_object_item with case_sensitive: the first child of that name, or none. */
  method GetObjectItem(parent: Item, name: CString, ghost sh: Shape, ghost ms: seq<Member>) returns (r: Item?)
    requires Built(parent, sh, Object(ms))
    ensures |sh.kids| == |ms|
    ensures r == if Find(ms, name) >= 0 then sh.kids[Find(ms, name)].root else null
  {
    hide Built;
    Settled(sh.kids);
    FirstOf(parent, sh, Object(ms));
    r := parent.child;
    ghost var i := 0;
    while r != null && r.name != name
      invariant Built(parent, sh, Object(ms))
      invariant 0 <= i <= |ms| == |sh.kids| && r == if i < |ms| then sh.kids[i].root else null
      invariant forall j :: 0 <= j < i ==> ms[j].key != name
      decreases |ms| - i
    {
      MemberAt(parent, sh, ms, i);
      r := r.next;
      i := i + 1;
    }
    if r != null {
      MemberAt(parent, sh, ms, i);
    }
  }

  lemma {:induction false} SizeElemAt(es: seq<Json>, i: nat)
    requires i < |es|
    ensures Size(es[i]) < SizeElems(es)
  {
    if i > 0 {
      SizeElemAt(es[1..], i - 1);
    }
  }

  lemma {:induction false} NodesAt(kids: seq<Shape>, i: nat)
    requires i < |kids|
    ensures Nodes(kids[i]) <= Below(kids)
  {
    if i > 0 {
      NodesAt(kids[1..], i - 1);
    }
  }

  /** The two trees have no item in common. */
  ghost predicate Disjoint(a: Shape, b: Shape) {
    Nodes(a) !! Nodes(b)
  }

  lemma DisjointAt(a: Shape, b: Shape, i: nat, j: nat)
    requires i < |a.kids| && j < |b.kids|
    ensures Disjoint(a, b) ==> Disjoint(a.kids[i], b.kids[j])
  {
    NodesAt(a.kids, i);
    NodesAt(b.kids, j);
  }

  /** A tree of integers in which no object gives one name two meanings. */
  predicate Steady(v: Json) {
    IntTree(v) && WellKeyed(v)
  }

  /** Nothing is compared with itself that does not compare equal to its copy. */
  ghost predicate Plain(sa: Shape, sb: Shape, x: Json, y: Json) {
    Disjoint(sa, sb) || Steady(x) || Steady(y)
  }

  lemma PlainElem(sa: Shape, sb: Shape, xs: seq<Json>, ys: seq<Json>, i: nat)
    requires Plain(sa, sb, Array(xs), Array(ys)) && i < |xs| == |sa.kids| && i < |ys| == |sb.kids|
    ensures Plain(sa.kids[i], sb.kids[i], xs[i], ys[i])
  {
    hide Disjoint;
    DisjointAt(sa, sb, i, i);
    SteadyElem(xs, i);
    SteadyElem(ys, i);
  }

  lemma SteadyElem(es: seq<Json>, i: nat)
    requires i < |es|
    ensures Steady(Array(es)) ==> Steady(es[i])
  {
    if Steady(Array(es)) {
      assert WellKeyedElems(es);
      WellKeyedElem(es, i);
    }
  }

  lemma {:induction false} WellKeyedElem(es: seq<Json>, i: nat)
    requires i < |es| && WellKeyedElems(es)
    ensures WellKeyed(es[i])
  {
    if i > 0 {
      WellKeyedElem(es[1..], i - 1);
    }
  }

  lemma PlainMember(sa: Shape, sb: Shape, xs: seq<Member>, ys: seq<Member>, i: nat, j: nat)
    requires Plain(sa, sb, Object(xs), Object(ys)) && i < |xs| == |sa.kids| && j < |ys| == |sb.kids|
    ensures Plain(sa.kids[i], sb.kids[j], xs[i].value, ys[j].value)
  {
    hide Disjoint;
    DisjointAt(sa, sb, i, j);
    if Steady(Object(xs)) {
      MemberMeaning(xs, i);
    }
    if Steady(Object(ys)) {
      MemberMeaning(ys, j);
    }
  }

  // ------------------------------------------------------- an item has one value

  lemma LinkedUnique(parent: Item, xs: seq<Item>, ys: seq<Item>)
    requires Linked(parent, xs) && Linked(parent, ys)
    ensures xs == ys
  {
    LinkedPrefix(parent, xs, ys, |xs|);
    LinkedPrefix(parent, ys, xs, |ys|);
  }

  lemma {:induction false} LinkedPrefix(parent: Item, xs: seq<Item>, ys: seq<Item>, n: nat)
    requires Linked(parent, xs) && Linked(parent, ys) && n <= |xs|
    ensures n <= |ys| && xs[..n] == ys[..n]
  {
    if n == 1 {
      assert xs[0] == parent.child == ys[0];
    } else if n > 1 {
      LinkedPrefix(parent, xs, ys, n - 1);
      assert xs[n - 2] == xs[..n - 1][n - 2] == ys[n - 2];
      assert Link(xs, n - 2) && Link(ys, n - 2);
      assert xs[..n] == xs[..n - 1] + [xs[n - 1]] && ys[..n] == ys[..n - 1] + [ys[n - 1]];
    }
  }

  lemma {:induction false} ShapeUnique(sa: Shape, sb: Shape)
    requires Tree(sa) && Tree(sb) && sa.root == sb.root
    ensures sa == sb
    decreases sa, 1
  {
    hide Linked, TreeAll;
    LinkedUnique(sa.root, Roots(sa.kids), Roots(sb.kids));
    ShapesUnique(sa.kids, sb.kids);
  }

  lemma {:induction false} ShapesUnique(xs: seq<Shape>, ys: seq<Shape>)
    requires TreeAll(xs) && TreeAll(ys) && Roots(xs) == Roots(ys)
    ensures xs == ys
    decreases xs, 0
  {
    hide Tree;
    assert |Roots(xs)| == |Roots(ys)|;
    if xs != [] {
      assert Roots(xs)[0] == Roots(ys)[0];
      assert Roots(xs)[1..] == Roots(xs[1..]) && Roots(ys)[1..] == Roots(ys[1..]);
      ShapeUnique(xs[0], ys[0]);
      ShapesUnique(xs[1..], ys[1..]);
      assert xs == [xs[0]] + xs[1..] && ys == [ys[0]] + ys[1..];
    }
  }

  /**
   * cJSON_Compare with case_sensitive set: an item equals itself; two trees are equal as `Compare`
   * says, if they have no item in common or one of them is a steady tree.
   */
  method CompareItems(a: Item?, b: Item?, ghost sa: Shape, ghost sb: Shape, ghost x: Json, ghost y: Json)
    returns (r: bool)
    requires (a != null ==> Built(a, sa, x)) && (b != null ==> Built(b, sb, y))
    ensures a == null || b == null ==> !r
    ensures a != null && a == b ==> r
    ensures a != null && b != null && Plain(sa, sb, x, y) ==> r == Compare(x, y)
    decreases Size(x) + Size(y), 2
  {
    hide Built, CompareElems, CompareMembers, CompareDouble, Plain;
    if a == null || b == null {
      return false;
    }
    KindOf(a, sa, x);
    KindOf(b, sb, y);
    Settled(sa.kids);
    Settled(sb.kids);
    if a.kind != b.kind {
      return false;
    }
    if a == b {
      SharedItem(a, sa, sb, x, y);
      return true;
    }
    match a.kind
    case IsNumber => return CompareDouble(a.number, b.number);
    case IsString => return a.text == b.text;
    case IsArray => r := CompareLists(a, b, sa, sb, x.elems, y.elems);
    case IsObject =>
      r := ComparePass(a, b, sa, sb, x.members, y.members);
      if r {
        PlainBack(sa, sb, x, y);
        r := ComparePass(b, a, sb, sa, y.members, x.members);
      }
    case _ => return true;
  }

  lemma SharedItem(a: Item, sa: Shape, sb: Shape, x: Json, y: Json)
    requires Built(a, sa, x) && Built(a, sb, y)
    ensures Plain(sa, sb, x, y) ==> Compare(x, y)
  {
    hide Tree, Apart, Compare, WellKeyed, IntTree;
    assert a in Nodes(sa) && a in Nodes(sb);
    ShapeUnique(sa, sb);
    if Steady(x) {
      CompareReflexive(x);
    }
  }

  lemma PlainBack(sa: Shape, sb: Shape, x: Json, y: Json)
    ensures Plain(sa, sb, x, y) <==> Plain(sb, sa, y, x)
  {
    hide Steady, Nodes;
  }

  /** The walk along two arrays. */
  method CompareLists(a: Item, b: Item, ghost sa: Shape, ghost sb: Shape, ghost xs: seq<Json>, ghost ys: seq<Json>)
    returns (r: bool)
    requires Built(a, sa, Array(xs)) && Built(b, sb, Array(ys))
    ensures Plain(sa, sb, Array(xs), Array(ys)) ==> r == CompareElems(xs, ys)
    decreases SizeElems(xs) + SizeElems(ys), 0
  {
    hide Built, Compare, Plain;
    Settled(sa.kids);
    Settled(sb.kids);
    FirstOf(a, sa, Array(xs));
    FirstOf(b, sb, Array(ys));
    var u, v := a.child, b.child;
    ghost var i := 0;
    while u != null && v != null
      invariant Built(a, sa, Array(xs)) && Built(b, sb, Array(ys))
      invariant 0 <= i <= |xs| == |sa.kids| && i <= |ys| == |sb.kids|
      invariant u == if i < |xs| then sa.kids[i].root else null
      invariant v == if i < |ys| then sb.kids[i].root else null
      invariant Plain(sa, sb, Array(xs), Array(ys)) ==> CompareElems(xs, ys) == CompareElems(xs[i..], ys[i..])
      decreases |xs| - i
    {
      ElemAt(a, sa, xs, i);
      ElemAt(b, sb, ys, i);
      SizeElemAt(xs, i);
      SizeElemAt(ys, i);
      if Plain(sa, sb, Array(xs), Array(ys)) {
        PlainElem(sa, sb, xs, ys, i);
      }
      assert xs[i..][1..] == xs[i + 1..] && ys[i..][1..] == ys[i + 1..];
      var same := CompareItems(u, v, sa.kids[i], sb.kids[i], xs[i], ys[i]);
      if !same {
        return false;
      }
      u, v := u.next, v.next;
      i := i + 1;
    }
    return u == null && v == null;
  }

  /** One of the two loops over the members of an object. */
  method ComparePass(a: Item, b: Item, ghost sa: Shape, ghost sb: Shape, ghost xs: seq<Member>, ghost ys: seq<Member>)
    returns (r: bool)
    requires Built(a, sa, Object(xs)) && Built(b, sb, Object(ys))
    ensures Plain(sa, sb, Object(xs), Object(ys)) ==> r == CompareMembers(xs, ys)
    decreases SizeMembers(xs) + SizeMembers(ys), 0
  {
    hide Built, Compare, CompareMembers, Plain, Find, SizeMembers;
    Settled(sa.kids);
    Settled(sb.kids);
    FirstOf(a, sa, Object(xs));
    var u := a.child;
    ghost var i := 0;
    assert xs[0..] == xs;
    while u != null
      invariant Built(a, sa, Object(xs)) && Built(b, sb, Object(ys))
      invariant 0 <= i <= |xs| == |sa.kids| && u == if i < |xs| then sa.kids[i].root else null
      invariant Plain(sa, sb, Object(xs), Object(ys)) ==> CompareMembers(xs, ys) == CompareMembers(xs[i..], ys)
      decreases |xs| - i
    {
      MemberAt(a, sa, xs, i);
      PassTurn(xs, ys, i);
      var v := GetObjectItem(b, u.name, sb, ys);
      if v == null {
        return false;
      }
      ghost var j := Find(ys, xs[i].key);
      MemberAt(a, sa, xs, i);
      MemberAt(b, sb, ys, j);
      SizeAt(xs, i);
      SizeAt(ys, j);
      if Plain(sa, sb, Object(xs), Object(ys)) {
        PlainMember(sa, sb, xs, ys, i, j);
      }
      var same := CompareItems(u, v, sa.kids[i], sb.kids[j], xs[i].value, ys[j].value);
      if !same {
        return false;
      }
      u := u.next;
      i := i + 1;
    }
    PassOver(xs, ys);
    return true;
  }

  lemma PassTurn(xs: seq<Member>, ys: seq<Member>, i: nat)
    requires i < |xs|
    ensures CompareMembers(xs[i..], ys) <==>
      var j := Find(ys, xs[i].key);
      j >= 0 && Compare(xs[i].value, ys[j].value) && CompareMembers(xs[i + 1..], ys)
  {
    hide Compare, Find;
    assert xs[i..][1..] == xs[i + 1..] && xs[i..][0] == xs[i];
  }

  lemma PassOver(xs: seq<Member>, ys: seq<Member>)
    ensures CompareMembers(xs[|xs|..], ys)
  {
  }
}
