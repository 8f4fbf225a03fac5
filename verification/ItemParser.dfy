/** The parser builds linked items: parse_value and the container loops, on the heap. */
module ItemParser {
  import opened Bytes
  import opened Json
  import opened JsonText
  import opened JsonNumber
  import opened JsonParse
  import opened JsonParser
  import opened ItemList
  import opened ItemTree

  lemma LeafBuilt(item: Item, v: Json)
    requires item.child == null && item.kind != IsArray && item.kind != IsObject
    requires v == ValueOf(Content(DataOf(item), []))
    ensures Built(item, Shape(item, []), v) && Below([]) == {}
  {
    assert Roots([]) == [];
  }

  lemma OpensContainer(c: bytes, o: nat, room: nat)
    requires o < |c|
    ensures c[o] == LBRACKET ==> ParseValue(c, o, room) == ParseArray(c, o, room)
    ensures c[o] == LBRACE ==> ParseValue(c, o, room) == ParseObject(c, o, room)
  {
    hide ParseArray, ParseObject, ParseString, ParseNumber;
    assert At(c, o, NULL_TEXT) ==> c[o] == c[o..o + 4][0] == NULL_TEXT[0];
    assert At(c, o, FALSE_TEXT) ==> c[o] == c[o..o + 5][0] == FALSE_TEXT[0];
    assert At(c, o, TRUE_TEXT) ==> c[o] == c[o..o + 4][0] == TRUE_TEXT[0];
  }

  /** parse_value: fills the item, which has no children yet. */
  method ReadValue(b: ParseBuffer, item: Item) returns (ok: bool, ghost sh: Shape, ghost v: Json)
    requires b.Valid() && item.child == null
    modifies b`offset, b`depth, item`kind, item`number, item`integer, item`text, item`child
    ensures ok ==> b.Valid() && b.depth == old(b.depth)
    ensures ParseValue(b.content, old(b.offset), old(b.Room())) == if ok then Ok(v, b.offset) else Err(b.offset)
    ensures ok ==> Built(item, sh, v) && fresh(Below(sh.kids))
    decreases |b.content| - b.offset, 5
  {
    hide ParseValue, ParseArray, ParseObject, Built;
    sh := Shape(item, []);
    if b.offset < |b.content| {
      OpensContainer(b.content, b.offset, b.Room());
    }
    if b.offset < |b.content| && b.content[b.offset] == LBRACKET {
      ok, sh, v := ReadArray(b, item);
    } else if b.offset < |b.content| && b.content[b.offset] == LBRACE {
      ok, sh, v := ReadObject(b, item);
    } else {
      ok, v := ReadLeaf(b, item);
      if ok {
        LeafBuilt(item, v);
      }
    }
  }

  /** The cases without children. */
  method ReadLeaf(b: ParseBuffer, item: Item) returns (ok: bool, ghost v: Json)
    requires b.Valid()
    requires b.offset < |b.content| ==> b.content[b.offset] != LBRACKET && b.content[b.offset] != LBRACE
    modifies b`offset, item`kind, item`number, item`integer, item`text
    ensures b.Valid() && item.child == old(item.child)
    ensures ParseValue(b.content, old(b.offset), b.Room()) == if ok then Ok(v, b.offset) else Err(b.offset)
    ensures ok ==> item.kind != IsArray && item.kind != IsObject && v == ValueOf(Content(DataOf(item), []))
    ensures ok && item.kind == IsNumber ==> item.integer == ValueInt(item.number)
    ensures ok && item.kind == IsTrue ==> item.integer == 1
  {
    hide ParseString, ParseNumber, ParseArray, ParseObject;
    ok, v := true, Null;
    if At(b.content, b.offset, NULL_TEXT) {
      item.kind := IsNull;
      b.offset := b.offset + 4;
    } else if At(b.content, b.offset, FALSE_TEXT) {
      item.kind, v := IsFalse, Bool(false);
      b.offset := b.offset + 5;
    } else if At(b.content, b.offset, TRUE_TEXT) {
      item.kind, item.integer, v := IsTrue, 1, Bool(true);
      b.offset := b.offset + 4;
    } else if b.offset < |b.content| && b.content[b.offset] == QUOTE {
      var s;
      ok, s := b.ReadString();
      if ok {
        item.kind, item.text, v := IsString, s, String(s);
      }
    } else if b.offset < |b.content| && StartsNumber(b.content[b.offset]) {
      var n;
      ok, n := b.ReadNumber();
      if ok {
        item.kind, item.number, item.integer, v := IsNumber, n.d, ValueInt(n.d), n;
      }
    } else {
      ok := false;
    }
  }

  /** parse_array */
  method ReadArray(b: ParseBuffer, item: Item) returns (ok: bool, ghost sh: Shape, ghost v: Json)
    requires b.Valid() && b.offset < |b.content| && b.content[b.offset] == LBRACKET
    modifies b`offset, b`depth, item`kind, item`child
    ensures ok ==> b.Valid() && b.depth == old(b.depth)
    ensures ParseArray(b.content, old(b.offset), old(b.Room())) == if ok then Ok(v, b.offset) else Err(b.offset)
    ensures ok ==> Built(item, sh, v) && fresh(Below(sh.kids))
    decreases |b.content| - b.offset, 4
  {
    hide ParseElems, SkipWhitespace, Built, Chained, Below, RootSet, Inner, ContentsOf, ElemValues, MemberValues;
    ok, sh, v := false, Shape(item, []), Null;
    if b.depth >= NESTING_LIMIT {
      return;
    }
    b.depth := b.depth + 1;
    b.offset := b.offset + 1;
    b.SkipBlank();
    var head: Item?, last: Item? := null, null;
    ghost var kids: seq<Shape>, elems: seq<Json> := [], [];
    NoChain();
    if b.offset < |b.content| && b.content[b.offset] == RBRACKET {
      // empty array
    } else {
      if b.offset >= |b.content| {
        b.offset := b.offset - 1;
        return;
      }
      ok, head, last, kids, elems := ReadElems(b);
      if !ok {
        return;
      }
      ok := false;
      if b.offset >= |b.content| || b.content[b.offset] != RBRACKET {
        return;
      }
    }
    Settled(kids);
    Success(b, item, IsArray, head, last, kids);
    ok, sh, v := true, Shape(item, kids), Array(elems);
  }

  lemma NoChain()
    ensures Chained(null, []) && LastRoot([]) == null && Below([]) == {}
    ensures ElemValues(ContentsOf([])) == [] && MemberValues(ContentsOf([])) == []
  {
    assert Roots([]) == [];
  }

  function Container(kind: Kind, cs: seq<Content>): Json {
    if kind == IsArray then Array(ElemValues(cs)) else Object(MemberValues(cs))
  }

  /** The way out of a container that was read: the item gets the list. */
  method Success(b: ParseBuffer, item: Item, kind: Kind, head: Item?, last: Item?, ghost kids: seq<Shape>)
    requires Chained(head, kids) && item !in Below(kids) && last == LastRoot(kids)
    requires (kind == IsArray || kind == IsObject) && b.depth > 0
    modifies b`offset, b`depth, item`kind, item`child, RootSet(kids)`prev
    ensures b.depth == old(b.depth) - 1 && b.offset == old(b.offset) + 1
    ensures Built(item, Shape(item, kids), Container(kind, old(ContentsOf(kids))))
  {
    hide Chained, Tree, TreeAll, ContentsOf, Apart, ApartAll, Below, Inner, RootSet, ValueOf;
    Settled(kids);
    b.depth := b.depth - 1;
    b.offset := b.offset + 1;
    Adopt(item, head, last, kids);
    item.kind := kind;
    ghost var sh := Shape(item, kids);
    assert Tree(sh) && ContentOf(sh) == Content(DataOf(item), ContentsOf(kids));
    ContainerValue(ContentOf(sh));
  }

  /** One turn of the element loop, as the specification has it. */
  lemma ElemsTurn(c: bytes, o: nat, room: nat)
    requires o <= |c|
    ensures var first := ParseValue(c, SkipWhitespace(c, o), room);
      ParseElems(c, o, room) ==
        if first.Err? then Err(first.offset)
        else
          var p := SkipWhitespace(c, first.offset);
          if p < |c| && c[p] == COMMA then Collected([first.value], ParseElems(c, p + 1, room))
          else Ok([first.value], p)
  {
    hide ParseValue, SkipWhitespace;
  }

  /** The element loop, from the step back in front of the first element. */
  method ReadElems(b: ParseBuffer)
    returns (ok: bool, head: Item?, last: Item?, ghost kids: seq<Shape>, ghost elems: seq<Json>)
    requires b.Valid() && 0 < b.offset < |b.content|
    modifies b`offset, b`depth
    ensures ok ==> b.Valid() && b.depth == old(b.depth)
    ensures ParseElems(b.content, old(b.offset), old(b.Room())) == if ok then Ok(elems, b.offset) else Err(b.offset)
    ensures ok ==> Chained(head, kids) && last == LastRoot(kids) && fresh(Below(kids))
    ensures ok ==> ElemValues(ContentsOf(kids)) == elems
    decreases |b.content| - b.offset, 8
  {
    hide ParseElems, ParseValue, SkipWhitespace, Chained, Below, RootSet, Inner, ContentsOf, ElemValues;
    ghost var all := ParseElems(b.content, b.offset, b.Room());
    CollectedNone(all);
    head, last, kids, elems := null, null, [], [];
    NoChain();
    b.offset := b.offset - 1;
    var more := true;
    while more
      invariant b.Valid() && b.depth == old(b.depth) && old(b.offset) <= b.offset + 1
      invariant more ==>
        b.offset < |b.content| && all == Collected(elems, ParseElems(b.content, b.offset + 1, b.Room()))
      invariant !more ==> all == Ok(elems, b.offset)
      invariant Chained(head, kids) && last == LastRoot(kids) && fresh(Below(kids))
      invariant ElemValues(ContentsOf(kids)) == elems
      decreases |b.content| - b.offset
    {
      Settled(kids);
      LastInside(kids);
      ghost var done, v := elems, Null;
      b.offset := b.offset + 1;
      ElemsTurn(b.content, b.offset, b.Room());
      ok, head, last, kids, v := NextElem(b, head, last, kids);
      if !ok {
        return;
      }
      elems := elems + [v];
      Settled(kids);
      b.SkipBlank();
      more := b.offset < |b.content| && b.content[b.offset] == COMMA;
      if more {
        CollectedTwice(done, [v], ParseElems(b.content, b.offset + 1, b.Room()));
      }
    }
    ok := true;
  }

  /** The item at the end of the list gets its value. */
  method FillLast(b: ParseBuffer, first: Item, item: Item, ghost kids: seq<Shape>)
    returns (ok: bool, ghost now: seq<Shape>, ghost c: Content)
    requires b.Valid() && item.child == null && item !in Below(kids)
    requires Chain(first, Roots(kids) + [item]) && ApartAll(kids) && TreeAll(kids)
    modifies b`offset, b`depth, item`kind, item`number, item`integer, item`text, item`child
    ensures ok ==> b.Valid() && b.depth == old(b.depth)
    ensures ParseValue(b.content, old(b.offset), old(b.Room()))
      == if ok then Ok(ValueOf(c), b.offset) else Err(b.offset)
    ensures ok ==> Chained(first, now) && item == LastRoot(now)
    ensures ok ==> forall x :: x in Below(now) ==> x in Below(kids) || x == item || fresh(x)
    ensures ok ==> ContentsOf(now) == old(ContentsOf(kids)) + [c] && c.data.name == item.name
    decreases |b.content| - b.offset, 6
  {
    hide ParseValue, Tree, TreeAll, ContentsOf, Apart, ApartAll, Chain, Chained, ValueOf, Below, Inner, RootSet;
    Settled(kids);
    ghost var sub, v;
    ok, sub, v := ReadValue(b, item);
    now, c := kids + [sub], ContentOf(sub);
    if ok {
      ChainedMore(first, kids, sub);
    }
  }

  /** One turn: a new item behind the last one, and its value. */
  method NextElem(b: ParseBuffer, head: Item?, last: Item?, ghost kids: seq<Shape>)
    returns (ok: bool, first: Item?, item: Item, ghost now: seq<Shape>, ghost v: Json)
    requires b.Valid() && Chained(head, kids) && last == LastRoot(kids)
    modifies b`offset, b`depth, Opt(last)`next
    ensures ok ==> b.Valid() && b.depth == old(b.depth)
    ensures ParseValue(b.content, SkipWhitespace(b.content, old(b.offset)), old(b.Room()))
         == if ok then Ok(v, b.offset) else Err(b.offset)
    ensures ok ==> Chained(first, now) && item == LastRoot(now)
    ensures ok ==> forall x :: x in Below(now) ==> x in Below(kids) || fresh(x)
    ensures ok ==> ElemValues(ContentsOf(now)) == ElemValues(old(ContentsOf(kids))) + [v]
    decreases |b.content| - b.offset, 7
  {
    hide ParseValue, SkipWhitespace, TreeAll, ContentsOf, ApartAll, Chain, Chained, ValueOf, ElemValues, Below;
    hide Inner, RootSet;
    Settled(kids);
    LastInside(kids);
    item := new Item(IsNull);
    first := HookNext(head, last, item, kids);
    b.SkipBlank();
    ghost var c;
    ok, now, c := FillLast(b, first, item, kids);
    v := ValueOf(c);
    ElemValuesMore(old(ContentsOf(kids)), c);
  }

  /** parse_object */
  method ReadObject(b: ParseBuffer, item: Item) returns (ok: bool, ghost sh: Shape, ghost v: Json)
    requires b.Valid() && b.offset < |b.content| && b.content[b.offset] == LBRACE
    modifies b`offset, b`depth, item`kind, item`child
    ensures ok ==> b.Valid() && b.depth == old(b.depth)
    ensures ParseObject(b.content, old(b.offset), old(b.Room())) == if ok then Ok(v, b.offset) else Err(b.offset)
    ensures ok ==> Built(item, sh, v) && fresh(Below(sh.kids))
    decreases |b.content| - b.offset, 4
  {
    hide ParseMembers, SkipWhitespace, Built, Chained, Below, RootSet, Inner, ContentsOf, ElemValues, MemberValues;
    ok, sh, v := false, Shape(item, []), Null;
    if b.depth >= NESTING_LIMIT {
      return;
    }
    b.depth := b.depth + 1;
    b.offset := b.offset + 1;
    b.SkipBlank();
    var head: Item?, last: Item? := null, null;
    ghost var kids: seq<Shape>, members: seq<Member> := [], [];
    NoChain();
    if b.offset < |b.content| && b.content[b.offset] == RBRACE {
      // empty object
    } else {
      if b.offset >= |b.content| {
        b.offset := b.offset - 1;
        return;
      }
      b.offset := b.offset - 1;
      ok, head, last, kids, members := ReadMembers(b);
      if !ok {
        return;
      }
      ok := false;
      if b.offset >= |b.content| || b.content[b.offset] != RBRACE {
        return;
      }
    }
    Settled(kids);
    Success(b, item, IsObject, head, last, kids);
    ok, sh, v := true, Shape(item, kids), Object(members);
  }

  method ReadMembers(b: ParseBuffer)
    returns (ok: bool, head: Item?, last: Item?, ghost kids: seq<Shape>, ghost members: seq<Member>)
    requires b.Valid() && b.offset < |b.content|
    modifies b`offset, b`depth
    ensures ok ==> b.Valid() && b.depth == old(b.depth)
    ensures ParseMembers(b.content, old(b.offset), old(b.Room())) == if ok then Ok(members, b.offset) else Err(b.offset)
    ensures ok ==> Chained(head, kids) && last == LastRoot(kids) && fresh(Below(kids))
    ensures ok ==> MemberValues(ContentsOf(kids)) == members
    decreases |b.content| - b.offset, 3
  {
    hide ParseMember, Chained, Below, ContentsOf, MemberValues;
    ghost var all := ParseMembers(b.content, b.offset, b.Room());
    CollectedNone(all);
    head, last, kids, members := null, null, [], [];
    NoChain();
    var more := true;
    while more
      invariant b.Valid() && b.depth == old(b.depth) && old(b.offset) <= b.offset
      invariant more ==>
        b.offset < |b.content| && all == Collected(members, ParseMembers(b.content, b.offset, b.Room()))
      invariant !more ==> all == Ok(members, b.offset)
      invariant Chained(head, kids) && last == LastRoot(kids) && fresh(Below(kids))
      invariant MemberValues(ContentsOf(kids)) == members
      decreases |b.content| - b.offset
    {
      Settled(kids);
      LastInside(kids);
      ghost var done, m := members, Member([], Null);
      ok, head, last, kids, m := NextMember(b, head, last, kids);
      if !ok {
        return;
      }
      members := members + [m];
      more := b.offset < |b.content| && b.content[b.offset] == COMMA;
      if more {
        CollectedTwice(done, [m], ParseMembers(b.content, b.offset, b.Room()));
      }
    }
    ok := true;
  }

  /** One turn: a new item behind the last one, its name, a colon and its value. */
  method NextMember(b: ParseBuffer, head: Item?, last: Item?, ghost kids: seq<Shape>)
    returns (ok: bool, first: Item?, item: Item, ghost now: seq<Shape>, ghost m: Member)
    requires b.Valid() && b.offset < |b.content| && Chained(head, kids) && last == LastRoot(kids)
    modifies b`offset, b`depth, Opt(last)`next
    ensures ok ==> b.Valid() && b.depth == old(b.depth)
    ensures ParseMember(b.content, old(b.offset), old(b.Room())) == if ok then Ok(m, b.offset) else Err(b.offset)
    ensures ok ==> Chained(first, now) && item == LastRoot(now)
    ensures ok ==> forall x :: x in Below(now) ==> x in Below(kids) || fresh(x)
    ensures ok ==> MemberValues(ContentsOf(now)) == MemberValues(old(ContentsOf(kids))) + [m]
    decreases |b.content| - b.offset, 2
  {
    hide ParseValue, ParseString, SkipWhitespace, TreeAll, ContentsOf, ApartAll, Chain, Chained, ValueOf, MemberValues,
         Below, Inner, RootSet;
    Settled(kids);
    LastInside(kids);
    item := new Item(IsNull);
    first := HookNext(head, last, item, kids);
    now, m := kids, Member([], Null);
    ok := ReadName(b, item);
    if !ok {
      return;
    }
    ghost var c;
    ok, now, c := FillLast(b, first, item, kids);
    if !ok {
      return;
    }
    Settled(now);
    b.SkipBlank();
    m := MemberValue(c);
    MemberValuesMore(old(ContentsOf(kids)), c);
  }

  /** The name and the colon: leaves the buffer at the value. */
  function NameParsed(c: bytes, o: nat): (r: Parsed<CString>)
    requires o < |c|
    ensures r.Ok? ==> o < r.offset <= |c|
  {
    if o + 1 >= |c| then Err(o)
    else
      var (key, next) :- ParseString(c, SkipWhitespace(c, o + 1));
      var p := SkipWhitespace(c, next);
      if p == |c| || c[p] != COLON then Err(p) else Ok(key, SkipWhitespace(c, p + 1))
  }

  method ReadName(b: ParseBuffer, item: Item) returns (ok: bool)
    requires b.Valid() && b.offset < |b.content|
    modifies b`offset, item`kind, item`text, item`name
    ensures ok ==> b.Valid()
    ensures NameParsed(b.content, old(b.offset)) == if ok then Ok(item.name, b.offset) else Err(b.offset)
  {
    hide ParseString, SkipWhitespace;
    if b.offset + 1 >= |b.content| {
      return false;
    }
    b.offset := b.offset + 1;
    b.SkipBlank();
    SkipInside(b.content, old(b.offset) + 1);
    var key;
    ok, key := b.ReadString();
    if !ok {
      return;
    }
    item.kind, item.text := IsString, key;
    b.SkipBlank();
    item.name := item.text;
    item.text := [];
    if b.offset >= |b.content| || b.content[b.offset] != COLON {
      return false;
    }
    b.offset := b.offset + 1;
    b.SkipBlank();
  }

  /** cJSON_ParseWithLengthOpts: the item, or none, and where the parse ended. */
  method ParseWithLengthOpts(content: bytes, requireNul: bool)
    returns (item: Item?, end: nat, ghost sh: Shape, ghost v: Json)
    ensures ParseText(content, requireNul) == if item != null then Ok(v, end) else Err(end)
    ensures item != null ==> Built(item, sh, v) && fresh(Nodes(sh)) && item.next == null && item.prev == null
  {
    hide ParseValue, SkipWhitespace, Tree, Apart, ContentOf, ValueOf;
    var root := new Item(IsNull);
    sh, v := Shape(root, []), Null;
    if content == [] {
      return null, 0, sh, v;
    }
    var b := new ParseBuffer(content);
    if 4 < |content| && content[..3] == BOM {
      b.offset := 3;
    }
    b.SkipBlank();
    var ok;
    ok, sh, v := ReadValue(b, root);
    if ok && requireNul {
      Settled(sh.kids);
      b.SkipBlank();
      ok := b.offset < |content| && content[b.offset] == 0;
    }
    if ok {
      return root, b.offset, sh, v;
    }
    return null, if b.offset < |content| then b.offset else |content| - 1, sh, v;
  }
}
