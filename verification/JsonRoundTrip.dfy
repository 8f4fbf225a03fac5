/** Printing and parsing undo each other. */
module JsonRoundTrip {
  import opened Bytes
  import opened Json
  import opened JsonText
  import opened JsonNumber
  import opened JsonLiteral
  import opened JsonParse
  import opened JsonSyntax
  import opened JsonStrict

  // ------------------------------------------- the syntax tree the printer writes

  function DocOf(v: Json, fmt: bool, depth: nat): Doc
    decreases v, 1
  {
    match v
    case Null => DNull
    case Bool(b) => DBool(b)
    case Number(d) => DNumber(IntText(d.Floor))
    case String(s) => DString(EscapeUnits(s))
    case Array(es) => DArray([], ElemDocs(es, fmt, depth + 1, true))
    case Object(ms) =>
      DObject(When(fmt, [NL]) + (if ms == [] then When(fmt, Tabs(depth)) else []),
              MemberDocs(ms, fmt, depth + 1, true))
  }

  function ElemDocs(es: seq<Json>, fmt: bool, depth: nat, first: bool): (r: seq<DElem>)
    ensures |r| == |es|
    decreases es, 0
  {
    if es == [] then []
    else [DElem(Lead(fmt, first, [SPACE]), DocOf(es[0], fmt, depth), [])] + ElemDocs(es[1..], fmt, depth, false)
  }

  function MemberDocs(ms: seq<Member>, fmt: bool, depth: nat, first: bool): (r: seq<DMember>)
    requires depth > 0
    ensures |r| == |ms|
    decreases ms, 0
  {
    if ms == [] then []
    else [MemberDoc(ms[0].key, DocOf(ms[0].value, fmt, depth), fmt, depth, first, |ms| == 1)]
         + MemberDocs(ms[1..], fmt, depth, false)
  }

  function MemberDoc(key: bytes, doc: Doc, fmt: bool, depth: nat, first: bool, last: bool): DMember
    requires depth > 0
  {
    DMember(Lead(fmt, first, [NL]) + When(fmt, Tabs(depth)), EscapeUnits(key), [], When(fmt, [TAB]), doc,
            When(fmt && last, [NL] + Tabs(depth - 1)))
  }

  /** The blank behind a comma; nothing in front of the first item. */
  function Lead(fmt: bool, first: bool, t: bytes): bytes {
    When(fmt && !first, t)
  }

  // ------------------------------------------------------- it is well formed

  /** The printer writes JSON texts of RFC 8259. */
  lemma {:induction false} DocOfOk(v: Json, fmt: bool, depth: nat)
    requires IntTree(v)
    ensures DocOk(DocOf(v, fmt, depth)) && DocValue(DocOf(v, fmt, depth)) == v
    ensures Strict(DocOf(v, fmt, depth)) && Brief(DocOf(v, fmt, depth))
    decreases v, 1
  {
    match v
    case Number(d) =>
      IntTextReads(d.Floor);
      IntTextStrict(d.Floor);
    case String(s) =>
      EscapeFaithful(s);
      EscapeStrict(s);
    case Array(es) => ElemDocsOk(es, fmt, depth + 1, true);
    case Object(ms) => MemberDocsOk(ms, fmt, depth + 1, true);
    case _ =>
  }

  /** No control byte is printed as itself. */
  lemma {:induction false} EscapeStrict(s: bytes)
    ensures StrictLiteral(EscapeUnits(s))
  {
    if s != [] {
      EscapeUnitFaithful(s[0]);
      EscapeStrict(s[1..]);
      var us := EscapeUnits(s);
      forall i | 0 <= i < |us|
        ensures StrictUnit(us[i])
      {
        assert i > 0 ==> us[i] == EscapeUnits(s[1..])[i - 1];
      }
    }
  }

  lemma {:induction false} ElemDocsOk(es: seq<Json>, fmt: bool, depth: nat, first: bool)
    requires forall i :: 0 <= i < |es| ==> IntTree(es[i])
    ensures ElemsOk(ElemDocs(es, fmt, depth, first)) && ElemsValue(ElemDocs(es, fmt, depth, first)) == es
    ensures StrictElems(ElemDocs(es, fmt, depth, first)) && BriefElems(ElemDocs(es, fmt, depth, first))
    decreases es, 0
  {
    if es != [] {
      DocOfOk(es[0], fmt, depth);
      ElemDocsOk(es[1..], fmt, depth, false);
      var ds := ElemDocs(es, fmt, depth, first);
      assert ds[1..] == ElemDocs(es[1..], fmt, depth, false);
      assert [es[0]] + es[1..] == es;
    }
  }

  lemma NameDocOk(m: DMember, key: bytes, fmt: bool, depth: nat, first: bool, last: bool, doc: Doc)
    requires depth > 0 && m == MemberDoc(key, doc, fmt, depth, first, last)
    ensures NameOk(m) && StrictName(m) && LiteralValue(m.key) == key
  {
    hide LiteralOk, LiteralText, EscapeText, EscapeUnits, LiteralValue, StrictLiteral;
    EscapeFaithful(key);
    EscapeStrict(key);
  }

  lemma {:induction false} MemberDocsOk(ms: seq<Member>, fmt: bool, depth: nat, first: bool)
    requires depth > 0 && forall i :: 0 <= i < |ms| ==> IntTree(ms[i].value)
    ensures MembersOk(MemberDocs(ms, fmt, depth, first)) && MembersValue(MemberDocs(ms, fmt, depth, first)) == ms
    ensures StrictMembers(MemberDocs(ms, fmt, depth, first)) && BriefMembers(MemberDocs(ms, fmt, depth, first))
    decreases ms, 0
  {
    if ms != [] {
      hide NameOk, StrictName, LiteralOk;
      DocOfOk(ms[0].value, fmt, depth);
      MemberDocsOk(ms[1..], fmt, depth, false);
      var ds := MemberDocs(ms, fmt, depth, first);
      assert ds[1..] == MemberDocs(ms[1..], fmt, depth, false);
      NameDocOk(ds[0], ms[0].key, fmt, depth, first, |ms| == 1, ds[0].doc);
      assert [ms[0]] + ms[1..] == ms;
    }
  }

  // --------------------------------------------------------- its text is Render

  lemma {:induction false} DocOfText(v: Json, fmt: bool, depth: nat)
    requires IntTree(v)
    ensures DocText(DocOf(v, fmt, depth)) == Render(v, fmt, depth)
    decreases v, 1
  {
    hide IntTree, Tabs, LiteralText, EscapeText, EscapeUnits, LiteralValue, LiteralOk;
    hide ElemsText, RenderElems, MembersText, RenderMembers, ElemDocs, MemberDocs;
    match v
    case String(s) => EscapeFaithful(s);
    case Array(es) =>
      IntParts(v);
      ElemDocsText(es, fmt, depth + 1, true);
      JoinContainer(LBRACKET, [], RenderElems(es, fmt, depth + 1), [], RBRACKET);
      NoParts(fmt, depth + 1);
    case Object(ms) =>
      IntParts(v);
      MemberDocsText(ms, fmt, depth + 1, true);
      JoinContainer(LBRACE, When(fmt, [NL]), RenderMembers(ms, fmt, depth + 1), When(fmt, Tabs(depth)), RBRACE);
      NoParts(fmt, depth + 1);
    case _ =>
  }

  lemma IntParts(v: Json)
    requires IntTree(v)
    ensures v.Array? ==> forall i :: 0 <= i < |v.elems| ==> IntTree(v.elems[i])
    ensures v.Object? ==> forall i :: 0 <= i < |v.members| ==> IntTree(v.members[i].value)
  {
  }

  lemma NoParts(fmt: bool, depth: nat)
    ensures RenderElems([], fmt, depth) == [] && RenderMembers([], fmt, depth) == []
  {
  }

  lemma JoinContainer(open: byte, blank: bytes, inner: bytes, tail: bytes, close: byte)
    ensures [open] + blank + ([] + inner + tail) + [close] == [open] + blank + inner + tail + [close]
    ensures [open] + (blank + tail) + [] + [close] == [open] + blank + [] + tail + [close]
    ensures [open] + (blank + []) == [open] + blank
    ensures [open] + [] + ([] + inner) + [close] == [open] + inner + [close]
    ensures [open] + [] + [] + [close] == [open] + [] + [close]
  {
  }

  lemma JoinElems(lead: bytes, t: bytes, sep: bytes, rest: bytes)
    ensures lead + t + [] + [COMMA] + (sep + rest) == lead + (t + ([COMMA] + sep) + rest)
    ensures lead + t + [] == lead + t
  {
  }

  lemma {:induction false} ElemDocsText(es: seq<Json>, fmt: bool, depth: nat, first: bool)
    requires forall i :: 0 <= i < |es| ==> IntTree(es[i])
    ensures es != [] ==>
      ElemsText(ElemDocs(es, fmt, depth, first)) == Lead(fmt, first, [SPACE]) + RenderElems(es, fmt, depth)
    ensures es == [] ==> ElemsText(ElemDocs(es, fmt, depth, first)) == []
    decreases es, 0
  {
    if es != [] {
      hide IntTree, DocText, DocOf, Render;
      DocOfText(es[0], fmt, depth);
      ElemDocsText(es[1..], fmt, depth, false);
      var ds := ElemDocs(es, fmt, depth, first);
      assert ds[1..] == ElemDocs(es[1..], fmt, depth, false);
      JoinElems(Lead(fmt, first, [SPACE]), Render(es[0], fmt, depth), When(fmt, [SPACE]),
                RenderElems(es[1..], fmt, depth));
    }
  }

  lemma JoinMember(lead: bytes, tabs: bytes, name: bytes, gap: bytes, t: bytes, after: bytes)
    ensures lead + tabs + name + [] + [COLON] + gap + t + after == lead + (tabs + name + ([COLON] + gap)) + t + after
  {
  }

  lemma MemberDocText(key: bytes, doc: Doc, text: bytes, fmt: bool, depth: nat, first: bool, last: bool)
    requires depth > 0
    ensures MemberText(MemberDoc(key, doc, fmt, depth, first, last), text)
         == Lead(fmt, first, [NL]) + (When(fmt, Tabs(depth)) + StringText(key) + KeySep(fmt)) + text
            + When(fmt && last, [NL] + Tabs(depth - 1))
  {
    hide Tabs, LiteralOk, LiteralText, EscapeText, EscapeUnits, LiteralValue;
    EscapeFaithful(key);
    JoinMember(Lead(fmt, first, [NL]), When(fmt, Tabs(depth)), StringText(key), When(fmt, [TAB]), text,
               When(fmt && last, [NL] + Tabs(depth - 1)));
  }

  lemma JoinMembers(lead: bytes, name: bytes, t: bytes, nl: bytes, rest: bytes, close: bytes)
    ensures lead + name + t + [] + [COMMA] + (nl + rest + close) == lead + (name + t + ([COMMA] + nl) + rest) + close
    ensures lead + name + t + (nl + close) == lead + (name + t + ([] + nl) + []) + close
  {
  }

  lemma {:induction false} MemberDocsText(ms: seq<Member>, fmt: bool, depth: nat, first: bool)
    requires depth > 0 && forall i :: 0 <= i < |ms| ==> IntTree(ms[i].value)
    ensures ms != [] ==>
      MembersText(MemberDocs(ms, fmt, depth, first))
      == Lead(fmt, first, [NL]) + RenderMembers(ms, fmt, depth) + When(fmt, Tabs(depth - 1))
    ensures ms == [] ==> MembersText(MemberDocs(ms, fmt, depth, first)) == []
    decreases ms, 0
  {
    if ms != [] {
      hide IntTree, DocText, DocOf, Render, MemberText, MemberDoc, StringText, Tabs, KeySep;
      var m := ms[0];
      var text := Render(m.value, fmt, depth);
      DocOfText(m.value, fmt, depth);
      MemberDocsText(ms[1..], fmt, depth, false);
      MemberDocText(m.key, DocOf(m.value, fmt, depth), text, fmt, depth, first, |ms| == 1);
      var ds := MemberDocs(ms, fmt, depth, first);
      assert ds[1..] == MemberDocs(ms[1..], fmt, depth, false);
      MemberDocIs(m.key, DocOf(m.value, fmt, depth), fmt, depth, first, |ms| == 1);
      JoinMembers(Lead(fmt, first, [NL]), When(fmt, Tabs(depth)) + StringText(m.key) + KeySep(fmt), text,
                  When(fmt, [NL]), RenderMembers(ms[1..], fmt, depth), When(fmt, Tabs(depth - 1)));
      assert |ms| == 1 ==> RenderMembers(ms[1..], fmt, depth) == [];
    }
  }

  lemma MemberDocIs(key: bytes, doc: Doc, fmt: bool, depth: nat, first: bool, last: bool)
    requires depth > 0
    ensures MemberDoc(key, doc, fmt, depth, first, last).doc == doc
  {
  }

  // --------------------------------------------------------------- nesting limit

  /**
   * No parse, of whatever bytes, builds more containers than there is room for, and one that succeeds
   * does the same with more room.
   */
  lemma {:induction false} ParsedHeight(c: bytes, o: nat, room: nat, more: nat)
    requires o <= |c|
    ensures ParseValue(c, o, room).Ok? ==>
      Height(ParseValue(c, o, room).value) <= room && ParseValue(c, o, room + more) == ParseValue(c, o, room)
    decreases |c| - o, 5
  {
    hide ParseArray, ParseObject, ParseString;
    if o < |c| && c[o] == LBRACKET {
      ParsedArrayHeight(c, o, room, more);
    }
    if o < |c| && c[o] == LBRACE {
      ParsedObjectHeight(c, o, room, more);
    }
  }

  lemma ParsedArrayHeight(c: bytes, o: nat, room: nat, more: nat)
    requires o < |c| && c[o] == LBRACKET
    ensures ParseArray(c, o, room).Ok? ==>
      Height(ParseArray(c, o, room).value) <= room && ParseArray(c, o, room + more) == ParseArray(c, o, room)
    decreases |c| - o, 4
  {
    hide ParseElems, SkipWhitespace;
    var p := SkipWhitespace(c, o + 1);
    if room > 0 && p < |c| && c[p] != RBRACKET {
      ParsedElemsHeight(c, p, room - 1, more);
      assert room - 1 + more == room + more - 1;
    }
  }

  lemma ParsedObjectHeight(c: bytes, o: nat, room: nat, more: nat)
    requires o < |c| && c[o] == LBRACE
    ensures ParseObject(c, o, room).Ok? ==>
      Height(ParseObject(c, o, room).value) <= room && ParseObject(c, o, room + more) == ParseObject(c, o, room)
    decreases |c| - o, 4
  {
    hide ParseMembers, SkipWhitespace;
    var p := SkipWhitespace(c, o + 1);
    if room > 0 && p < |c| && c[p] != RBRACE {
      ParsedMembersHeight(c, p - 1, room - 1, more);
      assert room - 1 + more == room + more - 1;
    }
  }

  lemma {:induction false} ParsedElemsHeight(c: bytes, o: nat, room: nat, more: nat)
    requires o <= |c|
    ensures ParseElems(c, o, room).Ok? ==>
      HeightElems(ParseElems(c, o, room).value) <= room && ParseElems(c, o, room + more) == ParseElems(c, o, room)
    decreases |c| - o, 6
  {
    hide ParseValue;
    var r := ParseElems(c, o, room);
    if r.Ok? {
      var v := ParseValue(c, SkipWhitespace(c, o), room);
      ParsedHeight(c, SkipWhitespace(c, o), room, more);
      var p := SkipWhitespace(c, v.offset);
      if p < |c| && c[p] == COMMA {
        ParsedElemsHeight(c, p + 1, room, more);
        assert r.value[1..] == ParseElems(c, p + 1, room).value;
      } else {
        assert r.value[1..] == [];
      }
    }
  }

  lemma {:induction false} ParsedMembersHeight(c: bytes, o: nat, room: nat, more: nat)
    requires o < |c|
    ensures ParseMembers(c, o, room).Ok? ==>
      && HeightMembers(ParseMembers(c, o, room).value) <= room
      && ParseMembers(c, o, room + more) == ParseMembers(c, o, room)
    decreases |c| - o, 3
  {
    hide ParseMember;
    var r := ParseMembers(c, o, room);
    if r.Ok? {
      ParsedMemberHeight(c, o, room, more);
      var p := ParseMember(c, o, room).offset;
      if p < |c| && c[p] == COMMA {
        ParsedMembersHeight(c, p, room, more);
        assert r.value[1..] == ParseMembers(c, p, room).value;
      } else {
        assert r.value[1..] == [];
      }
    }
  }

  lemma {:induction false} ParsedMemberHeight(c: bytes, o: nat, room: nat, more: nat)
    requires o < |c|
    ensures ParseMember(c, o, room).Ok? ==>
      && Height(ParseMember(c, o, room).value.value) <= room
      && ParseMember(c, o, room + more) == ParseMember(c, o, room)
    decreases |c| - o, 2
  {
    hide ParseValue, ParseString;
    if ParseMember(c, o, room).Ok? {
      var key := ParseString(c, SkipWhitespace(c, o + 1));
      var p := SkipWhitespace(c, key.offset);
      ParsedHeight(c, SkipWhitespace(c, p + 1), room, more);
    }
  }

  // --------------------------------------------------------------- the round trip

  /** What may stand behind a printed tree: not a byte that would prolong a number. */
  predicate Tail(v: Json, tail: bytes) {
    v.Number? && tail != [] ==> !NumberByte(tail[0])
  }

  lemma PrintedStart(v: Json, fmt: bool)
    requires IntTree(v)
    ensures Render(v, fmt, 0) != [] && ValueStart(Render(v, fmt, 0)[0])
  {
    DocOfOk(v, fmt, 0);
    DocOfText(v, fmt, 0);
    DocStart(DocOf(v, fmt, 0));
  }

  lemma PrintedParses(v: Json, fmt: bool, tail: bytes, room: nat)
    requires IntTree(v) && Tail(v, tail) && Height(v) <= room
    ensures ParseValue(Render(v, fmt, 0) + tail, 0, room) == Ok(v, |Render(v, fmt, 0)|)
  {
    hide ParseValue, Render, DocText, DocOf, IntTree, Height;
    var t := Render(v, fmt, 0);
    var c := t + tail;
    DocOfOk(v, fmt, 0);
    DocOfText(v, fmt, 0);
    assert At(c, 0, t) by {
      assert c[0..|t|] == t;
    }
    assert Ends(c, |t|, DocOf(v, fmt, 0)) by {
      NumberDoc(v, fmt);
    }
    ValueParses(c, 0, DocOf(v, fmt, 0), room);
  }

  lemma NumberDoc(v: Json, fmt: bool)
    ensures DocOf(v, fmt, 0).DNumber? ==> v.Number?
  {
  }

  /** A printed tree that is too deep does not parse to anything. */
  lemma PrintedTooDeep(v: Json, fmt: bool, tail: bytes, room: nat)
    requires IntTree(v) && Tail(v, tail) && Height(v) > room
    ensures ParseValue(Render(v, fmt, 0) + tail, 0, room).Err?
  {
    hide ParseValue, Render, IntTree, Height;
    var more := Height(v) - room;
    PrintedParses(v, fmt, tail, room + more);
    ParsedHeight(Render(v, fmt, 0) + tail, 0, room, more);
  }

  /**
   * cJSON_ParseWithLength on a printed tree, formatted or not, with anything behind it: the same
   * tree comes back and the end pointer stands behind its text if the tree is nested at most
   * NESTING_LIMIT deep, and the parse fails if it is nested deeper.
   */
  lemma RoundTrip(v: Json, fmt: bool, tail: bytes)
    requires IntTree(v) && Tail(v, tail)
    ensures Height(v) <= NESTING_LIMIT ==> ParseText(Render(v, fmt, 0) + tail, false) == Ok(v, |Render(v, fmt, 0)|)
    ensures Height(v) > NESTING_LIMIT ==> ParseText(Render(v, fmt, 0) + tail, false).Err?
  {
    hide ParseValue, Render, IntTree, Height;
    PrintedBegins(v, fmt, tail);
    if Height(v) <= NESTING_LIMIT {
      PrintedParses(v, fmt, tail, NESTING_LIMIT);
    } else {
      PrintedTooDeep(v, fmt, tail, NESTING_LIMIT);
    }
  }

  /** A printed tree begins with its first byte: no mark and no blank is skipped. */
  lemma PrintedBegins(v: Json, fmt: bool, tail: bytes)
    requires IntTree(v)
    ensures var c := Render(v, fmt, 0) + tail; c != [] && SkipBom(c) == 0 && SkipWhitespace(c, 0) == 0
  {
    hide Render, IntTree;
    var t := Render(v, fmt, 0);
    var c := t + tail;
    PrintedStart(v, fmt);
    assert c[0] == t[0];
    assert 4 < |c| ==> c[..3][0] == c[0];
  }

  /** cJSON_ParseWithOpts on the NUL-terminated text, which must end there. */
  lemma RoundTripTerminated(v: Json, fmt: bool)
    requires IntTree(v)
    ensures Height(v) <= NESTING_LIMIT ==> ParseText(Render(v, fmt, 0) + [0], true) == Ok(v, |Render(v, fmt, 0)|)
    ensures Height(v) > NESTING_LIMIT ==> ParseText(Render(v, fmt, 0) + [0], true).Err?
  {
    hide ParseValue, Render, IntTree, Height;
    var t := Render(v, fmt, 0);
    PrintedBegins(v, fmt, [0]);
    if Height(v) <= NESTING_LIMIT {
      PrintedParses(v, fmt, [0], NESTING_LIMIT);
      assert SkipBlanks(t + [0], |t|) == |t + [0]|;
    } else {
      PrintedTooDeep(v, fmt, [0], NESTING_LIMIT);
    }
  }

  /** Trees that print alike are alike, so no text stands for two trees, however deep they are. */
  lemma PrintInjective(v: Json, w: Json, fmt: bool, gmt: bool)
    requires IntTree(v) && IntTree(w)
    requires Render(v, fmt, 0) == Render(w, gmt, 0)
    ensures v == w
  {
    hide ParseValue, Render, IntTree, Height;
    var room := Height(v) + Height(w);
    PrintedParses(v, fmt, [], room);
    PrintedParses(w, gmt, [], room);
  }
}
