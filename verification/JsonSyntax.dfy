/**
 * Texts of the parser's dialect of JSON with their free choices (blanks, escapes, number spelling), and
 * what parsing makes of them.
 */
module JsonSyntax {
  import opened Bytes
  import opened Json
  import opened JsonText
  import opened JsonNumber
  import opened JsonString
  import opened JsonLiteral
  import opened JsonParse

  /** A concrete syntax tree; `JsonStrict` says which ones are JSON texts of RFC 8259. */
  datatype Doc =
    | DNull
    | DBool(b: bool)
    | DNumber(text: bytes)
    | DString(lit: seq<Unit>)
    | DArray(open: bytes, elems: seq<DElem>)
    | DObject(open: bytes, members: seq<DMember>)

  datatype DElem = DElem(before: bytes, doc: Doc, after: bytes)

  datatype DMember = DMember(before: bytes, key: seq<Unit>, colon: bytes, gap: bytes, doc: Doc, after: bytes)

  /** What the parser skips: any bytes up to 32. */
  predicate Blank(t: bytes) {
    forall i :: 0 <= i < |t| ==> t[i] <= 32
  }

  /** A number whose whole text strtod reads and the copy buffer holds. */
  predicate NumberOk(t: bytes) {
    && 0 < |t| <= NUMBER_MAX
    && StartsNumber(t[0])
    && (forall i :: 0 <= i < |t| ==> NumberByte(t[i]))
    && Strtod(t).length == |t|
  }

  predicate DocOk(v: Doc) {
    match v
    case DNumber(t) => NumberOk(t)
    case DString(lit) => LiteralOk(lit)
    case DArray(open, es) => Blank(open) && ElemsOk(es)
    case DObject(open, ms) => Blank(open) && MembersOk(ms)
    case _ => true
  }

  predicate ElemsOk(es: seq<DElem>) {
    es == [] || (BlanksOk(es[0]) && DocOk(es[0].doc) && ElemsOk(es[1..]))
  }

  predicate BlanksOk(e: DElem) {
    Blank(e.before) && Blank(e.after)
  }

  predicate MembersOk(ms: seq<DMember>) {
    ms == [] || (NameOk(ms[0]) && DocOk(ms[0].doc) && MembersOk(ms[1..]))
  }

  predicate NameOk(m: DMember) {
    Blank(m.before) && LiteralOk(m.key) && Blank(m.colon) && Blank(m.gap) && Blank(m.after)
  }

  // ---------------------------------------------------------------------- text

  function LiteralDoc(lit: seq<Unit>): bytes {
    [QUOTE] + LiteralText(lit) + [QUOTE]
  }

  function DocText(v: Doc): bytes {
    match v
    case DNull => NULL_TEXT
    case DBool(b) => if b then TRUE_TEXT else FALSE_TEXT
    case DNumber(t) => t
    case DString(lit) => LiteralDoc(lit)
    case DArray(open, es) => [LBRACKET] + open + ElemsText(es) + [RBRACKET]
    case DObject(open, ms) => [LBRACE] + open + MembersText(ms) + [RBRACE]
  }

  /** An element around the text of its value. */
  function ElemText(e: DElem, text: bytes): bytes {
    e.before + text + e.after
  }

  function ElemsText(es: seq<DElem>): bytes {
    if es == [] then []
    else if |es| == 1 then ElemText(es[0], DocText(es[0].doc))
    else ElemText(es[0], DocText(es[0].doc)) + [COMMA] + ElemsText(es[1..])
  }

  /** A member around the text of its value. */
  function MemberText(m: DMember, text: bytes): bytes {
    NameText(m) + m.gap + text + m.after
  }

  function NameText(m: DMember): bytes {
    m.before + LiteralDoc(m.key) + m.colon + [COLON]
  }

  function MembersText(ms: seq<DMember>): bytes {
    if ms == [] then []
    else if |ms| == 1 then MemberText(ms[0], DocText(ms[0].doc))
    else MemberText(ms[0], DocText(ms[0].doc)) + [COMMA] + MembersText(ms[1..])
  }

  // ------------------------------------------------------------------- meaning

  function DocValue(v: Doc): Json
    requires DocOk(v)
  {
    match v
    case DNull => Null
    case DBool(b) => Bool(b)
    case DNumber(t) => Number(Strtod(t).value)
    case DString(lit) => String(KeyValue(lit))
    case DArray(_, es) => Array(ElemsValue(es))
    case DObject(_, ms) => Object(MembersValue(ms))
  }

  /** A literal as a C string. */
  function KeyValue(lit: seq<Unit>): CString
    requires LiteralOk(lit)
  {
    UpToNul(LiteralValue(lit))
  }

  function ElemsValue(es: seq<DElem>): (vs: seq<Json>)
    requires ElemsOk(es)
    ensures |vs| == |es|
  {
    if es == [] then [] else [DocValue(es[0].doc)] + ElemsValue(es[1..])
  }

  function MembersValue(ms: seq<DMember>): (vs: seq<Member>)
    requires MembersOk(ms)
    ensures |vs| == |ms|
  {
    if ms == [] then [] else [Member(KeyValue(ms[0].key), DocValue(ms[0].doc))] + MembersValue(ms[1..])
  }

  // ----------------------------------------------------------- parsing the text

  /** A byte at o that ends any whitespace. */
  predicate Solid(c: bytes, o: nat) {
    o < |c| && c[o] > 32
  }

  lemma {:induction false} SkipOver(c: bytes, o: nat, blank: bytes)
    requires At(c, o, blank) && Blank(blank) && Solid(c, o + |blank|)
    ensures SkipBlanks(c, o) == o + |blank|
    ensures SkipWhitespace(c, o) == o + |blank|
    decreases |blank|
  {
    if blank != [] {
      AtIndex(c, o, blank, 0);
      assert blank == [blank[0]] + blank[1..];
      AtSplit(c, o, [blank[0]], blank[1..]);
      SkipOver(c, o + 1, blank[1..]);
    }
  }

  lemma {:induction false} SpanAll(c: bytes, o: nat, t: bytes, limit: nat)
    requires At(c, o, t) && |t| <= limit && forall i :: 0 <= i < |t| ==> NumberByte(t[i])
    requires o + |t| == |c| || !NumberByte(c[o + |t|])
    ensures NumberSpan(c, o, limit) == |t| || |t| == limit
    ensures NumberSpan(c, o, limit) >= |t|
    decreases |t|
  {
    if t != [] {
      AtIndex(c, o, t, 0);
      assert t == [t[0]] + t[1..];
      AtSplit(c, o, [t[0]], t[1..]);
      SpanAll(c, o + 1, t[1..], limit - 1);
    }
  }

  lemma NumberParses(c: bytes, o: nat, t: bytes)
    requires NumberOk(t) && At(c, o, t)
    requires o + |t| == |c| || !NumberByte(c[o + |t|])
    ensures ParseNumber(c, o) == Ok(Number(Strtod(t).value), o + |t|)
  {
    hide Strtod;
    SpanAll(c, o, t, NUMBER_MAX);
  }

  lemma StringParses(c: bytes, o: nat, lit: seq<Unit>)
    requires LiteralOk(lit) && At(c, o, LiteralDoc(lit))
    ensures o < |c| && c[o] == QUOTE
    ensures ParseString(c, o) == Ok(KeyValue(lit), o + |LiteralDoc(lit)|)
  {
    hide At, Scan, Decode, LiteralOk, LiteralText, LiteralValue;
    AtSplit(c, o, [QUOTE] + LiteralText(lit), [QUOTE]);
    AtSplit(c, o, [QUOTE], LiteralText(lit));
    var end := o + 1 + |LiteralText(lit)|;
    AtIndex(c, o, [QUOTE], 0);
    AtIndex(c, end, [QUOTE], 0);
    ScanLiteral(c, o + 1, lit, end);
    DecodeLiteral(c, o + 1, lit, end);
  }

  /** Every value starts with a byte that is no blank, comma or closing bracket. */
  predicate ValueStart(b: byte) {
    b == QUOTE || StartsNumber(b) || b == LBRACKET || b == LBRACE || b == 110 || b == 116 || b == 102
  }

  lemma DocStart(v: Doc)
    requires DocOk(v)
    ensures DocText(v) != [] && ValueStart(DocText(v)[0])
  {
  }

  predicate Ends(c: bytes, o: nat, v: Doc) {
    v.DNumber? ==> o >= |c| || !NumberByte(c[o])
  }

  /** A byte that may follow an element or member: it closes the container or separates. */
  predicate Follows(c: bytes, o: nat) {
    o < |c| && (c[o] == COMMA || c[o] == RBRACKET || c[o] == RBRACE)
  }

  /** A byte that closes a container. */
  predicate Closes(c: bytes, o: nat) {
    o < |c| && (c[o] == RBRACKET || c[o] == RBRACE)
  }

  lemma KeywordParses(c: bytes, o: nat, v: Doc, room: nat)
    requires (v.DNull? || v.DBool?) && At(c, o, DocText(v))
    ensures ParseValue(c, o, room) == Ok(DocValue(v), o + |DocText(v)|)
  {
    AtIndex(c, o, DocText(v), 0);
    if At(c, o, NULL_TEXT) {
      AtIndex(c, o, NULL_TEXT, 0);
    }
    if At(c, o, FALSE_TEXT) {
      AtIndex(c, o, FALSE_TEXT, 0);
    }
  }

  lemma NoKeyword(c: bytes, o: nat)
    requires o < |c| && c[o] != 110 && c[o] != 116 && c[o] != 102
    ensures !At(c, o, NULL_TEXT) && !At(c, o, FALSE_TEXT) && !At(c, o, TRUE_TEXT)
  {
    if At(c, o, NULL_TEXT) { AtIndex(c, o, NULL_TEXT, 0); }
    if At(c, o, FALSE_TEXT) { AtIndex(c, o, FALSE_TEXT, 0); }
    if At(c, o, TRUE_TEXT) { AtIndex(c, o, TRUE_TEXT, 0); }
  }

  /** The first element starts where the blanks in front of it end. */
  lemma ElemStart(c: bytes, o: nat, e: DElem)
    requires BlanksOk(e) && DocOk(e.doc) && At(c, o, ElemText(e, DocText(e.doc)))
    ensures var p := o + |e.before|;
      p < |c| && ValueStart(c[p]) && SkipBlanks(c, o) == SkipWhitespace(c, o) == p && At(c, p, DocText(e.doc))
  {
    hide At;
    AtSplit(c, o, e.before + DocText(e.doc), e.after);
    AtSplit(c, o, e.before, DocText(e.doc));
    DocStart(e.doc);
    AtIndex(c, o + |e.before|, DocText(e.doc), 0);
    SkipOver(c, o, e.before);
  }

  /** Behind the value of an element come its blanks and then the byte that follows it. */
  lemma ElemEnd(c: bytes, o: nat, e: DElem)
    requires BlanksOk(e) && At(c, o, ElemText(e, DocText(e.doc)))
    requires Follows(c, o + |ElemText(e, DocText(e.doc))|)
    ensures var p := o + |e.before| + |DocText(e.doc)|;
      p <= |c| && Ends(c, p, e.doc) && SkipWhitespace(c, p) == o + |ElemText(e, DocText(e.doc))|
  {
    hide At;
    AtSplit(c, o, e.before + DocText(e.doc), e.after);
    var p := o + |e.before| + |DocText(e.doc)|;
    SkipOver(c, p, e.after);
    if e.after != [] {
      AtIndex(c, p, e.after, 0);
    }
  }

  /** A list of elements is its first one, and behind a comma the others. */
  lemma ElemsSplit(c: bytes, o: nat, es: seq<DElem>)
    requires es != [] && At(c, o, ElemsText(es))
    ensures var text := ElemText(es[0], DocText(es[0].doc));
      var q := o + |text|;
      && At(c, o, text)
      && (|es| == 1 ==> ElemsText(es) == text)
      && (|es| > 1 ==> q < |c| && c[q] == COMMA && At(c, q + 1, ElemsText(es[1..]))
                       && |ElemsText(es)| == |text| + 1 + |ElemsText(es[1..])|)
  {
    hide At;
    var text := ElemText(es[0], DocText(es[0].doc));
    if |es| > 1 {
      AtSplit(c, o, text + [COMMA], ElemsText(es[1..]));
      AtSplit(c, o, text, [COMMA]);
      AtIndex(c, o + |text|, [COMMA], 0);
    }
  }

  /** The element loop, turn by turn. */
  lemma ElemsStep(c: bytes, o: nat, room: nat, v: Json, next: nat, q: nat)
    requires o <= |c| && next <= |c| && q < |c|
    requires ParseValue(c, SkipWhitespace(c, o), room) == Ok(v, next) && SkipWhitespace(c, next) == q
    ensures c[q] != COMMA ==> ParseElems(c, o, room) == Ok([v], q)
    ensures c[q] == COMMA && ParseElems(c, q + 1, room).Ok? ==>
      ParseElems(c, o, room) == Ok([v] + ParseElems(c, q + 1, room).value, ParseElems(c, q + 1, room).offset)
  {
    hide ParseValue, SkipWhitespace;
  }

  lemma {:induction false} ElemsParse(c: bytes, o: nat, p: nat, es: seq<DElem>, room: nat)
    requires es != [] && ElemsOk(es) && At(c, o, ElemsText(es))
    requires p <= |c| && SkipWhitespace(c, p) == SkipWhitespace(c, o)
    requires Closes(c, o + |ElemsText(es)|)
    requires HeightElems(ElemsValue(es)) <= room
    ensures ParseElems(c, p, room) == Ok(ElemsValue(es), o + |ElemsText(es)|)
    decreases es, 0
  {
    hide At, ParseElems, ParseValue, SkipWhitespace, ElemsText, DocText;
    var e := es[0];
    var q := o + |ElemText(e, DocText(e.doc))|;
    var next := o + |e.before| + |DocText(e.doc)|;
    ElemsSplit(c, o, es);
    ElemStart(c, o, e);
    ElemEnd(c, o, e);
    ValueParses(c, o + |e.before|, e.doc, room);
    if |es| > 1 {
      ElemsParse(c, q + 1, q + 1, es[1..], room);
    } else {
      assert ElemsValue(es) == [DocValue(e.doc)];
    }
    ElemsStep(c, p, room, DocValue(e.doc), next, q);
  }

  /** The parts of a container text. */
  lemma ContainerSplit(c: bytes, o: nat, open: byte, blank: bytes, inner: bytes, close: byte)
    requires At(c, o, [open] + blank + inner + [close])
    ensures var p := o + 1 + |blank|; var q := p + |inner|;
      && q < |c| && c[o] == open && c[q] == close && At(c, o + 1, blank) && At(c, p, inner)
  {
    hide At;
    AtSplit(c, o, [open] + blank + inner, [close]);
    AtSplit(c, o, [open] + blank, inner);
    AtSplit(c, o, [open], blank);
    AtIndex(c, o, [open], 0);
    AtIndex(c, o + 1 + |blank| + |inner|, [close], 0);
  }

  lemma ArrayParts(v: Doc)
    requires v.DArray? && DocOk(v)
    ensures Blank(v.open) && ElemsOk(v.elems)
    ensures DocText(v) == [LBRACKET] + v.open + ElemsText(v.elems) + [RBRACKET]
    ensures |DocText(v)| == 1 + |v.open| + |ElemsText(v.elems)| + 1
    ensures DocValue(v) == Array(ElemsValue(v.elems))
    ensures Height(DocValue(v)) == 1 + HeightElems(ElemsValue(v.elems))
    ensures v.elems == [] ==> ElemsText(v.elems) == [] && ElemsValue(v.elems) == []
  {
    hide Blank;
  }

  lemma ArrayParses(c: bytes, o: nat, v: Doc, room: nat)
    requires v.DArray? && DocOk(v) && At(c, o, DocText(v))
    requires Height(DocValue(v)) <= room
    ensures o < |c| && c[o] == LBRACKET
    ensures ParseArray(c, o, room) == Ok(DocValue(v), o + |DocText(v)|)
    decreases v, 0
  {
    hide *;
    ArrayParts(v);
    ContainerSplit(c, o, LBRACKET, v.open, ElemsText(v.elems), RBRACKET);
    if v.elems == [] {
      EmptyArrayParses(c, o, v.open, room);
    } else {
      FullArrayParses(c, o, v.open, v.elems, room);
    }
  }

  lemma EmptyArrayParses(c: bytes, o: nat, open: bytes, room: nat)
    requires room > 0 && Blank(open) && At(c, o + 1, open)
    requires var q := o + 1 + |open|; q < |c| && c[o] == LBRACKET && c[q] == RBRACKET
    ensures ParseArray(c, o, room) == Ok(Array([]), o + 1 + |open| + 1)
  {
    hide At, ParseArray, SkipWhitespace, Blank;
    EmptyOpens(c, o + 1, open, []);
    ArrayStep(c, o, room, true, [], o + 1 + |open|);
  }

  lemma FullArrayParses(c: bytes, o: nat, open: bytes, es: seq<DElem>, room: nat)
    requires es != [] && ElemsOk(es) && HeightElems(ElemsValue(es)) < room
    requires Blank(open) && At(c, o + 1, open) && At(c, o + 1 + |open|, ElemsText(es))
    requires var q := o + 1 + |open| + |ElemsText(es)|; q < |c| && c[o] == LBRACKET && c[q] == RBRACKET
    ensures ParseArray(c, o, room) == Ok(Array(ElemsValue(es)), o + 1 + |open| + |ElemsText(es)| + 1)
    decreases es, 2
  {
    hide At, ParseElems, ParseArray, SkipWhitespace, ElemsText, ElemsOk, Blank, ElemsValue, HeightElems;
    var p := o + 1 + |open|;
    ArrayOpens(c, o + 1, open, es);
    ElemsParse(c, p, SkipWhitespace(c, o + 1), es, room - 1);
    ArrayStep(c, o, room, false, ElemsValue(es), p + |ElemsText(es)|);
  }

  lemma ArrayStep(c: bytes, o: nat, room: nat, empty: bool, es: seq<Json>, q: nat)
    requires o < |c| && c[o] == LBRACKET && room > 0
    requires q < |c| && c[q] == RBRACKET
    requires empty ==> SkipWhitespace(c, o + 1) == q && es == []
    requires var p := SkipWhitespace(c, o + 1);
      !empty ==> p < |c| && c[p] != RBRACKET && ParseElems(c, p, room - 1) == Ok(es, q)
    ensures ParseArray(c, o, room) == Ok(Array(es), q + 1)
  {
    hide ParseElems, SkipWhitespace;
  }

  lemma EmptyOpens(c: bytes, o: nat, open: bytes, inner: bytes)
    requires Blank(open) && At(c, o, open) && inner == [] && Follows(c, o + |open| + |inner|)
    ensures SkipWhitespace(c, o) == o + |open| + |inner|
  {
    SkipOver(c, o, open);
  }

  lemma SkipBoth(c: bytes, o: nat, a: bytes, b: bytes)
    requires Blank(a) && Blank(b) && At(c, o, a) && At(c, o + |a|, b)
    requires var p := o + |a| + |b|; p < |c| && c[p] > 32
    ensures var p := o + |a| + |b|; SkipWhitespace(c, o) == p == SkipWhitespace(c, p)
  {
    hide At;
    AtSplit(c, o, a, b);
    SkipOver(c, o, a + b);
  }

  lemma ArrayOpens(c: bytes, o: nat, open: bytes, es: seq<DElem>)
    requires es != [] && ElemsOk(es) && Blank(open) && At(c, o, open) && At(c, o + |open|, ElemsText(es))
    ensures var p := SkipWhitespace(c, o);
      p < |c| && ValueStart(c[p]) && SkipWhitespace(c, p) == p == SkipWhitespace(c, o + |open|)
  {
    hide At, ElemsText, DocText, SkipBlanks, SkipWhitespace, DocOk;
    var e := es[0];
    ElemsSplit(c, o + |open|, es);
    ElemStart(c, o + |open|, e);
    AtSplit(c, o + |open|, e.before + DocText(e.doc), e.after);
    AtSplit(c, o + |open|, e.before, DocText(e.doc));
    SkipBoth(c, o, open, e.before);
  }

  // -------------------------------------------------------------------- members

  /** Where the name, the colon and the value of a member stand. */
  lemma MemberSplit(c: bytes, o: nat, m: DMember, text: bytes)
    requires At(c, o, MemberText(m, text))
    ensures var k := o + |m.before|; var k' := k + |LiteralDoc(m.key)|; var l := k' + |m.colon|;
      var v := l + 1 + |m.gap|;
      && At(c, o, m.before) && At(c, k, LiteralDoc(m.key)) && At(c, k', m.colon)
      && l < |c| && c[l] == COLON && At(c, l + 1, m.gap) && At(c, v, text) && At(c, v + |text|, m.after)
      && |MemberText(m, text)| == v + |text| + |m.after| - o
  {
    hide At, LiteralDoc;
    AtSplit(c, o, NameText(m) + m.gap + text, m.after);
    AtSplit(c, o, NameText(m) + m.gap, text);
    AtSplit(c, o, NameText(m), m.gap);
    AtSplit(c, o, m.before + LiteralDoc(m.key) + m.colon, [COLON]);
    AtSplit(c, o, m.before + LiteralDoc(m.key), m.colon);
    AtSplit(c, o, m.before, LiteralDoc(m.key));
    AtIndex(c, o + |m.before| + |LiteralDoc(m.key)| + |m.colon|, [COLON], 0);
  }

  lemma MemberStart(c: bytes, o: nat, m: DMember, text: bytes)
    requires NameOk(m) && At(c, o, MemberText(m, text))
    ensures var k := o + |m.before|;
      && k < |c| && c[k] == QUOTE
      && SkipBlanks(c, o) == SkipWhitespace(c, o) == k
      && ParseString(c, k) == Ok(KeyValue(m.key), k + |LiteralDoc(m.key)|)
  {
    hide At, LiteralDoc, ParseString;
    MemberSplit(c, o, m, text);
    StringParses(c, o + |m.before|, m.key);
    SkipOver(c, o, m.before);
  }

  lemma MemberColon(c: bytes, o: nat, m: DMember)
    requires NameOk(m) && DocOk(m.doc) && At(c, o, MemberText(m, DocText(m.doc)))
    ensures var k := o + |m.before| + |LiteralDoc(m.key)|; var l := k + |m.colon|; var v := l + 1 + |m.gap|;
      && v <= |c| && c[l] == COLON && SkipWhitespace(c, k) == l && SkipWhitespace(c, l + 1) == v
      && At(c, v, DocText(m.doc))
  {
    hide At, LiteralDoc, DocText;
    MemberSplit(c, o, m, DocText(m.doc));
    var k := o + |m.before| + |LiteralDoc(m.key)|;
    var l := k + |m.colon|;
    SkipOver(c, k, m.colon);
    DocStart(m.doc);
    AtIndex(c, l + 1 + |m.gap|, DocText(m.doc), 0);
    SkipOver(c, l + 1, m.gap);
  }

  lemma MemberEnd(c: bytes, o: nat, m: DMember, text: bytes)
    requires NameOk(m) && At(c, o, MemberText(m, text)) && Follows(c, o + |MemberText(m, text)|)
    ensures var p := o + |MemberText(m, text)| - |m.after|;
      p <= |c| && Ends(c, p, m.doc) && SkipWhitespace(c, p) == o + |MemberText(m, text)|
  {
    hide At, LiteralDoc;
    MemberSplit(c, o, m, text);
    var p := o + |MemberText(m, text)| - |m.after|;
    SkipOver(c, p, m.after);
    if m.after != [] {
      AtIndex(c, p, m.after, 0);
    }
  }

  lemma MemberParses(c: bytes, o: nat, p: nat, m: DMember, room: nat)
    requires NameOk(m) && DocOk(m.doc) && At(c, o, MemberText(m, DocText(m.doc)))
    requires p + 1 < |c| && SkipWhitespace(c, p + 1) == SkipWhitespace(c, o)
    requires Follows(c, o + |MemberText(m, DocText(m.doc))|)
    requires Height(DocValue(m.doc)) <= room
    ensures ParseMember(c, p, room)
         == Ok(Member(KeyValue(m.key), DocValue(m.doc)), o + |MemberText(m, DocText(m.doc))|)
    decreases m, 0
  {
    hide At, LiteralDoc, DocText, ParseString, ParseValue, SkipWhitespace, Blank, LiteralOk, KeyValue;
    hide DocValue, DocOk, Height;
    MemberStart(c, o, m, DocText(m.doc));
    MemberColon(c, o, m);
    MemberEnd(c, o, m, DocText(m.doc));
    ValueParses(c, o + |NameText(m)| + |m.gap|, m.doc, room);
  }

  lemma MembersSplit(c: bytes, o: nat, ms: seq<DMember>)
    requires ms != [] && At(c, o, MembersText(ms))
    ensures var text := MemberText(ms[0], DocText(ms[0].doc));
      var q := o + |text|;
      && At(c, o, text)
      && (|ms| == 1 ==> MembersText(ms) == text)
      && (|ms| > 1 ==> q < |c| && c[q] == COMMA && At(c, q + 1, MembersText(ms[1..]))
                       && |MembersText(ms)| == |text| + 1 + |MembersText(ms[1..])|)
  {
    hide At, MemberText, MembersText, DocText;
    MembersTextIs(ms);
    var text := MemberText(ms[0], DocText(ms[0].doc));
    if |ms| > 1 {
      AtSplit(c, o, text + [COMMA], MembersText(ms[1..]));
      AtSplit(c, o, text, [COMMA]);
      AtIndex(c, o + |text|, [COMMA], 0);
    }
  }

  lemma MembersTextIs(ms: seq<DMember>)
    requires ms != []
    ensures var text := MemberText(ms[0], DocText(ms[0].doc));
      MembersText(ms) == if |ms| == 1 then text else text + [COMMA] + MembersText(ms[1..])
  {
    hide MemberText, DocText;
  }

  lemma MembersStep(c: bytes, o: nat, room: nat, m: Member, q: nat)
    requires o < |c| && q < |c|
    requires ParseMember(c, o, room) == Ok(m, q)
    ensures c[q] != COMMA ==> ParseMembers(c, o, room) == Ok([m], q)
    ensures c[q] == COMMA && ParseMembers(c, q, room).Ok? ==>
      ParseMembers(c, o, room) == Ok([m] + ParseMembers(c, q, room).value, ParseMembers(c, q, room).offset)
  {
    hide ParseMember;
  }

  lemma {:induction false} MembersParse(c: bytes, o: nat, p: nat, ms: seq<DMember>, room: nat)
    requires ms != [] && MembersOk(ms) && At(c, o, MembersText(ms))
    requires p + 1 < |c| && SkipWhitespace(c, p + 1) == SkipWhitespace(c, o)
    requires Closes(c, o + |MembersText(ms)|)
    requires HeightMembers(MembersValue(ms)) <= room
    ensures ParseMembers(c, p, room) == Ok(MembersValue(ms), o + |MembersText(ms)|)
    decreases ms, 1
  {
    hide At, ParseMember, ParseMembers, SkipWhitespace, MembersText, MemberText, DocText, Blank, LiteralOk, KeyValue;
    var m := ms[0];
    var q := o + |MemberText(m, DocText(m.doc))|;
    MembersSplit(c, o, ms);
    MemberParses(c, o, p, m, room);
    var v := Member(KeyValue(m.key), DocValue(m.doc));
    if |ms| > 1 {
      MembersParse(c, q + 1, q, ms[1..], room);
    } else {
      assert MembersValue(ms) == [v];
    }
    MembersStep(c, p, room, v, q);
  }

  lemma ObjectOpens(c: bytes, o: nat, open: bytes, ms: seq<DMember>)
    requires ms != [] && MembersOk(ms) && Blank(open) && At(c, o, open) && At(c, o + |open|, MembersText(ms))
    ensures var p := SkipWhitespace(c, o);
      p < |c| && c[p] == QUOTE && SkipWhitespace(c, p) == p == SkipWhitespace(c, o + |open|)
  {
    hide At, MembersText, MemberText, DocText, LiteralDoc, ParseString, LiteralOk, SkipBlanks, SkipWhitespace, DocOk;
    var m := ms[0];
    MembersSplit(c, o + |open|, ms);
    MemberStart(c, o + |open|, m, DocText(m.doc));
    MemberSplit(c, o + |open|, m, DocText(m.doc));
    SkipBoth(c, o, open, m.before);
  }

  lemma ObjectParts(v: Doc)
    requires v.DObject? && DocOk(v)
    ensures Blank(v.open) && MembersOk(v.members)
    ensures DocText(v) == [LBRACE] + v.open + MembersText(v.members) + [RBRACE]
    ensures |DocText(v)| == 1 + |v.open| + |MembersText(v.members)| + 1
    ensures DocValue(v) == Object(MembersValue(v.members))
    ensures Height(DocValue(v)) == 1 + HeightMembers(MembersValue(v.members))
    ensures v.members == [] ==> MembersText(v.members) == [] && MembersValue(v.members) == []
  {
    hide Blank;
  }

  lemma ObjectParses(c: bytes, o: nat, v: Doc, room: nat)
    requires v.DObject? && DocOk(v) && At(c, o, DocText(v))
    requires Height(DocValue(v)) <= room
    ensures o < |c| && c[o] == LBRACE
    ensures ParseObject(c, o, room) == Ok(DocValue(v), o + |DocText(v)|)
    decreases v, 0
  {
    hide *;
    ObjectParts(v);
    ContainerSplit(c, o, LBRACE, v.open, MembersText(v.members), RBRACE);
    if v.members == [] {
      EmptyObjectParses(c, o, v.open, room);
    } else {
      FullObjectParses(c, o, v.open, v.members, room);
    }
  }

  lemma EmptyObjectParses(c: bytes, o: nat, open: bytes, room: nat)
    requires room > 0 && Blank(open) && At(c, o + 1, open)
    requires var q := o + 1 + |open|; q < |c| && c[o] == LBRACE && c[q] == RBRACE
    ensures ParseObject(c, o, room) == Ok(Object([]), o + 1 + |open| + 1)
  {
    hide At, ParseObject, SkipWhitespace, Blank;
    EmptyOpens(c, o + 1, open, []);
    ObjectStep(c, o, room, true, [], o + 1 + |open|);
  }

  lemma FullObjectParses(c: bytes, o: nat, open: bytes, ms: seq<DMember>, room: nat)
    requires ms != [] && MembersOk(ms) && HeightMembers(MembersValue(ms)) < room
    requires Blank(open) && At(c, o + 1, open) && At(c, o + 1 + |open|, MembersText(ms))
    requires var q := o + 1 + |open| + |MembersText(ms)|; q < |c| && c[o] == LBRACE && c[q] == RBRACE
    ensures ParseObject(c, o, room) == Ok(Object(MembersValue(ms)), o + 1 + |open| + |MembersText(ms)| + 1)
    decreases ms, 2
  {
    hide At, ParseMembers, ParseObject, SkipWhitespace, MembersText, MembersOk, Blank, MembersValue, HeightMembers;
    var p := o + 1 + |open|;
    ObjectOpens(c, o + 1, open, ms);
    MembersParse(c, p, SkipWhitespace(c, o + 1) - 1, ms, room - 1);
    ObjectStep(c, o, room, false, MembersValue(ms), p + |MembersText(ms)|);
  }

  lemma ObjectStep(c: bytes, o: nat, room: nat, empty: bool, ms: seq<Member>, q: nat)
    requires o < |c| && c[o] == LBRACE && room > 0
    requires q < |c| && c[q] == RBRACE
    requires empty ==> SkipWhitespace(c, o + 1) == q && ms == []
    requires var p := SkipWhitespace(c, o + 1);
      !empty ==> p < |c| && c[p] != RBRACE && ParseMembers(c, p - 1, room - 1) == Ok(ms, q)
    ensures ParseObject(c, o, room) == Ok(Object(ms), q + 1)
  {
    hide ParseMembers, SkipWhitespace;
  }

  /**
   * Every text of the dialect nested no deeper than there is room parses to the value it names, wherever
   * it stands in a buffer and whatever follows it (a number must not run into further number bytes).
   */
  lemma {:induction false} ValueParses(c: bytes, o: nat, v: Doc, room: nat)
    requires DocOk(v) && At(c, o, DocText(v)) && Ends(c, o + |DocText(v)|, v)
    requires Height(DocValue(v)) <= room
    ensures ParseValue(c, o, room) == Ok(DocValue(v), o + |DocText(v)|)
    decreases v, 1
  {
    hide At, ParseArray, ParseObject, ParseNumber, ParseString, Height;
    match v
    case DNull => KeywordParses(c, o, v, room);
    case DBool(b) => KeywordParses(c, o, v, room);
    case DNumber(t) =>
      AtIndex(c, o, t, 0);
      NoKeyword(c, o);
      NumberParses(c, o, t);
    case DString(lit) =>
      StringParses(c, o, lit);
      NoKeyword(c, o);
    case DArray(_, es) =>
      ArrayParses(c, o, v, room);
      NoKeyword(c, o);
    case DObject(_, ms) =>
      ObjectParses(c, o, v, room);
      NoKeyword(c, o);
  }
}
