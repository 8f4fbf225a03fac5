/**
 * What the parser accepts, measured against RFC 8259: which accepted texts are JSON texts, and which
 * texts are not but accepted all the same.
 */
module JsonExact {
  import opened Bytes
  import opened Json
  import opened JsonText
  import opened JsonNumber
  import opened JsonString
  import opened JsonLiteral
  import opened JsonParse
  import opened JsonSyntax
  import opened JsonStrict
  import opened JsonAccepts
  import JsonRoundTrip

  // ------------------------------------------------------- a condition on the bytes

  /**
   * From p, outside of a string, to end: only the four blanks of the RFC, every run of number bytes that
   * starts like a number is one of the RFC, and no string holds a control byte.
   */
  predicate Conforms(c: bytes, p: nat, end: nat)
    requires end <= |c|
    decreases end - p
  {
    if p >= end then true
    else if c[p] == QUOTE then InString(c, p + 1, end)
    else if StartsNumber(c[p]) then
      var n := NumberSpan(c, p, end - p);
      n > 0 && RfcNumber(c[p..p + n]) && Conforms(c, p + n, end)
    else (c[p] > 32 || StrictBlankByte(c[p])) && Conforms(c, p + 1, end)
  }

  /** The same from p inside of a string. */
  predicate InString(c: bytes, p: nat, end: nat)
    requires end <= |c|
    decreases end - p
  {
    if p >= end then true
    else if c[p] == QUOTE then Conforms(c, p + 1, end)
    else if c[p] == BACKSLASH then InString(c, p + 2, end)
    else c[p] >= 32 && InString(c, p + 1, end)
  }

  // ----------------------------------------------- piece by piece it decides strictness

  /** A byte outside of strings, numbers and blanks. */
  predicate Mark(b: byte) {
    b > 32 && b != QUOTE && !StartsNumber(b)
  }

  lemma {:induction false} MarksOver(c: bytes, o: nat, t: bytes, stop: nat)
    requires At(c, o, t) && o + |t| <= stop <= |c| && forall i :: 0 <= i < |t| ==> Mark(t[i])
    ensures Conforms(c, o, stop) <==> Conforms(c, o + |t|, stop)
    decreases |t|
  {
    if t != [] {
      AtIndex(c, o, t, 0);
      assert t == [t[0]] + t[1..];
      AtSplit(c, o, [t[0]], t[1..]);
      MarksOver(c, o + 1, t[1..], stop);
    }
  }

  lemma {:induction false} BlankOver(c: bytes, o: nat, t: bytes, stop: nat)
    requires At(c, o, t) && o + |t| <= stop <= |c| && Blank(t)
    ensures Conforms(c, o, stop) <==> StrictBlank(t) && Conforms(c, o + |t|, stop)
    decreases |t|
  {
    if t != [] {
      AtIndex(c, o, t, 0);
      assert t == [t[0]] + t[1..];
      AtSplit(c, o, [t[0]], t[1..]);
      BlankOver(c, o + 1, t[1..], stop);
      assert StrictBlank(t) <==> StrictBlankByte(t[0]) && StrictBlank(t[1..]) by {
        assert forall i :: 1 <= i < |t| ==> t[i] == t[1..][i - 1];
      }
    }
  }

  /** No number goes on at q. */
  predicate Stops(c: bytes, q: nat, stop: nat)
    requires stop <= |c|
  {
    q >= stop || !NumberByte(c[q])
  }

  lemma StopsBefore(c: bytes, q: nat, t: bytes, stop: nat)
    requires At(c, q, t) && Blank(t) && q + |t| <= stop <= |c| && Stops(c, q + |t|, stop)
    ensures Stops(c, q, stop)
  {
    if t != [] {
      AtIndex(c, q, t, 0);
    }
  }

  lemma {:induction false} SpanIs(c: bytes, o: nat, t: bytes, stop: nat)
    requires At(c, o, t) && o + |t| <= stop <= |c| && Stops(c, o + |t|, stop)
    requires forall i :: 0 <= i < |t| ==> NumberByte(t[i])
    ensures NumberSpan(c, o, stop - o) == |t|
    decreases |t|
  {
    if t != [] {
      AtIndex(c, o, t, 0);
      assert t == [t[0]] + t[1..];
      AtSplit(c, o, [t[0]], t[1..]);
      SpanIs(c, o + 1, t[1..], stop);
    }
  }

  lemma NumberOver(c: bytes, o: nat, t: bytes, stop: nat)
    requires At(c, o, t) && o + |t| <= stop <= |c| && Stops(c, o + |t|, stop) && NumberOk(t)
    ensures Conforms(c, o, stop) <==> RfcNumber(t) && Conforms(c, o + |t|, stop)
  {
    hide RfcNumber, NumberSpan, Strtod;
    AtIndex(c, o, t, 0);
    SpanIs(c, o, t, stop);
  }

  lemma HexOver(c: bytes, p: nat, h: bytes, stop: nat)
    requires At(c, p, U_ESCAPE + h) && |h| == 4 && IsHex4(h, 0) && p + 6 <= stop <= |c|
    ensures InString(c, p, stop) <==> InString(c, p + 6, stop)
  {
    AtSplit(c, p, U_ESCAPE, h);
    AtIndex(c, p, U_ESCAPE, 0);
    forall i | p + 2 <= i < p + 6
      ensures c[i] >= 32 && c[i] != QUOTE && c[i] != BACKSLASH
    {
      AtIndex(c, p + 2, h, i - p - 2);
      assert HexValue(h[i - p - 2]) >= 0;
    }
    PlainOver(c, p + 2, 4, stop);
  }

  lemma {:induction false} PlainOver(c: bytes, p: nat, n: nat, stop: nat)
    requires p + n <= stop <= |c|
    requires forall i :: p <= i < p + n ==> c[i] >= 32 && c[i] != QUOTE && c[i] != BACKSLASH
    ensures InString(c, p, stop) <==> InString(c, p + n, stop)
    decreases n
  {
    if n > 0 {
      PlainOver(c, p + 1, n - 1, stop);
    }
  }

  lemma UnitOver(c: bytes, p: nat, u: Unit, stop: nat)
    requires UnitOk(u) && At(c, p, UnitText(u)) && p + |UnitText(u)| <= stop <= |c|
    ensures InString(c, p, stop) <==> StrictUnit(u) && InString(c, p + |UnitText(u)|, stop)
  {
    match u
    case Plain(b) => AtIndex(c, p, UnitText(u), 0);
    case Short(b) => AtIndex(c, p, UnitText(u), 0);
    case Code(h) => HexOver(c, p, h, stop);
    case Pair(hi, lo) =>
      assert UnitText(u) == (U_ESCAPE + hi) + (U_ESCAPE + lo);
      AtSplit(c, p, U_ESCAPE + hi, U_ESCAPE + lo);
      HexOver(c, p, hi, stop);
      HexOver(c, p + 6, lo, stop);
  }

  lemma {:induction false} LiteralOver(c: bytes, p: nat, us: seq<Unit>, stop: nat)
    requires LiteralOk(us) && At(c, p, LiteralText(us)) && p + |LiteralText(us)| <= stop <= |c|
    ensures InString(c, p, stop) <==> StrictLiteral(us) && InString(c, p + |LiteralText(us)|, stop)
    decreases |us|
  {
    hide InString, UnitText, UnitOk, StrictUnit, At;
    if us != [] {
      assert UnitOk(us[0]);
      AtSplit(c, p, UnitText(us[0]), LiteralText(us[1..]));
      UnitOver(c, p, us[0], stop);
      LiteralOver(c, p + |UnitText(us[0])|, us[1..], stop);
      assert StrictLiteral(us) <==> StrictUnit(us[0]) && StrictLiteral(us[1..]) by {
        assert forall i :: 1 <= i < |us| ==> us[i] == us[1..][i - 1];
      }
    }
  }

  lemma QuotedOver(c: bytes, p: nat, us: seq<Unit>, stop: nat)
    requires LiteralOk(us) && At(c, p, LiteralDoc(us)) && p + |LiteralDoc(us)| <= stop <= |c|
    ensures Conforms(c, p, stop) <==> StrictLiteral(us) && Conforms(c, p + |LiteralDoc(us)|, stop)
  {
    hide LiteralText, LiteralOk, StrictLiteral, At;
    AtSplit(c, p, [QUOTE] + LiteralText(us), [QUOTE]);
    AtSplit(c, p, [QUOTE], LiteralText(us));
    AtIndex(c, p, [QUOTE], 0);
    AtIndex(c, p + 1 + |LiteralText(us)|, [QUOTE], 0);
    LiteralOver(c, p + 1, us, stop);
  }

  lemma {:induction false} DocOver(c: bytes, o: nat, v: Doc, stop: nat)
    requires DocOk(v) && At(c, o, DocText(v)) && o + |DocText(v)| <= stop <= |c| && Stops(c, o + |DocText(v)|, stop)
    ensures Conforms(c, o, stop) <==> Strict(v) && Conforms(c, o + |DocText(v)|, stop)
    decreases v, 2
  {
    hide Conforms, At, LiteralOk, StrictLiteral, NumberOk, RfcNumber, Blank, StrictBlank, LiteralDoc;
    hide ElemsOk, ElemsText, StrictElems, MembersOk, MembersText, StrictMembers, Stops;
    match v
    case DNumber(t) => NumberOver(c, o, t, stop);
    case DString(lit) => QuotedOver(c, o, lit, stop);
    case DArray(open, es) =>
      Brackets(c, o, LBRACKET, open, ElemsText(es), RBRACKET, stop);
      BlankOver(c, o + 1, open, stop);
      ElemsOver(c, o + 1 + |open|, es, stop);
    case DObject(open, ms) =>
      Brackets(c, o, LBRACE, open, MembersText(ms), RBRACE, stop);
      BlankOver(c, o + 1, open, stop);
      MembersOver(c, o + 1 + |open|, ms, stop);
    case _ => MarksOver(c, o, DocText(v), stop);
  }

  /** The two brackets conform, and the closing one ends a number in front of it. */
  lemma Brackets(c: bytes, o: nat, left: byte, open: bytes, inner: bytes, right: byte, stop: nat)
    requires At(c, o, [left] + open + inner + [right]) && Mark(left) && Mark(right) && !NumberByte(right)
    requires o + 2 + |open| + |inner| <= stop <= |c|
    ensures At(c, o + 1, open) && At(c, o + 1 + |open|, inner) && Stops(c, o + 1 + |open| + |inner|, stop)
    ensures Conforms(c, o, stop) <==> Conforms(c, o + 1, stop)
    ensures Conforms(c, o + 1 + |open| + |inner|, stop) <==> Conforms(c, o + 2 + |open| + |inner|, stop)
  {
    hide Conforms, At;
    AtSplit(c, o, [left] + open + inner, [right]);
    AtSplit(c, o, [left] + open, inner);
    AtSplit(c, o, [left], open);
    MarksOver(c, o, [left], stop);
    MarksOver(c, o + 1 + |open| + |inner|, [right], stop);
    AtIndex(c, o + 1 + |open| + |inner|, [right], 0);
  }

  lemma CommaOver(c: bytes, q: nat, stop: nat)
    requires q < stop <= |c| && c[q] == COMMA
    ensures Stops(c, q, stop) && (Conforms(c, q, stop) <==> Conforms(c, q + 1, stop))
  {
  }

  lemma {:induction false} ElemsOver(c: bytes, o: nat, es: seq<DElem>, stop: nat)
    requires ElemsOk(es) && At(c, o, ElemsText(es)) && o + |ElemsText(es)| <= stop <= |c|
    requires Stops(c, o + |ElemsText(es)|, stop)
    ensures Conforms(c, o, stop) <==> StrictElems(es) && Conforms(c, o + |ElemsText(es)|, stop)
    decreases es, 0
  {
    hide Conforms, At, DocOk, DocText, Strict, Blank, StrictBlank, Stops;
    if es != [] {
      ElemsSplit(c, o, es);
      var e := es[0];
      var text := DocText(e.doc);
      var q := o + |ElemText(e, text)|;
      if |es| > 1 {
        CommaOver(c, q, stop);
        ElemsOver(c, q + 1, es[1..], stop);
      }
      AtSplit(c, o, e.before + text, e.after);
      AtSplit(c, o, e.before, text);
      BlankOver(c, o, e.before, stop);
      StopsBefore(c, o + |e.before| + |text|, e.after, stop);
      DocOver(c, o + |e.before|, e.doc, stop);
      BlankOver(c, o + |e.before| + |text|, e.after, stop);
    }
  }

  lemma {:induction false} MembersOver(c: bytes, o: nat, ms: seq<DMember>, stop: nat)
    requires MembersOk(ms) && At(c, o, MembersText(ms)) && o + |MembersText(ms)| <= stop <= |c|
    requires Stops(c, o + |MembersText(ms)|, stop)
    ensures Conforms(c, o, stop) <==> StrictMembers(ms) && Conforms(c, o + |MembersText(ms)|, stop)
    decreases ms, 0
  {
    hide Conforms, At, DocOk, DocText, Strict, Stops, NameOk, StrictName, MemberText;
    if ms != [] {
      MembersSplit(c, o, ms);
      var q := o + |MemberText(ms[0], DocText(ms[0].doc))|;
      if |ms| > 1 {
        CommaOver(c, q, stop);
        MembersOver(c, q + 1, ms[1..], stop);
      }
      MemberOver(c, o, ms[0], stop);
    }
  }

  lemma {:induction false} MemberOver(c: bytes, o: nat, m: DMember, stop: nat)
    requires NameOk(m) && DocOk(m.doc) && At(c, o, MemberText(m, DocText(m.doc)))
    requires var q := o + |MemberText(m, DocText(m.doc))|; q <= stop <= |c| && Stops(c, q, stop)
    ensures Conforms(c, o, stop) <==>
      StrictName(m) && Strict(m.doc) && Conforms(c, o + |MemberText(m, DocText(m.doc))|, stop)
    decreases m, 1
  {
    hide Conforms, At, DocOk, DocText, Strict, Blank, StrictBlank, Stops, LiteralOk, StrictLiteral, LiteralDoc;
    var text := DocText(m.doc);
    var p := o + |NameText(m)|;
    AtSplit(c, o, NameText(m) + m.gap + text, m.after);
    AtSplit(c, o, NameText(m) + m.gap, text);
    AtSplit(c, o, NameText(m), m.gap);
    NameOver(c, o, m, stop);
    BlankOver(c, p, m.gap, stop);
    StopsBefore(c, p + |m.gap| + |text|, m.after, stop);
    DocOver(c, p + |m.gap|, m.doc, stop);
    BlankOver(c, p + |m.gap| + |text|, m.after, stop);
  }

  lemma NameOver(c: bytes, o: nat, m: DMember, stop: nat)
    requires NameOk(m) && At(c, o, NameText(m)) && o + |NameText(m)| <= stop <= |c|
    ensures Conforms(c, o, stop) <==>
      && StrictBlank(m.before) && StrictLiteral(m.key) && StrictBlank(m.colon)
      && Conforms(c, o + |NameText(m)|, stop)
  {
    hide Conforms, At, Blank, StrictBlank, LiteralOk, StrictLiteral, LiteralDoc;
    var p := o + |m.before| + |LiteralDoc(m.key)|;
    AtSplit(c, o, m.before + LiteralDoc(m.key) + m.colon, [COLON]);
    AtSplit(c, o, m.before + LiteralDoc(m.key), m.colon);
    AtSplit(c, o, m.before, LiteralDoc(m.key));
    BlankOver(c, o, m.before, stop);
    QuotedOver(c, o + |m.before|, m.key, stop);
    BlankOver(c, p, m.colon, stop);
    MarksOver(c, p + |m.colon|, [COLON], stop);
  }

  // ------------------------------------------------------------------------- exactly

  /**
   * Whatever the parser accepts, at any offset and with any room, is a JSON text of RFC 8259 with the
   * value the parser gives it, exactly if every \u in it has its four hexadecimal digits, no string in it
   * holds a control byte, and its blanks and numbers are those of the RFC.
   */
  lemma AcceptedIsJson(c: bytes, o: nat, room: nat)
    requires o <= |c| && ParseValue(c, o, room).Ok?
    ensures (exists v :: Spells(c, o, v, ParseValue(c, o, room).value, ParseValue(c, o, room).offset) && Strict(v))
       <==> HexEscapes(c, o, ParseValue(c, o, room).offset) && Conforms(c, o, ParseValue(c, o, room).offset)
  {
    hide ParseValue, HexEscapes, DocOk, DocText, DocValue, At, Strict;
    var value, next := ParseValue(c, o, room).value, ParseValue(c, o, room).offset;
    AcceptedIsDialect(c, o, room);
    forall v | Spells(c, o, v, value, next)
      ensures Conforms(c, o, next) <==> Strict(v)
    {
      DocOver(c, o, v, next);
    }
  }

  // --------------------------------------------------------------- a text to its end

  /** t is a JSON text of RFC 8259, blanks around it included, with numbers of at most 63 bytes, and means value. */
  ghost predicate RfcText(t: bytes, value: Json) {
    exists before, v, after :: Around(t, before, v, after, value)
  }

  ghost predicate Around(t: bytes, before: bytes, v: Doc, after: bytes, value: Json) {
    && t == before + DocText(v) + after && StrictBlank(before) && StrictBlank(after)
    && Strict(v) && Brief(v) && DocOk(v) && DocValue(v) == value
  }

  lemma {:induction false} OkBrief(v: Doc)
    requires DocOk(v)
    ensures Brief(v)
    decreases v, 1
  {
    match v
    case DArray(_, es) => ElemsBrief(es);
    case DObject(_, ms) => MembersBrief(ms);
    case _ =>
  }

  lemma {:induction false} ElemsBrief(es: seq<DElem>)
    requires ElemsOk(es)
    ensures BriefElems(es)
    decreases es, 0
  {
    if es != [] {
      OkBrief(es[0].doc);
      ElemsBrief(es[1..]);
    }
  }

  lemma {:induction false} MembersBrief(ms: seq<DMember>)
    requires MembersOk(ms)
    ensures BriefMembers(ms)
    decreases ms, 0
  {
    if ms != [] {
      OkBrief(ms[0].doc);
      MembersBrief(ms[1..]);
    }
  }

  /** At the end of a NUL-terminated buffer the skip steps back onto the NUL. */
  lemma {:induction false} SkipToNul(c: bytes, o: nat, blank: bytes)
    requires At(c, o, blank + [0]) && Blank(blank) && o + |blank| + 1 == |c|
    ensures SkipBlanks(c, o) == |c| && SkipWhitespace(c, o) == |c| - 1
    decreases |blank|
  {
    AtIndex(c, o, blank + [0], 0);
    if blank != [] {
      assert blank + [0] == [blank[0]] + (blank[1..] + [0]);
      AtSplit(c, o, [blank[0]], blank[1..] + [0]);
      SkipToNul(c, o + 1, blank[1..]);
    } else {
      assert SkipBlanks(c, o + 1) == |c|;
    }
  }

  lemma RfcTextParses(c: bytes, k: nat, before: bytes, v: Doc, after: bytes, room: nat)
    requires At(c, k, before + DocText(v) + after + [0]) && k + |before + DocText(v) + after| + 1 == |c|
    requires StrictBlank(before) && StrictBlank(after) && Strict(v) && Brief(v)
    requires DocOk(v) && Height(DocValue(v)) <= room
    ensures var o := SkipWhitespace(c, k); var next := o + |DocText(v)|;
      && ParseValue(c, o, room) == Ok(DocValue(v), next) && SkipWhitespace(c, next) == |c| - 1
    ensures HexEscapes(c, k, |c| - 1) && Conforms(c, k, |c| - 1)
  {
    hide ParseValue, SkipWhitespace, HexEscapes, Conforms, DocOk, DocText, DocValue, Strict, Brief, Height;
    hide At, Blank, StrictBlank;
    var text, stop := DocText(v), |c| - 1;
    var o := k + |before|;
    var next := o + |text|;
    assert before + text + after + [0] == before + text + (after + [0]);
    AtSplit(c, k, before + text, after + [0]);
    AtSplit(c, k, before, text);
    AtSplit(c, next, after, [0]);
    StrictBlankOk(before);
    StrictBlankOk(after);
    DocStart(v);
    AtIndex(c, o, text, 0);
    SkipOver(c, k, before);
    SkipToNul(c, next, after);
    AfterStops(c, next, after);
    assert Ends(c, next, v);
    ValueParses(c, o, v, room);
    NothingLeft(c, stop);
    BlankClean(before);
    BlankClean(after);
    TextBefore(c, next, after, stop);
    DocHex(c, o, v, stop);
    TextBefore(c, k, before, stop);
    BlankOver(c, next, after, stop);
    DocOver(c, o, v, stop);
    BlankOver(c, k, before, stop);
    EndConforms(c, stop);
  }

  lemma EndConforms(c: bytes, end: nat)
    requires end <= |c|
    ensures Conforms(c, end, end)
  {
  }

  /** Behind a value, blanks and the NUL end a number. */
  lemma AfterStops(c: bytes, next: nat, after: bytes)
    requires At(c, next, after + [0]) && Blank(after)
    ensures next < |c| && !NumberByte(c[next])
  {
    AtIndex(c, next, after + [0], 0);
  }

  lemma RfcTextAccepted(c: bytes, k: nat, room: nat) returns (before: bytes, v: Doc, after: bytes)
    requires k < |c| && 0 !in c[..|c| - 1] && c[|c| - 1] == 0
    requires HexEscapes(c, k, |c| - 1) && Conforms(c, k, |c| - 1)
    requires var r := ParseValue(c, SkipWhitespace(c, k), room);
      r.Ok? && SkipWhitespace(c, r.offset) == |c| - 1
    ensures Around(c[k..|c| - 1], before, v, after, ParseValue(c, SkipWhitespace(c, k), room).value)
  {
    hide ParseValue, SkipWhitespace, HexEscapes, Conforms, DocOk, DocText, DocValue, Strict, Brief, At, Blank;
    hide StrictBlank;
    var stop, o := |c| - 1, SkipWhitespace(c, k);
    var next := ParseValue(c, o, room).offset;
    Skipped(c, k);
    Skipped(c, next);
    Beyond(c, k, o, stop);
    v := Accepted(c, o, room, stop);
    before, after := c[k..o], c[next..stop];
    AtSlice(c, k, o);
    AtSlice(c, next, stop);
    BlankOver(c, k, before, stop);
    BlankStops(c, next, after, stop);
    DocOver(c, o, v, stop);
    BlankOver(c, next, after, stop);
    OkBrief(v);
    ThreeParts(c, k, o, next, stop, DocText(v));
  }

  lemma BlankStops(c: bytes, next: nat, after: bytes, stop: nat)
    requires next <= stop <= |c| && after == c[next..stop] && Blank(after)
    ensures Stops(c, next, stop)
  {
    if next < stop {
      assert after[0] == c[next];
    }
  }

  lemma ThreeParts(c: bytes, k: nat, o: nat, next: nat, stop: nat, text: bytes)
    requires k <= o <= next <= stop <= |c| && At(c, o, text) && o + |text| == next
    ensures c[k..stop] == c[k..o] + text + c[next..stop]
  {
  }

  /**
   * cJSON_ParseWithOpts on a C string that must end there, behind a byte order mark if it has one: it gives
   * value, and the bytes meet the two conditions, exactly if the string is a JSON text of RFC 8259 that
   * means value, nested at most NESTING_LIMIT deep and with numbers of at most 63 bytes.
   */
  lemma TextExact(t: CString, value: Json)
    ensures SkipBom(t + [0]) <= |t|
    ensures var c := t + [0]; var k := SkipBom(c);
      RfcText(t[k..], value) && Height(value) <= NESTING_LIMIT
      <==> ParseText(c, true) == Ok(value, |t|) && HexEscapes(c, k, |t|) && Conforms(c, k, |t|)
  {
    hide ParseText, HexEscapes, Conforms, Height, Around;
    var c := t + [0];
    var k := SkipBom(c);
    if RfcText(t[k..], value) && Height(value) <= NESTING_LIMIT {
      var before, v, after :| Around(t[k..], before, v, after, value);
      RfcTextGives(t, before, v, after, value);
    }
    if ParseText(c, true) == Ok(value, |t|) && HexEscapes(c, k, |t|) && Conforms(c, k, |t|) {
      GivenIsRfcText(t, value);
    }
  }

  lemma RfcTextGives(t: CString, before: bytes, v: Doc, after: bytes, value: Json)
    requires SkipBom(t + [0]) <= |t| && Height(value) <= NESTING_LIMIT
    requires Around(t[SkipBom(t + [0])..], before, v, after, value)
    ensures var c := t + [0]; var k := SkipBom(c);
      ParseText(c, true) == Ok(value, |t|) && HexEscapes(c, k, |t|) && Conforms(c, k, |t|)
  {
    hide ParseValue, SkipWhitespace, SkipBom, HexEscapes, Conforms, Height, Around, Strict, Brief;
    hide DocOk, DocText, DocValue, StrictBlank, At;
    var c := t + [0];
    var k := SkipBom(c);
    AroundAt(c, t, k, before, v, after, value);
    RfcTextParses(c, k, before, v, after, NESTING_LIMIT);
  }

  lemma GivenIsRfcText(t: CString, value: Json)
    requires SkipBom(t + [0]) <= |t|
    requires var c := t + [0]; var k := SkipBom(c);
      ParseText(c, true) == Ok(value, |t|) && HexEscapes(c, k, |t|) && Conforms(c, k, |t|)
    ensures RfcText(t[SkipBom(t + [0])..], value) && Height(value) <= NESTING_LIMIT
  {
    hide ParseValue, SkipWhitespace, SkipBom, HexEscapes, Conforms, Height, Around;
    var c := t + [0];
    var k := SkipBom(c);
    assert c[..|c| - 1] == t && c[k..|t|] == t[k..];
    JsonRoundTrip.ParsedHeight(c, SkipWhitespace(c, k), NESTING_LIMIT, 0);
    var before, v, after := RfcTextAccepted(c, k, NESTING_LIMIT);
  }

  lemma AroundAt(c: bytes, t: bytes, k: nat, before: bytes, v: Doc, after: bytes, value: Json)
    requires c == t + [0] && k <= |t| && Around(t[k..], before, v, after, value)
    ensures At(c, k, before + DocText(v) + after + [0]) && k + |before + DocText(v) + after| + 1 == |c|
    ensures StrictBlank(before) && StrictBlank(after) && Strict(v) && Brief(v) && DocOk(v) && DocValue(v) == value
  {
    hide DocText, Strict, Brief, DocOk, DocValue;
    assert c[k..|c|] == t[k..] + [0];
  }

  // ---------------------------------------------------- accepted, and no JSON texts

  /** A string that holds a newline. */
  const RAW_NEWLINE: bytes := [QUOTE, NL, QUOTE]

  lemma RawNewlineAccepted(room: nat)
    ensures ParseValue(RAW_NEWLINE, 0, room) == Ok(String([NL]), 3) && HexEscapes(RAW_NEWLINE, 0, 3)
    ensures !exists v :: Spells(RAW_NEWLINE, 0, v, String([NL]), 3) && Strict(v)
  {
    NoKeyword(RAW_NEWLINE, 0);
    assert Scan(RAW_NEWLINE, 1) == Closed(2, 0) by {
      assert Scan(RAW_NEWLINE, 2) == Closed(2, 0);
    }
    assert Decode(RAW_NEWLINE, 2, 2) == Decoded([], 2);
    assert Decode(RAW_NEWLINE, 1, 2) == Decoded([NL], 2);
    assert ParseValue(RAW_NEWLINE, 0, room) == Ok(String([NL]), 3);
    assert HexEscapes(RAW_NEWLINE, 1, 3) && HexEscapes(RAW_NEWLINE, 2, 3);
    assert !InString(RAW_NEWLINE, 1, 3);
    AcceptedIsJson(RAW_NEWLINE, 0, room);
  }

  /** An empty array around a NUL and a vertical tab. */
  const ODD_BLANKS: bytes := [LBRACKET, 0, 11, RBRACKET]

  lemma OddBlanksAccepted(room: nat)
    requires room > 0
    ensures ParseValue(ODD_BLANKS, 0, room) == Ok(Array([]), 4) && HexEscapes(ODD_BLANKS, 0, 4)
    ensures !exists v :: Spells(ODD_BLANKS, 0, v, Array([]), 4) && Strict(v)
  {
    NoKeyword(ODD_BLANKS, 0);
    assert SkipBlanks(ODD_BLANKS, 3) == 3;
    assert SkipBlanks(ODD_BLANKS, 2) == 3;
    assert SkipWhitespace(ODD_BLANKS, 1) == 3;
    assert ParseValue(ODD_BLANKS, 0, room) == Ok(Array([]), 4);
    assert HexEscapes(ODD_BLANKS, 2, 4);
    assert HexEscapes(ODD_BLANKS, 1, 4);
    assert !Conforms(ODD_BLANKS, 1, 4);
    AcceptedIsJson(ODD_BLANKS, 0, room);
  }

  /** The number 01. */
  const LEADING_ZERO: bytes := [48, 49]

  lemma LeadingZeroAccepted(room: nat)
    ensures ParseValue(LEADING_ZERO, 0, room) == Ok(Number(1.0), 2) && HexEscapes(LEADING_ZERO, 0, 2)
    ensures !exists v :: Spells(LEADING_ZERO, 0, v, Number(1.0), 2) && Strict(v)
  {
    hide Strtod, RfcNumber, Spells, ParseNumber;
    var c := LEADING_ZERO;
    NoKeyword(c, 0);
    LeadingZeroParses();
    assert HexEscapes(c, 1, 2);
    LeadingZeroNoNumber();
    SpanIs(c, 0, c, 2);
    assert c[0..2] == c;
    assert !Conforms(c, 0, 2);
    AcceptedIsJson(c, 0, room);
  }

  lemma LeadingZeroParses()
    ensures ParseNumber(LEADING_ZERO, 0) == Ok(Number(1.0), 2)
  {
    hide Strtod;
    var c := LEADING_ZERO;
    LeadingZeroReads();
    SpanAll(c, 0, c, NUMBER_MAX);
    assert c[0..2] == c;
  }

  lemma LeadingZeroReads()
    ensures Strtod(LEADING_ZERO) == Read(1.0, 2)
  {
    var c := LEADING_ZERO;
    DigitRunAll(c, 0);
    assert c[0..2] == c && c[..1] == [48] && c[..1][..0] == [];
    assert DigitsValue(c[..1]) == 0;
    assert DigitsValue(c) == 1;
    assert Pow10(0) == 1.0;
  }

  lemma LeadingZeroNoNumber()
    ensures !RfcNumber(LEADING_ZERO)
  {
    hide RfcNumber;
    if RfcNumber(LEADING_ZERO) {
      NoLeadingZero(LEADING_ZERO);
    }
  }
}
