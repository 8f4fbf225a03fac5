/** What the parser accepts is text of its dialect, apart from \u escapes without four hexadecimal digits. */
module JsonAccepts {
  import opened Bytes
  import opened Json
  import opened JsonText
  import opened JsonNumber
  import opened JsonString
  import opened JsonLiteral
  import opened JsonParse
  import opened JsonSyntax

  /** Every \u between p and end, with escapes read from left to right, is followed by four hexadecimal digits. */
  predicate HexEscapes(c: bytes, p: nat, end: nat)
    requires end <= |c|
    decreases end - p
  {
    if p >= end then true
    else if c[p] != BACKSLASH then HexEscapes(c, p + 1, end)
    else
      && (p + 1 < end && c[p + 1] == LOWER_U ==> p + 6 <= |c| && IsHex4(c, p + 2))
      && HexEscapes(c, p + 2, end)
  }

  /** Bytes without an escape. */
  predicate Clean(c: bytes, p: nat, q: nat) {
    p <= q <= |c| && forall i :: p <= i < q ==> c[i] != BACKSLASH
  }

  lemma {:induction false} Beyond(c: bytes, p: nat, q: nat, end: nat)
    requires end <= |c| && HexEscapes(c, p, end) && Clean(c, p, q)
    ensures HexEscapes(c, q, end)
    decreases q - p
  {
    if p < q && p < end {
      Beyond(c, p + 1, q, end);
    }
  }

  // ---------------------------------------------------------------------- pieces

  lemma AtSlice(c: bytes, p: nat, q: nat)
    requires p <= q <= |c|
    ensures At(c, p, c[p..q]) && |c[p..q]| == q - p
  {
  }

  /** What is skipped is blank, also where the skip steps back from the end. */
  lemma {:induction false} SkippedBlank(c: bytes, o: nat)
    requires o <= |c|
    ensures var p := SkipBlanks(c, o); Blank(c[o..p]) && Clean(c, o, p)
    decreases |c| - o
  {
    if o < |c| && c[o] <= 32 {
      SkippedBlank(c, o + 1);
      var p := SkipBlanks(c, o);
      assert c[o..p] == [c[o]] + c[o + 1..p];
    }
  }

  lemma Skipped(c: bytes, o: nat)
    requires o <= |c|
    ensures var p := SkipWhitespace(c, o); Blank(c[o..p]) && Clean(c, o, p)
  {
    SkippedBlank(c, o);
    var p, q := SkipWhitespace(c, o), SkipBlanks(c, o);
    assert forall i :: 0 <= i < p - o ==> c[o..p][i] == c[o..q][i];
  }

  // --------------------------------------------------------------------- numbers

  lemma {:induction false} SpanBytes(c: bytes, o: nat, limit: nat)
    requires o <= |c|
    ensures forall i :: o <= i < o + NumberSpan(c, o, limit) ==> NumberByte(c[i])
    decreases limit
  {
    if limit > 0 && o < |c| && NumberByte(c[o]) {
      SpanBytes(c, o + 1, limit - 1);
    }
  }

  /** Cutting behind a run of digits leaves the run. */
  lemma {:induction false} RunCut(t: bytes, i: nat, n: nat)
    requires i <= |t| && i + DigitRun(t, i) <= n <= |t|
    ensures i <= n && DigitRun(t[..n], i) == DigitRun(t, i)
    decreases |t| - i
  {
    if i < n && IsDigit(t[i]) {
      RunCut(t, i + 1, n);
    }
  }

  lemma ExponentCut(t: bytes, m: nat, n: nat)
    requires m <= |t| && n == m + ExponentLength(t, m)
    ensures ExponentLength(t[..n], m) == ExponentLength(t, m) && ExponentValue(t[..n], m) == ExponentValue(t, m)
  {
    if n > m {
      var s := SignLength(t, m + 1);
      RunCut(t, m + 1 + s, n);
      assert t[..n][m + 1 + s..n] == t[m + 1 + s..n];
    }
  }

  lemma FractionCut(t: bytes, k: nat, n: nat)
    requires k <= |t| && k + FractionLength(t, k) <= n <= |t|
    requires k < n && FractionLength(t, k) == 0 ==> t[k] != POINT
    ensures FractionLength(t[..n], k) == FractionLength(t, k)
  {
    if k < |t| && t[k] == POINT {
      RunCut(t, k + 1, n);
    }
  }

  lemma UnsignedCut(t: bytes, i: nat, n: nat, f: nat, all: nat)
    requires i + n + f <= |t| && all == i + n + f + ExponentLength(t, i + n + f)
    ensures Unsigned(t[..all], i, n, f) == Unsigned(t, i, n, f)
  {
    hide DigitsValue, Pow10, ExponentLength, ExponentValue;
    var m := i + n + f;
    ExponentCut(t, m, all);
    assert t[..all][i..m] == t[i..m] && t[..all][i..i + n] == t[i..i + n];
    if f > 0 {
      assert t[..all][i + n + 1..m] == t[i + n + 1..m];
    }
  }

  /** strtod reads the text it consumed to the same number. */
  lemma StrtodCut(t: bytes)
    requires Strtod(t).length > 0
    ensures Strtod(t[..Strtod(t).length]) == Strtod(t)
  {
    hide Unsigned, DigitRun, FractionLength, ExponentLength, ExponentValue;
    var i := SignLength(t, 0);
    var n := DigitRun(t, i);
    var f := FractionLength(t, i + n);
    var all := Strtod(t).length;
    RunCut(t, i, all);
    PointTells(t, i + n);
    FractionCut(t, i + n, all);
    UnsignedCut(t, i, n, f, all);
    ExponentCut(t, i + n + f, all);
    StrtodStarts(t);
    assert t[..all][0] == t[0];
  }

  lemma PointTells(t: bytes, k: nat)
    requires k <= |t|
    ensures k < |t| && FractionLength(t, k) == 0 ==> t[k] != POINT
  {
  }

  /** A number is not made of a sign alone. */
  lemma StrtodStarts(t: bytes)
    requires Strtod(t).length > 0
    ensures SignLength(t[..Strtod(t).length], 0) == SignLength(t, 0)
  {
    hide Unsigned, ExponentLength;
  }

  lemma NumberAccepted(c: bytes, o: nat) returns (t: bytes)
    requires o < |c| && StartsNumber(c[o]) && ParseNumber(c, o).Ok?
    ensures NumberOk(t) && At(c, o, t) && ParseNumber(c, o) == Ok(Number(Strtod(t).value), o + |t|)
    ensures Clean(c, o, o + |t|)
  {
    hide Strtod;
    var n := NumberSpan(c, o, NUMBER_MAX);
    SpanBytes(c, o, NUMBER_MAX);
    var all := c[o..o + n];
    StrtodCut(all);
    t := all[..Strtod(all).length];
    assert t == c[o..o + |t|];
  }

  // --------------------------------------------------------------------- strings

  /** Scan and decode are in step at p. */
  ghost predicate AtUnit(c: bytes, p: nat, end: nat, stop: nat) {
    Scan(c, p).Closed? && Scan(c, p).end == end && end < stop <= |c| && HexEscapes(c, p, stop)
  }

  /** The unit at p, where they are in step, and they are so behind it. */
  lemma UnitAccepted(c: bytes, p: nat, end: nat, stop: nat) returns (u: Unit)
    requires AtUnit(c, p, end, stop) && p < end && Next(c, p, end).Piece?
    ensures UnitOk(u) && At(c, p, UnitText(u)) && p + |UnitText(u)| <= end
    ensures Next(c, p, end) == Piece(UnitValue(u), |UnitText(u)|) && AtUnit(c, p + |UnitText(u)|, end, stop)
  {
    hide Scan, HexEscapes, UnitOk, UnitText, UnitValue, Next, At;
    if c[p] != BACKSLASH || c[p + 1] != LOWER_U {
      u := LetterAccepted(c, p, end, stop);
    } else {
      u := HexAccepted(c, p, end, stop);
    }
    NextUnit(c, p, end, u);
  }

  lemma LetterAccepted(c: bytes, p: nat, end: nat, stop: nat) returns (u: Unit)
    requires AtUnit(c, p, end, stop) && p < end && Next(c, p, end).Piece? && (c[p] != BACKSLASH || c[p + 1] != LOWER_U)
    ensures UnitOk(u) && At(c, p, UnitText(u)) && p + |UnitText(u)| <= end && AtUnit(c, p + |UnitText(u)|, end, stop)
  {
    if c[p] != BACKSLASH {
      u := Plain(c[p]);
      assert c[p..p + 1] == [c[p]];
    } else {
      u := Short(c[p + 1]);
      assert c[p..p + 2] == [BACKSLASH, c[p + 1]];
    }
  }

  lemma HexAccepted(c: bytes, p: nat, end: nat, stop: nat) returns (u: Unit)
    requires AtUnit(c, p, end, stop) && p < end && Next(c, p, end).Piece? && c[p] == BACKSLASH && c[p + 1] == LOWER_U
    ensures UnitOk(u) && At(c, p, UnitText(u)) && p + |UnitText(u)| <= end && AtUnit(c, p + |UnitText(u)|, end, stop)
  {
    hide AtUnit, Hex4, IsHex4, At, Utf8;
    CodeAccepted(c, p, end, stop);
    if Next(c, p, end).length == 6 {
      u := Code(c[p + 2..p + 6]);
    } else {
      CodeAccepted(c, p + 6, end, stop);
      u := Pair(c[p + 2..p + 6], c[p + 8..p + 12]);
      AtSplit(c, p, U_ESCAPE + c[p + 2..p + 6], U_ESCAPE + c[p + 8..p + 12]);
      assert UnitText(u) == (U_ESCAPE + c[p + 2..p + 6]) + (U_ESCAPE + c[p + 8..p + 12]);
    }
  }

  lemma CodeAccepted(c: bytes, p: nat, end: nat, stop: nat)
    requires AtUnit(c, p, end, stop) && p + 6 <= end && c[p] == BACKSLASH && c[p + 1] == LOWER_U
    ensures var h := c[p + 2..p + 6]; |h| == 4 && IsHex4(h, 0) && Hex4(h, 0) == Hex4(c, p + 2) && At(c, p, U_ESCAPE + h)
    ensures AtUnit(c, p + 6, end, stop)
  {
    var h := c[p + 2..p + 6];
    assert IsHex4(c, p + 2);
    forall k | 0 <= k < 4
      ensures HexValue(h[k]) >= 0 && c[p + 2 + k] != QUOTE && c[p + 2 + k] != BACKSLASH
    {
      assert h[k] == c[p + 2 + k];
    }
    assert c[p..p + 2] == U_ESCAPE;
    AtSplit(c, p, U_ESCAPE, h);
    HexAt(c, p + 2, h);
    assert Clean(c, p + 2, p + 6);
    ScanPlain(c, p + 2, 4);
    Beyond(c, p + 2, p + 6, stop);
  }

  lemma {:induction false} LiteralAccepted(c: bytes, p: nat, end: nat, stop: nat) returns (us: seq<Unit>)
    requires AtUnit(c, p, end, stop) && Decode(c, p, end).Decoded?
    ensures LiteralOk(us) && At(c, p, LiteralText(us)) && p + |LiteralText(us)| == end
    ensures LiteralValue(us) == Decode(c, p, end).out && HexEscapes(c, end, stop)
    decreases end - p
  {
    hide Scan, Next, UnitOk, UnitText, UnitValue;
    us := [];
    if p < end {
      var u := UnitAccepted(c, p, end, stop);
      var rest := LiteralAccepted(c, p + |UnitText(u)|, end, stop);
      us := [u] + rest;
      assert us[1..] == rest;
      AtSplit(c, p, UnitText(u), LiteralText(rest));
    } else {
      assert c[p..p] == [];
    }
  }

  lemma StringAccepted(c: bytes, o: nat, stop: nat) returns (lit: seq<Unit>)
    requires o < |c| && ParseString(c, o).Ok? && ParseString(c, o).offset <= stop <= |c| && HexEscapes(c, o, stop)
    ensures c[o] == QUOTE && LiteralOk(lit) && At(c, o, LiteralDoc(lit))
    ensures ParseString(c, o) == Ok(KeyValue(lit), o + |LiteralDoc(lit)|)
    ensures HexEscapes(c, ParseString(c, o).offset, stop)
  {
    hide Scan, Decode, LiteralOk, LiteralText, LiteralValue, HexEscapes;
    var end := Scan(c, o + 1).end;
    Beyond(c, o, o + 1, stop);
    lit := LiteralAccepted(c, o + 1, end, stop);
    Beyond(c, end, end + 1, stop);
    assert c[o..o + 1] == [QUOTE] && c[end..end + 1] == [QUOTE];
    AtSplit(c, o, [QUOTE], LiteralText(lit));
    AtSplit(c, o, [QUOTE] + LiteralText(lit), [QUOTE]);
  }

  // ---------------------------------------------------------------------- values

  /** The document v stands at o and ends at next. */
  ghost predicate Spells(c: bytes, o: nat, v: Doc, value: Json, next: nat) {
    DocOk(v) && At(c, o, DocText(v)) && o + |DocText(v)| == next && DocValue(v) == value
  }

  lemma KeywordAccepted(c: bytes, o: nat, t: bytes)
    requires At(c, o, t) && t in {NULL_TEXT, FALSE_TEXT, TRUE_TEXT}
    ensures Clean(c, o, o + |t|)
  {
    forall i | o <= i < o + |t|
      ensures c[i] != BACKSLASH
    {
      AtIndex(c, o, t, i - o);
    }
  }

  /** Text the parser accepts is that of a document, with the value the parser gives it. */
  lemma {:induction false} Accepted(c: bytes, o: nat, room: nat, stop: nat) returns (v: Doc)
    requires o <= |c| && ParseValue(c, o, room).Ok?
    requires ParseValue(c, o, room).offset <= stop <= |c| && HexEscapes(c, o, stop)
    ensures Spells(c, o, v, ParseValue(c, o, room).value, ParseValue(c, o, room).offset)
    ensures HexEscapes(c, ParseValue(c, o, room).offset, stop)
    decreases |c| - o, 5
  {
    hide ParseArray, ParseObject, ParseString, ParseNumber, HexEscapes, At;
    var next := ParseValue(c, o, room).offset;
    if At(c, o, NULL_TEXT) {
      v := DNull;
      KeywordAccepted(c, o, NULL_TEXT);
      Beyond(c, o, next, stop);
    } else if At(c, o, FALSE_TEXT) {
      v := DBool(false);
      KeywordAccepted(c, o, FALSE_TEXT);
      Beyond(c, o, next, stop);
    } else if At(c, o, TRUE_TEXT) {
      v := DBool(true);
      KeywordAccepted(c, o, TRUE_TEXT);
      Beyond(c, o, next, stop);
    } else if c[o] == QUOTE {
      var lit := StringAccepted(c, o, stop);
      v := DString(lit);
    } else if StartsNumber(c[o]) {
      var t := NumberAccepted(c, o);
      v := DNumber(t);
      Beyond(c, o, next, stop);
    } else if c[o] == LBRACKET {
      v := ArrayAccepted(c, o, room, stop);
    } else {
      v := ObjectAccepted(c, o, room, stop);
    }
  }

  lemma ArrayAccepted(c: bytes, o: nat, room: nat, stop: nat) returns (v: Doc)
    requires o < |c| && c[o] == LBRACKET && ParseArray(c, o, room).Ok?
    requires ParseArray(c, o, room).offset <= stop <= |c| && HexEscapes(c, o, stop)
    ensures Spells(c, o, v, ParseArray(c, o, room).value, ParseArray(c, o, room).offset)
    ensures HexEscapes(c, ParseArray(c, o, room).offset, stop)
    decreases |c| - o, 4
  {
    hide ParseElems, SkipWhitespace, HexEscapes, At, ElemsOk, ElemsText, ElemsValue;
    var p := SkipWhitespace(c, o + 1);
    Skipped(c, o + 1);
    Beyond(c, o, p, stop);
    var open := c[o + 1..p];
    AtSlice(c, o + 1, p);
    var es, q := [], p;
    if c[p] != RBRACKET {
      es := ElemsAccepted(c, p, room - 1, stop);
      q := ParseElems(c, p, room - 1).offset;
    } else {
      NoElems(c, p);
    }
    v := DArray(open, es);
    Beyond(c, q, q + 1, stop);
    Bracketed(c, o, open, ElemsText(es), q);
  }

  lemma NoElems(c: bytes, p: nat)
    requires p <= |c|
    ensures ElemsOk([]) && ElemsText([]) == [] && ElemsValue([]) == [] && At(c, p, [])
    ensures MembersOk([]) && MembersText([]) == [] && MembersValue([]) == []
  {
  }

  lemma Bracketed(c: bytes, o: nat, open: bytes, inner: bytes, q: nat)
    requires o < q < |c| && At(c, o + 1, open) && At(c, o + 1 + |open|, inner) && q == o + 1 + |open| + |inner|
    ensures At(c, o, [c[o]] + open + inner + [c[q]])
  {
    assert c[o..o + 1] == [c[o]] && c[q..q + 1] == [c[q]];
    AtSplit(c, o, [c[o]], open);
    AtSplit(c, o, [c[o]] + open, inner);
    AtSplit(c, o, [c[o]] + open + inner, [c[q]]);
  }

  lemma {:induction false} ElemsAccepted(c: bytes, o: nat, room: nat, stop: nat) returns (es: seq<DElem>)
    requires o <= |c| && ParseElems(c, o, room).Ok?
    requires ParseElems(c, o, room).offset <= stop <= |c| && HexEscapes(c, o, stop)
    ensures ElemsOk(es) && At(c, o, ElemsText(es)) && o + |ElemsText(es)| == ParseElems(c, o, room).offset
    ensures ElemsValue(es) == ParseElems(c, o, room).value
    ensures HexEscapes(c, ParseElems(c, o, room).offset, stop)
    decreases |c| - o, 6
  {
    hide ParseValue, SkipWhitespace, HexEscapes, At, DocOk, DocText, DocValue, Blank;
    hide ElemsOk, ElemsText, ElemsValue, ElemText;
    var k := SkipWhitespace(c, o);
    Skipped(c, o);
    Beyond(c, o, k, stop);
    var next := ParseValue(c, k, room).offset;
    var p := SkipWhitespace(c, next);
    var v := Accepted(c, k, room, stop);
    Skipped(c, next);
    Beyond(c, next, p, stop);
    var e := DElem(c[o..k], v, c[next..p]);
    ElemSpelt(c, o, k, next, p, e);
    if p < |c| && c[p] == COMMA {
      Beyond(c, p, p + 1, stop);
      var rest := ElemsAccepted(c, p + 1, room, stop);
      es := [e] + rest;
      ElemsMore(e, rest);
      Separated(c, o, ElemText(e, DocText(v)), ElemsText(rest));
    } else {
      es := [e];
      ElemsOne(e);
    }
  }

  lemma ElemsMore(e: DElem, rest: seq<DElem>)
    requires BlanksOk(e) && DocOk(e.doc) && ElemsOk(rest) && ElemsValue(rest) != []
    ensures ElemsOk([e] + rest) && ElemsValue([e] + rest) == [DocValue(e.doc)] + ElemsValue(rest)
    ensures ElemsText([e] + rest) == ElemText(e, DocText(e.doc)) + [COMMA] + ElemsText(rest)
  {
    hide DocOk, DocText, DocValue, BlanksOk, ElemText;
    assert ([e] + rest)[1..] == rest;
  }

  lemma ElemsOne(e: DElem)
    requires BlanksOk(e) && DocOk(e.doc)
    ensures ElemsOk([e]) && ElemsValue([e]) == [DocValue(e.doc)] && ElemsText([e]) == ElemText(e, DocText(e.doc))
  {
    hide DocOk, DocText, DocValue, BlanksOk, ElemText;
  }

  lemma ElemSpelt(c: bytes, o: nat, k: nat, next: nat, p: nat, e: DElem)
    requires o <= k <= next <= p <= |c| && e.before == c[o..k] && e.after == c[next..p]
    requires At(c, k, DocText(e.doc)) && k + |DocText(e.doc)| == next
    ensures At(c, o, ElemText(e, DocText(e.doc))) && o + |ElemText(e, DocText(e.doc))| == p
  {
    hide DocText;
    AtSlice(c, o, k);
    AtSlice(c, next, p);
    AtSplit(c, o, e.before, DocText(e.doc));
    AtSplit(c, o, e.before + DocText(e.doc), e.after);
  }

  lemma Separated(c: bytes, o: nat, first: bytes, rest: bytes)
    requires At(c, o, first) && o + |first| < |c| && c[o + |first|] == COMMA && At(c, o + |first| + 1, rest)
    ensures At(c, o, first + [COMMA] + rest)
  {
    var p := o + |first|;
    assert c[p..p + 1] == [COMMA];
    AtSplit(c, o, first, [COMMA]);
    AtSplit(c, o, first + [COMMA], rest);
  }

  lemma ObjectAccepted(c: bytes, o: nat, room: nat, stop: nat) returns (v: Doc)
    requires o < |c| && c[o] == LBRACE && ParseObject(c, o, room).Ok?
    requires ParseObject(c, o, room).offset <= stop <= |c| && HexEscapes(c, o, stop)
    ensures Spells(c, o, v, ParseObject(c, o, room).value, ParseObject(c, o, room).offset)
    ensures HexEscapes(c, ParseObject(c, o, room).offset, stop)
    decreases |c| - o, 4
  {
    hide ParseMembers, SkipWhitespace, HexEscapes, At, MembersOk, MembersText, MembersValue;
    var p := SkipWhitespace(c, o + 1);
    Skipped(c, o + 1);
    Beyond(c, o, p, stop);
    var open := c[o + 1..p];
    AtSlice(c, o + 1, p);
    var ms, q := [], p;
    if c[p] != RBRACE {
      ms := MembersAccepted(c, p - 1, room - 1, stop);
      q := ParseMembers(c, p - 1, room - 1).offset;
    } else {
      NoElems(c, p);
    }
    v := DObject(open, ms);
    Beyond(c, q, q + 1, stop);
    Bracketed(c, o, open, MembersText(ms), q);
  }

  /** The members behind the byte at o. */
  lemma {:induction false} MembersAccepted(c: bytes, o: nat, room: nat, stop: nat) returns (ms: seq<DMember>)
    requires o < |c| && ParseMembers(c, o, room).Ok?
    requires ParseMembers(c, o, room).offset <= stop <= |c| && HexEscapes(c, o + 1, stop)
    ensures MembersOk(ms) && At(c, o + 1, MembersText(ms))
    ensures o + 1 + |MembersText(ms)| == ParseMembers(c, o, room).offset
    ensures MembersValue(ms) == ParseMembers(c, o, room).value
    ensures HexEscapes(c, ParseMembers(c, o, room).offset, stop)
    decreases |c| - o, 3
  {
    hide ParseMember, HexEscapes, At, NameOk, DocOk, MemberText, DocText, DocValue, KeyValue;
    var p := ParseMember(c, o, room).offset;
    var m := MemberAccepted(c, o, room, stop);
    if p < |c| && c[p] == COMMA {
      Beyond(c, p, p + 1, stop);
      var rest := MembersAccepted(c, p, room, stop);
      ms := [m] + rest;
      assert ms[1..] == rest;
      assert MembersValue(rest) != [];
      Separated(c, o + 1, MemberText(m, DocText(m.doc)), MembersText(rest));
    } else {
      ms := [m];
    }
  }

  lemma {:induction false} MemberAccepted(c: bytes, o: nat, room: nat, stop: nat) returns (m: DMember)
    requires o < |c| && ParseMember(c, o, room).Ok?
    requires ParseMember(c, o, room).offset <= stop <= |c| && HexEscapes(c, o + 1, stop)
    ensures NameOk(m) && DocOk(m.doc) && At(c, o + 1, MemberText(m, DocText(m.doc)))
    ensures o + 1 + |MemberText(m, DocText(m.doc))| == ParseMember(c, o, room).offset
    ensures Member(KeyValue(m.key), DocValue(m.doc)) == ParseMember(c, o, room).value
    ensures HexEscapes(c, ParseMember(c, o, room).offset, stop)
    decreases |c| - o, 2
  {
    hide ParseValue, ParseString, SkipWhitespace, HexEscapes, At, DocOk, DocText, DocValue, Blank;
    hide LiteralOk, LiteralDoc, KeyValue, MemberText;
    var a := SkipWhitespace(c, o + 1);
    Skipped(c, o + 1);
    Beyond(c, o + 1, a, stop);
    var b := ParseString(c, a).offset;
    var lit := StringAccepted(c, a, stop);
    var p := SkipWhitespace(c, b);
    Skipped(c, b);
    Beyond(c, b, p + 1, stop);
    var k := SkipWhitespace(c, p + 1);
    Skipped(c, p + 1);
    Beyond(c, p + 1, k, stop);
    var next := ParseValue(c, k, room).offset;
    var v := Accepted(c, k, room, stop);
    var q := SkipWhitespace(c, next);
    Skipped(c, next);
    Beyond(c, next, q, stop);
    m := DMember(c[o + 1..a], lit, c[b..p], c[p + 1..k], v, c[next..q]);
    NameSpelt(c, o + 1, a, b, p, m);
    MemberSpelt(c, o + 1, p, k, next, q, m);
  }

  lemma NameSpelt(c: bytes, o: nat, a: nat, b: nat, p: nat, m: DMember)
    requires o <= a <= b <= p < |c| && c[p] == COLON && m.before == c[o..a] && m.colon == c[b..p]
    requires At(c, a, LiteralDoc(m.key)) && a + |LiteralDoc(m.key)| == b
    ensures At(c, o, NameText(m)) && o + |NameText(m)| == p + 1
  {
    hide LiteralDoc;
    AtSlice(c, o, a);
    AtSlice(c, b, p);
    assert c[p..p + 1] == [COLON];
    AtSplit(c, o, m.before, LiteralDoc(m.key));
    AtSplit(c, o, m.before + LiteralDoc(m.key), m.colon);
    AtSplit(c, o, m.before + LiteralDoc(m.key) + m.colon, [COLON]);
  }

  lemma MemberSpelt(c: bytes, o: nat, p: nat, k: nat, next: nat, q: nat, m: DMember)
    requires o <= p < k <= next <= q <= |c| && m.gap == c[p + 1..k] && m.after == c[next..q]
    requires At(c, o, NameText(m)) && o + |NameText(m)| == p + 1
    requires At(c, k, DocText(m.doc)) && k + |DocText(m.doc)| == next
    ensures At(c, o, MemberText(m, DocText(m.doc))) && o + |MemberText(m, DocText(m.doc))| == q
  {
    hide DocText, NameText;
    AtSlice(c, p + 1, k);
    AtSlice(c, next, q);
    AtSplit(c, o, NameText(m), m.gap);
    AtSplit(c, o, NameText(m) + m.gap, DocText(m.doc));
    AtSplit(c, o, NameText(m) + m.gap + DocText(m.doc), m.after);
  }

  // ------------------------------------------------ documents escape with four digits

  lemma {:induction false} Before(c: bytes, p: nat, q: nat, stop: nat)
    requires Clean(c, p, q) && q <= stop <= |c| && HexEscapes(c, q, stop)
    ensures HexEscapes(c, p, stop)
    decreases q - p
  {
    if p < q {
      Before(c, p + 1, q, stop);
    }
  }

  lemma CleanText(c: bytes, o: nat, t: bytes)
    requires At(c, o, t) && BACKSLASH !in t
    ensures Clean(c, o, o + |t|)
  {
    forall i | o <= i < o + |t|
      ensures c[i] != BACKSLASH
    {
      AtIndex(c, o, t, i - o);
    }
  }

  lemma TextBefore(c: bytes, o: nat, t: bytes, stop: nat)
    requires At(c, o, t) && BACKSLASH !in t && o + |t| <= stop <= |c| && HexEscapes(c, o + |t|, stop)
    ensures HexEscapes(c, o, stop)
  {
    CleanText(c, o, t);
    Before(c, o, o + |t|, stop);
  }

  lemma CodeHex(c: bytes, p: nat, h: bytes, stop: nat)
    requires At(c, p, U_ESCAPE + h) && |h| == 4 && IsHex4(h, 0) && p + 6 <= stop <= |c| && HexEscapes(c, p + 6, stop)
    ensures HexEscapes(c, p, stop)
  {
    AtSplit(c, p, U_ESCAPE, h);
    AtIndex(c, p, U_ESCAPE, 0);
    forall k | p + 2 <= k < p + 6
      ensures HexValue(c[k]) >= 0
    {
      AtIndex(c, p + 2, h, k - p - 2);
    }
    assert IsHex4(c, p + 2);
    Before(c, p + 2, p + 6, stop);
  }

  lemma UnitHex(c: bytes, p: nat, u: Unit, stop: nat)
    requires UnitOk(u) && At(c, p, UnitText(u)) && p + |UnitText(u)| <= stop <= |c|
    requires HexEscapes(c, p + |UnitText(u)|, stop)
    ensures HexEscapes(c, p, stop)
  {
    match u
    case Plain(b) => TextBefore(c, p, [b], stop);
    case Short(b) =>
      AtIndex(c, p, UnitText(u), 0);
      AtIndex(c, p, UnitText(u), 1);
    case Code(h) => CodeHex(c, p, h, stop);
    case Pair(hi, lo) =>
      assert UnitText(u) == (U_ESCAPE + hi) + (U_ESCAPE + lo);
      AtSplit(c, p, U_ESCAPE + hi, U_ESCAPE + lo);
      CodeHex(c, p + 6, lo, stop);
      CodeHex(c, p, hi, stop);
  }

  lemma {:induction false} LiteralHex(c: bytes, p: nat, us: seq<Unit>, stop: nat)
    requires LiteralOk(us) && At(c, p, LiteralText(us)) && p + |LiteralText(us)| <= stop <= |c|
    requires HexEscapes(c, p + |LiteralText(us)|, stop)
    ensures HexEscapes(c, p, stop)
    decreases |us|
  {
    hide HexEscapes, UnitText, At;
    if us != [] {
      assert UnitOk(us[0]);
      AtSplit(c, p, UnitText(us[0]), LiteralText(us[1..]));
      LiteralHex(c, p + |UnitText(us[0])|, us[1..], stop);
      UnitHex(c, p, us[0], stop);
    }
  }

  lemma QuotedHex(c: bytes, p: nat, us: seq<Unit>, stop: nat)
    requires LiteralOk(us) && At(c, p, LiteralDoc(us)) && p + |LiteralDoc(us)| <= stop <= |c|
    requires HexEscapes(c, p + |LiteralDoc(us)|, stop)
    ensures HexEscapes(c, p, stop)
  {
    hide HexEscapes, LiteralText, LiteralOk, At;
    AtSplit(c, p, [QUOTE] + LiteralText(us), [QUOTE]);
    AtSplit(c, p, [QUOTE], LiteralText(us));
    TextBefore(c, p + 1 + |LiteralText(us)|, [QUOTE], stop);
    LiteralHex(c, p + 1, us, stop);
    TextBefore(c, p, [QUOTE], stop);
  }

  lemma BlankClean(t: bytes)
    ensures Blank(t) || NumberOk(t) ==> BACKSLASH !in t
  {
  }

  lemma {:induction false} DocHex(c: bytes, o: nat, v: Doc, stop: nat)
    requires DocOk(v) && At(c, o, DocText(v)) && o + |DocText(v)| <= stop <= |c|
    requires HexEscapes(c, o + |DocText(v)|, stop)
    ensures HexEscapes(c, o, stop)
    decreases v, 2
  {
    hide HexEscapes, At, LiteralOk, ElemsOk, ElemsText, MembersOk, MembersText, NumberOk, Blank, LiteralDoc;
    match v
    case DNumber(t) =>
      BlankClean(t);
      TextBefore(c, o, t, stop);
    case DString(lit) => QuotedHex(c, o, lit, stop);
    case DArray(open, es) =>
      BracketedParts(c, o, LBRACKET, open, ElemsText(es), RBRACKET, stop);
      ElemsHex(c, o + 1 + |open|, es, stop);
      BracketedHex(c, o, LBRACKET, open, stop);
    case DObject(open, ms) =>
      BracketedParts(c, o, LBRACE, open, MembersText(ms), RBRACE, stop);
      MembersHex(c, o + 1 + |open|, ms, stop);
      BracketedHex(c, o, LBRACE, open, stop);
    case _ => TextBefore(c, o, DocText(v), stop);
  }

  lemma BracketedParts(c: bytes, o: nat, left: byte, open: bytes, inner: bytes, right: byte, stop: nat)
    requires At(c, o, [left] + open + inner + [right]) && right != BACKSLASH
    requires var end := o + 2 + |open| + |inner|; end <= stop <= |c| && HexEscapes(c, end, stop)
    ensures At(c, o, [left]) && At(c, o + 1, open) && At(c, o + 1 + |open|, inner)
    ensures HexEscapes(c, o + 1 + |open| + |inner|, stop)
  {
    hide HexEscapes, At;
    AtSplit(c, o, [left] + open + inner, [right]);
    AtSplit(c, o, [left] + open, inner);
    AtSplit(c, o, [left], open);
    TextBefore(c, o + 1 + |open| + |inner|, [right], stop);
  }

  lemma BracketedHex(c: bytes, o: nat, left: byte, open: bytes, stop: nat)
    requires At(c, o, [left]) && At(c, o + 1, open) && left != BACKSLASH && Blank(open)
    requires o + 1 + |open| <= stop <= |c| && HexEscapes(c, o + 1 + |open|, stop)
    ensures HexEscapes(c, o, stop)
  {
    hide HexEscapes, At;
    BlankClean(open);
    TextBefore(c, o + 1, open, stop);
    TextBefore(c, o, [left], stop);
  }

  lemma {:induction false} ElemsHex(c: bytes, o: nat, es: seq<DElem>, stop: nat)
    requires ElemsOk(es) && At(c, o, ElemsText(es)) && o + |ElemsText(es)| <= stop <= |c|
    requires HexEscapes(c, o + |ElemsText(es)|, stop)
    ensures HexEscapes(c, o, stop)
    decreases es, 0
  {
    hide HexEscapes, At, DocOk, DocText, Blank;
    if es != [] {
      ElemsSplit(c, o, es);
      var e := es[0];
      var text := DocText(e.doc);
      var q := o + |ElemText(e, text)|;
      if |es| > 1 {
        ElemsHex(c, q + 1, es[1..], stop);
        assert Clean(c, q, q + 1);
        Before(c, q, q + 1, stop);
      }
      AtSplit(c, o, e.before + text, e.after);
      AtSplit(c, o, e.before, text);
      BlankClean(e.before);
      BlankClean(e.after);
      TextBefore(c, o + |e.before| + |text|, e.after, stop);
      DocHex(c, o + |e.before|, e.doc, stop);
      TextBefore(c, o, e.before, stop);
    }
  }

  lemma {:induction false} MembersHex(c: bytes, o: nat, ms: seq<DMember>, stop: nat)
    requires MembersOk(ms) && At(c, o, MembersText(ms)) && o + |MembersText(ms)| <= stop <= |c|
    requires HexEscapes(c, o + |MembersText(ms)|, stop)
    ensures HexEscapes(c, o, stop)
    decreases ms, 0
  {
    hide HexEscapes, At, DocOk, DocText, Blank, NameOk, NameText;
    if ms != [] {
      MembersSplit(c, o, ms);
      var m := ms[0];
      var text := DocText(m.doc);
      var q := o + |MemberText(m, text)|;
      if |ms| > 1 {
        MembersHex(c, q + 1, ms[1..], stop);
        assert Clean(c, q, q + 1);
        Before(c, q, q + 1, stop);
      }
      NameClean(m);
      AtSplit(c, o, NameText(m) + m.gap + text, m.after);
      AtSplit(c, o, NameText(m) + m.gap, text);
      AtSplit(c, o, NameText(m), m.gap);
      TextBefore(c, o + |NameText(m)| + |m.gap| + |text|, m.after, stop);
      DocHex(c, o + |NameText(m)| + |m.gap|, m.doc, stop);
      TextBefore(c, o + |NameText(m)|, m.gap, stop);
      NameHex(c, o, m, stop);
    }
  }

  lemma NameClean(m: DMember)
    requires NameOk(m)
    ensures BACKSLASH !in m.before && BACKSLASH !in m.colon && BACKSLASH !in m.gap && BACKSLASH !in m.after
  {
    hide LiteralOk;
  }

  lemma NameHex(c: bytes, o: nat, m: DMember, stop: nat)
    requires NameOk(m) && At(c, o, NameText(m)) && o + |NameText(m)| <= stop <= |c|
    requires HexEscapes(c, o + |NameText(m)|, stop)
    ensures HexEscapes(c, o, stop)
  {
    hide HexEscapes, At, LiteralDoc, LiteralOk;
    NameClean(m);
    AtSplit(c, o, m.before + LiteralDoc(m.key) + m.colon, [COLON]);
    AtSplit(c, o, m.before + LiteralDoc(m.key), m.colon);
    AtSplit(c, o, m.before, LiteralDoc(m.key));
    var p := o + |m.before| + |LiteralDoc(m.key)|;
    TextBefore(c, p + |m.colon|, [COLON], stop);
    TextBefore(c, p, m.colon, stop);
    QuotedHex(c, o + |m.before|, m.key, stop);
    TextBefore(c, o, m.before, stop);
  }

  // ------------------------------------------------------------------------ exactly

  /**
   * Whatever the parser accepts, at any offset and with any room, is the text of a document and gets
   * that document's value, exactly if every \u in it has its four hexadecimal digits.
   */
  lemma AcceptedIsDialect(c: bytes, o: nat, room: nat)
    requires o <= |c| && ParseValue(c, o, room).Ok?
    ensures (exists v :: Spells(c, o, v, ParseValue(c, o, room).value, ParseValue(c, o, room).offset))
       <==> HexEscapes(c, o, ParseValue(c, o, room).offset)
  {
    hide ParseValue, HexEscapes, DocOk, DocText, DocValue, At;
    var value, next := ParseValue(c, o, room).value, ParseValue(c, o, room).offset;
    if HexEscapes(c, o, next) {
      var v := Accepted(c, o, room, next);
    } else if exists v :: Spells(c, o, v, value, next) {
      var v :| Spells(c, o, v, value, next);
      NothingLeft(c, next);
      DocHex(c, o, v, next);
    }
  }

  lemma NothingLeft(c: bytes, end: nat)
    requires end <= |c|
    ensures HexEscapes(c, end, end)
  {
  }

  /** A quoted \u with four letters G: not of the dialect, and accepted as the empty string. */
  const NO_HEX: bytes := [QUOTE, BACKSLASH, LOWER_U, 71, 71, 71, 71, QUOTE]

  lemma NoHexAccepted(room: nat)
    ensures ParseValue(NO_HEX, 0, room) == Ok(String([]), 8)
    ensures !exists v :: Spells(NO_HEX, 0, v, String([]), 8)
  {
    NoKeyword(NO_HEX, 0);
    assert Scan(NO_HEX, 1) == Closed(7, 1) by {
      ScanPlain(NO_HEX, 3, 4);
    }
    assert HexValue(NO_HEX[3]) == -1;
    assert Next(NO_HEX, 1, 7) == Piece([0], 6);
    assert Decode(NO_HEX, 7, 7) == Decoded([], 7);
    assert Decode(NO_HEX, 1, 7).out == [0];
    assert !HexEscapes(NO_HEX, 0, 8) by {
      assert !HexEscapes(NO_HEX, 1, 8);
    }
    AcceptedIsDialect(NO_HEX, 0, room);
  }
}
