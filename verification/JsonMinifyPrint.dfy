/** When minifying a formatted print gives the unformatted one. */
module JsonMinifyPrint {
  import opened Bytes
  import opened Json
  import opened JsonText
  import opened JsonNumber
  import opened JsonMinify

  // ---------------------------------------------------------------- the condition

  predicate EndsBackslash(s: bytes) {
    s != [] && s[|s| - 1] == BACKSLASH
  }

  /** No string and no name ends in a backslash. */
  predicate Clean(v: Json) {
    match v
    case String(s) => !EndsBackslash(s)
    case Array(es) => CleanElems(es)
    case Object(ms) => CleanMembers(ms)
    case _ => true
  }

  predicate CleanElems(es: seq<Json>) {
    es == [] || (Clean(es[0]) && CleanElems(es[1..]))
  }

  predicate CleanMembers(ms: seq<Member>) {
    ms == [] || (!EndsBackslash(ms[0].key) && Clean(ms[0].value) && CleanMembers(ms[1..]))
  }

  /** As Clean, but the string printed last may end in a backslash if only arrays enclose it. */
  predicate Mild(v: Json) {
    match v
    case String(s) => true
    case Array(es) => MildElems(es)
    case Object(ms) => CleanMembers(ms)
    case _ => true
  }

  predicate MildElems(es: seq<Json>) {
    es == [] || (if |es| == 1 then Mild(es[0]) else Clean(es[0]) && MildElems(es[1..]))
  }

  lemma {:induction false} CleanIsMild(v: Json)
    requires Clean(v)
    ensures Mild(v)
    decreases v, 1
  {
    if v.Array? {
      CleanElemsAreMild(v.elems);
    }
  }

  lemma {:induction false} CleanElemsAreMild(es: seq<Json>)
    requires CleanElems(es)
    ensures MildElems(es)
    decreases es, 0
  {
    if es != [] {
      CleanIsMild(es[0]);
      CleanElemsAreMild(es[1..]);
    }
  }

  // ------------------------------------------------------------ prefixes of outputs

  lemma PrefixThrough(a: bytes, x: bytes, b: bytes)
    ensures a + x <= a + b <==> x <= b
  {
    if a + x <= a + b {
      assert forall i :: 0 <= i < |x| ==> x[i] == (a + x)[|a| + i] == (a + b)[|a| + i] == b[i];
    }
  }

  lemma HeadDiffers(a: bytes, x: bytes, b: bytes)
    requires x != [] && b != [] && x[0] != b[0]
    ensures !(a + x <= a + b)
  {
    PrefixThrough(a, x, b);
  }

  lemma BrokenFirst(u: bytes, more: bytes, out: bytes)
    requires !(u <= out)
    ensures !(u + more <= out)
  {
    assert u <= u + more;
  }

  lemma BrokenBetween(u: bytes, sep: bytes, more: bytes, out: bytes)
    requires more != [] && out != [] && more[0] != out[0]
    ensures !(u + (sep + more) <= u + (sep + out))
  {
    HeadDiffers(sep, more, out);
    PrefixThrough(u, sep + more, sep + out);
  }

  lemma BrokenRest(u: bytes, sep: bytes, more: bytes, out: bytes)
    requires !(more <= out)
    ensures !(u + (sep + more) <= u + (sep + out))
  {
    PrefixThrough(sep, more, out);
    PrefixThrough(u, sep + more, sep + out);
  }

  lemma JoinedRest(u: bytes, sep: bytes, more: bytes, rest: bytes)
    ensures u + (sep + (more + rest)) == u + (sep + more) + rest
  {
  }

  // ------------------------------------------------------------ text outside strings

  predicate Ordinary(b: byte) {
    !IsBlank(b) && b != SLASH && b != QUOTE
  }

  lemma {:induction false} CopyBytes(t: bytes, r: nat, k: bytes)
    requires At(t, r, k) && forall i :: 0 <= i < |k| ==> Ordinary(k[i])
    ensures Outside(t, r) == k + Outside(t, r + |k|)
    decreases |k|
  {
    hide At;
    if k != [] {
      AtIndex(t, r, k, 0);
      assert k == [k[0]] + k[1..];
      AtSplit(t, r, [k[0]], k[1..]);
      CopyBytes(t, r + 1, k[1..]);
      Regroup([k[0]], k[1..], Outside(t, r + |k|));
    }
  }

  lemma {:induction false} DropBlanks(t: bytes, r: nat, k: bytes)
    requires At(t, r, k) && forall i :: 0 <= i < |k| ==> IsBlank(k[i])
    ensures Outside(t, r) == Outside(t, r + |k|)
    decreases |k|
  {
    hide At;
    if k != [] {
      AtIndex(t, r, k, 0);
      assert k == [k[0]] + k[1..];
      AtSplit(t, r, [k[0]], k[1..]);
      DropBlanks(t, r + 1, k[1..]);
    }
  }

  // ------------------------------------------------------------- text inside strings

  lemma {:induction false} InsidePlain(t: bytes, r: nat, k: bytes)
    requires At(t, r, k) && forall i :: 0 <= i < |k| ==> k[i] != QUOTE && k[i] != BACKSLASH
    ensures Inside(t, r) == k + Inside(t, r + |k|)
    decreases |k|
  {
    hide At;
    if k != [] {
      AtIndex(t, r, k, 0);
      assert k == [k[0]] + k[1..];
      AtSplit(t, r, [k[0]], k[1..]);
      InsidePlain(t, r + 1, k[1..]);
      Regroup([k[0]], k[1..], Inside(t, r + |k|));
    }
  }

  /** The escape of one byte is copied whole, unless it is a backslash right before a quote. */
  lemma InsideEscape(t: bytes, r: nat, c: byte)
    requires At(t, r, EscapeByte(c)) && r + |EscapeByte(c)| < |t|
    requires c == BACKSLASH ==> t[r + 2] != QUOTE
    ensures Inside(t, r) == EscapeByte(c) + Inside(t, r + |EscapeByte(c)|)
  {
    hide At, Inside;
    var k := EscapeByte(c);
    if c == QUOTE {
      InsideQuote(t, r);
    } else if |k| == 1 {
      AtIndex(t, r, k, 0);
      InsideNext(t, r);
    } else if c == BACKSLASH {
      InsideBackslash(t, r);
    } else {
      InsideLetters(t, r, k);
    }
  }

  lemma InsideQuote(t: bytes, r: nat)
    requires At(t, r, [BACKSLASH, QUOTE])
    ensures Inside(t, r) == [BACKSLASH, QUOTE] + Inside(t, r + 2)
  {
    hide At, Outside;
    AtIndex(t, r, [BACKSLASH, QUOTE], 0);
    AtIndex(t, r, [BACKSLASH, QUOTE], 1);
  }

  lemma InsideNext(t: bytes, r: nat)
    requires r < |t| && t[r] != QUOTE && (t[r] == BACKSLASH ==> r + 1 < |t| && t[r + 1] != QUOTE)
    ensures Inside(t, r) == [t[r]] + Inside(t, r + 1)
  {
  }

  lemma InsideBackslash(t: bytes, r: nat)
    requires At(t, r, [BACKSLASH, BACKSLASH]) && r + 2 < |t| && t[r + 2] != QUOTE
    ensures Inside(t, r) == [BACKSLASH, BACKSLASH] + Inside(t, r + 2)
  {
    hide At, Inside;
    AtIndex(t, r, [BACKSLASH, BACKSLASH], 0);
    AtIndex(t, r, [BACKSLASH, BACKSLASH], 1);
    InsideNext(t, r);
    InsideNext(t, r + 1);
    Regroup([BACKSLASH], [BACKSLASH], Inside(t, r + 2));
    assert [BACKSLASH] + [BACKSLASH] == [BACKSLASH, BACKSLASH];
  }

  lemma InsideLetters(t: bytes, r: nat, k: bytes)
    requires At(t, r, k) && |k| > 1 && k[0] == BACKSLASH
    requires forall i :: 1 <= i < |k| ==> k[i] != QUOTE && k[i] != BACKSLASH
    ensures Inside(t, r) == k + Inside(t, r + |k|)
  {
    hide At, Inside;
    AtIndex(t, r, k, 0);
    AtIndex(t, r, k, 1);
    assert [BACKSLASH] + k[1..] == k;
    AtSplit(t, r, [BACKSLASH], k[1..]);
    InsideNext(t, r);
    InsidePlain(t, r + 1, k[1..]);
    Regroup([BACKSLASH], k[1..], Inside(t, r + |k|));
  }

  lemma EscapeStart(s: bytes)
    requires s != []
    ensures EscapeText(s) != [] && EscapeText(s)[0] != QUOTE
  {
  }

  /** The content of a printed string up to its closing quote at e. */
  lemma {:induction false} InsideEscaped(t: bytes, r: nat, s: bytes, e: nat)
    requires At(t, r, EscapeText(s)) && e == r + |EscapeText(s)| < |t| && t[e] == QUOTE
    ensures Inside(t, r) == EscapeText(s) + [QUOTE]
                            + if EndsBackslash(s) then Inside(t, e + 1) else Outside(t, e + 1)
    decreases |s|
  {
    hide At, EscapeByte, Inside, Outside;
    InsideClose(t, e);
    var rest := if EndsBackslash(s) then Inside(t, e + 1) else Outside(t, e + 1);
    if s == [] {
      assert [] + [QUOTE] + rest == [QUOTE] + rest;
    } else {
      var k, u := EscapeByte(s[0]), EscapeText(s[1..]);
      BackslashLength(s[0]);
      AtSplit(t, r, k, u);
      if |s| > 1 {
        EscapeStart(s[1..]);
        AtIndex(t, r + |k|, u, 0);
        InsideEscape(t, r, s[0]);
        InsideEscaped(t, r + |k|, s[1..], e);
        assert k + (u + [QUOTE] + rest) == k + u + [QUOTE] + rest;
      } else if s[0] == BACKSLASH {
        LastBackslash(t, r);
        assert [BACKSLASH, BACKSLASH, QUOTE] + rest == k + u + [QUOTE] + rest;
      } else {
        InsideEscape(t, r, s[0]);
        assert k + ([QUOTE] + rest) == k + u + [QUOTE] + rest;
      }
    }
  }

  lemma InsideClose(t: bytes, e: nat)
    requires e < |t| && t[e] == QUOTE
    ensures Inside(t, e) == [QUOTE] + Outside(t, e + 1)
  {
  }

  lemma BackslashLength(c: byte)
    ensures c == BACKSLASH ==> |EscapeByte(c)| == 2
  {
  }

  lemma InsideHidden(t: bytes, r: nat)
    requires r + 1 < |t| && t[r] == BACKSLASH && t[r + 1] == QUOTE
    ensures Inside(t, r) == [BACKSLASH, QUOTE] + Inside(t, r + 2)
  {
  }

  lemma BackslashPair()
    ensures EscapeByte(BACKSLASH) == [BACKSLASH, BACKSLASH]
  {
  }

  /** The printer's pair of backslashes before the closing quote hides that quote. */
  lemma LastBackslash(t: bytes, r: nat)
    requires At(t, r, EscapeByte(BACKSLASH)) && r + 2 < |t| && t[r + 2] == QUOTE
    ensures EscapeByte(BACKSLASH) == [BACKSLASH, BACKSLASH]
    ensures Inside(t, r) == [BACKSLASH, BACKSLASH, QUOTE] + Inside(t, r + 3)
  {
    hide At, Inside, EscapeByte;
    BackslashPair();
    AtIndex(t, r, [BACKSLASH, BACKSLASH], 0);
    AtIndex(t, r, [BACKSLASH, BACKSLASH], 1);
    InsideNext(t, r);
    InsideHidden(t, r + 1);
    Regroup([BACKSLASH], [BACKSLASH, QUOTE], Inside(t, r + 3));
    assert [BACKSLASH] + [BACKSLASH, QUOTE] == [BACKSLASH, BACKSLASH, QUOTE];
  }

  // ------------------------------------------------------------------- whole values

  /** What follows a text: outside of strings if it was clean, inside of its last one if not. */
  function After(clean: bool, t: bytes, e: nat): bytes {
    if clean then Outside(t, e) else Inside(t, e)
  }

  lemma StringMinified(t: bytes, r: nat, s: bytes)
    requires At(t, r, StringText(s))
    ensures Outside(t, r) == StringText(s) + After(!EndsBackslash(s), t, r + |StringText(s)|)
  {
    hide At, EscapeText, Inside;
    var u := EscapeText(s);
    AtSplit(t, r, [QUOTE] + u, [QUOTE]);
    AtSplit(t, r, [QUOTE], u);
    var e := r + 1 + |u|;
    AtIndex(t, r, [QUOTE], 0);
    AtIndex(t, e, [QUOTE], 0);
    InsideEscaped(t, r + 1, s, e);
    var rest := After(!EndsBackslash(s), t, e + 1);
    assert [QUOTE] + (u + [QUOTE] + rest) == [QUOTE] + u + [QUOTE] + rest;
  }

  lemma IntOrdinary(n: int)
    ensures forall i :: 0 <= i < |IntText(n)| ==> Ordinary(IntText(n)[i])
  {
    DecimalDigits(if n < 0 then -n else n);
  }

  lemma NumberMinified(t: bytes, r: nat, n: int)
    requires At(t, r, IntText(n))
    ensures Outside(t, r) == IntText(n) + Outside(t, r + |IntText(n)|)
  {
    hide At, Outside, IntText;
    IntOrdinary(n);
    CopyBytes(t, r, IntText(n));
  }

  /** Where a container's text in t opens, continues and closes. */
  lemma OpenClose(t: bytes, r: nat, open: byte, inner: bytes, close: byte)
    requires At(t, r, [open] + inner + [close]) && Ordinary(open) && Ordinary(close)
    ensures var e := r + 1 + |inner|;
      && At(t, r + 1, inner) && e < |t| && t[e] == close
      && Outside(t, r) == [open] + Outside(t, r + 1)
      && Outside(t, e) == [close] + Outside(t, e + 1)
      && (close != BACKSLASH ==> Inside(t, e) == [close] + Inside(t, e + 1))
  {
    hide At;
    AtSplit(t, r, [open] + inner, [close]);
    AtSplit(t, r, [open], inner);
    AtIndex(t, r, [open], 0);
    AtIndex(t, r + 1 + |inner|, [close], 0);
  }

  /** Every value is printed with a first byte that no blank can be mistaken for. */
  lemma RenderStart(v: Json, fmt: bool, depth: nat)
    ensures Render(v, fmt, depth) != [] && Render(v, fmt, depth)[0] > 32
  {
    if v.Number? {
      var n := v.d.Floor;
      DecimalDigits(if n < 0 then -n else n);
      assert IsDigit(Decimal(if n < 0 then -n else n)[0]);
    }
  }

  /**
   * A formatted value at r: if it is mild, minifying gives the unformatted value and goes on behind
   * it; if not, the unformatted value is not even a prefix of what minifying gives.
   */
  lemma {:induction false} ValueMinified(t: bytes, r: nat, v: Json, d: nat)
    requires At(t, r, Render(v, true, d))
    ensures Mild(v) ==>
      Outside(t, r) == Render(v, false, d) + After(Clean(v), t, r + |Render(v, true, d)|)
    ensures !Mild(v) ==> !(Render(v, false, d) <= Outside(t, r))
    decreases v, 1
  {
    hide At, Outside, Inside, RenderElems, RenderMembers, MildElems, CleanElems, CleanMembers, StringText, IntText;
    match v
    case Null => CopyBytes(t, r, NULL_TEXT);
    case Bool(b) => CopyBytes(t, r, if b then TRUE_TEXT else FALSE_TEXT);
    case Number(x) => NumberMinified(t, r, x.Floor);
    case String(s) => StringMinified(t, r, s);
    case Array(es) => ArrayMinified(t, r, es, d);
    case Object(ms) => ObjectMinified(t, r, ms, d);
  }

  lemma ArrayMinified(t: bytes, r: nat, es: seq<Json>, d: nat)
    requires At(t, r, Render(Array(es), true, d))
    ensures MildElems(es) ==>
      Outside(t, r) == Render(Array(es), false, d) + After(CleanElems(es), t, r + |Render(Array(es), true, d)|)
    ensures !MildElems(es) ==> !(Render(Array(es), false, d) <= Outside(t, r))
    decreases es, 1
  {
    hide At, RenderElems, Outside, Inside;
    var inner, flat := RenderElems(es, true, d + 1), RenderElems(es, false, d + 1);
    var e := r + 1 + |inner|;
    OpenClose(t, r, LBRACKET, inner, RBRACKET);
    ElemsMinified(t, r + 1, es, d + 1);
    if MildElems(es) {
      var rest := After(CleanElems(es), t, e + 1);
      assert [LBRACKET] + (flat + ([RBRACKET] + rest)) == [LBRACKET] + flat + [RBRACKET] + rest;
    } else {
      PrefixThrough([LBRACKET], flat + [RBRACKET], Outside(t, r + 1));
      assert [LBRACKET] + (flat + [RBRACKET]) == [LBRACKET] + flat + [RBRACKET];
      assert flat <= flat + [RBRACKET];
    }
  }

  lemma {:induction false} ElemsMinified(t: bytes, r: nat, es: seq<Json>, d: nat)
    requires At(t, r, RenderElems(es, true, d))
    ensures MildElems(es) ==>
      Outside(t, r) == RenderElems(es, false, d) + After(CleanElems(es), t, r + |RenderElems(es, true, d)|)
    ensures !MildElems(es) ==> !(RenderElems(es, false, d) <= Outside(t, r))
    decreases es, 0
  {
    hide At, Render, Outside, Inside, RenderElems, MildElems, CleanElems;
    ElemsCases(es, d);
    if |es| == 1 {
      ValueMinified(t, r, es[0], d);
    } else if |es| > 1 {
      var rest := RenderElems(es[1..], true, d);
      var f, u := Render(es[0], true, d), Render(es[0], false, d);
      var ru := RenderElems(es[1..], false, d);
      var p := r + |f|;
      AtSplit(t, r, f + ElemSep(true), rest);
      AtSplit(t, r, f, ElemSep(true));
      ValueMinified(t, r, es[0], d);
      SepMinified(t, p);
      ElemsMinified(t, p + 2, es[1..], d);
      ElemsStart(es[1..], d);
      if !Mild(es[0]) {
        BrokenFirst(u, [COMMA] + ru, Outside(t, r));
      } else if !Clean(es[0]) {
        BrokenBetween(u, [COMMA], ru, [SPACE] + Inside(t, p + 2));
      } else if MildElems(es[1..]) {
        JoinedRest(u, [COMMA], ru, After(CleanElems(es[1..]), t, p + 2 + |rest|));
      } else {
        BrokenRest(u, [COMMA], ru, Outside(t, p + 2));
      }
    }
  }

  lemma ElemsCases(es: seq<Json>, d: nat)
    ensures es == [] ==> RenderElems(es, true, d) == RenderElems(es, false, d) == [] && MildElems(es) && CleanElems(es)
    ensures |es| == 1 ==>
      && RenderElems(es, true, d) == Render(es[0], true, d) && RenderElems(es, false, d) == Render(es[0], false, d)
      && MildElems(es) == Mild(es[0]) && CleanElems(es) == Clean(es[0])
    ensures |es| > 1 ==>
      && RenderElems(es, true, d) == Render(es[0], true, d) + ElemSep(true) + RenderElems(es[1..], true, d)
      && RenderElems(es, false, d) == Render(es[0], false, d) + ([COMMA] + RenderElems(es[1..], false, d))
      && MildElems(es) == (Clean(es[0]) && MildElems(es[1..]))
      && CleanElems(es) == (Clean(es[0]) && CleanElems(es[1..]))
      && (Clean(es[0]) ==> Mild(es[0]))
  {
    hide Render;
    if |es| > 1 {
      Regroup(Render(es[0], false, d), [COMMA], RenderElems(es[1..], false, d));
      if Clean(es[0]) {
        CleanIsMild(es[0]);
      }
    }
  }

  lemma SepMinified(t: bytes, p: nat)
    requires At(t, p, ElemSep(true))
    ensures Outside(t, p) == [COMMA] + Outside(t, p + 2)
    ensures Inside(t, p) == [COMMA] + ([SPACE] + Inside(t, p + 2))
  {
    hide At;
    AtIndex(t, p, ElemSep(true), 0);
    AtIndex(t, p, ElemSep(true), 1);
    assert Inside(t, p + 1) == [SPACE] + Inside(t, p + 2);
    assert Outside(t, p + 1) == Outside(t, p + 2);
  }

  lemma ElemsStart(es: seq<Json>, d: nat)
    requires es != []
    ensures RenderElems(es, false, d) != [] && RenderElems(es, false, d)[0] > 32
  {
    RenderStart(es[0], false, d);
  }

  // ------------------------------------------------------------------------ members

  /** The unformatted text of a member, grouped from the right. */
  function FlatMember(m: Member, d: nat, tail: bytes): bytes {
    StringText(m.key) + ([COLON] + (Render(m.value, false, d) + tail))
  }

  lemma FlatMemberIs(m: Member, d: nat, more: bool, next: bytes)
    ensures RenderMember(m, false, d, more) + next == FlatMember(m, d, When(more, [COMMA]) + next)
  {
    hide StringText, Render;
    var k, u, c := StringText(m.key), Render(m.value, false, d), When(more, [COMMA]);
    assert [] + k + ([COLON] + []) + u + (c + []) + next == k + ([COLON] + (u + (c + next)));
  }

  /** Where the parts of a formatted member stand. */
  lemma MemberAt(t: bytes, r: nat, m: Member, d: nat, more: bool)
    requires At(t, r, RenderMember(m, true, d, more))
    ensures var p0 := r + d; var p1 := p0 + |StringText(m.key)|; var p3 := p1 + 2 + |Render(m.value, true, d)|;
      && At(t, r, Tabs(d)) && At(t, p0, StringText(m.key)) && At(t, p1, KeySep(true))
      && At(t, p1 + 2, Render(m.value, true, d)) && At(t, p3, MemberEnd(true, more))
      && |RenderMember(m, true, d, more)| == p3 + |MemberEnd(true, more)| - r
  {
    hide At, StringText, Render;
    var k, v := StringText(m.key), Render(m.value, true, d);
    AtSplit(t, r, Tabs(d) + k + KeySep(true) + v, MemberEnd(true, more));
    AtSplit(t, r, Tabs(d) + k + KeySep(true), v);
    AtSplit(t, r, Tabs(d) + k, KeySep(true));
    AtSplit(t, r, Tabs(d), k);
  }

  lemma KeySepMinified(t: bytes, p: nat)
    requires At(t, p, KeySep(true))
    ensures Outside(t, p) == [COLON] + Outside(t, p + 2)
    ensures Inside(t, p) == [COLON] + ([TAB] + Inside(t, p + 2))
  {
    hide At, Inside;
    AtIndex(t, p, KeySep(true), 0);
    AtIndex(t, p, KeySep(true), 1);
    InsideNext(t, p);
    InsideNext(t, p + 1);
    assert Outside(t, p + 1) == Outside(t, p + 2);
  }

  lemma MemberEndMinified(t: bytes, p: nat, more: bool)
    requires At(t, p, MemberEnd(true, more))
    ensures var e := p + |MemberEnd(true, more)|;
      && Outside(t, p) == When(more, [COMMA]) + Outside(t, e)
      && Inside(t, p) == When(more, [COMMA]) + ([NL] + Inside(t, e))
  {
    hide At;
    var k := MemberEnd(true, more);
    AtIndex(t, p, k, 0);
    if more {
      AtIndex(t, p, k, 1);
      assert Inside(t, p + 1) == [NL] + Inside(t, p + 2);
      assert Outside(t, p + 1) == Outside(t, p + 2);
    } else {
      assert [] + Outside(t, p + 1) == Outside(t, p + 1);
      assert [] + ([NL] + Inside(t, p + 1)) == [NL] + Inside(t, p + 1);
    }
  }

  predicate CleanMember(m: Member) {
    !EndsBackslash(m.key) && Clean(m.value)
  }

  lemma MemberMinified(t: bytes, r: nat, m: Member, d: nat, more: bool, x: byte)
    requires At(t, r, RenderMember(m, true, d, more)) && x != NL
    ensures CleanMember(m) ==>
      Outside(t, r) == RenderMember(m, false, d, more) + Outside(t, r + |RenderMember(m, true, d, more)|)
    ensures !CleanMember(m) ==> !(RenderMember(m, false, d, more) + [x] <= Outside(t, r))
    decreases m, 0
  {
    hide At, StringText, Render, RenderMember, MemberEnd, Outside, Inside, Clean, Mild, Tabs;
    var c := When(more, [COMMA]);
    var k, u := StringText(m.key), Render(m.value, false, d);
    var e := r + |RenderMember(m, true, d, more)|;
    var p1 := r + d + |k|;
    var p3 := p1 + 2 + |Render(m.value, true, d)|;
    MemberAt(t, r, m, d, more);
    TabsBlank(d);
    DropBlanks(t, r, Tabs(d));
    StringMinified(t, r + d, m.key);
    KeySepMinified(t, p1);
    ValueMinified(t, p1 + 2, m.value, d);
    MemberEndMinified(t, p3, more);
    MildIfClean(m.value);
    FlatMemberIs(m, d, more, [x]);
    FlatMemberIs(m, d, more, Outside(t, e));
    if EndsBackslash(m.key) {
      RenderStart(m.value, false, d);
      BrokenBetween(k, [COLON], u + (c + [x]), [TAB] + Inside(t, p1 + 2));
    } else if !Clean(m.value) {
      if Mild(m.value) {
        BrokenBetween(u, c, [x], [NL] + Inside(t, e));
      } else {
        BrokenFirst(u, c + [x], Outside(t, p1 + 2));
      }
      BrokenRest(k, [COLON], u + (c + [x]), Outside(t, p1 + 2));
    }
  }

  lemma TabsBlank(d: nat)
    ensures forall i :: 0 <= i < |Tabs(d)| ==> IsBlank(Tabs(d)[i])
    ensures |Tabs(d)| == d
  {
  }

  lemma MildIfClean(v: Json)
    ensures Clean(v) ==> Mild(v)
  {
    if Clean(v) {
      CleanIsMild(v);
    }
  }

  lemma MembersCases(ms: seq<Member>, fmt: bool, d: nat)
    ensures ms == [] ==> RenderMembers(ms, fmt, d) == [] && CleanMembers(ms)
    ensures ms != [] ==>
      && RenderMembers(ms, fmt, d) == RenderMember(ms[0], fmt, d, |ms| > 1) + RenderMembers(ms[1..], fmt, d)
      && CleanMembers(ms) == (CleanMember(ms[0]) && CleanMembers(ms[1..]))
      && (!fmt ==> RenderMembers(ms, fmt, d) != [] && RenderMembers(ms, fmt, d)[0] == QUOTE)
  {
    hide Render;
  }

  lemma {:induction false} MembersMinified(t: bytes, r: nat, ms: seq<Member>, d: nat)
    requires At(t, r, RenderMembers(ms, true, d))
    ensures CleanMembers(ms) ==>
      Outside(t, r) == RenderMembers(ms, false, d) + Outside(t, r + |RenderMembers(ms, true, d)|)
    ensures !CleanMembers(ms) ==> !(RenderMembers(ms, false, d) + [RBRACE] <= Outside(t, r))
    decreases ms, 1
  {
    hide At, RenderMember, RenderMembers, Outside, CleanMember, CleanMembers;
    MembersCases(ms, true, d);
    MembersCases(ms, false, d);
    if ms != [] {
      var more, rest := |ms| > 1, ms[1..];
      var f, u := RenderMember(ms[0], true, d, more), RenderMember(ms[0], false, d, more);
      var ru := RenderMembers(rest, false, d) + [RBRACE];
      MembersCases(rest, false, d);
      AtSplit(t, r, f, RenderMembers(rest, true, d));
      MemberMinified(t, r, ms[0], d, more, ru[0]);
      MembersMinified(t, r + |f|, rest, d);
      assert u + RenderMembers(rest, false, d) + [RBRACE] == u + ru;
      if !CleanMember(ms[0]) {
        assert u + ru == u + [ru[0]] + ru[1..];
        BrokenFirst(u + [ru[0]], ru[1..], Outside(t, r));
      } else if CleanMembers(rest) {
        Regroup(u, RenderMembers(rest, false, d), Outside(t, r + |f| + |RenderMembers(rest, true, d)|));
      } else {
        PrefixThrough(u, ru, Outside(t, r + |f|));
      }
    } else {
      assert [] + Outside(t, r) == Outside(t, r);
    }
  }

  lemma ObjectTexts(ms: seq<Member>, d: nat)
    ensures Render(Object(ms), true, d) == [LBRACE] + ([NL] + RenderMembers(ms, true, d + 1) + Tabs(d)) + [RBRACE]
    ensures Render(Object(ms), false, d) == [LBRACE] + (RenderMembers(ms, false, d + 1) + [RBRACE])
  {
    hide RenderMembers, Tabs;
  }

  lemma ObjectMinified(t: bytes, r: nat, ms: seq<Member>, d: nat)
    requires At(t, r, Render(Object(ms), true, d))
    ensures CleanMembers(ms) ==>
      Outside(t, r) == Render(Object(ms), false, d) + Outside(t, r + |Render(Object(ms), true, d)|)
    ensures !CleanMembers(ms) ==> !(Render(Object(ms), false, d) <= Outside(t, r))
    decreases ms, 2
  {
    hide At, Render, RenderMembers, Outside, Inside, CleanMembers, Tabs;
    var body, flat := RenderMembers(ms, true, d + 1), RenderMembers(ms, false, d + 1);
    var inner := [NL] + body + Tabs(d);
    ObjectTexts(ms, d);
    OpenClose(t, r, LBRACE, inner, RBRACE);
    AtSplit(t, r + 1, [NL] + body, Tabs(d));
    AtSplit(t, r + 1, [NL], body);
    DropBlanks(t, r + 1, [NL]);
    TabsBlank(d);
    DropBlanks(t, r + 2 + |body|, Tabs(d));
    MembersMinified(t, r + 2, ms, d + 1);
    var e := r + 1 + |inner|;
    if CleanMembers(ms) {
      JoinedRest([LBRACE], flat, [RBRACE], Outside(t, e + 1));
    } else {
      PrefixThrough([LBRACE], flat + [RBRACE], Outside(t, r + 1));
    }
  }

  /**
   * Minifying a formatted print gives the unformatted print, if and only if no name and no string
   * ends in a backslash, save for a last string that only arrays enclose.
   */
  lemma MinifyFormatted(v: Json)
    ensures Minified(Render(v, true, 0)) == Render(v, false, 0) <==> Mild(v)
  {
    hide Render, Mild, Clean;
    var t := Render(v, true, 0);
    assert At(t, 0, t) by {
      assert t[0..|t|] == t;
    }
    ValueMinified(t, 0, v, 0);
    AtEnd(t, |t|);
    assert Render(v, false, 0) + [] == Render(v, false, 0);
  }

  /** ["\\", null]: the hidden quote keeps the blank behind the comma. */
  lemma MinifyMisses()
    ensures var v := Array([String([BACKSLASH]), Null]); Minified(Render(v, true, 0)) != Render(v, false, 0)
  {
    var v := Array([String([BACKSLASH]), Null]);
    MinifyFormatted(v);
    assert !Clean(v.elems[0]);
  }
}
