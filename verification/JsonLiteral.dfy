/** String literals with the escapes of section 7 of RFC 8259, and what the two passes make of them. */
module JsonLiteral {
  import opened Bytes
  import opened JsonText
  import opened JsonString

  /** One character of a literal: itself, a two-character escape, \uXXXX or a surrogate pair. */
  datatype Unit =
    | Plain(b: byte)
    | Short(b: byte)
    | Code(h: bytes)
    | Pair(hi: bytes, lo: bytes)

  predicate HexIn(h: bytes, lo: nat, hi: nat) {
    |h| == 4 && IsHex4(h, 0) && lo <= Hex4(h, 0) <= hi
  }

  predicate UnitOk(u: Unit) {
    match u
    case Plain(b) => b != QUOTE && b != BACKSLASH
    case Short(b) => ShortEscape(b) >= 0
    case Code(h) => HexIn(h, 0, 0xD7FF) || HexIn(h, 0xE000, 0xFFFF)
    case Pair(hi, lo) => HexIn(hi, 0xD800, 0xDBFF) && HexIn(lo, 0xDC00, 0xDFFF)
  }

  predicate LiteralOk(us: seq<Unit>) {
    forall i :: 0 <= i < |us| ==> UnitOk(us[i])
  }

  const U_ESCAPE: bytes := [BACKSLASH, LOWER_U]

  function UnitText(u: Unit): bytes {
    match u
    case Plain(b) => [b]
    case Short(b) => [BACKSLASH, b]
    case Code(h) => U_ESCAPE + h
    case Pair(hi, lo) => U_ESCAPE + hi + U_ESCAPE + lo
  }

  /** The code point a surrogate pair stands for. */
  function PairCode(hi: nat, lo: nat): (cp: nat)
    requires 0xD800 <= hi <= 0xDBFF && 0xDC00 <= lo <= 0xDFFF
    ensures cp <= 0x10FFFF
  {
    0x10000 + (hi - 0xD800) * 0x400 + (lo - 0xDC00)
  }

  /** The bytes a unit names: itself, or the UTF-8 form of its code point. */
  function UnitValue(u: Unit): bytes
    requires UnitOk(u)
  {
    match u
    case Plain(b) => [b]
    case Short(b) => [ShortEscape(b)]
    case Code(h) => Utf8(Hex4(h, 0))
    case Pair(hi, lo) => Utf8(PairCode(Hex4(hi, 0), Hex4(lo, 0)))
  }

  function LiteralText(us: seq<Unit>): bytes {
    if us == [] then [] else UnitText(us[0]) + LiteralText(us[1..])
  }

  function LiteralValue(us: seq<Unit>): bytes
    requires LiteralOk(us)
  {
    if us == [] then [] else UnitValue(us[0]) + LiteralValue(us[1..])
  }

  // ------------------------------------------------------------- UTF-8 inverse

  /** The code point a UTF-8 sequence spells, by the table of section 3 of RFC 3629. */
  function Utf8Value(t: seq<int>): int {
    if |t| == 1 then t[0]
    else if |t| == 2 then (t[0] - 0xC0) * 64 + (t[1] - 0x80)
    else if |t| == 3 then (t[0] - 0xE0) * 4096 + (t[1] - 0x80) * 64 + (t[2] - 0x80)
    else if |t| == 4 then (t[0] - 0xF0) * 262144 + (t[1] - 0x80) * 4096 + (t[2] - 0x80) * 64 + (t[3] - 0x80)
    else -1
  }

  /** Every code point keeps its value, its continuation bytes are 10xxxxxx, and NUL alone yields 0. */
  lemma Utf8Faithful(cp: nat)
    requires cp <= 0x10FFFF
    ensures Utf8Value(Utf8(cp)) == cp
    ensures forall i :: 1 <= i < |Utf8(cp)| ==> 0x80 <= Utf8(cp)[i] < 0xC0
    ensures 0 in Utf8(cp) <==> cp == 0
  {
    if cp >= 0x10000 {
      assert cp / 4096 == cp / 64 / 64 && cp / 262144 == cp / 4096 / 64;
    } else if cp >= 0x800 {
      assert cp / 4096 == cp / 64 / 64;
    }
  }

  // ------------------------------------------------------------ the scan pass

  function UnitEscapes(u: Unit): nat {
    match u
    case Plain(_) => 0
    case Short(_) => 1
    case Code(_) => 1
    case Pair(_, _) => 2
  }

  /** The escapes of a literal; a surrogate pair is two. */
  function Escapes(us: seq<Unit>): nat {
    if us == [] then 0 else UnitEscapes(us[0]) + Escapes(us[1..])
  }

  function Counting(s: Scanned, k: nat): Scanned {
    match s
    case Closed(end, n) => Closed(end, n + k)
    case Unclosed => Unclosed
  }

  lemma {:induction false} ScanPlain(c: bytes, p: nat, n: nat)
    requires p + n <= |c|
    requires forall i :: p <= i < p + n ==> c[i] != QUOTE && c[i] != BACKSLASH
    ensures Scan(c, p) == Scan(c, p + n)
    decreases n
  {
    if n > 0 {
      ScanPlain(c, p + 1, n - 1);
    }
  }

  lemma ScanCode(c: bytes, p: nat, h: bytes)
    requires At(c, p, U_ESCAPE + h) && |h| == 4 && IsHex4(h, 0)
    ensures p + 6 <= |c|
    ensures Scan(c, p) == Counting(Scan(c, p + 6), 1)
  {
    AtSplit(c, p, U_ESCAPE, h);
    AtIndex(c, p, U_ESCAPE, 0);
    forall i | p + 2 <= i < p + 6
      ensures c[i] != QUOTE && c[i] != BACKSLASH
    {
      AtIndex(c, p + 2, h, i - p - 2);
    }
    ScanPlain(c, p + 2, 4);
  }

  lemma ScanUnit(c: bytes, p: nat, u: Unit)
    requires UnitOk(u) && At(c, p, UnitText(u))
    ensures Scan(c, p) == Counting(Scan(c, p + |UnitText(u)|), UnitEscapes(u))
  {
    match u
    case Plain(b) => AtIndex(c, p, UnitText(u), 0);
    case Short(b) =>
      AtIndex(c, p, UnitText(u), 0);
    case Code(h) => ScanCode(c, p, h);
    case Pair(hi, lo) =>
      assert UnitText(u) == (U_ESCAPE + hi) + (U_ESCAPE + lo);
      AtSplit(c, p, U_ESCAPE + hi, U_ESCAPE + lo);
      ScanCode(c, p, hi);
      ScanCode(c, p + 6, lo);
  }

  lemma ScanClosed(c: bytes, p: nat)
    requires p < |c| && c[p] == QUOTE
    ensures Scan(c, p) == Closed(p, 0)
  {
  }

  /** The first pass finds the closing quote of a well-formed literal and counts its backslashes that escape. */
  lemma {:induction false} ScanLiteral(c: bytes, p: nat, us: seq<Unit>, end: nat)
    requires LiteralOk(us) && At(c, p, LiteralText(us))
    requires end == p + |LiteralText(us)| && end < |c| && c[end] == QUOTE
    ensures Scan(c, p) == Closed(end, Escapes(us))
    decreases |us|
  {
    hide Scan, UnitOk, UnitText, UnitEscapes, At;
    if us == [] {
      ScanClosed(c, p);
    } else {
      var u := us[0];
      assert UnitOk(u);
      AtSplit(c, p, UnitText(u), LiteralText(us[1..]));
      ScanLiteral(c, p + |UnitText(u)|, us[1..], end);
      ScanUnit(c, p, u);
    }
  }

  // ---------------------------------------------------------- the decode pass

  lemma HexAt(c: bytes, p: nat, h: bytes)
    requires At(c, p, h) && |h| == 4 && IsHex4(h, 0)
    ensures p + 4 <= |c| && Hex4(c, p) == Hex4(h, 0)
  {
    forall i | 0 <= i < 4
      ensures c[p + i] == h[i]
    {
      AtIndex(c, p, h, i);
    }
    assert IsHex4(c, p) by {
      forall k | p <= k < p + 4
        ensures HexValue(c[k]) >= 0
      {
        assert c[k] == h[k - p];
      }
    }
    assert c[p] == c[p + 0] == h[0];
  }

  lemma CodeAt(c: bytes, p: nat, h: bytes)
    requires At(c, p, U_ESCAPE + h) && |h| == 4 && IsHex4(h, 0)
    ensures p + 6 <= |c| && c[p] == BACKSLASH && c[p + 1] == LOWER_U && Hex4(c, p + 2) == Hex4(h, 0)
  {
    AtSplit(c, p, U_ESCAPE, h);
    AtIndex(c, p, U_ESCAPE, 0);
    AtIndex(c, p, U_ESCAPE, 1);
    HexAt(c, p + 2, h);
  }

  lemma PairCodeBits(hi: bytes, lo: bytes)
    requires UnitOk(Pair(hi, lo))
    ensures SurrogateCode(Hex4(hi, 0), Hex4(lo, 0)) == PairCode(Hex4(hi, 0), Hex4(lo, 0))
  {
    assert Hex4(hi, 0) / 0x400 == 54;
    assert Hex4(lo, 0) / 0x400 == 55;
  }

  lemma CodeReads(c: bytes, p: nat, end: nat, h: bytes)
    requires UnitOk(Code(h)) && At(c, p, U_ESCAPE + h) && p + 6 <= end < |c|
    ensures c[p] == BACKSLASH && c[p + 1] == LOWER_U
    ensures Utf16Literal(c, p, end) == CodePoint(Hex4(h, 0), 6)
  {
    CodeAt(c, p, h);
  }

  lemma PairReads(c: bytes, p: nat, end: nat, hi: bytes, lo: bytes)
    requires UnitOk(Pair(hi, lo)) && p + 12 <= end < |c|
    requires At(c, p, U_ESCAPE + hi) && At(c, p + 6, U_ESCAPE + lo)
    ensures c[p] == BACKSLASH && c[p + 1] == LOWER_U
    ensures Utf16Literal(c, p, end) == CodePoint(PairCode(Hex4(hi, 0), Hex4(lo, 0)), 12)
  {
    CodeAt(c, p, hi);
    CodeAt(c, p + 6, lo);
    PairCodeBits(hi, lo);
  }

  lemma NextUnit(c: bytes, p: nat, end: nat, u: Unit)
    requires UnitOk(u) && At(c, p, UnitText(u)) && p + |UnitText(u)| <= end < |c|
    ensures Next(c, p, end) == Piece(UnitValue(u), |UnitText(u)|)
  {
    hide At, Hex4, Utf8, Utf16Literal;
    match u
    case Plain(b) => AtIndex(c, p, UnitText(u), 0);
    case Short(b) =>
      AtIndex(c, p, UnitText(u), 0);
      AtIndex(c, p, UnitText(u), 1);
    case Code(h) => CodeReads(c, p, end, h);
    case Pair(hi, lo) =>
      assert UnitText(u) == (U_ESCAPE + hi) + (U_ESCAPE + lo);
      AtSplit(c, p, U_ESCAPE + hi, U_ESCAPE + lo);
      PairReads(c, p, end, hi, lo);
  }

  /** A well-formed literal decodes to the concatenated UTF-8 of the characters it names. */
  lemma {:induction false} DecodeLiteral(c: bytes, p: nat, us: seq<Unit>, end: nat)
    requires LiteralOk(us) && At(c, p, LiteralText(us))
    requires end == p + |LiteralText(us)| && end < |c|
    ensures Decode(c, p, end) == Decoded(LiteralValue(us), end)
    decreases |us|
  {
    hide Next, UnitText, UnitValue, At;
    if us != [] {
      assert UnitOk(us[0]);
      AtSplit(c, p, UnitText(us[0]), LiteralText(us[1..]));
      NextUnit(c, p, end, us[0]);
      DecodeLiteral(c, p + |UnitText(us[0])|, us[1..], end);
    }
  }

  // ----------------------------------------------------- the printer's literals

  function EscapeUnit(c: byte): Unit {
    if c == QUOTE || c == BACKSLASH then Short(c)
    else if c == 8 then Short(98)
    else if c == 12 then Short(102)
    else if c == NL then Short(110)
    else if c == CR then Short(114)
    else if c == TAB then Short(116)
    else if c < 32 then Code([48, 48, DigitText(c / 16), DigitText(c % 16)])
    else Plain(c)
  }

  function EscapeUnits(s: bytes): (us: seq<Unit>)
    ensures |us| == |s|
  {
    if s == [] then [] else [EscapeUnit(s[0])] + EscapeUnits(s[1..])
  }

  lemma EscapeUnitFaithful(c: byte)
    ensures UnitOk(EscapeUnit(c))
    ensures UnitText(EscapeUnit(c)) == EscapeByte(c)
    ensures UnitValue(EscapeUnit(c)) == [c]
  {
    var h: bytes := [48, 48, DigitText(c / 16), DigitText(c % 16)];
    if EscapeUnit(c) == Code(h) {
      assert HexValue(h[0]) == 0 && HexValue(h[1]) == 0 && HexValue(h[2]) == c / 16 && HexValue(h[3]) == c % 16;
      assert IsHex4(h, 0);
      assert Hex4(h, 0) == c;
    }
  }

  /** The text printed for a byte string is a well-formed literal that names exactly that string. */
  lemma {:induction false} EscapeFaithful(s: bytes)
    ensures LiteralOk(EscapeUnits(s))
    ensures LiteralText(EscapeUnits(s)) == EscapeText(s)
    ensures LiteralValue(EscapeUnits(s)) == s
  {
    if s != [] {
      EscapeUnitFaithful(s[0]);
      EscapeFaithful(s[1..]);
      var us := EscapeUnits(s);
      assert us[1..] == EscapeUnits(s[1..]);
      assert LiteralOk(us) by {
        forall i | 0 <= i < |us|
          ensures UnitOk(us[i])
        {
          if i > 0 {
            assert us[i] == us[1..][i - 1];
          }
        }
      }
      assert [s[0]] + s[1..] == s;
    }
  }
}
