/** The two passes of parse_string: scan for the closing quote, then decode the escapes. */
module JsonString {
  import opened Bytes

  const LOWER_U: byte := 117

  // ---------------------------------------------------------------- scan pass

  datatype Scanned = Closed(end: nat, skipped: nat) | Unclosed

  /** Where the literal whose content starts at p closes, and how many escapes the scan stepped over. */
  function Scan(c: bytes, p: nat): (r: Scanned)
    ensures r.Closed? ==> p <= r.end < |c| && c[r.end] == QUOTE
    decreases |c| - p
  {
    if p >= |c| then Unclosed
    else if c[p] == QUOTE then Closed(p, 0)
    else if c[p] == BACKSLASH then
      if p + 1 >= |c| then Unclosed
      else match Scan(c, p + 2) { case Closed(e, k) => Closed(e, k + 1) case Unclosed => Unclosed }
    else Scan(c, p + 1)
  }

  // -------------------------------------------------------------- hexadecimal

  function HexValue(b: byte): (k: int)
    ensures -1 <= k < 16
  {
    if 48 <= b <= 57 then b - 48
    else if 65 <= b <= 70 then b - 55
    else if 97 <= b <= 102 then b - 87
    else -1
  }

  predicate IsHex4(c: bytes, i: nat)
    requires i + 4 <= |c|
  {
    forall k :: i <= k < i + 4 ==> HexValue(c[k]) >= 0
  }

  /** parse_hex4: the value of four digits, and 0 when one of them is no digit. */
  function Hex4(c: bytes, i: nat): (h: nat)
    requires i + 4 <= |c|
    ensures h < 0x10000
  {
    if IsHex4(c, i) then
      HexValue(c[i]) * 4096 + HexValue(c[i + 1]) * 256 + HexValue(c[i + 2]) * 16 + HexValue(c[i + 3])
    else 0
  }

  // ------------------------------------------------------------------- UTF-8

  /** Section 3 of RFC 3629. */
  function Utf8(cp: nat): (t: bytes)
    requires cp <= 0x10FFFF
    ensures 1 <= |t| <= 4
    ensures cp < 0x10000 ==> |t| <= 3
  {
    if cp < 0x80 then [cp]
    else if cp < 0x800 then [0xC0 + cp / 64, 0x80 + cp % 64]
    else if cp < 0x10000 then [0xE0 + cp / 4096, 0x80 + cp / 64 % 64, 0x80 + cp % 64]
    else [0xF0 + cp / 262144, 0x80 + cp / 4096 % 64, 0x80 + cp / 64 % 64, 0x80 + cp % 64]
  }

  // ------------------------------------------------------------- decode pass

  datatype Utf16 = CodePoint(cp: nat, length: nat) | BadLiteral

  /** The code point of a surrogate pair, from the low ten bits of each half. */
  function SurrogateCode(first: nat, second: nat): (cp: nat)
    ensures 0x10000 <= cp <= 0x10FFFF
  {
    0x10000 + first % 0x400 * 0x400 + second % 0x400
  }

  /** utf16_literal_to_utf8: the code point of one or two \uXXXX sequences at p, before end. */
  function Utf16Literal(c: bytes, p: nat, end: nat): (r: Utf16)
    requires p < end < |c|
    ensures r.CodePoint? ==> r.cp <= 0x10FFFF && p + r.length <= end
    ensures r.CodePoint? ==> r.length == if r.cp < 0x10000 then 6 else 12
  {
    if end - p < 6 then BadLiteral
    else
      var first := Hex4(c, p + 2);
      if 0xDC00 <= first <= 0xDFFF then BadLiteral
      else if 0xD800 <= first <= 0xDBFF then
        if end - (p + 6) < 6 || c[p + 6] != BACKSLASH || c[p + 7] != LOWER_U then BadLiteral
        else
          var second := Hex4(c, p + 8);
          if second < 0xDC00 || second > 0xDFFF then BadLiteral
          else CodePoint(SurrogateCode(first, second), 12)
      else CodePoint(first, 6)
  }

  /** The byte a two-character escape stands for, -1 when the letter is none of them. */
  function ShortEscape(b: byte): (r: int)
    ensures -1 <= r < 128
  {
    if b == QUOTE || b == BACKSLASH || b == SLASH then b
    else if b == 98 then 8
    else if b == 102 then 12
    else if b == 110 then NL
    else if b == 114 then CR
    else if b == 116 then TAB
    else -1
  }

  /** One turn of the decode loop: the bytes written and the input consumed. */
  datatype Piece = Piece(out: bytes, length: nat) | BadPiece

  function Next(c: bytes, p: nat, end: nat): (r: Piece)
    requires p < end < |c|
    ensures r.Piece? ==> 1 <= r.length <= 12 && p + r.length <= end + 1
    ensures r.Piece? ==> 1 <= |r.out| <= 4
    ensures r.Piece? && c[p] != BACKSLASH ==> r.length == 1 && |r.out| == 1
    ensures r.Piece? && c[p] == BACKSLASH ==>
      (r.length == 2 && |r.out| == 1) || (r.length == 6 && |r.out| <= 3) || r.length == 12
    ensures r.Piece? && r.length > 2 ==> p + r.length <= end
  {
    if c[p] != BACKSLASH then Piece([c[p]], 1)
    else if c[p + 1] == LOWER_U then
      match Utf16Literal(c, p, end)
      case CodePoint(cp, n) => Piece(Utf8(cp), n)
      case BadLiteral => BadPiece
    else if ShortEscape(c[p + 1]) < 0 then BadPiece
    else Piece([ShortEscape(c[p + 1])], 2)
  }

  datatype Decoded = Decoded(out: bytes, stop: nat) | Undecodable(at: nat)

  /** The decode loop from p: everything it writes and where it stops or fails. */
  function Decode(c: bytes, p: nat, end: nat): (r: Decoded)
    requires end < |c|
    ensures r.Decoded? ==> r.stop >= p
    decreases end - p
  {
    if p >= end then Decoded([], p)
    else
      match Next(c, p, end)
      case BadPiece => Undecodable(p)
      case Piece(out, n) => Prepend(out, Decode(c, p + n, end))
  }

  function Prepend(out: bytes, r: Decoded): Decoded {
    match r
    case Decoded(rest, stop) => Decoded(out + rest, stop)
    case Undecodable(at) => r
  }

  lemma PrependTwice(a: bytes, b: bytes, r: Decoded)
    ensures Prepend(a, Prepend(b, r)) == Prepend(a + b, r)
  {
    if r.Decoded? {
      assert a + (b + r.out) == a + b + r.out;
    }
  }

  // ------------------------------------------- the size estimate of the scan

  /** How far the scan has left to go from a boundary q: it closes at end after k more escapes. */
  predicate Left(c: bytes, q: nat, end: nat, k: nat) {
    Scan(c, q) == Closed(end, k)
  }

  /** The decode cursor p is a boundary of the scan, or the second half of an escape of the scan. */
  ghost predicate InStep(c: bytes, p: nat, q: nat, end: nat, k: nat) {
    (q == p || q == p + 1) && Left(c, q, end, k)
  }

  /**
   * However far the decode cursor jumps inside the literal, a scan boundary is at most one byte
   * further, and every two bytes jumped over hold at most one escape.
   */
  lemma {:induction false} Jump(c: bytes, q: nat, end: nat, k: nat, t: nat) returns (q': nat, k': nat)
    requires Left(c, q, end, k) && q <= t <= end
    ensures InStep(c, t, q', end, k')
    ensures k' <= k && 2 * (k - k') <= q' - q
    decreases t - q
  {
    if q == t {
      q', k' := q, k;
    } else if c[q] == BACKSLASH {
      if q + 1 == t {
        q', k' := q + 2, k - 1;
      } else {
        q', k' := Jump(c, q + 2, end, k - 1, t);
      }
    } else {
      q', k' := Jump(c, q + 1, end, k, t);
    }
  }

  /** One turn of the decode loop never writes more than the scan has set aside for it. */
  lemma {:induction false} PieceFits(c: bytes, p: nat, q: nat, end: nat, k: nat) returns (q': nat, k': nat)
    requires p < end < |c| && InStep(c, p, q, end, k)
    requires Next(c, p, end).Piece?
    ensures var n := Next(c, p, end).length;
      if p + n <= end then InStep(c, p + n, q', end, k') && |Next(c, p, end).out| + k <= n + k'
      else p + n == end + 1 && k == k' == 0 && |Next(c, p, end).out| == 1
  {
    var n := Next(c, p, end).length;
    if n == 1 {
      q', k' := p + 1, k;
    } else if p + n <= end {
      q', k' := Jump(c, q, end, k, p + n);
    } else {
      q', k' := q, 0;
    }
  }

  /**
   * The allocation of the scan pass is enough for every literal that scans, well formed or not:
   * the bytes decoded fit in the content length minus the escapes, and the decode cursor ends on
   * the closing quote or one past it.
   */
  lemma {:induction false} DecodeFits(c: bytes, p: nat, q: nat, end: nat, k: nat)
    requires end < |c| && p <= end && InStep(c, p, q, end, k)
    ensures Decode(c, p, end).Decoded? ==>
      |Decode(c, p, end).out| + k <= end - p && Decode(c, p, end).stop <= end + 1
    decreases end - p
  {
    if p < end && Next(c, p, end).Piece? {
      var q', k' := PieceFits(c, p, q, end, k);
      var n := Next(c, p, end).length;
      if p + n <= end {
        DecodeFits(c, p + n, q', end, k');
      }
    }
  }
}
