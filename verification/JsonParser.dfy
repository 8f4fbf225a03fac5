/** The parser as it runs: a cursor over the input, a depth counter and loops. */
module JsonParser {
  import opened Bytes
  import opened Json
  import opened JsonNumber
  import opened JsonString
  import opened JsonParse

  // ------------------------------------------------------------- string literals

  method ParseHex4(c: bytes, i: nat) returns (h: nat)
    requires i + 4 <= |c|
    ensures h == Hex4(c, i)
  {
    h := 0;
    for k := 0 to 4
      invariant forall j :: i <= j < i + k ==> HexValue(c[j]) >= 0
      invariant k == 0 ==> h == 0
      invariant k == 1 ==> h == HexValue(c[i]) * 16
      invariant k == 2 ==> h == (HexValue(c[i]) * 16 + HexValue(c[i + 1])) * 16
      invariant k == 3 ==> h == ((HexValue(c[i]) * 16 + HexValue(c[i + 1])) * 16 + HexValue(c[i + 2])) * 16
      invariant k == 4 ==> h == Hex4(c, i)
    {
      var b := c[i + k];
      if 48 <= b <= 57 {
        h := h + (b - 48);
      } else if 65 <= b <= 70 {
        h := h + (10 + b - 65);
      } else if 97 <= b <= 102 {
        h := h + (10 + b - 97);
      } else {
        return 0;
      }
      if k < 3 {
        h := h * 16;
      }
    }
  }

  /** Six-bit groups of a code point above its lowest k groups. */
  function Shifted(cp: nat, k: nat): nat {
    if k == 0 then cp else Shifted(cp, k - 1) / 64
  }

  function Utf8Length(cp: nat): nat {
    if cp < 0x80 then 1 else if cp < 0x800 then 2 else if cp < 0x10000 then 3 else 4
  }

  function FirstMark(n: nat): nat {
    if n == 1 then 0 else if n == 2 then 0xC0 else if n == 3 then 0xE0 else 0xF0
  }

  lemma Utf8Groups(cp: nat)
    requires cp <= 0x10FFFF
    ensures var t := Utf8(cp); var n := |t|;
      && n == Utf8Length(cp)
      && (forall i :: 1 <= i < n ==> t[i] == 0x80 + Shifted(cp, n - 1 - i) % 64)
      && t[0] == FirstMark(n) + Shifted(cp, n - 1)
  {
    assert Shifted(cp, 1) == cp / 64;
    assert Shifted(cp, 2) == cp / 64 / 64 == cp / 4096;
    assert Shifted(cp, 3) == cp / 4096 / 64 == cp / 262144;
  }

  lemma Behind(b: bytes, was: bytes, t: bytes)
    requires |b| == |was| + |t| && b[..|was|] == was && forall j :: 0 <= j < |t| ==> b[|was| + j] == t[j]
    ensures b == was + t
  {
    assert b == b[..|was|] + b[|was|..];
    assert b[|was|..] == t;
  }

  /** The encoding loop, from the last byte to the first. */
  method EncodeUtf8(cp: nat, output: array<byte>, pos: nat) returns (next: nat)
    requires cp <= 0x10FFFF && pos + |Utf8(cp)| <= output.Length
    modifies output
    ensures next == pos + |Utf8(cp)|
    ensures output[..next] == old(output[..pos]) + Utf8(cp)
  {
    hide Utf8;
    ghost var t := Utf8(cp);
    Utf8Groups(cp);
    var length, mark := 4, 0xF0;
    if cp < 0x80 {
      length, mark := 1, 0;
    } else if cp < 0x800 {
      length, mark := 2, 0xC0;
    } else if cp < 0x10000 {
      length, mark := 3, 0xE0;
    }
    var code := cp;
    var i := length - 1;
    while i > 0
      invariant 0 <= i < length && code == Shifted(cp, length - 1 - i)
      invariant forall j :: i < j < length ==> output[pos + j] == t[j]
      invariant output[..pos] == old(output[..pos])
    {
      output[pos + i] := 0x80 + code % 64;
      code := code / 64;
      i := i - 1;
    }
    output[pos] := mark + code;
    next := pos + length;
    Behind(output[..next], output[..pos], t);
  }

  /** The bytes a literal at p adds to the output; none when it is malformed. */
  function LiteralBytes(c: bytes, p: nat, end: nat): bytes
    requires p < end < |c|
  {
    match Utf16Literal(c, p, end)
    case CodePoint(cp, _) => Utf8(cp)
    case BadLiteral => []
  }

  /** Converts \\uXXXX or a surrogate pair at p, appends its UTF-8 at pos; length 0 means malformed. */
  method Utf16LiteralToUtf8(c: bytes, p: nat, end: nat, output: array<byte>, pos: nat)
    returns (length: nat, next: nat)
    requires p < end < |c| && pos + |LiteralBytes(c, p, end)| <= output.Length
    modifies output
    ensures next == pos + |LiteralBytes(c, p, end)|
    ensures length == match Utf16Literal(c, p, end) { case CodePoint(_, n) => n case BadLiteral => 0 }
    ensures output[..next] == old(output[..pos]) + LiteralBytes(c, p, end)
  {
    hide Utf8, Hex4;
    length, next := 0, pos;
    if end - p < 6 {
      return;
    }
    var first := ParseHex4(c, p + 2);
    if 0xDC00 <= first <= 0xDFFF {
      return;
    }
    var cp, n := first, 6;
    if 0xD800 <= first <= 0xDBFF {
      if end - (p + 6) < 6 || c[p + 6] != BACKSLASH || c[p + 7] != LOWER_U {
        return;
      }
      var second := ParseHex4(c, p + 8);
      if second < 0xDC00 || second > 0xDFFF {
        return;
      }
      cp, n := SurrogateCode(first, second), 12;
    }
    assert Utf16Literal(c, p, end) == CodePoint(cp, n);
    next := EncodeUtf8(cp, output, pos);
    length := n;
  }

  /** The scan loop: the closing quote and the number of escapes stepped over. */
  method ScanString(c: bytes, start: nat) returns (r: Scanned)
    requires start <= |c|
    ensures r == Scan(c, start)
  {
    var end, skipped := start, 0;
    while end < |c| && c[end] != QUOTE
      invariant start <= end <= |c|
      invariant Scan(c, start) == match Scan(c, end)
                                  case Closed(e, k) => Closed(e, k + skipped)
                                  case Unclosed => Unclosed
      decreases |c| - end
    {
      if c[end] == BACKSLASH {
        if end + 1 >= |c| {
          return Unclosed;
        }
        skipped := skipped + 1;
        end := end + 1;
      }
      end := end + 1;
    }
    if end >= |c| {
      return Unclosed;
    }
    return Closed(end, skipped);
  }

  function PieceBytes(c: bytes, p: nat, end: nat): bytes
    requires p < end < |c|
  {
    match Next(c, p, end)
    case Piece(out, _) => out
    case BadPiece => []
  }

  /** One turn of the decode loop; length 0 means that it fails. */
  method DecodeNext(c: bytes, p: nat, end: nat, output: array<byte>, pos: nat) returns (length: nat, next: nat)
    requires p < end < |c| && pos + |PieceBytes(c, p, end)| <= output.Length
    modifies output
    ensures next == pos + |PieceBytes(c, p, end)|
    ensures length == match Next(c, p, end) { case Piece(_, n) => n case BadPiece => 0 }
    ensures output[..next] == old(output[..pos]) + PieceBytes(c, p, end)
  {
    hide Utf8, Utf16Literal;
    if c[p] != BACKSLASH {
      output[pos] := c[p];
      length, next := 1, pos + 1;
    } else if c[p + 1] == LOWER_U {
      length, next := Utf16LiteralToUtf8(c, p, end, output, pos);
    } else {
      var b := ShortEscape(c[p + 1]);
      if b < 0 {
        return 0, pos;
      }
      output[pos] := b;
      length, next := 2, pos + 1;
    }
  }

  /**
   * The decode loop, writing into an array of exactly the size the scan pass allocates. Every write
   * is inside that array, also when malformed escapes bring the two passes out of step.
   */
  method DecodeString(c: bytes, start: nat, end: nat, skipped: nat, output: array<byte>)
    returns (ok: bool, pos: nat, stop: nat)
    requires Scan(c, start) == Closed(end, skipped)
    requires output.Length == end - start + 1 - skipped + 1
    modifies output
    ensures pos < output.Length
    ensures Decode(c, start, end) == if ok then Decoded(output[..pos], stop) else Undecodable(stop)
    ensures ok ==> output[pos] == 0
  {
    hide Scan, Next, Decode, Prepend, InStep;
    ghost var q, k := start, skipped;
    InStepAtStart(c, start, end, skipped);
    DecodeWhole(c, start, end);
    EstimateAtLeast(c, start);
    pos, stop := 0, start;
    while stop < end
      invariant start <= stop <= end + 1 && pos + 2 <= output.Length
      invariant stop <= end ==> InStep(c, stop, q, end, k) && pos + (end - stop) + 2 <= output.Length + k
      invariant Decode(c, start, end) == Prepend(output[..pos], Decode(c, stop, end))
      decreases end - stop
    {
      ghost var done := output[..pos];
      ghost var piece := Next(c, stop, end);
      DecodeTurn(c, stop, end, done);
      if piece.Piece? {
        q, k := PieceFits(c, stop, q, end, k);
        if stop + piece.length <= end {
          EstimateInStep(c, stop + piece.length, q, end, k);
        }
      }
      var length;
      length, pos := DecodeNext(c, stop, end, output, pos);
      if length == 0 {
        return false, pos, stop;
      }
      stop := stop + length;
    }
    DecodeOver(c, stop, end, output[..pos]);
    output[pos] := 0;
    ok := true;
  }

  lemma InStepAtStart(c: bytes, start: nat, end: nat, k: nat)
    requires Scan(c, start) == Closed(end, k)
    ensures InStep(c, start, start, end, k)
  {
  }

  lemma DecodeWhole(c: bytes, start: nat, end: nat)
    requires end < |c|
    ensures Decode(c, start, end) == Prepend([], Decode(c, start, end))
  {
    hide Decode;
    var r := Decode(c, start, end);
    if r.Decoded? {
      assert [] + r.out == r.out;
    }
  }

  /** One turn of the decode loop behind what is done. */
  lemma DecodeTurn(c: bytes, p: nat, end: nat, done: bytes)
    requires p < end < |c|
    ensures Prepend(done, Decode(c, p, end)) ==
      match Next(c, p, end)
      case BadPiece => Undecodable(p)
      case Piece(out, n) => Prepend(done + out, Decode(c, p + n, end))
  {
    hide Next;
    if Next(c, p, end).Piece? {
      PrependTwice(done, Next(c, p, end).out, Decode(c, p + Next(c, p, end).length, end));
    }
  }

  lemma DecodeOver(c: bytes, p: nat, end: nat, done: bytes)
    requires end <= p && end < |c|
    ensures Prepend(done, Decode(c, p, end)) == Decoded(done, p)
  {
    assert done + [] == done;
  }

  lemma EstimateInStep(c: bytes, p: nat, q: nat, end: nat, k: nat)
    requires InStep(c, p, q, end, k)
    ensures q <= p + 1 && end - q >= 2 * k
  {
    EstimateAtLeast(c, q);
  }

  lemma EstimateAtLeast(c: bytes, start: nat)
    requires Scan(c, start).Closed?
    ensures Scan(c, start).end - start >= 2 * Scan(c, start).skipped
    decreases |c| - start
  {
  }

  /** Copies the bytes a number can be made of into a temporary buffer of max + 1 bytes. */
  method CopyNumber(c: bytes, o: nat, max: nat) returns (copy: array<byte>, i: nat)
    requires o <= |c|
    ensures fresh(copy) && i < copy.Length == max + 1
    ensures i == NumberSpan(c, o, max) && copy[..i] == c[o..o + i] && copy[i] == 0
  {
    copy := new byte[max + 1];
    i := 0;
    while i < max && o + i < |c| && NumberByte(c[o + i])
      invariant i <= max && o + i <= |c|
      invariant copy[..i] == c[o..o + i]
      invariant NumberSpan(c, o, max) == i + NumberSpan(c, o + i, max - i)
    {
      copy[i] := c[o + i];
      i := i + 1;
    }
    copy[i] := 0;
  }

  // ------------------------------------------------------------- the parse buffer

  /** A parse that goes on behind elements already collected. */
  function Collected<T>(done: seq<T>, r: Parsed<seq<T>>): Parsed<seq<T>> {
    match r
    case Ok(rest, q) => Ok(done + rest, q)
    case Err(at) => Err(at)
  }

  lemma CollectedNone<T>(r: Parsed<seq<T>>)
    ensures Collected([], r) == r
  {
    if r.Ok? {
      assert [] + r.value == r.value;
    }
  }

  lemma CollectedTwice<T>(a: seq<T>, b: seq<T>, r: Parsed<seq<T>>)
    ensures Collected(a, Collected(b, r)) == Collected(a + b, r)
  {
    if r.Ok? {
      assert a + (b + r.value) == a + b + r.value;
    }
  }

  class ParseBuffer {
    const content: bytes
    var offset: nat
    var depth: nat

    ghost predicate Valid()
      reads this
    {
      offset <= |content| && depth <= NESTING_LIMIT
    }

    /** How many more containers may be opened. */
    ghost function Room(): nat
      requires Valid()
      reads this
    {
      NESTING_LIMIT - depth
    }

    constructor (content: bytes)
      ensures this.content == content && offset == 0 && depth == 0 && Valid()
    {
      this.content := content;
      offset, depth := 0, 0;
    }

    method SkipBlank()
      requires Valid()
      modifies this`offset
      ensures Valid() && offset == SkipWhitespace(content, old(offset))
    {
      if offset >= |content| {
        return;
      }
      while offset < |content| && content[offset] <= 32
        invariant old(offset) <= offset <= |content|
        invariant SkipBlanks(content, offset) == SkipBlanks(content, old(offset))
      {
        offset := offset + 1;
      }
      if offset == |content| {
        offset := offset - 1;
      }
    }

    method ReadNumber() returns (ok: bool, v: Json)
      requires Valid() && offset < |content|
      modifies this`offset
      ensures Valid()
      ensures ParseNumber(content, old(offset)) == if ok then Ok(v, offset) else Err(offset)
    {
      hide Strtod, NumberSpan;
      var copy, i := CopyNumber(content, offset, NUMBER_MAX);
      var read := Strtod(copy[..i]);
      if read.length == 0 {
        return false, Null;
      }
      offset := offset + read.length;
      return true, Number(read.value);
    }

    method ReadString() returns (ok: bool, s: CString)
      requires Valid() && offset < |content|
      modifies this`offset
      ensures Valid()
      ensures ParseString(content, old(offset)) == if ok then Ok(s, offset) else Err(offset)
    {
      hide Scan, Decode;
      s := [];
      if content[offset] != QUOTE {
        offset := offset + 1;
        return false, s;
      }
      var scanned := ScanString(content, offset + 1);
      if scanned.Unclosed? {
        offset := offset + 1;
        return false, s;
      }
      EstimateAtLeast(content, offset + 1);
      var output := new byte[scanned.end - (offset + 1) + 1 - scanned.skipped + 1];
      var pos, stop;
      ok, pos, stop := DecodeString(content, offset + 1, scanned.end, scanned.skipped, output);
      if !ok {
        StopInside(content, offset + 1, scanned.end);
        offset := stop;
        return;
      }
      s := UpToNul(output[..pos]);
      offset := scanned.end + 1;
    }
  }

  lemma SkipInside(c: bytes, o: nat)
    requires o < |c|
    ensures SkipWhitespace(c, o) < |c|
  {
  }

  lemma {:induction false} StopInside(c: bytes, p: nat, end: nat)
    requires p <= end < |c|
    ensures Decode(c, p, end).Undecodable? ==> Decode(c, p, end).at <= end
    decreases end - p
  {
    if p < end && Next(c, p, end).Piece? && p + Next(c, p, end).length <= end {
      StopInside(c, p + Next(c, p, end).length, end);
    }
  }
}
