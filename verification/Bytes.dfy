/** Byte strings, C strings and the "text stands at this offset" relation used by every module. */
module Bytes {

  type byte = b: int | 0 <= b < 256

  type bytes = seq<byte>

  /** The bytes a C string function sees: nothing after the terminating NUL. */
  type CString = s: bytes | 0 !in s

  const NL: byte := 10
  const TAB: byte := 9
  const CR: byte := 13
  const SPACE: byte := 32
  const QUOTE: byte := 34
  const BACKSLASH: byte := 92
  const COMMA: byte := 44
  const COLON: byte := 58
  const SLASH: byte := 47

  /** Text t stands in c at offset o. */
  predicate At(c: bytes, o: nat, t: bytes): (b: bool)
    ensures b ==> o + |t| <= |c|
  {
    o + |t| <= |c| && c[o..o + |t|] == t
  }

  lemma AtSplit(c: bytes, o: nat, a: bytes, b: bytes)
    ensures At(c, o, a + b) <==> At(c, o, a) && At(c, o + |a|, b)
  {
    if At(c, o, a + b) {
      var t := c[o..o + |a + b|];
      assert t[..|a|] == a && t[|a|..] == b;
    }
    if At(c, o, a) && At(c, o + |a|, b) {
      assert c[o..o + |a + b|] == c[o..o + |a|] + c[o + |a|..o + |a| + |b|];
    }
  }

  lemma AtIndex(c: bytes, o: nat, t: bytes, i: nat)
    requires At(c, o, t) && i < |t|
    ensures c[o + i] == t[i]
  {
    assert c[o..o + |t|][i] == t[i];
  }

  /** The prefix of s before its first NUL. */
  function UpToNul(s: bytes): (r: CString)
    ensures r <= s
    ensures |r| < |s| ==> s[|r|] == 0
    ensures 0 !in s ==> r == s
  {
    if s == [] || s[0] == 0 then [] else [s[0]] + UpToNul(s[1..])
  }
}
