/** cJSON_Minify: what it makes of a text, and the in-place loop that does it. */
module JsonMinify {
  import opened Bytes

  const STAR: byte := 42

  predicate IsBlank(b: byte) {
    b == SPACE || b == TAB || b == CR || b == NL
  }

  /** Behind a line comment whose body starts at r. */
  function LineEnd(t: bytes, r: nat): (e: nat)
    ensures r <= e && (r <= |t| ==> e <= |t|)
    decreases |t| - r
  {
    if r >= |t| then r else if t[r] == NL then r + 1 else LineEnd(t, r + 1)
  }

  /** Behind a block comment whose body starts at r. */
  function BlockEnd(t: bytes, r: nat): (e: nat)
    ensures r <= e && (r <= |t| ==> e <= |t|)
    decreases |t| - r
  {
    if r >= |t| then r
    else if t[r] == STAR && r + 1 < |t| && t[r + 1] == SLASH then r + 2
    else BlockEnd(t, r + 1)
  }

  /** What is left of t from r on, outside of strings. */
  function Outside(t: bytes, r: nat): (m: bytes)
    ensures r <= |t| ==> |m| <= |t| - r
    decreases |t| - r
  {
    if r >= |t| then []
    else if IsBlank(t[r]) then Outside(t, r + 1)
    else if t[r] == SLASH then
      if r + 1 < |t| && t[r + 1] == SLASH then Outside(t, LineEnd(t, r + 2))
      else if r + 1 < |t| && t[r + 1] == STAR then Outside(t, BlockEnd(t, r + 2))
      else Outside(t, r + 1)
    else if t[r] == QUOTE then [QUOTE] + Inside(t, r + 1)
    else [t[r]] + Outside(t, r + 1)
  }

  /** What is left of t from r on, inside of a string: a backslash hides a quote right behind it. */
  function Inside(t: bytes, r: nat): (m: bytes)
    ensures r <= |t| ==> |m| <= |t| - r
    decreases |t| - r
  {
    if r >= |t| then []
    else if t[r] == QUOTE then [QUOTE] + Outside(t, r + 1)
    else if t[r] == BACKSLASH && r + 1 < |t| && t[r + 1] == QUOTE then [BACKSLASH, QUOTE] + Inside(t, r + 2)
    else [t[r]] + Inside(t, r + 1)
  }

  function Minified(t: bytes): bytes {
    Outside(t, 0)
  }

  // ------------------------------------------------------------- the in-place loop

  /** From r on json still holds the rest of the C string t. */
  ghost predicate Rest(json: array<byte>, t: bytes, r: nat)
    reads json
  {
    && r <= |t| < json.Length && 0 !in t
    && (forall i :: r <= i < |t| ==> json[i] == t[i])
    && json[|t|] == 0
  }

  method SkipLine(json: array<byte>, start: nat, ghost t: bytes) returns (r: nat)
    requires Rest(json, t, start)
    ensures r == LineEnd(t, start)
  {
    r := start;
    while json[r] != 0
      invariant start <= r <= |t| && LineEnd(t, r) == LineEnd(t, start)
      decreases |t| - r
    {
      assert r < |t|;
      if json[r] == NL {
        return r + 1;
      }
      r := r + 1;
    }
  }

  method SkipBlock(json: array<byte>, start: nat, ghost t: bytes) returns (r: nat)
    requires Rest(json, t, start)
    ensures r == BlockEnd(t, start)
  {
    r := start;
    while json[r] != 0
      invariant start <= r <= |t| && BlockEnd(t, r) == BlockEnd(t, start)
      decreases |t| - r
    {
      if json[r] == STAR && json[r + 1] == SLASH {
        return r + 2;
      }
      r := r + 1;
    }
  }

  /** Copies the byte at the read cursor down to the write cursor. */
  method Move(json: array<byte>, r: nat, w: nat, ghost t: bytes)
    requires Rest(json, t, r) && w <= r < |t|
    modifies json
    ensures Rest(json, t, r + 1)
    ensures json[..w + 1] == old(json[..w]) + [t[r]]
  {
    json[w] := json[r];
    assert json[..w] == old(json[..w]);
  }

  /** minify_string: copies a string, from its opening quote, over what was dropped in front of it. */
  method MinifyString(json: array<byte>, start: nat, into: nat, ghost t: bytes) returns (r: nat, w: nat)
    requires Rest(json, t, start) && into <= start < |t| && t[start] == QUOTE
    modifies json
    ensures w <= r && start < r && Rest(json, t, r)
    ensures json[..w] + Outside(t, r) == old(json[..into]) + Outside(t, start)
  {
    Move(json, start, into, t);
    Regroup(old(json[..into]), [QUOTE], Inside(t, start + 1));
    r, w := MinifyContent(json, start + 1, into + 1, t);
  }

  /** The content of a string and its closing quote, if it has one. */
  method MinifyContent(json: array<byte>, start: nat, into: nat, ghost t: bytes) returns (r: nat, w: nat)
    requires Rest(json, t, start) && into <= start
    modifies json
    ensures w <= r && start <= r && Rest(json, t, r)
    ensures json[..w] + Outside(t, r) == old(json[..into]) + Inside(t, start)
  {
    hide Outside, Inside;
    r, w := start, into;
    while json[r] != 0 && json[r] != QUOTE
      invariant w <= r && start <= r && Rest(json, t, r)
      invariant json[..w] + Inside(t, r) == old(json[..into]) + Inside(t, start)
      decreases |t| - r
    {
      var n := MoveChar(json, r, w, t);
      r, w := r + n, w + n;
    }
    if json[r] == QUOTE {
      AtQuote(t, r);
      Regroup(json[..w], [QUOTE], Outside(t, r + 1));
      Move(json, r, w, t);
      return r + 1, w + 1;
    }
    AtEnd(t, r);
  }

  lemma AtQuote(t: bytes, r: nat)
    requires r < |t| && t[r] == QUOTE
    ensures Inside(t, r) == [QUOTE] + Outside(t, r + 1)
  {
  }

  /** One byte of a string, or a backslash and the quote it hides. */
  method MoveChar(json: array<byte>, r: nat, w: nat, ghost t: bytes) returns (n: nat)
    requires Rest(json, t, r) && w <= r < |t| && t[r] != QUOTE
    modifies json
    ensures 1 <= n <= 2 && Rest(json, t, r + n)
    ensures json[..w + n] + Inside(t, r + n) == old(json[..w]) + Inside(t, r)
  {
    ghost var done := json[..w];
    var b, c := json[r], json[r + 1];
    Move(json, r, w, t);
    if b == BACKSLASH && c == QUOTE {
      Move(json, r + 1, w + 1, t);
      assert done + [BACKSLASH] + [QUOTE] == done + [BACKSLASH, QUOTE];
      Regroup(done, [BACKSLASH, QUOTE], Inside(t, r + 2));
      return 2;
    }
    Regroup(done, [b], Inside(t, r + 1));
    return 1;
  }

  lemma Regroup(a: bytes, b: bytes, c: bytes)
    ensures a + (b + c) == a + b + c
  {
  }

  lemma AtEnd(t: bytes, r: nat)
    requires r == |t|
    ensures Inside(t, r) == Outside(t, r) == []
  {
  }

  /** cJSON_Minify on the C string t in json; the write cursor never passes the read cursor. */
  method Minify(json: array<byte>, ghost t: bytes)
    requires Rest(json, t, 0)
    modifies json
    ensures |Minified(t)| <= |t|
    ensures json[..|Minified(t)|] == Minified(t) && json[|Minified(t)|] == 0
  {
    var r, w: nat := 0, 0;
    assert [] + Outside(t, 0) == Minified(t);
    while json[r] != 0
      invariant w <= r && Rest(json, t, r)
      invariant json[..w] + Outside(t, r) == Minified(t)
      decreases |t| - r
    {
      var b := json[r];
      if IsBlank(b) {
        r := r + 1;
      } else if b == SLASH {
        r := SkipSlash(json, r, t);
      } else if b == QUOTE {
        r, w := MinifyString(json, r, w, t);
      } else {
        ghost var done := json[..w];
        Move(json, r, w, t);
        Regroup(done, [b], Outside(t, r + 1));
        r, w := r + 1, w + 1;
      }
    }
    AtEnd(t, r);
    json[w] := 0;
    assert json[..w] + [] == json[..w];
  }

  /** A slash outside of strings: a comment, or a byte that is dropped. */
  method SkipSlash(json: array<byte>, r: nat, ghost t: bytes) returns (e: nat)
    requires Rest(json, t, r) && r < |t| && t[r] == SLASH
    ensures r < e <= |t| && Outside(t, e) == Outside(t, r)
  {
    if json[r + 1] == SLASH {
      e := SkipLine(json, r + 2, t);
    } else if json[r + 1] == STAR {
      e := SkipBlock(json, r + 2, t);
    } else {
      e := r + 1;
    }
  }
}
