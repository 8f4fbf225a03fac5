/** What parse_value and its helpers compute from a buffer, an offset and how many containers may still be opened. */
module JsonParse {
  import opened Bytes
  import opened Json
  import opened JsonText
  import opened JsonNumber
  import opened JsonString

  /** A value with the offset behind it, or the offset at which parsing gave up. */
  datatype Parsed<+T> = Ok(value: T, offset: nat) | Err(offset: nat) {
    predicate IsFailure() { Err? }
    function PropagateFailure<U>(): Parsed<U>
      requires Err?
    {
      Err(offset)
    }
    function Extract(): (T, nat)
      requires Ok?
    {
      (value, offset)
    }
  }

  /** buffer_skip_whitespace without its final step back: the first byte above 32, or the length. */
  function SkipBlanks(c: bytes, o: nat): (r: nat)
    requires o <= |c|
    ensures o <= r <= |c|
    ensures r < |c| ==> c[r] > 32
    decreases |c| - o
  {
    if o < |c| && c[o] <= 32 then SkipBlanks(c, o + 1) else o
  }

  /** buffer_skip_whitespace: at the end of the buffer it steps back onto the last byte. */
  function SkipWhitespace(c: bytes, o: nat): (r: nat)
    requires o <= |c|
    ensures o <= r <= |c|
  {
    if o < |c| && SkipBlanks(c, o) == |c| then |c| - 1 else SkipBlanks(c, o)
  }

  function ParseNumber(c: bytes, o: nat): (r: Parsed<Json>)
    requires o < |c|
    ensures r.Ok? ==> o < r.offset <= |c| && r.value.Number?
  {
    var n := NumberSpan(c, o, NUMBER_MAX);
    var read := Strtod(c[o..o + n]);
    if read.length == 0 then Err(o) else Ok(Number(read.value), o + read.length)
  }

  /** The string as later C string functions see it: an escape \u0000 ends it. */
  function ParseString(c: bytes, o: nat): (r: Parsed<CString>)
    requires o < |c|
    ensures r.Ok? ==> o < r.offset <= |c|
  {
    if c[o] != QUOTE then Err(o + 1)
    else
      match Scan(c, o + 1)
      case Unclosed => Err(o + 1)
      case Closed(end, _) =>
        match Decode(c, o + 1, end)
        case Undecodable(at) => Err(at)
        case Decoded(out, _) => Ok(UpToNul(out), end + 1)
  }

  predicate StartsNumber(b: byte) {
    b == MINUS || IsDigit(b)
  }

  function ParseValue(c: bytes, o: nat, room: nat): (r: Parsed<Json>)
    requires o <= |c|
    ensures r.Ok? ==> o < r.offset <= |c|
    decreases |c| - o, 5
  {
    if At(c, o, NULL_TEXT) then Ok(Null, o + 4)
    else if At(c, o, FALSE_TEXT) then Ok(Bool(false), o + 5)
    else if At(c, o, TRUE_TEXT) then Ok(Bool(true), o + 4)
    else if o == |c| then Err(o)
    else if c[o] == QUOTE then
      var (s, next) :- ParseString(c, o);
      Ok(String(s), next)
    else if StartsNumber(c[o]) then ParseNumber(c, o)
    else if c[o] == LBRACKET then ParseArray(c, o, room)
    else if c[o] == LBRACE then ParseObject(c, o, room)
    else Err(o)
  }

  function ParseArray(c: bytes, o: nat, room: nat): (r: Parsed<Json>)
    requires o < |c| && c[o] == LBRACKET
    ensures r.Ok? ==> o < r.offset <= |c|
    decreases |c| - o, 4
  {
    if room == 0 then Err(o)
    else
      var p := SkipWhitespace(c, o + 1);
      if p == |c| then Err(p - 1)
      else if c[p] == RBRACKET then Ok(Array([]), p + 1)
      else
        var (es, next) :- ParseElems(c, p, room - 1);
        if next < |c| && c[next] == RBRACKET then Ok(Array(es), next + 1) else Err(next)
  }

  /** The element loop from its "parse next value" step; ends on the byte that is no comma. */
  function ParseElems(c: bytes, o: nat, room: nat): (r: Parsed<seq<Json>>)
    requires o <= |c|
    ensures r.Ok? ==> o < r.offset <= |c| && |r.value| > 0
    decreases |c| - o, 6
  {
    var (v, next) :- ParseValue(c, SkipWhitespace(c, o), room);
    var p := SkipWhitespace(c, next);
    if p < |c| && c[p] == COMMA then
      var (rest, q) :- ParseElems(c, p + 1, room);
      Ok([v] + rest, q)
    else Ok([v], p)
  }

  function ParseObject(c: bytes, o: nat, room: nat): (r: Parsed<Json>)
    requires o < |c| && c[o] == LBRACE
    ensures r.Ok? ==> o < r.offset <= |c|
    decreases |c| - o, 4
  {
    if room == 0 then Err(o)
    else
      var p := SkipWhitespace(c, o + 1);
      if p == |c| then Err(p - 1)
      else if c[p] == RBRACE then Ok(Object([]), p + 1)
      else
        var (ms, next) :- ParseMembers(c, p - 1, room - 1);
        if next < |c| && c[next] == RBRACE then Ok(Object(ms), next + 1) else Err(next)
  }

  /** One turn of the member loop, entered on the byte in front of the name. */
  function ParseMember(c: bytes, o: nat, room: nat): (r: Parsed<Member>)
    requires o < |c|
    ensures r.Ok? ==> o < r.offset <= |c|
    decreases |c| - o, 2
  {
    if o + 1 >= |c| then Err(o)
    else
      var (key, next) :- ParseString(c, SkipWhitespace(c, o + 1));
      var p := SkipWhitespace(c, next);
      if p == |c| || c[p] != COLON then Err(p)
      else
        var (v, after) :- ParseValue(c, SkipWhitespace(c, p + 1), room);
        Ok(Member(key, v), SkipWhitespace(c, after))
  }

  function ParseMembers(c: bytes, o: nat, room: nat): (r: Parsed<seq<Member>>)
    requires o < |c|
    ensures r.Ok? ==> o < r.offset <= |c| && |r.value| > 0
    decreases |c| - o, 3
  {
    var (m, p) :- ParseMember(c, o, room);
    if p < |c| && c[p] == COMMA then
      var (rest, q) :- ParseMembers(c, p, room);
      Ok([m] + rest, q)
    else Ok([m], p)
  }

  const BOM: bytes := [0xEF, 0xBB, 0xBF]

  /** skip_utf8_bom, which wants two bytes behind the mark. */
  function SkipBom(c: bytes): nat {
    if 4 < |c| && c[..3] == BOM then 3 else 0
  }

  /** Where a failed parse points: the offset, or the last byte when the offset ran off the end. */
  function ErrorAt(c: bytes, o: nat): nat {
    if o < |c| then o else if |c| > 0 then |c| - 1 else 0
  }

  /** cJSON_ParseWithLengthOpts on a buffer of |c| bytes; the offset is *return_parse_end. */
  function ParseText(c: bytes, requireNul: bool): (r: Parsed<Json>)
    ensures r.offset <= |c|
  {
    if c == [] then Err(0)
    else
      match ParseValue(c, SkipWhitespace(c, SkipBom(c)), NESTING_LIMIT)
      case Err(at) => Err(ErrorAt(c, at))
      case Ok(v, next) =>
        if !requireNul then Ok(v, next)
        else
          var p := SkipWhitespace(c, next);
          if p >= |c| || c[p] != 0 then Err(ErrorAt(c, p)) else Ok(v, p)
  }
}
