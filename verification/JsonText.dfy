/** The text cJSON prints for a tree, as a function of the tree. */
module JsonText {
  import opened Bytes
  import opened Json

  const NULL_TEXT: bytes := [110, 117, 108, 108]
  const TRUE_TEXT: bytes := [116, 114, 117, 101]
  const FALSE_TEXT: bytes := [102, 97, 108, 115, 101]

  const LBRACKET: byte := 91
  const RBRACKET: byte := 93
  const LBRACE: byte := 123
  const RBRACE: byte := 125
  const MINUS: byte := 45

  function DigitText(k: int): (c: byte)
    requires 0 <= k < 16
  {
    if k < 10 then 48 + k else 87 + k
  }

  /** Decimal digits of n, most significant first, as "%d" prints them. */
  function Decimal(n: nat): bytes {
    if n < 10 then [DigitText(n)] else Decimal(n / 10) + [DigitText(n % 10)]
  }

  function IntText(n: int): bytes {
    if n < 0 then [MINUS] + Decimal(-n) else Decimal(n)
  }

  /** The bytes printed for one string byte; RFC 8259 section 7. */
  function EscapeByte(c: byte): (t: bytes)
    ensures 1 <= |t| <= 6
  {
    if c == QUOTE || c == BACKSLASH then [BACKSLASH, c]
    else if c == 8 then [BACKSLASH, 98]
    else if c == 12 then [BACKSLASH, 102]
    else if c == NL then [BACKSLASH, 110]
    else if c == CR then [BACKSLASH, 114]
    else if c == TAB then [BACKSLASH, 116]
    else if c < 32 then [BACKSLASH, 117, 48, 48, DigitText(c / 16), DigitText(c % 16)]
    else [c]
  }

  function EscapeText(s: bytes): bytes {
    if s == [] then [] else EscapeByte(s[0]) + EscapeText(s[1..])
  }

  function StringText(s: bytes): bytes {
    [QUOTE] + EscapeText(s) + [QUOTE]
  }

  function Tabs(n: nat): (t: bytes)
    ensures |t| == n
    ensures forall i :: 0 <= i < n ==> t[i] == TAB
  {
    seq(n, _ => TAB)
  }

  function When(b: bool, t: bytes): bytes {
    if b then t else []
  }

  /** What print_value leaves in the buffer; depth is the number of enclosing containers. */
  function Render(v: Json, fmt: bool, depth: nat): bytes
    decreases v, 1
  {
    match v
    case Null => NULL_TEXT
    case Bool(b) => if b then TRUE_TEXT else FALSE_TEXT
    case Number(d) => IntText(d.Floor)
    case String(s) => StringText(s)
    case Array(es) => [LBRACKET] + RenderElems(es, fmt, depth + 1) + [RBRACKET]
    case Object(ms) =>
      [LBRACE] + When(fmt, [NL]) + RenderMembers(ms, fmt, depth + 1) + When(fmt, Tabs(depth)) + [RBRACE]
  }

  function RenderElems(es: seq<Json>, fmt: bool, depth: nat): bytes
    decreases es, 0
  {
    if es == [] then []
    else if |es| == 1 then Render(es[0], fmt, depth)
    else Render(es[0], fmt, depth) + ElemSep(fmt) + RenderElems(es[1..], fmt, depth)
  }

  function ElemSep(fmt: bool): bytes {
    [COMMA] + When(fmt, [SPACE])
  }

  function RenderMembers(ms: seq<Member>, fmt: bool, depth: nat): bytes
    decreases ms, 0
  {
    if ms == [] then []
    else RenderMember(ms[0], fmt, depth, |ms| > 1) + RenderMembers(ms[1..], fmt, depth)
  }

  function RenderMember(m: Member, fmt: bool, depth: nat, more: bool): bytes
    decreases m, 2
  {
    When(fmt, Tabs(depth)) + StringText(m.key) + KeySep(fmt) + Render(m.value, fmt, depth)
    + MemberEnd(fmt, more)
  }

  function KeySep(fmt: bool): bytes {
    [COLON] + When(fmt, [TAB])
  }

  function MemberEnd(fmt: bool, more: bool): bytes {
    When(more, [COMMA]) + When(fmt, [NL])
  }
}
