/** The hq request line: how it is written, read in pieces, parsed, and handed out in pieces. */
module HqRequest {
  import opened Bytes
  import opened Pipes

  /** XQC_HQ_REQUEST_MAX_LEN, and the lengths the two conversions of the scan format allow. */
  const REQUEST_MAX: nat := 512
  const METHOD_CAP: nat := 15
  const RESOURCE_CAP: nat := 255

  const GET_WORD: bytes := [71, 69, 84]

  /** isspace in the C locale */
  predicate IsSpace(b: byte) {
    b == 32 || 9 <= b <= 13
  }

  /** The request for a resource. */
  function Line(resource: bytes): bytes {
    GET_WORD + [SPACE] + resource + [CR, NL]
  }

  // ------------------------------------------------------------------------- scanning

  function SkipSpace(s: bytes): (t: bytes)
    ensures |t| <= |s| && t == s[|s| - |t|..]
    ensures t != [] ==> !IsSpace(t[0])
  {
    if s != [] && IsSpace(s[0]) then SkipSpace(s[1..]) else s
  }

  predicate Plain(s: bytes) {
    forall i :: 0 <= i < |s| ==> !IsSpace(s[i]) && s[i] != 0
  }

  /** The longest word of at most cap bytes at the start of s. */
  function Word(s: CString, cap: nat): (w: bytes)
    ensures w <= s && |w| <= cap && Plain(w)
    ensures |w| < |s| && |w| < cap ==> IsSpace(s[|w|])
  {
    if s == [] || cap == 0 || IsSpace(s[0]) then [] else [s[0]] + Word(s[1..], cap - 1)
  }

  /** What the format "%15s %255s" finds in a text: two words, either empty if there is none. */
  function Words(text: CString): (w: (bytes, bytes))
    ensures |w.0| <= METHOD_CAP && |w.1| <= RESOURCE_CAP && Plain(w.1)
  {
    var a := SkipSpace(text);
    var verb := Word(a, METHOD_CAP);
    var b := SkipSpace(a[|verb|..]);
    (verb, Word(b, RESOURCE_CAP))
  }

  datatype Parsed = Unparsed | Request(resource: bytes, ended: bool)

  /** xqc_hq_parse_req on the NUL-terminated buffer; ended tells whether CR LF follows the line. */
  function Parse(buf: bytes): (p: Parsed)
    requires |buf| == REQUEST_MAX
    ensures p.Request? ==> 0 < |p.resource| <= RESOURCE_CAP && Plain(p.resource)
  {
    var (verb, resource) := Words(UpToNul(buf));
    if verb == [] || resource == [] then Unparsed
    else
      var n := |verb| + |resource| + 1;
      Request(resource, n + 2 <= REQUEST_MAX && buf[n] == CR && buf[n + 1] == NL)
  }

  // ------------------------------------------------------------------------ receiving

  /** The record: the receive buffer and its fill, the FIN flag, the parsed resource (none yet if empty)
      and how much of it was handed out. */
  datatype Reader = Reader(buf: bytes, cnt: nat, fin: bool, resource: bytes, offset: nat)

  datatype Reply = Piece(data: bytes, fin: bool) | Nothing | Fatal | Proto | NoBuffer | Broken

  /** What the transport has for a receive: up to that many bytes, or an error other than "try again". */
  datatype Answer = Ready(n: nat) | Error

  /** How the receive loop ends: go on with what there is, or return. */
  datatype Ending = GoOn | Return(reply: Reply)

  ghost predicate Fits(r: Reader) {
    |r.buf| == REQUEST_MAX && r.cnt <= REQUEST_MAX && r.offset <= |r.resource|
  }

  function Min(a: nat, b: nat): nat {
    if a < b then a else b
  }

  function Filled(r: Reader, p: Pipe, n: nat): Reader
    requires n <= |p.flight| && r.cnt + n <= |r.buf|
  {
    r.(buf := r.buf[..r.cnt] + p.flight[..n] + r.buf[r.cnt + n..], cnt := r.cnt + n, fin := CarriesFin(p, n))
  }

  /** How much the next receive gets when the transport has up to ready bytes for it. */
  function Get(r: Reader, p: Pipe, ready: nat): (n: nat)
    requires r.cnt <= REQUEST_MAX
    ensures n <= |p.flight| && r.cnt + n <= REQUEST_MAX
  {
    Min(ready, Min(|p.flight|, REQUEST_MAX - r.cnt))
  }

  /** The receive loop; where the answers end, or there is nothing and no FIN, it would block. */
  function Fetch(r: Reader, p: Pipe, answers: seq<Answer>): (Reader, Pipe, Ending)
    requires Fits(r)
    decreases |answers|
  {
    if answers == [] then (r, p, GoOn)
    else if answers[0].Error? then (r, p, Return(Broken))
    else
      var n := Get(r, p, answers[0].n);
      if n == 0 && !CarriesFin(p, 0) then (r, p, GoOn)
      else
        var f, q := Filled(r, p, n), Taken(p, n);
        if f.cnt == REQUEST_MAX && f.fin then (f, q, Return(Fatal))
        else if n == 0 || f.fin then (f, q, GoOn)
        else Fetch(f, q, answers[1..])
  }

  function Serve(r: Reader, size: nat): (Reader, Reply)
    requires r.offset <= |r.resource|
  {
    if r.offset == |r.resource| then (r, Nothing)
    else if size <= 1 then (r, NoBuffer)
    else
      var end := r.offset + Min(|r.resource| - r.offset, size - 1);
      (r.(offset := end), Piece(r.resource[r.offset..end], end == |r.resource|))
  }

  /** The rest of the call, behind the receive loop. */
  function Conclude(r: Reader, size: nat): (Reader, Reply)
    requires Fits(r)
  {
    if r.cnt >= REQUEST_MAX then (r, Proto)
    else
      var g := r.(buf := r.buf[r.cnt := 0]);
      if g.resource != [] then Serve(g, size)
      else
        match Parse(g.buf)
        case Unparsed => (g, if g.fin then Proto else Nothing)
        case Request(resource, ended) =>
          if !g.fin && !ended then (g, Nothing) else Serve(g.(resource := resource), size)
  }

  lemma {:induction false} FetchFits(r: Reader, p: Pipe, answers: seq<Answer>)
    requires Fits(r)
    ensures var f := Fetch(r, p, answers).0; Fits(f) && f.resource == r.resource && f.offset == r.offset
    decreases |answers|
  {
    if answers != [] && answers[0].Ready? {
      var n := Get(r, p, answers[0].n);
      FetchFits(Filled(r, p, n), Taken(p, n), answers[1..]);
    }
  }

  /** xqc_hq_request_recv_req with a buffer of that size */
  function Recv(r: Reader, p: Pipe, size: nat, answers: seq<Answer>): (Reader, Pipe, Reply)
    requires Fits(r)
  {
    FetchFits(r, p, answers);
    var (f, q, ending) := Fetch(r, p, answers);
    match ending
    case Return(reply) => (f, q, reply)
    case GoOn =>
      var (g, reply) := Conclude(f, size);
      (g, q, reply)
  }
}
