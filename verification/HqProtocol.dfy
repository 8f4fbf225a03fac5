/** An hq request from one end of a stream to the other: what the reader hands out, in every run. */
module HqProtocol {
  import opened Bytes
  import opened Pipes
  import opened HqRequest

  /** The resources a request line can carry: not empty, at most 255 bytes, no white space. */
  predicate Good(resource: bytes) {
    0 < |resource| <= RESOURCE_CAP && Plain(resource)
  }

  /** The bytes of the line the transport has accepted, the stream, the reader, what the reader handed
      out, and how often it raised fin. */
  datatype World = World(resource: CString, sent: nat, p: Pipe, r: Reader, delivered: bytes, fins: nat)

  datatype Action =
    | Send(n: nat)
    | Receive(size: nat, answers: seq<Answer>)

  predicate Enabled(w: World, a: Action) {
    a.Send? ==> a.n <= |Line(w.resource)| - w.sent && w.sent < |Line(w.resource)|
  }

  /** One send of the rest of the line with FIN, of which n bytes are accepted. */
  function Sending(w: World, n: nat): World
    requires w.sent + n <= |Line(w.resource)|
  {
    var line := Line(w.resource);
    w.(sent := w.sent + n, p := Offered(w.p, line[w.sent..w.sent + n], w.sent + n == |line|))
  }

  function HandedOut(w: World, r: Reader, p: Pipe, reply: Reply): World {
    w.(r := r, p := p,
       delivered := if reply.Piece? then w.delivered + reply.data else w.delivered,
       fins := if reply.Piece? && reply.fin then w.fins + 1 else w.fins)
  }

  ghost function Next(w: World, a: Action): World
    requires Fits(w.r) && Enabled(w, a)
  {
    match a
    case Send(n) => Sending(w, n)
    case Receive(size, answers) =>
      var (r, p, reply) := Recv(w.r, w.p, size, answers);
      HandedOut(w, r, p, reply)
  }

  // ------------------------------------------------------------------------- invariant

  /** The line is in the buffer, in flight, or not yet accepted. */
  ghost predicate Moves(line: bytes, sent: nat, p: Pipe, r: Reader) {
    && Fits(r) && sent <= |line|
    && r.buf[..r.cnt] + p.flight == line[..sent]
    && (p.finIn <==> sent == |line|)
    && (p.finOut ==> p.finIn && p.flight == [])
    && (r.fin ==> p.finOut)
  }

  /** What was handed out is a prefix of what was parsed, and fin went with its last byte. */
  ghost predicate Hands(w: World) {
    && (w.r.resource != [] ==> Good(w.r.resource))
    && w.r.offset <= |w.r.resource|
    && w.delivered == w.r.resource[..w.r.offset]
    && w.fins == (if w.r.resource != [] && w.r.offset == |w.r.resource| then 1 else 0)
    && (Good(w.resource) && w.r.resource != [] ==> w.r.resource == w.resource)
    && (w.r.resource != [] ==> Origin(w.resource, w.r.resource))
  }

  ghost predicate Inv(w: World) {
    Moves(Line(w.resource), w.sent, w.p, w.r) && Hands(w)
  }

  lemma SendingInv(w: World, n: nat)
    requires Inv(w) && Enabled(w, Send(n))
    ensures Inv(Sending(w, n))
  {
    hide Origin, Good;
    var line := Line(w.resource);
    assert line[..w.sent] + line[w.sent..w.sent + n] == line[..w.sent + n];
    assert w.r.buf[..w.r.cnt] + w.p.flight + line[w.sent..w.sent + n]
        == w.r.buf[..w.r.cnt] + (w.p.flight + line[w.sent..w.sent + n]);
  }

  lemma FilledMoves(line: bytes, sent: nat, p: Pipe, r: Reader, n: nat)
    requires Moves(line, sent, p, r) && n <= |p.flight| && r.cnt + n <= REQUEST_MAX
    ensures Moves(line, sent, Taken(p, n), Filled(r, p, n))
  {
    var f := Filled(r, p, n);
    assert f.buf[..f.cnt] == r.buf[..r.cnt] + p.flight[..n];
    assert r.buf[..r.cnt] + p.flight[..n] + p.flight[n..] == r.buf[..r.cnt] + p.flight;
  }

  lemma MovesFits(line: bytes, sent: nat, p: Pipe, r: Reader)
    requires Moves(line, sent, p, r)
    ensures Fits(r) && r.cnt + |p.flight| == sent <= |line|
  {
    assert |r.buf[..r.cnt] + p.flight| == sent;
  }

  lemma {:induction false} FetchMoves(line: bytes, sent: nat, p: Pipe, r: Reader, answers: seq<Answer>)
    requires Moves(line, sent, p, r)
    ensures var (f, q, _) := Fetch(r, p, answers); Moves(line, sent, q, f)
    decreases |answers|
  {
    hide Moves;
    MovesFits(line, sent, p, r);
    if answers != [] && answers[0].Ready? {
      var n := Get(r, p, answers[0].n);
      FilledMoves(line, sent, p, r, n);
      MovesFits(line, sent, Taken(p, n), Filled(r, p, n));
      FetchMoves(line, sent, Taken(p, n), Filled(r, p, n), answers[1..]);
    }
  }

  // ---------------------------------------------------------- parsing what has arrived

  lemma UpToNulOf(buf: bytes, text: CString)
    requires |text| < |buf| && buf[..|text|] == text && buf[|text|] == 0
    ensures UpToNul(buf) == text
  {
    hide UpToNul;
    var r := UpToNul(buf);
    assert forall i :: 0 <= i < |r| ==> r[i] == buf[i];
    assert forall i :: 0 <= i < |text| ==> text[i] == buf[i];
  }

  lemma SkipNothing(s: bytes)
    requires s != [] ==> !IsSpace(s[0])
    ensures SkipSpace(s) == s
  {
  }

  lemma WordIs(s: CString, w: bytes, cap: nat)
    requires w <= s && Plain(w) && |w| <= cap
    requires |w| < |s| ==> |w| == cap || IsSpace(s[|w|])
    ensures Word(s, cap) == w
  {
    hide Word;
    var v := Word(s, cap);
    assert forall i :: 0 <= i < |w| ==> w[i] == s[i];
    assert forall i :: 0 <= i < |v| ==> v[i] == s[i];
  }

  /** How much of the resource a prefix of the line shows. */
  function Shown(resource: bytes, cnt: nat): bytes {
    if cnt <= 4 then [] else resource[..Min(cnt - 4, |resource|)]
  }

  lemma ScanShort(text: CString)
    requires text <= GET_WORD + [SPACE]
    ensures Words(text).1 == []
  {
    SkipNothing(text);
    var verb := if |text| < 3 then text else GET_WORD;
    WordIs(text, verb, METHOD_CAP);
    assert text[|verb|..] == if |text| == 4 then [SPACE] else [];
  }

  lemma SkipFirst(b: byte, s: bytes)
    requires IsSpace(b)
    ensures SkipSpace([b] + s) == SkipSpace(s)
  {
    assert ([b] + s)[1..] == s;
  }

  lemma Beginning(tail: CString)
    ensures var text := GET_WORD + [SPACE] + tail;
      0 !in text && text[..3] == GET_WORD && text[3] == SPACE && text[3..] == [SPACE] + tail
  {
  }

  lemma ScanVerb(tail: CString, text: CString)
    requires text == GET_WORD + [SPACE] + tail
    ensures SkipSpace(text) == text && Word(text, METHOD_CAP) == GET_WORD
    ensures SkipSpace(text[|GET_WORD|..]) == SkipSpace(tail)
  {
    hide SkipSpace, Word;
    Beginning(tail);
    SkipNothing(text);
    WordIs(text, GET_WORD, METHOD_CAP);
    SkipFirst(SPACE, tail);
  }

  lemma ScanLine(tail: CString, shown: bytes, text: CString)
    requires text == GET_WORD + [SPACE] + tail
    requires shown != [] && shown <= tail && Plain(shown) && |shown| <= RESOURCE_CAP
    requires |shown| < |tail| ==> IsSpace(tail[|shown|])
    ensures Words(text) == (GET_WORD, shown)
  {
    hide SkipSpace, Word;
    ScanVerb(tail, text);
    assert tail[0] == shown[0];
    SkipNothing(tail);
    WordIs(tail, shown, RESOURCE_CAP);
  }

  /** What follows the shown part in the buffer. */
  lemma BehindShown(resource: CString, buf: bytes, cnt: nat)
    requires |buf| == REQUEST_MAX && 4 < cnt <= |Line(resource)| && |resource| <= RESOURCE_CAP
    requires buf[..cnt] == Line(resource)[..cnt] && buf[cnt] == 0
    ensures var n := 4 + |Shown(resource, cnt)|;
      n + 2 <= REQUEST_MAX && (buf[n] == CR && buf[n + 1] == NL <==> cnt == |Line(resource)|)
  {
    var line := Line(resource);
    assert forall i :: 0 <= i < cnt ==> buf[i] == buf[..cnt][i] == line[..cnt][i] == line[i];
    assert line[4 + |resource|] == CR && line[5 + |resource|] == NL;
  }

  lemma TailOf(resource: CString, cnt: nat)
    requires Good(resource) && 4 < cnt <= |Line(resource)|
    ensures var tail, shown := (resource + [CR, NL])[..cnt - 4], Shown(resource, cnt);
      && Line(resource)[..cnt] == GET_WORD + [SPACE] + tail
      && shown != [] && shown <= tail && Plain(shown) && |shown| <= RESOURCE_CAP
      && (|shown| < |tail| ==> IsSpace(tail[|shown|]))
  {
    var tail := (resource + [CR, NL])[..cnt - 4];
    assert Line(resource) == GET_WORD + [SPACE] + (resource + [CR, NL]);
    assert forall i :: 0 <= i < |Shown(resource, cnt)| ==> tail[i] == resource[i];
  }

  /** A good line is parsed as far as it has arrived, and counts as ended exactly when it is all there. */
  lemma ParsePrefix(resource: CString, buf: bytes, cnt: nat)
    requires Good(resource) && |buf| == REQUEST_MAX && cnt <= |Line(resource)|
    requires buf[..cnt] == Line(resource)[..cnt] && buf[cnt] == 0
    ensures Parse(buf) == if cnt <= 4 then Unparsed else Request(Shown(resource, cnt), cnt == |Line(resource)|)
  {
    hide Words, UpToNul, Line, Shown;
    LineClean(resource);
    var text := Line(resource)[..cnt];
    UpToNulOf(buf, text);
    if cnt <= 4 {
      ScanShort(text);
    } else {
      var tail, shown := (resource + [CR, NL])[..cnt - 4], Shown(resource, cnt);
      TailOf(resource, cnt);
      BehindShown(resource, buf, cnt);
      ScanLine(tail, shown, text);
    }
  }

  lemma LineClean(resource: CString)
    ensures |Line(resource)| == |resource| + 6 && 0 !in Line(resource) && GET_WORD + [SPACE] <= Line(resource)
  {
  }

  // ------------------------------------------------------- parsing any resource's line

  /** What the scan finds of a resource: its first word, as far as the field goes. */
  function Target(resource: CString): bytes {
    Word(SkipSpace(resource), RESOURCE_CAP)
  }

  /** How much white space a resource starts with. */
  function Lead(resource: CString): nat {
    |resource| - |SkipSpace(resource)|
  }

  /** CR LF stands where the parser looks for it once it has the word. */
  predicate Ended(resource: CString) {
    var n := 4 + |Target(resource)|;
    n + 2 <= |Line(resource)| && Line(resource)[n] == CR && Line(resource)[n + 1] == NL
  }

  /** The word can be found whole: the line fits the buffer, or the word does and the parser takes it as ended. */
  predicate Whole(resource: CString) {
    && Target(resource) != []
    && (|Line(resource)| < REQUEST_MAX || (Ended(resource) && 4 + Lead(resource) + |Target(resource)| < REQUEST_MAX))
  }

  lemma {:induction false} SkipPrefix(a: bytes, b: bytes)
    requires a <= b
    ensures SkipSpace(a) != [] ==> SkipSpace(a) <= SkipSpace(b) && |a| - |SkipSpace(a)| == |b| - |SkipSpace(b)|
  {
    if a != [] && IsSpace(a[0]) {
      assert b[0] == a[0] && a[1..] <= b[1..];
      SkipPrefix(a[1..], b[1..]);
    }
  }

  lemma {:induction false} SkipAll(s: bytes)
    ensures SkipSpace(s) == [] ==> SkipSpace(s + [CR, NL]) == []
    decreases |s|
  {
    if s == [] {
      assert [CR, NL][1..] == [NL] && [NL][1..] == [];
      assert s + [CR, NL] == [CR, NL];
    } else if IsSpace(s[0]) {
      assert (s + [CR, NL])[1..] == s[1..] + [CR, NL];
      SkipAll(s[1..]);
    }
  }

  /** A longer text has a longer first word, or the same if the shorter text shows where it ends. */
  lemma {:induction false} WordPrefix(a: CString, b: CString, cap: nat)
    requires a <= b
    ensures Word(a, cap) <= Word(b, cap) && (|Word(a, cap)| < |a| ==> Word(a, cap) == Word(b, cap))
  {
    if a != [] && cap > 0 && !IsSpace(a[0]) {
      assert b[0] == a[0] && a[1..] <= b[1..];
      WordPrefix(a[1..], b[1..], cap - 1);
    }
  }

  /** The end of the line adds nothing to the word. */
  lemma TargetOfLine(resource: CString)
    ensures 0 !in resource + [CR, NL] && Word(SkipSpace(resource + [CR, NL]), RESOURCE_CAP) == Target(resource)
    ensures SkipSpace(resource) != [] ==> |resource + [CR, NL]| - |SkipSpace(resource + [CR, NL])| == Lead(resource)
  {
    hide SkipSpace, Word;
    var a, full := SkipSpace(resource), resource + [CR, NL];
    SkipAll(resource);
    if a != [] {
      SkipPrefix(resource, full);
      WordPrefix(a, SkipSpace(full), RESOURCE_CAP);
      var w := Word(a, RESOURCE_CAP);
      if |w| == |a| {
        var b := SkipSpace(full);
        assert |b| == |a| + 2 && b == full[|full| - |b|..];
        assert b[|a|] == CR;
        WordIs(b, w, RESOURCE_CAP);
      }
    }
  }

  /** The word a prefix of the line shows is a prefix of the target, and where it lies. */
  lemma TailWord(resource: CString, tail: CString)
    requires tail <= resource + [CR, NL]
    ensures var word := Word(SkipSpace(tail), RESOURCE_CAP);
      && word <= Target(resource)
      && (word != [] ==> Lead(resource) + |word| <= |tail|)
      && (word != [] && Lead(resource) + |word| < |tail| ==> word == Target(resource))
      && (tail == resource + [CR, NL] ==> word == Target(resource))
  {
    hide SkipSpace, Word;
    var full, a := resource + [CR, NL], SkipSpace(tail);
    TargetOfLine(resource);
    SkipPrefix(tail, full);
    if a == [] {
      WordOfNothing(RESOURCE_CAP);
    } else {
      WordPrefix(a, SkipSpace(full), RESOURCE_CAP);
      SkipAll(resource);
    }
  }

  lemma WordOfNothing(cap: nat)
    ensures Word([], cap) == []
  {
  }

  /** What the first cnt bytes of the line hold behind the verb. */
  function Tail(resource: CString, cnt: nat): CString
    requires 4 < cnt <= |Line(resource)|
  {
    var full := resource + [CR, NL];
    assert 0 !in full;
    full[..cnt - 4]
  }

  /** The word the first cnt bytes of the line show. */
  function Part(resource: CString, cnt: nat): (word: bytes)
    requires cnt <= |Line(resource)|
    ensures |word| <= RESOURCE_CAP
  {
    if cnt <= 4 then [] else Word(SkipSpace(Tail(resource, cnt)), RESOURCE_CAP)
  }

  function ParsedAs(word: bytes, buf: bytes): Parsed
    requires |buf| == REQUEST_MAX && |word| <= RESOURCE_CAP
  {
    var n := 4 + |word|;
    if word == [] then Unparsed else Request(word, buf[n] == CR && buf[n + 1] == NL)
  }

  /** What is parsed of the first cnt bytes of any line. */
  lemma ParseAny(resource: CString, buf: bytes, cnt: nat)
    requires |buf| == REQUEST_MAX && cnt < REQUEST_MAX && cnt <= |Line(resource)|
    requires buf[..cnt] == Line(resource)[..cnt] && buf[cnt] == 0
    ensures Parse(buf) == ParsedAs(Part(resource, cnt), buf)
  {
    hide Parse, ParsedAs, Line, Words, Tail, Word, SkipSpace;
    LineClean(resource);
    var text := Line(resource)[..cnt];
    UpToNulOf(buf, text);
    if cnt <= 4 {
      ScanShort(text);
      ParseNone(buf, text);
    } else {
      LineTail(resource, cnt);
      ScanWords(Tail(resource, cnt), text);
      ParseOf(buf, text, Part(resource, cnt));
    }
  }

  lemma ParseNone(buf: bytes, text: CString)
    requires |buf| == REQUEST_MAX && UpToNul(buf) == text && Words(text).1 == []
    ensures Parse(buf) == ParsedAs([], buf)
  {
    hide UpToNul, Words;
  }

  lemma ParseOf(buf: bytes, text: CString, word: bytes)
    requires |buf| == REQUEST_MAX && UpToNul(buf) == text && Words(text) == (GET_WORD, word)
    ensures |word| <= RESOURCE_CAP && Parse(buf) == ParsedAs(word, buf)
  {
    hide UpToNul, Words;
  }

  lemma ScanWords(tail: CString, text: CString)
    requires text == GET_WORD + [SPACE] + tail
    ensures Words(text) == (GET_WORD, Word(SkipSpace(tail), RESOURCE_CAP))
  {
    hide SkipSpace, Word;
    ScanVerb(tail, text);
  }

  lemma LineTail(resource: CString, cnt: nat)
    requires 4 < cnt <= |Line(resource)|
    ensures Line(resource)[..cnt] == GET_WORD + [SPACE] + Tail(resource, cnt)
  {
    assert Line(resource) == GET_WORD + [SPACE] + (resource + [CR, NL]);
  }

  /** The word shown is a prefix of the target, and where it lies. */
  lemma PartLies(resource: CString, cnt: nat)
    requires cnt <= |Line(resource)|
    ensures var word := Part(resource, cnt);
      && word <= Target(resource)
      && (word != [] ==> 4 + Lead(resource) + |word| <= cnt)
      && (word != [] && 4 + Lead(resource) + |word| < cnt ==> word == Target(resource))
      && (cnt == |Line(resource)| ==> word == Target(resource))
  {
    hide SkipSpace, Word, Target, Lead, Line;
    LineClean(resource);
    if 4 < cnt {
      TailIs(resource, cnt);
      TailWord(resource, Tail(resource, cnt));
    }
  }

  lemma TailIs(resource: CString, cnt: nat)
    requires 4 < cnt <= |Line(resource)|
    ensures var tail := Tail(resource, cnt);
      && tail <= resource + [CR, NL] && |tail| == cnt - 4
      && (cnt == |Line(resource)| ==> tail == resource + [CR, NL])
  {
  }

  /** A resource the reader can come to have: a part of the target's start, all of it only if it can be found whole. */
  ghost predicate Origin(resource: CString, found: bytes) {
    && found <= Target(resource)
    && (found == Target(resource) ==> Whole(resource))
    && (Lead(resource) == 0 ==> found == Target(resource))
  }

  /** Whatever the parser is content with comes from the line. */
  lemma ParsedOrigin(w: World, buf: bytes)
    requires Moves(Line(w.resource), w.sent, w.p, w.r)
    requires w.r.cnt < REQUEST_MAX && buf == w.r.buf[w.r.cnt := 0]
    ensures Parse(buf).Request? && (w.r.fin || Parse(buf).ended) ==> Origin(w.resource, Parse(buf).resource)
  {
    hide Parse, Line, Origin;
    var line, cnt := Line(w.resource), w.r.cnt;
    MovesFits(line, w.sent, w.p, w.r);
    assert buf[..cnt] == w.r.buf[..cnt] == line[..w.sent][..cnt] == line[..cnt];
    if w.r.fin {
      assert w.r.buf[..cnt] + [] == line[..|line|];
    }
    OriginOf(w.resource, buf, cnt);
  }

  lemma OriginOf(resource: CString, buf: bytes, cnt: nat)
    requires |buf| == REQUEST_MAX && cnt < REQUEST_MAX && cnt <= |Line(resource)|
    requires buf[..cnt] == Line(resource)[..cnt] && buf[cnt] == 0
    ensures Parse(buf).Request? && (cnt == |Line(resource)| || Parse(buf).ended) ==>
      Origin(resource, Parse(buf).resource)
  {
    hide Parse, Whole, Line, Target, Lead, Part;
    ParseAny(resource, buf, cnt);
    PartLies(resource, cnt);
    var word := Part(resource, cnt);
    WholeByFin(resource);
    if word != [] && cnt < |Line(resource)| && Parse(buf).ended {
      EndedBefore(resource, buf, cnt, 4 + |word|);
      WholeByEnd(resource, cnt, word);
    }
  }

  /** An end of line the parser sees has arrived. */
  lemma EndedBefore(resource: CString, buf: bytes, cnt: nat, n: nat)
    requires |buf| == REQUEST_MAX && cnt < REQUEST_MAX && cnt <= |Line(resource)|
    requires buf[..cnt] == Line(resource)[..cnt] && buf[cnt] == 0
    requires n <= cnt && n + 2 <= REQUEST_MAX && buf[n] == CR && buf[n + 1] == NL
    ensures n + 2 <= cnt && Line(resource)[n] == CR && Line(resource)[n + 1] == NL
  {
    assert forall i :: 0 <= i < cnt ==> buf[i] == buf[..cnt][i] == Line(resource)[..cnt][i] == Line(resource)[i];
  }

  lemma WholeByFin(resource: CString)
    ensures |Line(resource)| < REQUEST_MAX && Target(resource) != [] ==> Whole(resource)
  {
  }

  lemma WholeByEnd(resource: CString, cnt: nat, word: bytes)
    requires cnt < REQUEST_MAX && cnt <= |Line(resource)| && word != [] && 4 + |word| + 2 <= cnt
    requires Line(resource)[4 + |word|] == CR && Line(resource)[4 + |word| + 1] == NL
    requires Lead(resource) + |word| <= cnt - 4
    ensures word == Target(resource) ==> Whole(resource)
  {
    hide Word, SkipSpace, Line;
  }

  // ----------------------------------------------------------------- every call keeps it

  lemma ServeHands(w: World, size: nat)
    requires Hands(w)
    ensures var (r, reply) := Serve(w.r, size); Hands(HandedOut(w, r, w.p, reply)) && r == w.r.(offset := r.offset)
    ensures Serve(w.r, size).1.Piece? || Serve(w.r, size).1.Nothing? || Serve(w.r, size).1.NoBuffer?
  {
    hide Origin, Good;
    var (r, reply) := Serve(w.r, size);
    if reply.Piece? {
      assert w.r.resource[..w.r.offset] + w.r.resource[w.r.offset..r.offset] == w.r.resource[..r.offset];
    }
  }

  /** When the parser is content with a good line, it has all of it. */
  lemma ParsedWhole(w: World, buf: bytes)
    requires Moves(Line(w.resource), w.sent, w.p, w.r) && Good(w.resource)
    requires w.r.cnt < REQUEST_MAX && buf == w.r.buf[w.r.cnt := 0]
    ensures Parse(buf).Request? && (w.r.fin || Parse(buf).ended) ==> Parse(buf).resource == w.resource
    ensures w.r.fin ==> Parse(buf).Request?
    ensures w.r.cnt == |Line(w.resource)| ==> Parse(buf) == Request(w.resource, true)
  {
    hide Parse;
    var line, cnt := Line(w.resource), w.r.cnt;
    assert buf[..cnt] == w.r.buf[..cnt] == line[..w.sent][..cnt] == line[..cnt];
    ParsePrefix(w.resource, buf, cnt);
    if w.r.fin {
      assert w.r.buf[..cnt] + [] == line[..|line|];
    }
    assert cnt == |line| ==> Shown(w.resource, cnt) == w.resource;
  }

  lemma ConcludeInv(w: World, size: nat)
    requires Inv(w)
    ensures var (r, reply) := Conclude(w.r, size); Inv(HandedOut(w, r, w.p, reply))
    ensures Good(w.resource) ==> var reply := Conclude(w.r, size).1; reply.Piece? || reply.Nothing? || reply.NoBuffer?
  {
    hide Parse, Serve, Line, Good, Origin;
    if Good(w.resource) {
      MovesFits(Line(w.resource), w.sent, w.p, w.r);
      LineClean(w.resource);
      GoodMeans(w.resource);
    }
    if w.r.cnt < REQUEST_MAX {
      var g := w.r.(buf := w.r.buf[w.r.cnt := 0]);
      assert g.buf[..g.cnt] == w.r.buf[..w.r.cnt];
      var v := w.(r := g);
      if g.resource != [] {
        ServeHands(v, size);
      } else {
        if Good(w.resource) {
          ParsedWhole(w, g.buf);
        }
        ParsedOrigin(w, g.buf);
        var parsed := Parse(g.buf);
        if parsed.Request? && (g.fin || parsed.ended) {
          assert Good(parsed.resource) by {
            GoodMeans(parsed.resource);
          }
          ServeHands(v.(r := g.(resource := parsed.resource)), size);
        }
      }
    }
  }

  lemma GoodMeans(resource: bytes)
    ensures Good(resource) <==> 0 < |resource| <= RESOURCE_CAP && Plain(resource)
  {
  }

  /** A receive keeps the invariant and, for a good resource, reports no error of the protocol. */
  lemma ReceiveInv(w: World, size: nat, answers: seq<Answer>)
    requires Inv(w)
    ensures Inv(Next(w, Receive(size, answers)))
    ensures Good(w.resource) ==> var reply := Recv(w.r, w.p, size, answers).2; !reply.Fatal? && !reply.Proto?
  {
    hide Fetch, Conclude, Moves, Line, Origin, Good;
    MovesFits(Line(w.resource), w.sent, w.p, w.r);
    FetchFits(w.r, w.p, answers);
    FetchMoves(Line(w.resource), w.sent, w.p, w.r, answers);
    FetchEnds(w.r, w.p, answers);
    var (f, q, ending) := Fetch(w.r, w.p, answers);
    var v := w.(r := f, p := q);
    if Good(w.resource) {
      MovesFits(Line(w.resource), v.sent, v.p, v.r);
      LineClean(w.resource);
      GoodMeans(w.resource);
    }
    if ending.GoOn? {
      ConcludeInv(v, size);
    }
  }

  lemma {:induction false} FetchEnds(r: Reader, p: Pipe, answers: seq<Answer>)
    requires Fits(r)
    ensures var (f, _, ending) := Fetch(r, p, answers);
      ending.Return? ==> ending.reply == Broken || (ending.reply == Fatal && f.cnt == REQUEST_MAX)
    decreases |answers|
  {
    if answers != [] && answers[0].Ready? {
      var n := Get(r, p, answers[0].n);
      FetchEnds(Filled(r, p, n), Taken(p, n), answers[1..]);
    }
  }

  // -------------------------------------------------------------------------- all runs

  lemma InvStep(w: World, a: Action)
    requires Inv(w) && Enabled(w, a)
    ensures Inv(Next(w, a)) && Next(w, a).resource == w.resource
  {
    match a
    case Send(n) => SendingInv(w, n);
    case Receive(size, answers) => ReceiveInv(w, size, answers);
  }

  ghost predicate Allowed(w: World, run: seq<Action>)
    requires Inv(w)
    decreases |run|
  {
    run != [] ==> Enabled(w, run[0]) && (InvStep(w, run[0]); Allowed(Next(w, run[0]), run[1..]))
  }

  ghost function After(w: World, run: seq<Action>): (v: World)
    requires Inv(w) && Allowed(w, run)
    ensures Inv(v) && v.resource == w.resource
    decreases |run|
  {
    if run == [] then w
    else
      InvStep(w, run[0]);
      After(Next(w, run[0]), run[1..])
  }

  /** Nothing sent, nothing received, and a receive buffer of any content. */
  function Start(resource: CString, junk: bytes): World {
    World(resource, 0, IDLE, Reader(junk, 0, false, [], 0), [], 0)
  }

  lemma StartInv(resource: CString, junk: bytes)
    requires |junk| == REQUEST_MAX
    ensures Inv(Start(resource, junk))
  {
  }

  /**
   * In every run, for any cutting of the line, any buffer sizes and any buffer content: fin is raised at
   * most once; a good resource is handed out in order, with fin exactly when it is complete; no other
   * resource ever is. Of any resource its first word is handed out, cut at 255 bytes, or less of it; all of
   * it, with fin exactly then, if the resource does not start with white space.
   */
  lemma HqSafety(resource: CString, junk: bytes, run: seq<Action>)
    requires |junk| == REQUEST_MAX
    ensures Inv(Start(resource, junk))
    ensures Allowed(Start(resource, junk), run) ==>
      var w := After(Start(resource, junk), run);
      && w.fins <= 1
      && (Good(resource) ==> w.delivered <= resource && (w.fins == 1 <==> w.delivered == resource))
      && (w.fins == 1 && w.delivered == resource ==> Good(resource))
      && w.delivered <= Target(resource) && (w.fins == 1 ==> w.delivered != [])
      && (Lead(resource) == 0 ==> (w.fins == 1 <==> Target(resource) != [] && w.delivered == Target(resource)))
  {
    StartInv(resource, junk);
    if Allowed(Start(resource, junk), run) {
      HandsMeans(After(Start(resource, junk), run));
    }
  }

  lemma HandsMeans(w: World)
    requires Hands(w)
    ensures Good(w.resource) ==> w.delivered <= w.resource && (w.fins == 1 <==> w.delivered == w.resource)
    ensures w.fins == 1 ==> w.delivered == w.r.resource && Good(w.delivered)
    ensures w.delivered <= Target(w.resource) && (w.fins == 1 ==> w.delivered != [])
    ensures w.fins == 1 && w.delivered == Target(w.resource) ==> Whole(w.resource)
    ensures Lead(w.resource) == 0 ==>
      (w.fins == 1 <==> Target(w.resource) != [] && w.delivered == Target(w.resource))
  {
    hide Good, Target, Lead, Whole;
    assert w.r.resource[..|w.r.resource|] == w.r.resource;
    if Good(w.resource) {
      GoodMeans(w.resource);
    }
  }

  /** Once fin was raised, later calls hand out nothing and raise nothing, whatever still arrives. */
  lemma LaterNothing(w: World, size: nat, answers: seq<Answer>)
    requires Inv(w) && w.fins == 1
    ensures var v := Next(w, Receive(size, answers)); v.delivered == w.delivered && v.fins == w.fins
  {
    hide Fetch, Parse;
    FetchFits(w.r, w.p, answers);
    FetchEnds(w.r, w.p, answers);
  }

  lemma NothingToFetch(r: Reader, p: Pipe, answers: seq<Answer>)
    requires Fits(r) && p.flight == [] && forall i :: 0 <= i < |answers| ==> answers[i].Ready?
    requires r.cnt < REQUEST_MAX
    ensures var (f, _, ending) := Fetch(r, p, answers); ending.GoOn? && f == r.(fin := f.fin)
  {
    if answers != [] {
      var f := Filled(r, p, 0);
      assert f.buf == r.buf;
    }
  }

  /** Handing out the next part of a resource makes the part handed out longer. */
  lemma HandsMore(resource: bytes, k: nat, size: nat)
    requires k <= |resource| && size >= 2
    ensures var n := |resource|;
      && (k < n ==> resource[..k] + resource[k..k + Min(n - k, size - 1)] == resource[..Min(n, k + size - 1)])
      && (k == n ==> resource[..k] == resource[..Min(n, k + size - 1)])
  {
  }

  /** What a reader with the whole line serves. */
  lemma ConcludeServes(f: Reader, resource: CString, size: nat)
    requires Fits(f) && f.cnt < REQUEST_MAX && resource != [] && |resource| <= RESOURCE_CAP
    requires f.resource == [] || f.resource == resource
    ensures Parse(f.buf[f.cnt := 0]) == Request(resource, true) ==>
      Conclude(f, size) == Serve(f.(buf := f.buf[f.cnt := 0], resource := resource), size)
  {
    hide Parse, Serve;
  }

  lemma GoodHands(w: World)
    requires Hands(w) && Good(w.resource)
    ensures w.r.resource == [] || w.r.resource == w.resource
    ensures w.r.offset == |w.delivered| && w.delivered <= w.r.resource
  {
    hide Good, Origin;
  }

  /** When the line has arrived, a call with room for a byte hands out as much as there is room for. */
  lemma Progress(w: World, size: nat, answers: seq<Answer>)
    requires Inv(w) && Good(w.resource) && w.r.cnt == |Line(w.resource)| && size >= 2
    requires forall i :: 0 <= i < |answers| ==> answers[i].Ready?
    ensures Next(w, Receive(size, answers)).delivered == w.resource[..Min(|w.resource|, |w.delivered| + size - 1)]
  {
    hide Fetch, Parse, Line, Conclude, Moves, Hands, Good;
    GoodMeans(w.resource);
    GoodHands(w);
    MovesFits(Line(w.resource), w.sent, w.p, w.r);
    LineClean(w.resource);
    FetchMoves(Line(w.resource), w.sent, w.p, w.r, answers);
    NothingToFetch(w.r, w.p, answers);
    var (f, q, _) := Fetch(w.r, w.p, answers);
    ParsedWhole(w.(r := f, p := q), f.buf[f.cnt := 0]);
    ConcludeServes(f, w.resource, size);
    assert w.delivered == w.resource[..|w.delivered|];
    HandsMore(w.resource, |w.delivered|, size);
  }

  // ------------------------------------------------------------------------- exactness

  /** Some run hands the resource out whole. */
  ghost predicate Deliverable(resource: CString, junk: bytes)
    requires Inv(Start(resource, junk))
  {
    exists run: seq<Action> :: Allowed(Start(resource, junk), run) && Served(After(Start(resource, junk), run))
  }

  ghost predicate Served(w: World) {
    w.fins == 1 && w.delivered == w.resource
  }

  /** The line in one piece, and a buffer that holds the resource. */
  lemma OneShot(resource: CString, junk: bytes)
    requires |junk| == REQUEST_MAX && Good(resource) && Inv(Start(resource, junk))
    ensures Deliverable(resource, junk)
  {
    hide Recv, Line, Origin, Good;
    var w, n := Start(resource, junk), |Line(resource)|;
    LineClean(resource);
    var v := Sending(w, n);
    SendingInv(w, n);
    assert v.p == Pipe(Line(resource), true, false) by {
      assert [] + Line(resource)[0..n] == Line(resource);
    }
    OneReceive(v);
    TwoSteps(w, Send(n), Receive(|resource| + 1, [Ready(n)]));
  }

  lemma TwoSteps(w: World, a: Action, b: Action)
    requires Inv(w) && Enabled(w, a) && Inv(Next(w, a)) && Enabled(Next(w, a), b)
    ensures Allowed(w, [a, b]) && After(w, [a, b]) == Next(Next(w, a), b)
  {
    hide Hands, Next, Enabled;
    InvStep(w, a);
    InvStep(Next(w, a), b);
    assert [a, b][1..] == [b] && [b][1..] == [];
    var u := Next(Next(w, a), b);
    assert Allowed(u, []) && After(u, []) == u;
    assert Allowed(Next(w, a), [b]) && After(Next(w, a), [b]) == u;
  }

  lemma OneReceive(v: World)
    requires Inv(v) && Good(v.resource) && v.r.cnt == 0 && v.r.resource == []
    requires v.p == Pipe(Line(v.resource), true, false)
    ensures Served(Next(v, Receive(|v.resource| + 1, [Ready(|Line(v.resource)|)])))
  {
    hide Parse, Line;
    var n := |Line(v.resource)|;
    MovesFits(Line(v.resource), v.sent, v.p, v.r);
    LineClean(v.resource);
    FetchMoves(Line(v.resource), v.sent, v.p, v.r, [Ready(n)]);
    assert v.p.flight[..n] == v.p.flight;
    var (f, q, ending) := Fetch(v.r, v.p, [Ready(n)]);
    ParsedWhole(v.(r := f, p := q), f.buf[f.cnt := 0]);
    GoodMeans(v.resource);
  }

  /** A resource can be handed out exactly if it is not empty, at most 255 bytes long and free of white space. */
  lemma HqExact(resource: CString, junk: bytes)
    requires |junk| == REQUEST_MAX
    ensures Inv(Start(resource, junk)) && (Deliverable(resource, junk) <==> Good(resource))
  {
    StartInv(resource, junk);
    if Good(resource) {
      OneShot(resource, junk);
    }
    if Deliverable(resource, junk) {
      var run: seq<Action> :| Allowed(Start(resource, junk), run) && Served(After(Start(resource, junk), run));
      HqSafety(resource, junk, run);
    }
  }
  // ----------------------------------------------------- any resource's word, exactly

  /** Some run hands out the whole first word of the resource, with fin. */
  ghost predicate Findable(resource: CString, junk: bytes)
    requires Inv(Start(resource, junk))
  {
    exists run: seq<Action> :: Allowed(Start(resource, junk), run) && Found(After(Start(resource, junk), run))
  }

  ghost predicate Found(w: World) {
    w.fins == 1 && w.delivered == Target(w.resource)
  }

  lemma {:induction false} SkipReaches(a: bytes, b: bytes)
    requires a <= b && SkipSpace(a) == []
    ensures |b| - |SkipSpace(b)| >= |a|
  {
    if a != [] {
      assert b[0] == a[0] && a[1..] <= b[1..];
      SkipReaches(a[1..], b[1..]);
    }
  }

  /** A part of the line that holds the target shows it whole. */
  lemma TailHolds(resource: CString, tail: CString)
    requires tail <= resource + [CR, NL] && Target(resource) != [] && Lead(resource) + |Target(resource)| <= |tail|
    ensures Word(SkipSpace(tail), RESOURCE_CAP) == Target(resource)
  {
    hide SkipSpace, Word;
    TailWord(resource, tail);
    TargetOfLine(resource);
    WordOfNothing(RESOURCE_CAP);
    if SkipSpace(tail) == [] {
      SkipReaches(tail, resource + [CR, NL]);
      assert false;
    }
    WordOfSome(SkipSpace(tail));
  }

  lemma WordOfSome(s: CString)
    requires s != [] && !IsSpace(s[0])
    ensures Word(s, RESOURCE_CAP) != []
  {
  }

  /** How much of the line lets the parser find the whole word. */
  function Enough(resource: CString): nat {
    var n := |Target(resource)|;
    if |Line(resource)| < REQUEST_MAX then |Line(resource)|
    else if Lead(resource) < 2 then 4 + n + 2 else 4 + Lead(resource) + n
  }

  lemma EnoughParses(resource: CString, buf: bytes)
    requires Whole(resource) && |buf| == REQUEST_MAX
    requires Enough(resource) < REQUEST_MAX && Enough(resource) <= |Line(resource)|
    requires buf[..Enough(resource)] == Line(resource)[..Enough(resource)] && buf[Enough(resource)] == 0
    ensures Parse(buf).Request? && Parse(buf).resource == Target(resource)
    ensures Enough(resource) == |Line(resource)| || Parse(buf).ended
  {
    hide Parse, Word, SkipSpace, Line, Part;
    LineClean(resource);
    var k := Enough(resource);
    ParseAny(resource, buf, k);
    LeadFits(resource);
    PartHolds(resource, k);
    if k < |Line(resource)| {
      var n := 4 + |Target(resource)|;
      SameAt(buf, Line(resource), k, n);
      SameAt(buf, Line(resource), k, n + 1);
    }
  }

  lemma PartHolds(resource: CString, cnt: nat)
    requires cnt <= |Line(resource)| && Target(resource) != [] && 4 + Lead(resource) + |Target(resource)| <= cnt
    ensures Part(resource, cnt) == Target(resource)
  {
    hide SkipSpace, Word, Target, Lead, Line;
    TargetNonempty(resource, cnt);
    TailIs(resource, cnt);
    TailHolds(resource, Tail(resource, cnt));
  }

  lemma TargetNonempty(resource: CString, cnt: nat)
    requires Target(resource) != [] && 4 + Lead(resource) + |Target(resource)| <= cnt
    ensures 4 < cnt
  {
  }

  lemma SameAt(a: bytes, b: bytes, k: nat, i: nat)
    requires i < k <= |a| && k <= |b| && a[..k] == b[..k]
    ensures a[i] == b[i]
  {
    assert a[..k][i] == b[..k][i];
  }

  lemma LeadFits(resource: CString)
    requires Target(resource) != []
    ensures Lead(resource) + |Target(resource)| <= |resource| && |Target(resource)| <= RESOURCE_CAP
  {
  }

  lemma EnoughFits(resource: CString)
    requires Whole(resource)
    ensures 4 < Enough(resource) < REQUEST_MAX && Enough(resource) <= |Line(resource)|
  {
    hide Word, SkipSpace, Line;
    LineClean(resource);
    LeadFits(resource);
  }

  /** A first receive that gets all there is. */
  lemma FetchOnce(r: Reader, p: Pipe, k: nat)
    requires Fits(r) && r.cnt == 0 && |p.flight| == k && 0 < k < REQUEST_MAX
    ensures var f := Filled(r, p, k);
      && Fetch(r, p, [Ready(k)]) == (f, Taken(p, k), GoOn) && Fits(f)
      && f.cnt == k && f.buf[..k] == p.flight && f.resource == r.resource && f.offset == r.offset
      && f.fin == CarriesFin(p, k)
  {
    var f := Filled(r, p, k);
    assert Get(r, p, k) == k && p.flight[..k] == p.flight;
    assert [Ready(k)][1..] == [];
    assert Fetch(f, Taken(p, k), []) == (f, Taken(p, k), GoOn);
  }

  lemma FindsWord(v: World)
    requires Inv(v) && Whole(v.resource) && v.r.cnt == 0 && v.r.resource == [] && v.fins == 0 && v.delivered == []
    requires Enough(v.resource) < REQUEST_MAX && 4 < Enough(v.resource) <= |Line(v.resource)|
    requires v.p == Pipe(Line(v.resource)[..Enough(v.resource)], Enough(v.resource) == |Line(v.resource)|, false)
    ensures Found(Next(v, Receive(|Target(v.resource)| + 1, [Ready(Enough(v.resource))])))
  {
    hide Parse, Line, Whole, Target, Origin, Enough, Good, Fetch;
    var k := Enough(v.resource);
    MovesFits(Line(v.resource), v.sent, v.p, v.r);
    FetchOnce(v.r, v.p, k);
    var f := Filled(v.r, v.p, k);
    EnoughParses(v.resource, f.buf[k := 0]);
    assert Target(v.resource)[0..|Target(v.resource)|] == Target(v.resource);
    TargetNotEmpty(v.resource);
  }

  lemma TargetNotEmpty(resource: CString)
    requires Whole(resource)
    ensures Target(resource) != []
  {
  }

  /**
   * Of every resource, of whatever bytes and length, the first word, cut at 255 bytes, can be handed out
   * whole exactly if there is one and either the line fits the buffer or the word does and CR LF stands
   * where the parser looks for it.
   */
  lemma HqWhole(resource: CString, junk: bytes)
    requires |junk| == REQUEST_MAX
    ensures Inv(Start(resource, junk)) && (Findable(resource, junk) <==> Whole(resource))
  {
    hide Recv, Whole, Target, Enough, Line;
    StartInv(resource, junk);
    if Whole(resource) {
      var w, k := Start(resource, junk), Enough(resource);
      EnoughFits(resource);
      SendingInv(w, k);
      var v := Sending(w, k);
      assert v.p == Pipe(Line(resource)[..k], k == |Line(resource)|, false) by {
        assert [] + Line(resource)[0..k] == Line(resource)[..k];
      }
      FindsWord(v);
      TwoSteps(w, Send(k), Receive(|Target(resource)| + 1, [Ready(k)]));
    }
    if Findable(resource, junk) {
      var run: seq<Action> :| Allowed(Start(resource, junk), run) && Found(After(Start(resource, junk), run));
      HandsMeans(After(Start(resource, junk), run));
    }
  }

  /** The resource "a b" is handed out as "a", with fin. */
  lemma SpaceCuts(junk: bytes)
    requires |junk| == REQUEST_MAX
    ensures Target([97, 32, 98]) == [97] && Inv(Start([97, 32, 98], junk)) && Findable([97, 32, 98], junk)
  {
    var resource: CString := [97, 32, 98];
    SkipNothing(resource);
    WordIs(resource, [97], RESOURCE_CAP);
    HqWhole(resource, junk);
  }
  /** Two spaces, CR LF and "abc". */
  const SPACED: CString := [32, 32, CR, NL, 97, 98, 99]

  /** A resource that starts with white space can be cut short: here "ab" is handed out for it, with fin. */
  lemma SpacedCutShort(junk: bytes) returns (run: seq<Action>)
    requires |junk| == REQUEST_MAX
    ensures Target(SPACED) == [97, 98, 99]
    ensures Inv(Start(SPACED, junk)) && Allowed(Start(SPACED, junk), run)
    ensures var w := After(Start(SPACED, junk), run); w.delivered == [97, 98] && w.fins == 1
  {
    hide Recv, Good;
    StartInv(SPACED, junk);
    var w := Start(SPACED, junk);
    SpacedWords();
    LineClean(SPACED);
    SendingInv(w, 10);
    var v := Sending(w, 10);
    assert v.p == Pipe(Line(SPACED)[..10], false, false) by {
      assert [] + Line(SPACED)[0..10] == Line(SPACED)[..10];
    }
    SpacedReceive(v);
    run := [Send(10), Receive(3, [Ready(10)])];
    TwoSteps(w, Send(10), Receive(3, [Ready(10)]));
  }

  lemma SpacedWords()
    ensures |Line(SPACED)| == 13 && Target(SPACED) == [97, 98, 99] && Part(SPACED, 10) == [97, 98]
  {
    hide SkipSpace, Word;
    assert SPACED[4..] == [97, 98, 99];
    SpacedWord(SPACED, [97, 98, 99]);
    assert Tail(SPACED, 10) == SPACED[..6] && SPACED[..6][4..] == [97, 98];
    SpacedWord(SPACED[..6], [97, 98]);
  }

  lemma SpacedWord(s: CString, word: CString)
    requires |s| >= 4 && IsSpace(s[0]) && IsSpace(s[1]) && IsSpace(s[2]) && IsSpace(s[3])
    requires s[4..] == word && word != [] && Plain(word) && |word| <= RESOURCE_CAP
    ensures Word(SkipSpace(s), RESOURCE_CAP) == word
  {
    hide SkipSpace, Word;
    assert |s| > 4 && s[4] == word[0];
    SkipTo(s, 4);
    WordIs(word, word, RESOURCE_CAP);
  }

  lemma {:induction false} SkipTo(s: bytes, k: nat)
    requires k <= |s| && (forall i :: 0 <= i < k ==> IsSpace(s[i])) && (k < |s| ==> !IsSpace(s[k]))
    ensures SkipSpace(s) == s[k..]
    decreases k
  {
    if k > 0 {
      SkipTo(s[1..], k - 1);
      assert s[1..][k - 1..] == s[k..];
    }
  }

  lemma SpacedReceive(v: World)
    requires Inv(v) && v.resource == SPACED && v.r.cnt == 0 && v.r.resource == [] && v.fins == 0 && v.delivered == []
    requires |Line(SPACED)| == 13 && v.p == Pipe(Line(SPACED)[..10], false, false)
    ensures var u := Next(v, Receive(3, [Ready(10)])); u.delivered == [97, 98] && u.fins == 1
  {
    hide Parse, Origin, Good, Fetch, Line;
    MovesFits(Line(SPACED), v.sent, v.p, v.r);
    FetchOnce(v.r, v.p, 10);
    var f := Filled(v.r, v.p, 10);
    SpacedParses(f.buf[10 := 0]);
    assert [97, 98][0..2] == [97, 98];
  }

  lemma SpacedParses(buf: bytes)
    requires |buf| == REQUEST_MAX && |Line(SPACED)| == 13 && buf[..10] == Line(SPACED)[..10] && buf[10] == 0
    ensures Parse(buf) == Request([97, 98], true)
  {
    hide Parse, Part;
    ParseAny(SPACED, buf, 10);
    SpacedWords();
    SameAt(buf, Line(SPACED), 10, 6);
    SameAt(buf, Line(SPACED), 10, 7);
  }
}
