/** The incremental parser of the "GET name" and "PUSH name" headers. */
module InteropHeader {
  import opened Bytes
  import opened InteropPath

  /** The line buffer holds 1030 bytes, the last kept for the terminating NUL. */
  const LINE_SIZE: nat := PATH_MAX + 6
  const LINE_MAX: nat := LINE_SIZE - 1

  const PUSH: bytes := [80, 85, 83, 72, 32]
  const GET: bytes := [71, 69, 84, 32]

  function Prefix(push: bool): bytes {
    if push then PUSH else GET
  }

  predicate Printable(b: byte) {
    0x20 <= b <= 0x7e
  }

  predicate AllPrintable(s: bytes) {
    forall i :: 0 <= i < |s| ==> Printable(s[i])
  }

  datatype Header = Header(line: bytes, complete: bool)

  const EMPTY := Header([], false)

  /** The results 0, 1 and -1. */
  datatype Verdict = More | Accept | Reject

  datatype Stop = Dry | Newline | Bad

  /** How much of data is taken over: printable bytes, as long as there is room. */
  function Run(data: bytes, room: nat): (k: nat)
    ensures k <= |data| && k <= room
    ensures forall i :: 0 <= i < k ==> Printable(data[i])
    ensures k < |data| && k < room ==> !Printable(data[k])
  {
    if data == [] || room == 0 || !Printable(data[0]) then 0 else 1 + Run(data[1..], room - 1)
  }

  /** Reading data behind line: the new line, how many bytes were consumed, and why it stopped. */
  function Scan(line: bytes, data: bytes, push: bool): (r: (bytes, nat, Stop))
    requires |line| <= LINE_MAX
    ensures r.1 <= |data| && |r.0| <= LINE_MAX && (r.2 == Newline ==> push)
  {
    var k := Run(data, LINE_MAX - |line|);
    (line + data[..k],
     if k == |data| then k else k + 1,
     if k == |data| then Dry else if push && data[k] == NL then Newline else Bad)
  }

  ghost predicate Names(line: bytes, push: bool) {
    Prefix(push) < line && Legal(line[|Prefix(push)|..])
  }

  /** xqc_wt_interop_header_feed: the new header, the result, and how many bytes were consumed. */
  ghost function Feed(h: Header, data: bytes, fin: bool, push: bool): (r: (Header, Verdict, nat))
    requires |h.line| <= LINE_MAX
    ensures r.2 <= |data| && |r.0.line| <= LINE_MAX
  {
    if h.complete then (h, Accept, 0)
    else
      var (line, n, stop) := Scan(h.line, data, push);
      var done := stop == Newline || (stop == Dry && !push && fin);
      var verdict :=
        if stop == Bad then Reject
        else if !done then if fin then Reject else More
        else if Names(line, push) then Accept else Reject;
      (Header(line, done), verdict, n)
  }

  // ------------------------------------------------------------- any chunking is one call

  /** The calls for the chunks of a stream until one decides; the FIN comes with the last chunk. */
  ghost function FeedAll(h: Header, chunks: seq<bytes>, fin: bool, push: bool): (Header, Verdict, nat)
    requires chunks != [] && |h.line| <= LINE_MAX
    decreases |chunks|
  {
    if |chunks| == 1 then Feed(h, chunks[0], fin, push)
    else
      var (g, verdict, n) := Feed(h, chunks[0], false, push);
      if verdict != More then (g, verdict, n)
      else
        var (g', verdict', n') := FeedAll(g, chunks[1..], fin, push);
        (g', verdict', n + n')
  }

  function Concat(chunks: seq<bytes>): bytes {
    if chunks == [] then [] else chunks[0] + Concat(chunks[1..])
  }

  /** What determines the run. */
  lemma RunIs(data: bytes, room: nat, k: nat)
    requires k <= |data| && k <= room && forall i :: 0 <= i < k ==> Printable(data[i])
    requires k == |data| || k == room || !Printable(data[k])
    ensures Run(data, room) == k
  {
  }

  lemma RunSplit(a: bytes, b: bytes, room: nat)
    ensures var k := Run(a, room);
      Run(a + b, room) == if k == |a| then k + Run(b, room - k) else k
  {
    hide Run;
    var k := Run(a, room);
    var all := if k == |a| then k + Run(b, room - k) else k;
    assert forall i :: 0 <= i < all ==> (a + b)[i] == if i < |a| then a[i] else b[i - |a|];
    RunIs(a + b, room, all);
  }

  lemma ScanStops(line: bytes, a: bytes, b: bytes, push: bool)
    requires |line| <= LINE_MAX && Scan(line, a, push).2 != Dry
    ensures Scan(line, a + b, push) == Scan(line, a, push)
  {
    hide Run;
    RunSplit(a, b, LINE_MAX - |line|);
    var k := Run(a, LINE_MAX - |line|);
    assert (a + b)[..k] == a[..k] && (a + b)[k] == a[k];
  }

  lemma ScanGoesOn(line: bytes, a: bytes, b: bytes, push: bool)
    requires |line| <= LINE_MAX && Scan(line, a, push).2 == Dry
    ensures var s, t := Scan(line, a + b, push), Scan(line + a, b, push);
      s.0 == t.0 && s.1 == |a| + t.1 && s.2 == t.2
    ensures Scan(line, a, push) == (line + a, |a|, Dry)
  {
    hide Run;
    RunSplit(a, b, LINE_MAX - |line|);
    assert a[..|a|] == a;
    var m := Run(b, LINE_MAX - |line + a|);
    assert line + (a + b)[..|a| + m] == line + a + b[..m];
    assert m < |b| ==> (a + b)[|a| + m] == b[m];
  }

  lemma FeedSplit(h: Header, a: bytes, b: bytes, fin: bool, push: bool)
    requires !h.complete && |h.line| <= LINE_MAX
    ensures var (g, verdict, n) := Feed(h, a, false, push);
      Feed(h, a + b, fin, push) ==
        if verdict != More then (g, verdict, n)
        else (Feed(g, b, fin, push).0, Feed(g, b, fin, push).1, n + Feed(g, b, fin, push).2)
    ensures Feed(h, a, false, push).1 == More ==> !Feed(h, a, false, push).0.complete
  {
    hide Scan;
    if Scan(h.line, a, push).2 == Dry {
      ScanGoesOn(h.line, a, b, push);
    } else {
      ScanStops(h.line, a, b, push);
    }
  }

  /** However the bytes are cut up, the header, the result and where the payload starts are the same. */
  lemma {:induction false} ChunkingIndependent(h: Header, chunks: seq<bytes>, fin: bool, push: bool)
    requires chunks != [] && !h.complete && |h.line| <= LINE_MAX
    ensures FeedAll(h, chunks, fin, push) == Feed(h, Concat(chunks), fin, push)
    decreases |chunks|
  {
    if |chunks| == 1 {
      assert Concat(chunks) == chunks[0];
    } else {
      hide Feed;
      FeedSplit(h, chunks[0], Concat(chunks[1..]), fin, push);
      var (g, verdict, n) := Feed(h, chunks[0], false, push);
      if verdict == More {
        ChunkingIndependent(g, chunks[1..], fin, push);
      }
    }
  }

  // ------------------------------------------------------------------ what is accepted

  lemma ScanNewline(line: bytes, text: bytes, rest: bytes)
    requires AllPrintable(text) && |line| + |text| <= LINE_MAX
    ensures Scan(line, text + [NL] + rest, true) == (line + text, |text| + 1, Newline)
  {
    var data := text + [NL] + rest;
    assert data[..|text|] == text && data[|text|] == NL;
    RunIs(data, LINE_MAX - |line|, |text|);
  }

  lemma ScanDry(line: bytes, text: bytes, push: bool)
    requires |line| <= LINE_MAX
    ensures Scan(line, text, push).2 == Dry <==> AllPrintable(text) && |line| + |text| <= LINE_MAX
    ensures Scan(line, text, push).2 == Dry ==> Scan(line, text, push) == (line + text, |text|, Dry)
  {
    assert text[..|text|] == text;
    if AllPrintable(text) && |line| + |text| <= LINE_MAX {
      RunIs(text, LINE_MAX - |line|, |text|);
    }
  }

  lemma {:induction false} JoinPrintable(parts: seq<bytes>)
    requires AllGood(parts)
    ensures AllPrintable(Join(parts))
  {
    if |parts| > 1 {
      JoinPrintable(parts[1..]);
    }
    assert parts != [] ==> GoodPart(parts[0]);
  }

  lemma LegalFits(path: bytes, push: bool)
    requires Legal(path)
    ensures AllPrintable(Prefix(push) + path) && |path| > 0 && |Prefix(push) + path| <= LINE_MAX
  {
    LegalParts(path);
    JoinParts(path);
    JoinPrintable(Parts(path));
    assert GoodPart(Parts(path)[0]);
  }

  lemma NamesPrefix(path: bytes, push: bool)
    requires Legal(path)
    ensures Names(Prefix(push) + path, push)
  {
    LegalFits(path, push);
    assert (Prefix(push) + path)[|Prefix(push)|..] == path;
  }

  /** Data is a header for path, followed by rest. */
  ghost predicate Spells(data: bytes, fin: bool, push: bool, path: bytes, rest: bytes) {
    && Legal(path)
    && (push ==> data == PUSH + path + [NL] + rest)
    && (!push ==> fin && rest == [] && data == GET + path)
  }

  lemma SpeltAccepted(data: bytes, fin: bool, push: bool, path: bytes, rest: bytes)
    requires Spells(data, fin, push, path, rest)
    ensures Feed(EMPTY, data, fin, push) == (Header(Prefix(push) + path, true), Accept, |data| - |rest|)
  {
    hide Scan, Names, Legal, AllPrintable;
    LegalFits(path, push);
    NamesPrefix(path, push);
    var line := Prefix(push) + path;
    assert [] + line == line;
    if push {
      assert data == line + [NL] + rest;
      ScanNewline([], line, rest);
    } else {
      ScanDry([], line, push);
    }
  }

  lemma ScanEnded(data: bytes, push: bool)
    requires Scan([], data, push).2 == Newline
    ensures push && data == Scan([], data, push).0 + [NL] + data[Scan([], data, push).1..]
  {
    hide Run;
    var k := Run(data, LINE_MAX);
    assert data == data[..k] + [data[k]] + data[k + 1..];
  }

  lemma PrefixSplit(line: bytes, prefix: bytes)
    requires prefix <= line
    ensures prefix + line[|prefix|..] == line
  {
  }

  lemma AcceptedSpells(data: bytes, fin: bool, push: bool)
    requires Feed(EMPTY, data, fin, push).1 == Accept
    ensures var (h, _, n) := Feed(EMPTY, data, fin, push);
      && h.complete && Prefix(push) <= h.line
      && Spells(data, fin, push, h.line[|Prefix(push)|..], data[n..])
  {
    hide Scan, Legal;
    PrefixSplit(Scan([], data, push).0, Prefix(push));
    if push {
      ScanEnded(data, push);
    } else {
      ScanDry([], data, push);
      assert [] + data == data;
    }
  }

  /**
   * The exact language: accepted is a prefix with a legal path, ended by a newline (PUSH) or by the
   * FIN (GET); more is awaited just while a printable line that fits has no end; all else is rejected.
   */
  lemma HeaderLanguage(data: bytes, fin: bool, push: bool)
    ensures Feed(EMPTY, data, fin, push).1 == Accept <==> exists path, rest :: Spells(data, fin, push, path, rest)
    ensures Feed(EMPTY, data, fin, push).1 == More <==> !fin && AllPrintable(data) && |data| <= LINE_MAX
  {
    ScanDry([], data, push);
    if Feed(EMPTY, data, fin, push).1 == Accept {
      AcceptedSpells(data, fin, push);
    }
    forall path, rest | Spells(data, fin, push, path, rest)
      ensures Feed(EMPTY, data, fin, push).1 == Accept
    {
      SpeltAccepted(data, fin, push, path, rest);
    }
  }

  // ------------------------------------------------------------------- the record

  class HeaderBuffer {
    const line: array<byte>
    var length: nat
    var complete: bool

    ghost predicate Valid()
      reads this, line
    {
      && line.Length == LINE_SIZE && length <= LINE_MAX
      && forall i :: 0 <= i < length ==> Printable(line[i])
    }

    ghost function State(): Header
      requires Valid()
      reads this, line
    {
      Header(line[..length], complete)
    }

    constructor ()
      ensures Valid() && fresh(line) && State() == EMPTY
    {
      line := new byte[LINE_SIZE];
      length, complete := 0, false;
    }

    method StartsWith(prefix: bytes) returns (b: bool)
      requires Valid()
      ensures b <==> prefix < line[..length]
    {
      if length <= |prefix| {
        return false;
      }
      for i := 0 to |prefix|
        invariant prefix[..i] == line[..i]
      {
        if line[i] != prefix[i] {
          assert prefix[i] != line[..length][i];
          return false;
        }
      }
      assert prefix[..|prefix|] == prefix;
      return true;
    }

    /** The loop over the bytes. */
    method Take(data: bytes, push: bool) returns (stop: Stop, consumed: nat)
      requires Valid()
      modifies this`length, line
      ensures Valid() && (line[..length], consumed, stop) == Scan(old(line[..length]), data, push)
    {
      hide Run;
      ghost var before := line[..length];
      consumed := 0;
      while consumed < |data|
        invariant consumed <= |data| && Valid()
        invariant length == |before| + consumed && line[..length] == before + data[..consumed]
        invariant forall i :: 0 <= i < consumed ==> Printable(data[i])
      {
        var ch := data[consumed];
        if (push && ch == NL) || ch < 0x20 || ch > 0x7e || length == LINE_MAX {
          RunIs(data, LINE_MAX - |before|, consumed);
          return if push && ch == NL then Newline else Bad, consumed + 1;
        }
        line[length] := ch;
        length, consumed := length + 1, consumed + 1;
        assert line[..length] == before + data[..consumed - 1] + [ch];
      }
      RunIs(data, LINE_MAX - |before|, consumed);
      return Dry, consumed;
    }

    /** The check of a complete line. */
    method Judge(push: bool) returns (ok: bool)
      requires Valid()
      ensures ok <==> Names(line[..length], push)
    {
      hide Legal;
      ok := StartsWith(Prefix(push));
      if ok {
        assert forall b :: b in line[|Prefix(push)|..length] ==> b != 0;
        ok := ValidPath(line[|Prefix(push)|..length]);
        assert line[..length][|Prefix(push)|..] == line[|Prefix(push)|..length];
      }
    }

    method HeaderFeed(data: bytes, fin: bool, push: bool) returns (verdict: Verdict, consumed: nat)
      requires Valid()
      modifies this, line
      ensures Valid() && (State(), verdict, consumed) == Feed(old(State()), data, fin, push)
      ensures verdict == Accept && !old(complete) ==> line[length] == 0
    {
      hide Scan, Names;
      if complete {
        return Accept, 0;
      }
      var stop;
      stop, consumed := Take(data, push);
      if stop == Bad {
        return Reject, consumed;
      }
      ghost var text := line[..length];
      line[length] := 0;
      assert line[..length] == text;
      complete := stop == Newline || (!push && fin);
      if !complete {
        return if fin then Reject else More, consumed;
      }
      var ok := Judge(push);
      return if ok then Accept else Reject, consumed;
    }
  }
}
