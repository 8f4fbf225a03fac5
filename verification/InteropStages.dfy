/** One request and one answer of the file transfer, piece by piece. */
module InteropStages {
  import opened Bytes
  import opened Pipes
  import opened InteropPath
  import opened InteropHeader
  import opened InteropSender
  import opened InteropRequester

  // ------------------------------------------------------------------ one direction

  /** Whether the session is still up at the requester and at the responder. */
  datatype Session = Session(asker: bool, answerer: bool)

  /** A pipe with all that was ever accepted, all that was ever delivered, and the accepted FINs. */
  datatype Line = Line(pipe: Pipe, wire: bytes, got: bytes, fins: nat)

  const SILENT := Line(IDLE, [], [], 0)

  function SendLine(l: Line, wrote: bytes, fins: nat): Line {
    Line(Offered(l.pipe, wrote, fins > 0), l.wire + wrote, l.got, l.fins + fins)
  }

  function ReadLine(l: Line, n: nat): Line
    requires n <= |l.pipe.flight|
  {
    Line(Taken(l.pipe, n), l.wire, l.got + l.pipe.flight[..n], l.fins)
  }

  /** The sender works through msg, and what it wrote was delivered or is in flight. */
  ghost predicate Conveys(msg: bytes, s: Sender, l: Line) {
    && Carries(msg, l.wire, l.fins, s)
    && l.wire == l.got + l.pipe.flight
    && (l.pipe.finIn <==> l.fins == 1)
    && (l.pipe.finOut ==> l.pipe.finIn && l.pipe.flight == [])
  }

  lemma SendConveys(msg: bytes, s: Sender, l: Line, turns: seq<Turn>)
    requires Conveys(msg, s, l)
    ensures var (e, wrote, fins) := Flush(s, turns); Conveys(msg, e, SendLine(l, wrote, fins))
    ensures l.pipe.finOut ==> Flush(s, turns).1 == []
  {
    hide Flush, Carries;
    CarriesFits(msg, l.wire, l.fins, s);
    var (e, wrote, fins) := Flush(s, turns);
    FlushCarries(msg, l.wire, l.fins, s, turns);
    CarriesMeans(msg, l.wire, l.fins, s);
    CarriesMeans(msg, l.wire + wrote, l.fins + fins, e);
    assert l.got + l.pipe.flight + wrote == l.got + (l.pipe.flight + wrote);
    if l.fins == 1 {
      assert |l.wire + wrote| == |l.wire|;
    }
  }

  lemma ReadConveys(msg: bytes, s: Sender, l: Line, n: nat)
    requires Conveys(msg, s, l) && CanRead(l.pipe, n)
    ensures Conveys(msg, s, ReadLine(l, n))
    ensures ReadLine(l, n).got <= msg && (CarriesFin(l.pipe, n) ==> ReadLine(l, n).got == msg)
  {
    hide Carries;
    CarriesMeans(msg, l.wire, l.fins, s);
    assert l.got + l.pipe.flight == l.got + l.pipe.flight[..n] + l.pipe.flight[n..];
    assert ReadLine(l, n).got <= l.wire;
  }

  // ------------------------------------------------------ the request at the responder

  /** What the responder's record holds of a request of which got has arrived. */
  ghost predicate Questioned(name: bytes, question: Header, got: bytes, over: bool) {
    question == if over then Header(GET + name, true) else Header(got, false)
  }

  lemma FeedMore(got: bytes, data: bytes, fin: bool, push: bool)
    requires AllPrintable(got) && |got| <= LINE_MAX
    ensures var r, all := Feed(Header(got, false), data, fin, push), Feed(EMPTY, got + data, fin, push);
      all.0 == r.0 && all.1 == r.1 && all.2 == |got| + r.2
  {
    hide Scan;
    ScanDry([], got, push);
    assert [] + got == got;
    FeedSplit(EMPTY, got, data, fin, push);
  }

  lemma PrefixPrintable(text: bytes, got: bytes)
    requires AllPrintable(text) && got <= text
    ensures AllPrintable(got)
  {
    assert forall i :: 0 <= i < |got| ==> got[i] == text[i];
  }

  lemma QuestionFed(name: bytes, got: bytes, data: bytes, fin: bool)
    requires Legal(name) && got + data <= GET + name && (fin ==> got + data == GET + name)
    ensures var (h, verdict, _) := Feed(Header(got, false), data, fin, false);
      && Questioned(name, h, got + data, fin) && verdict == (if fin then Accept else More)
  {
    hide Feed, Legal;
    LegalFits(name, false);
    PrefixPrintable(GET + name, got + data);
    PrefixPrintable(got + data, got);
    FeedMore(got, data, fin, false);
    if fin {
      SpeltAccepted(got + data, true, false, name, []);
    } else {
      AwaitsMore(got + data, false);
    }
  }

  lemma AwaitsMore(text: bytes, push: bool)
    requires AllPrintable(text) && |text| <= LINE_MAX
    ensures Feed(EMPTY, text, false, push) == (Header(text, false), More, |text|)
  {
    hide Scan;
    ScanDry([], text, push);
    assert [] + text == text;
  }

  // ------------------------------------------------------- the file at the requester

  lemma ShorterPrefix(a: bytes, b: bytes, c: bytes)
    requires a <= c && b <= c && |a| <= |b|
    ensures a <= b
  {
  }

  /** Where the header of a PUSH ends. */
  lemma PushFed(name: bytes, file: bytes, got: bytes, data: bytes, fin: bool)
    requires Legal(name) && |got| < |PushHeader(name)|
    requires got + data <= PushHeader(name) + file && (fin ==> got + data == PushHeader(name) + file)
    ensures |got| <= LINE_MAX
    ensures var (h, verdict, n) := Feed(Header(got, false), data, fin, true);
      if |got + data| < |PushHeader(name)| then h == Header(got + data, false) && verdict == More
      else h == Header(PUSH + name, true) && verdict == Accept && n == |PushHeader(name)| - |got|
  {
    hide Feed, Legal;
    LegalFits(name, true);
    var text, all := PUSH + name, got + data;
    var line := PushHeader(name);
    assert line + file == text + ([NL] + file);
    ShorterPrefix(got, text, line + file);
    PrefixPrintable(text, got);
    FeedMore(got, data, fin, true);
    if |all| < |line| {
      ShorterPrefix(all, text, line + file);
      PrefixPrintable(text, all);
      AwaitsMore(all, true);
    } else {
      assert all == text + [NL] + all[|line|..];
      SpeltAccepted(all, fin, true, name, all[|line|..]);
    }
  }

  /**
   * What the responder sends for a file: on a stream of its own with a header, on the stream of the request
   * without.
   */
  function Payload(name: bytes, file: bytes, bidi: bool): bytes {
    if bidi then file else PushHeader(name) + file
  }

  function AnswerSender(name: bytes, file: bytes, bidi: bool): Sender {
    if bidi then Sender([], 0, Open(file), false, false) else PushSender(name, file)
  }

  /** The requester's record before anything has arrived for file i. */
  function Awaiting(i: nat, bidi: bool): Incoming {
    if bidi then FRESH.(index := i, bidi := true, sending := true) else FRESH
  }

  function ModeOf(bidi: bool): Mode {
    if bidi then Bidi else Uni
  }

  /** What the requester holds of file i when got of its payload has arrived, over with the FIN. */
  ghost predicate Staged(name: bytes, i: nat, d: Download, s: Incoming, got: bytes, over: bool, bidi: bool)
    requires i < |d.received|
  {
    if bidi then StagedBidi(name, i, d, s, got, over) else StagedPush(name, i, d, s, got, over)
  }

  ghost predicate StagedPush(name: bytes, i: nat, d: Download, s: Incoming, got: bytes, over: bool)
    requires i < |d.received|
  {
    var line := PushHeader(name);
    if |got| < |line| then !over && s == FRESH.(header := Header(got, false)) && d.received[i] == 0
    else
      && s == Incoming(Header(PUSH + name, true), !over, i, over, false, false, true)
      && d.received[i] == (if over then 2 else 1)
      && name in d.disk && d.disk[name] == got[|line|..]
  }

  ghost predicate StagedBidi(name: bytes, i: nat, d: Download, s: Incoming, got: bytes, over: bool)
    requires i < |d.received|
  {
    if got == [] && !over then s == Awaiting(i, true) && d.received[i] == 0
    else
      && s == Awaiting(i, true).(open := !over, complete := over)
      && d.received[i] == (if over then 2 else 1)
      && name in d.disk && d.disk[name] == got
  }

  /** A file that counts as received is what it should be. */
  ghost predicate Right(name: bytes, i: nat, d: Download, file: bytes)
    requires i < |d.received|
  {
    d.received[i] == 2 ==> name in d.disk && d.disk[name] == file
  }

  /** The file now has that content and, with the FIN, is complete, unless the host failed on the way. */
  ghost predicate Stored(name: bytes, i: nat, s: Incoming, e: Download, t: Incoming, content: bytes, fin: bool)
    requires i < |e.received|
  {
    && e.trouble != Peer && t.index == i
    && (e.trouble.Fine? ==>
          t == s.(index := i, open := !fin, complete := fin) && e.received[i] == (if fin then 2 else 1))
    && (e.trouble.Fine? || e.received[i] == 2 ==> name in e.disk && e.disk[name] == content)
    && (e.received[i] == 2 ==> fin)
  }

  lemma StoreStaged(name: bytes, i: nat, d: Download, s: Incoming, before: bytes, data: bytes, fin: bool,
                    datagram: bool, host: HostAnswers)
    requires |d.received| == |d.files| && i < |d.files| && d.files[i] == name && d.received[i] == 1
    requires s.index == i && s.open && !s.complete && d.trouble.Fine?
    requires name in d.disk && d.disk[name] == before
    ensures var (e, t) := Store(d, s, data, fin, datagram, host);
      |e.received| == |d.received| && Stored(name, i, s, e, t, before + data, fin)
  {
    hide Written;
    var (n, ok) := Written(|data|, host.writes);
    assert ok ==> data[..n] == data;
  }

  lemma BeginStaged(name: bytes, i: nat, d: Download, s: Incoming, data: bytes, fin: bool, datagram: bool,
                    host: HostAnswers)
    requires |d.received| == |d.files| && i < |d.files| && d.files[i] == name && d.received[i] == 0
    requires s.index == i && !s.open && !s.complete && d.trouble.Fine?
    ensures var (e, t) := Begin(d, s, data, fin, datagram, host);
      |e.received| == |d.received| && Stored(name, i, s, e, t, data, fin)
  {
    hide Store;
    var e := d.(received := d.received[i := 1]);
    e := e.(disk := e.disk[name := []]);
    StoreStaged(name, i, e, s.(open := true), [], data, fin, datagram, host);
    assert [] + data == data;
  }

  /** A host that refuses nothing while a file is stored. */
  function WillingHost(file: bytes): HostAnswers {
    HostAnswers(true, [Wrote(|file|)], true, true)
  }

  /** A file that arrives in one piece is stored and counted, and behind a datagram the next is asked for. */
  lemma StoredWhole(d: Download, s: Incoming, file: bytes, datagram: bool)
    requires |d.received| == |d.files| && 0 <= s.index < |d.files| && d.trouble.Fine? && !d.success && !s.open
    requires !Clashes(d.disk.Keys, d.files[s.index])
    ensures var e := Begin(d, s, file, true, datagram, WillingHost(file)).0;
      && e.trouble.Fine? && e.received == d.received[s.index := 2] && e.completed == d.completed + 1
      && (e.success <==> e.completed == |d.files|)
      && (datagram && e.completed < |d.files| ==> GET + d.files[e.completed] in e.asked)
      && e.disk.Keys == d.disk.Keys + {d.files[s.index]}
  {
    assert Written(|file|, [Wrote(|file|)]) == (|file|, true);
  }

  /** No two of the files have names that exclude each other. */
  predicate Apart(files: seq<bytes>) {
    forall i, j :: 0 <= i < j < |files| ==> !Clash(files[i], files[j])
  }

  lemma ApartDistinct(files: seq<bytes>)
    requires Apart(files)
    ensures Distinct(files)
  {
  }

  lemma ClashesGrow(names: set<bytes>, other: bytes, name: bytes)
    requires !Clashes(names, name) && !Clash(other, name)
    ensures !Clashes(names + {other}, name)
  {
  }

  lemma NamedStaged(name: bytes, i: nat, d: Download, s: Incoming, data: bytes, fin: bool, host: HostAnswers)
    requires |d.received| == |d.files| && i < |d.files| && d.files[i] == name && d.received[i] == 0 && Distinct(d.files)
    requires !s.open && !s.complete && d.trouble.Fine?
    ensures var (e, t) := ReceiveFile(d, s, Named(name), data, fin, false, host);
      |e.received| == |d.received| && Stored(name, i, s, e, t, data, fin)
  {
    hide Begin;
    assert Find(d.files, Named(name)) == i;
    BeginStaged(name, i, d, s.(index := i), data, fin, false, host);
  }

  /** The next piece of a PUSH, wherever it is cut, takes the file from one stage to the next. */
  lemma ReceivePushStaged(name: bytes, file: bytes, i: nat, d: Download, s: Incoming, got: bytes, data: bytes,
                          fin: bool, host: HostAnswers)
    requires |d.received| == |d.files| && i < |d.files| && d.files[i] == name && Distinct(d.files) && Legal(name)
    requires d.trouble.Fine? && StagedPush(name, i, d, s, got, false)
    requires got + data <= PushHeader(name) + file && (fin ==> got + data == PushHeader(name) + file)
    ensures |s.header.line| <= LINE_MAX
    ensures var (e, t) := Receive(Uni, d, s, data, fin, host);
      && |e.received| == |d.received| && e.trouble != Peer && (t.index == i || t.index == -1)
      && (e.trouble.Fine? ==> StagedPush(name, i, e, t, got + data, fin))
      && Right(name, i, e, file) && (e.received[i] == 2 ==> fin)
  {
    hide Feed, ReceiveFile, Legal, Distinct;
    var line := PushHeader(name);
    LegalFits(name, true);
    if |got| < |line| {
      PushFed(name, file, got, data, fin);
      if |got + data| >= |line| {
        var rest := data[|line| - |got|..];
        var t := s.(header := Header(PUSH + name, true));
        assert (PUSH + name)[|PUSH|..] == name;
        NamedStaged(name, i, d, t, rest, fin, host);
        assert (got + data)[|line|..] == rest;
        FileBehind(line, file, got + data);
      }
    } else {
      AlreadyFed(name, data, fin);
      assert data[0..] == data;
      StoredFile(name, i, d, s, Named(name), data, fin, host);
      assert (got + data)[|line|..] == got[|line|..] + data;
      FileBehind(line, file, got + data);
    }
  }

  /** The same for a file that comes back on the stream of its request. */
  lemma ReceiveBidiStaged(name: bytes, file: bytes, i: nat, d: Download, s: Incoming, got: bytes, data: bytes,
                          fin: bool, host: HostAnswers)
    requires |d.received| == |d.files| && i < |d.files| && d.files[i] == name
    requires d.trouble.Fine? && StagedBidi(name, i, d, s, got, false) && (data != [] || fin)
    requires got + data <= file && (fin ==> got + data == file)
    ensures |s.header.line| <= LINE_MAX
    ensures var (e, t) := Receive(Bidi, d, s, data, fin, host);
      && |e.received| == |d.received| && e.trouble != Peer && t.index == i
      && (e.trouble.Fine? ==> StagedBidi(name, i, e, t, got + data, fin))
      && Right(name, i, e, file) && (e.received[i] == 2 ==> fin)
  {
    hide Begin, Store, Find;
    if got == [] {
      assert Find(d.files, NoName) == -1;
      BeginStaged(name, i, d, s, data, fin, false, host);
      assert [] + data == data;
    } else {
      StoredFile(name, i, d, s, NoName, data, fin, host);
    }
  }

  /** The next piece of a payload, wherever it is cut, takes the file from one stage to the next. */
  lemma ReceiveStaged(name: bytes, file: bytes, i: nat, d: Download, s: Incoming, got: bytes, data: bytes, fin: bool,
                      host: HostAnswers, bidi: bool)
    requires |d.received| == |d.files| && i < |d.files| && d.files[i] == name && Distinct(d.files) && Legal(name)
    requires d.trouble.Fine? && Staged(name, i, d, s, got, false, bidi) && (data != [] || fin)
    requires var all := Payload(name, file, bidi); got + data <= all && (fin ==> got + data == all)
    ensures |s.header.line| <= LINE_MAX && (s.open ==> 0 <= s.index < |d.files|)
    ensures var (e, t) := Receive(ModeOf(bidi), d, s, data, fin, host);
      && |e.received| == |d.received| && e.trouble != Peer && (t.index == i || t.index == -1)
      && (e.trouble.Fine? ==> Staged(name, i, e, t, got + data, fin, bidi))
      && Right(name, i, e, file) && (e.received[i] == 2 ==> fin)
  {
    hide Receive, Legal, Distinct;
    if bidi {
      ReceiveBidiStaged(name, file, i, d, s, got, data, fin, host);
    } else {
      ReceivePushStaged(name, file, i, d, s, got, data, fin, host);
    }
  }

  lemma AlreadyFed(name: bytes, data: bytes, fin: bool)
    requires |PUSH + name| <= LINE_MAX
    ensures Feed(Header(PUSH + name, true), data, fin, true) == (Header(PUSH + name, true), Accept, 0)
  {
  }

  lemma StoredFile(name: bytes, i: nat, d: Download, s: Incoming, called: Name, data: bytes, fin: bool,
                   host: HostAnswers)
    requires |d.received| == |d.files| && i < |d.files| && d.files[i] == name && d.received[i] == 1
    requires s.index == i && s.open && !s.complete && d.trouble.Fine? && name in d.disk
    ensures var (e, t) := ReceiveFile(d, s, called, data, fin, false, host);
      |e.received| == |d.received| && Stored(name, i, s, e, t, d.disk[name] + data, fin)
  {
    StoreStaged(name, i, d, s, d.disk[name], data, fin, false, host);
  }

  lemma FileBehind(line: bytes, file: bytes, all: bytes)
    requires |all| >= |line|
    ensures all == line + file ==> all[|line|..] == file
  {
  }
}
