/** The requester's side of the file transfer, against any peer: what it writes and what it counts. */
module InteropRequester {
  import opened Bytes
  import opened InteropPath
  import opened InteropHeader

  /** XQC_WT_INTEROP_FILES_MAX */
  const FILES_MAX: nat := 256

  datatype Mode = Uni | Bidi | Dgram

  /** The failure the context has recorded: none, one the peer is to blame for, or one of the host. */
  datatype Trouble = Fine | Peer | Host

  /** The shared part of the context. Asked lists the datagram requests queued so far. */
  datatype Download = Download(files: seq<bytes>, received: seq<nat>, completed: nat, success: bool,
                               trouble: Trouble, disk: map<bytes, bytes>, asked: seq<bytes>)

  /** A stream record as far as receiving goes; live until its stream is closed. */
  datatype Incoming = Incoming(header: Header, open: bool, index: int, complete: bool, bidi: bool, sending: bool,
                               live: bool)

  const FRESH := Incoming(EMPTY, false, -1, false, false, false, true)

  datatype WriteResult = Wrote(n: nat) | WriteInterrupted | WriteFailed

  /** The host's answers to the calls of one callback; writes that are not answered fail. */
  datatype HostAnswers = HostAnswers(open: bool, writes: seq<WriteResult>, close: bool, sessionClose: bool)

  datatype Name = NoName | Named(name: bytes)

  function Fail(d: Download, t: Trouble): Download {
    if d.trouble.Fine? then d.(trouble := t) else d
  }

  // ---------------------------------------------------------------- writing the file

  /** The write loop: how many bytes reached the file, and whether all did. */
  function Written(length: nat, writes: seq<WriteResult>): (r: (nat, bool))
    ensures r.0 <= length && (r.1 ==> r.0 == length)
    decreases |writes|
  {
    if length == 0 then (0, true)
    else if writes == [] || writes[0].WriteFailed? || writes[0] == Wrote(0) then (0, false)
    else if writes[0].WriteInterrupted? then Written(length, writes[1..])
    else
      var k := if writes[0].n < length then writes[0].n else length;
      var (more, ok) := Written(length - k, writes[1..]);
      (k + more, ok)
  }

  function Appended(d: Download, name: bytes, data: bytes): Download {
    var now := if name in d.disk then d.disk[name] else [];
    d.(disk := d.disk[name := now + data])
  }

  /** xqc_wt_interop_complete */
  function Completed(d: Download, closeOk: bool): Download {
    if d.success || !d.trouble.Fine? then d
    else if closeOk then d.(success := true) else Fail(d, Host)
  }

  /** xqc_wt_interop_datagram_request, whose bound on the queue is never met (InteropDatagrams.RequestsFit). */
  function Request(d: Download): Download {
    if !d.trouble.Fine? || d.success || d.completed >= |d.files| then d
    else d.(asked := d.asked + [GET + d.files[d.completed]])
  }

  /** The end of xqc_wt_interop_receive_file, at the FIN. */
  function Finish(d: Download, s: Incoming, datagram: bool, host: HostAnswers): (Download, Incoming)
    requires 0 <= s.index < |d.received|
  {
    if !host.close then (Fail(d, Host), s.(open := false))
    else
      var e := d.(received := d.received[s.index := 2], completed := d.completed + 1);
      var f := if e.completed == |e.files| then Completed(e, host.sessionClose)
               else if datagram then Request(e) else e;
      (f, s.(open := false, complete := true))
  }

  /** The part behind the open file. */
  function Store(d: Download, s: Incoming, data: bytes, fin: bool, datagram: bool, host: HostAnswers)
    : (Download, Incoming)
    requires 0 <= s.index < |d.received| == |d.files|
  {
    var (n, ok) := Written(|data|, host.writes);
    var e := Appended(d, d.files[s.index], data[..n]);
    if !ok then (Fail(e, Host), s)
    else if fin then Finish(e, s, datagram, host)
    else (e, s)
  }

  /** The first file of that name. */
  function Find(files: seq<bytes>, name: Name): (i: int)
    ensures i == -1 || (0 <= i < |files| && name == Named(files[i]))
    ensures i == -1 ==> forall j :: 0 <= j < |files| ==> name != Named(files[j])
    ensures forall j :: 0 <= j < i ==> name != Named(files[j])
  {
    if files == [] then -1
    else if name == Named(files[0]) then 0
    else
      var i := Find(files[1..], name);
      if i < 0 then -1 else i + 1
  }

  predicate Repeated(d: Download, name: Name)
    requires |d.received| == |d.files|
  {
    var i := Find(d.files, name);
    i >= 0 && d.received[i] == 2
  }

  /** The file the record stands for once a name was looked up. */
  function Index(d: Download, s: Incoming, name: Name): int {
    var i := Find(d.files, name);
    if i >= 0 then i else s.index
  }

  predicate Welcome(d: Download, index: int, datagram: bool)
    requires |d.received| == |d.files|
  {
    0 <= index < |d.files| && d.received[index] == 0 && (datagram ==> index == d.completed)
  }

  /** Opening the output file, whose name must be free, and the part behind. */
  function Begin(d: Download, s: Incoming, data: bytes, fin: bool, datagram: bool, host: HostAnswers)
    : (Download, Incoming)
    requires |d.received| == |d.files| && 0 <= s.index < |d.files|
  {
    var i := s.index;
    var e := d.(received := d.received[i := 1]);
    if !host.open || Clashes(d.disk.Keys, d.files[i]) then (Fail(e, Host), s)
    else Store(e.(disk := e.disk[d.files[i] := []]), s.(open := true), data, fin, datagram, host)
  }

  /** xqc_wt_interop_receive_file */
  function ReceiveFile(d: Download, s: Incoming, name: Name, data: bytes, fin: bool, datagram: bool, host: HostAnswers)
    : (Download, Incoming)
    requires |d.received| == |d.files|
    requires s.open ==> 0 <= s.index < |d.files|
  {
    if s.open then Store(d, s, data, fin, datagram, host)
    else if datagram && Repeated(d, name) then (d, s)
    else
      var t := s.(index := Index(d, s, name));
      if Welcome(d, t.index, datagram) then Begin(d, t, data, fin, datagram, host) else (Fail(d, Peer), t)
  }

  // ----------------------------------------------------------------------- callbacks

  function FileName(h: Header): bytes {
    if |PUSH| <= |h.line| then h.line[|PUSH|..] else []
  }

  /** A unidirectional stream: the header first, then the file it names. */
  ghost function ReceivePush(d: Download, s: Incoming, data: bytes, fin: bool, host: HostAnswers): (Download, Incoming)
    requires |d.received| == |d.files| && (s.open ==> 0 <= s.index < |d.files|) && |s.header.line| <= LINE_MAX
  {
    var (h, verdict, n) := Feed(s.header, data, fin, true);
    var t := s.(header := h);
    match verdict
    case Reject => (Fail(d, Peer), t)
    case More => (d, t)
    case Accept => ReceiveFile(d, t, Named(FileName(h)), data[n..], fin, false, host)
  }

  /** xqc_wt_interop_receive in one of the requester's modes */
  ghost function Receive(mode: Mode, d: Download, s: Incoming, data: bytes, fin: bool, host: HostAnswers)
    : (Download, Incoming)
    requires |d.received| == |d.files| && (s.open ==> 0 <= s.index < |d.files|) && |s.header.line| <= LINE_MAX
  {
    if || !s.live || s.complete || !d.trouble.Fine? || (s.sending && !s.bidi)
       || mode != (if s.bidi then Bidi else Uni) then
      (Fail(d, Peer), s)
    else if s.bidi then ReceiveFile(d, s, NoName, data, fin, false, host)
    else ReceivePush(d, s, data, fin, host)
  }

  /** XQC_WT_INTEROP_DATAGRAM_MAX */
  const DATAGRAM_MAX: nat := 1200

  /** xqc_wt_interop_datagram_read in one of the requester's modes */
  ghost function ReceiveDatagram(mode: Mode, d: Download, data: bytes, host: HostAnswers): Download
    requires |d.received| == |d.files|
  {
    if !d.trouble.Fine? || d.success then d
    else
      var (h, verdict, n) := Feed(EMPTY, data, true, true);
      if mode != Dgram || |data| > DATAGRAM_MAX || verdict != Accept then Fail(d, Peer)
      else ReceiveFile(d, FRESH, Named(FileName(h)), data[n..], true, true, host).0
  }

  datatype Requester = Requester(mode: Mode, ready: bool, d: Download, streams: seq<Incoming>)

  /** What can happen to the requester: its session gets ready or closes, the peer or the host acts. */
  datatype Event =
    | OnReady
    | OnStream(bidi: bool)
    | OnSent(k: nat)
    | OnData(k: nat, data: bytes, fin: bool, host: HostAnswers)
    | OnDatagram(data: bytes, host: HostAnswers)
    | OnStreamClose(k: nat)
    | OnClosed

  /** The streams a ready session opens for its requests. */
  function RequestStreams(mode: Mode, files: seq<bytes>): seq<Incoming> {
    if mode == Dgram then []
    else seq(|files|, i => FRESH.(index := i, sending := true, bidi := mode == Bidi))
  }

  ghost function Step(r: Requester, e: Event): Requester
    requires Sound(r)
  {
    match e
    case OnReady =>
      if r.ready then r
      else if r.mode == Dgram then r.(ready := true, d := Request(r.d))
      else r.(ready := true, streams := r.streams + RequestStreams(r.mode, r.d.files))
    case OnStream(bidi) => r.(streams := r.streams + [FRESH.(bidi := bidi)])
    case OnSent(k) =>
      if k >= |r.streams| || !r.streams[k].sending || r.streams[k].bidi then r
      else r.(streams := r.streams[k := r.streams[k].(complete := true)])
    case OnData(k, data, fin, host) =>
      if k >= |r.streams| then r.(d := Fail(r.d, Peer))
      else
        var (d, s) := Receive(r.mode, r.d, r.streams[k], data, fin, host);
        r.(d := d, streams := r.streams[k := s])
    case OnDatagram(data, host) => r.(d := ReceiveDatagram(r.mode, r.d, data, host))
    case OnStreamClose(k) =>
      if k >= |r.streams| || !r.streams[k].live then r
      else
        var s := r.streams[k];
        r.(d := if s.complete then r.d else Fail(r.d, Peer),
           streams := r.streams[k := s.(open := false, live := false)])
    case OnClosed => r.(d := if r.d.success then r.d else Fail(r.d, Peer), streams := [])
  }

  // ---------------------------------------------------------------------- accounting

  /** How many files are complete. */
  function Twos(received: seq<nat>): (n: nat)
    ensures n <= |received|
  {
    if received == [] then 0 else Twos(received[1..]) + if received[0] == 2 then 1 else 0
  }

  ghost predicate Distinct(files: seq<bytes>) {
    forall i, j :: 0 <= i < j < |files| ==> files[i] != files[j]
  }

  ghost predicate Tally(d: Download) {
    && |d.received| == |d.files|
    && (forall i :: 0 <= i < |d.received| ==> d.received[i] <= 2)
    && d.completed == Twos(d.received)
    && (d.success ==> d.completed == |d.files|)
  }

  ghost predicate OnDisk(d: Download, i: int) {
    0 <= i < |d.files| && d.files[i] in d.disk
  }

  /** A record with an open file is the only one that has this file open, and the file is at 1. */
  ghost predicate Owned(d: Download, streams: seq<Incoming>) {
    && (forall k :: 0 <= k < |streams| ==> |streams[k].header.line| <= LINE_MAX)
    && (forall k :: 0 <= k < |streams| && streams[k].open ==>
          0 <= streams[k].index < |d.received| && d.received[streams[k].index] == 1 && OnDisk(d, streams[k].index))
    && (forall j, k :: 0 <= j < k < |streams| && streams[j].open && streams[k].open ==>
          streams[j].index != streams[k].index)
  }

  /** In datagram mode the files are completed in order. */
  ghost predicate InOrder(d: Download) {
    && |d.received| == |d.files|
    && (forall i :: 0 <= i < d.completed && i < |d.received| ==> d.received[i] == 2)
    && (forall i :: d.completed < i < |d.received| ==> d.received[i] == 0)
    && (d.completed < |d.received| ==> d.received[d.completed] <= 1)
    && (d.completed < |d.received| && d.trouble.Fine? ==> d.received[d.completed] == 0)
  }

  ghost predicate IsRequest(files: seq<bytes>, datagram: bytes) {
    exists j :: 0 <= j < |files| && datagram == GET + files[j]
  }

  /** Requests are for requested files, and there are never more of them than files. */
  ghost predicate Asked(d: Download, ready: bool) {
    && (forall i :: 0 <= i < |d.asked| ==> IsRequest(d.files, d.asked[i]))
    && |d.asked| <= d.completed + (if ready then 1 else 0)
    && |d.asked| <= |d.files|
  }

  ghost predicate Sound(r: Requester) {
    && Distinct(r.d.files)
    && Tally(r.d)
    && Owned(r.d, r.streams)
    && Asked(r.d, r.ready)
    && (r.mode == Dgram ==> InOrder(r.d) && forall k :: 0 <= k < |r.streams| ==> !r.streams[k].open)
  }

  lemma {:induction false} TwosUpdate(received: seq<nat>, i: nat, v: nat)
    requires i < |received|
    ensures Twos(received[i := v]) == Twos(received) - (if received[i] == 2 then 1 else 0) + if v == 2 then 1 else 0
  {
    if i == 0 {
      assert received[0 := v][1..] == received[1..];
    } else {
      TwosUpdate(received[1..], i - 1, v);
      assert received[i := v][1..] == received[1..][i - 1 := v];
    }
  }

  lemma {:induction false} TwosAll(received: seq<nat>)
    ensures Twos(received) == |received| <==> forall i :: 0 <= i < |received| ==> received[i] == 2
  {
    if received != [] {
      TwosAll(received[1..]);
      assert (forall i :: 0 <= i < |received| ==> received[i] == 2)
        <==> received[0] == 2 && forall i :: 0 <= i < |received[1..]| ==> received[1..][i] == 2;
    }
  }

  ghost predicate Same(disk: map<bytes, bytes>, now: map<bytes, bytes>, name: bytes) {
    (name in now <==> name in disk) && (name in disk ==> now[name] == disk[name])
  }

  /** Between the two, only that file of the disk was written. */
  ghost predicate OnlyFile(d: Download, e: Download, i: int) {
    && d.disk.Keys <= e.disk.Keys
    && forall name :: !(0 <= i < |d.files| && name == d.files[i]) ==> Same(d.disk, e.disk, name)
  }

  /** How receiving for record s may change the counts. */
  ghost predicate Counted(d: Download, s: Incoming, e: Download, t: Incoming) {
    && e.files == d.files && |e.received| == |d.received| && (d.success ==> e.success)
    && (forall j :: 0 <= j < |d.received| && j != t.index ==> e.received[j] == d.received[j])
    && (0 <= t.index < |d.received| ==> d.received[t.index] <= e.received[t.index])
    && (0 <= t.index < |d.received| && !s.open && d.received[t.index] != 0 ==>
          e.received == d.received && e.disk == d.disk)
    && t.header == s.header
    && (s.open ==> t.index == s.index)
    && (t.open ==> 0 <= t.index < |e.received| && e.received[t.index] == 1 && OnDisk(e, t.index))
    && (t.open && !s.open ==> d.received[t.index] == 0)
  }

  ghost predicate Effect(d: Download, s: Incoming, e: Download, t: Incoming) {
    Counted(d, s, e, t) && OnlyFile(d, e, t.index) && Tally(e)
  }

  /** All that the end of a file changes. */
  lemma FinishIs(d: Download, s: Incoming, datagram: bool, host: HostAnswers)
    requires 0 <= s.index < |d.received|
    ensures var (e, t) := Finish(d, s, datagram, host);
      && e.files == d.files && e.disk == d.disk && (d.success ==> e.success)
      && (e.success ==> d.success || e.completed == |d.files|)
      && t == s.(open := false, complete := s.complete || host.close)
      && e.received == (if host.close then d.received[s.index := 2] else d.received)
      && e.completed == d.completed + (if host.close then 1 else 0)
  {
  }

  lemma FinishEffect(d: Download, s: Incoming, datagram: bool, host: HostAnswers)
    requires Tally(d) && 0 <= s.index < |d.received| && d.received[s.index] == 1 && s.open
    ensures var (e, t) := Finish(d, s, datagram, host); Effect(d, s, e, t)
  {
    hide Finish, Twos;
    FinishIs(d, s, datagram, host);
    TwosUpdate(d.received, s.index, 2);
    TwosAll(d.received);
  }

  lemma OnlyFileThen(d: Download, e: Download, f: Download, i: int)
    requires OnlyFile(d, e, i) && OnlyFile(e, f, i) && e.files == d.files
    ensures OnlyFile(d, f, i)
  {
    forall name | !(0 <= i < |d.files| && name == d.files[i])
      ensures Same(d.disk, f.disk, name)
    {
      assert Same(d.disk, e.disk, name) && Same(e.disk, f.disk, name);
    }
  }

  lemma StoreEffect(d: Download, s: Incoming, data: bytes, fin: bool, datagram: bool, host: HostAnswers)
    requires Tally(d) && 0 <= s.index < |d.received| && d.received[s.index] == 1 && s.open
    ensures var (e, t) := Store(d, s, data, fin, datagram, host); Effect(d, s, e, t)
  {
    hide Finish, Written;
    var e := Appended(d, d.files[s.index], data[..Written(|data|, host.writes).0]);
    assert OnlyFile(d, e, s.index);
    hide OnlyFile;
    FinishEffect(e, s, datagram, host);
    OnlyFileThen(d, e, Finish(e, s, datagram, host).0, s.index);
  }

  lemma ClaimTally(d: Download, i: nat, disk: map<bytes, bytes>)
    requires Tally(d) && i < |d.received| && d.received[i] == 0
    ensures Tally(d.(received := d.received[i := 1], disk := disk))
  {
    TwosUpdate(d.received, i, 1);
    TwosAll(d.received);
  }

  lemma BeginEffect(d: Download, s: Incoming, data: bytes, fin: bool, datagram: bool, host: HostAnswers)
    requires Tally(d) && !s.open && 0 <= s.index < |d.received| && d.received[s.index] == 0
    ensures var (e, t) := Begin(d, s, data, fin, datagram, host); Effect(d, s, e, t)
  {
    hide Store, Tally;
    var i := s.index;
    TallyLengths(d);
    ClaimTally(d, i, d.disk);
    FailKeeps(d.(received := d.received[i := 1]), [], false, Host);
    ClaimTally(d, i, d.disk[d.files[i] := []]);
    var e := d.(received := d.received[i := 1], disk := d.disk[d.files[i] := []]);
    assert OnlyFile(d, e, i);
    StoreEffect(e, s.(open := true), data, fin, datagram, host);
    hide OnlyFile;
    OnlyFileThen(d, e, Store(e, s.(open := true), data, fin, datagram, host).0, i);
  }

  /** A failure changes nothing but the record of it. */
  lemma FailKeeps(d: Download, streams: seq<Incoming>, ready: bool, t: Trouble)
    ensures Tally(d) ==> Tally(Fail(d, t))
    ensures Asked(d, ready) ==> Asked(Fail(d, t), ready)
    ensures Owned(d, streams) ==> Owned(Fail(d, t), streams)
    ensures InOrder(d) && !t.Fine? ==> InOrder(Fail(d, t))
    ensures |d.received| == |d.files| ==> Grows(d, d) && Grows(d, Fail(d, t))
  {
  }

  lemma TallyLengths(d: Download)
    requires Tally(d)
    ensures |d.received| == |d.files|
  {
  }

  /** Nothing received: the index that was looked up may stay behind. */
  lemma DeniedEffect(d: Download, s: Incoming, i: int)
    requires Tally(d)
    requires s.open ==> i == s.index && 0 <= i < |d.received| && d.received[i] == 1 && OnDisk(d, i)
    ensures Effect(d, s, d, s.(index := i)) && Effect(d, s, Fail(d, Peer), s.(index := i))
  {
  }

  lemma IndexIrrelevant(d: Download, s: Incoming, i: int, e: Download, t: Incoming)
    requires !s.open && Effect(d, s.(index := i), e, t)
    ensures Effect(d, s, e, t)
  {
  }

  lemma ReceiveFileEffect(d: Download, s: Incoming, name: Name, data: bytes, fin: bool, datagram: bool,
                          host: HostAnswers)
    requires Tally(d) && (s.open ==> 0 <= s.index < |d.files| && d.received[s.index] == 1)
    ensures var (e, t) := ReceiveFile(d, s, name, data, fin, datagram, host); Effect(d, s, e, t)
  {
    hide Store, Begin, Find, Tally, Effect;
    TallyLengths(d);
    if s.open {
      StoreEffect(d, s, data, fin, datagram, host);
    } else if datagram && Repeated(d, name) {
      DeniedEffect(d, s, s.index);
    } else {
      var i := Index(d, s, name);
      var t := s.(index := i);
      if Welcome(d, i, datagram) {
        BeginEffect(d, t, data, fin, datagram, host);
        var (e, u) := Begin(d, t, data, fin, datagram, host);
        IndexIrrelevant(d, s, i, e, u);
      } else {
        DeniedEffect(d, s, i);
      }
    }
  }

  // --------------------------------------------------------------- requests, and order

  lemma RequestAsked(d: Download, ready: bool)
    requires Asked(d, ready) && |d.asked| < d.completed + (if ready then 1 else 0)
    ensures Asked(Request(d), ready)
  {
    if d.completed < |d.files| {
      assert IsRequest(d.files, GET + d.files[d.completed]);
    }
  }

  lemma FinishAsked(d: Download, s: Incoming, datagram: bool, host: HostAnswers, ready: bool)
    requires Tally(d) && Asked(d, ready) && 0 <= s.index < |d.received| && d.received[s.index] == 1
    ensures Asked(Finish(d, s, datagram, host).0, ready)
  {
    hide Request, Completed, IsRequest;
    var e := d.(received := d.received[s.index := 2], completed := d.completed + 1);
    RequestAsked(e, ready);
    CompletedAsked(e, ready, host.sessionClose);
  }

  lemma CompletedAsked(d: Download, ready: bool, closeOk: bool)
    requires Asked(d, ready)
    ensures Asked(Completed(d, closeOk), ready)
  {
  }

  lemma StoreAsked(d: Download, s: Incoming, data: bytes, fin: bool, datagram: bool, host: HostAnswers, ready: bool)
    requires Tally(d) && Asked(d, ready) && 0 <= s.index < |d.received| && d.received[s.index] == 1
    ensures Asked(Store(d, s, data, fin, datagram, host).0, ready)
  {
    hide Finish;
    FinishAsked(Appended(d, d.files[s.index], data[..Written(|data|, host.writes).0]), s, datagram, host, ready);
  }

  lemma BeginAsked(d: Download, s: Incoming, data: bytes, fin: bool, datagram: bool, host: HostAnswers, ready: bool)
    requires Tally(d) && Asked(d, ready) && 0 <= s.index < |d.received| && d.received[s.index] == 0
    ensures Asked(Begin(d, s, data, fin, datagram, host).0, ready)
  {
    hide Store, Tally, IsRequest;
    TallyLengths(d);
    var i := s.index;
    ClaimTally(d, i, d.disk[d.files[i] := []]);
    var e := d.(received := d.received[i := 1], disk := d.disk[d.files[i] := []]);
    StoreAsked(e, s.(open := true), data, fin, datagram, host, ready);
  }

  lemma ReceiveFileAsked(d: Download, s: Incoming, name: Name, data: bytes, fin: bool, datagram: bool,
                         host: HostAnswers, ready: bool)
    requires Tally(d) && Asked(d, ready) && (s.open ==> 0 <= s.index < |d.files| && d.received[s.index] == 1)
    ensures Asked(ReceiveFile(d, s, name, data, fin, datagram, host).0, ready)
  {
    hide Store, Begin, Find, Tally, Asked;
    TallyLengths(d);
    FailKeeps(d, [], ready, Peer);
    if s.open {
      StoreAsked(d, s, data, fin, datagram, host, ready);
    } else {
      var i := Index(d, s, name);
      if Welcome(d, i, datagram) {
        BeginAsked(d, s.(index := i), data, fin, datagram, host, ready);
      }
    }
  }

  lemma StoreInOrder(d: Download, s: Incoming, data: bytes, host: HostAnswers)
    requires InOrder(d.(trouble := Host)) && d.trouble.Fine? && s.index == d.completed < |d.received|
    ensures InOrder(Store(d, s, data, true, true, host).0)
  {
    hide Written;
  }

  /** A datagram completes the next file or none. */
  lemma DatagramInOrder(d: Download, name: Name, data: bytes, host: HostAnswers)
    requires InOrder(d) && d.trouble.Fine?
    ensures InOrder(ReceiveFile(d, FRESH, name, data, true, true, host).0)
  {
    hide Store, Find;
    var i := Index(d, FRESH, name);
    if Welcome(d, i, true) && host.open && !Clashes(d.disk.Keys, d.files[i]) {
      var e := d.(received := d.received[i := 1], disk := d.disk[d.files[i] := []]);
      StoreInOrder(e, FRESH.(index := i, open := true), data, host);
    }
  }

  // -------------------------------------------------------------------------- all runs

  lemma OwnedUpdate(d: Download, streams: seq<Incoming>, k: nat, e: Download, t: Incoming)
    requires Owned(d, streams) && k < |streams| && |d.received| == |d.files|
    requires Counted(d, streams[k].(header := t.header), e, t) && |t.header.line| <= LINE_MAX
    requires d.disk.Keys <= e.disk.Keys
    ensures Owned(e, streams[k := t])
  {
  }

  lemma EffectParts(d: Download, s: Incoming, e: Download, t: Incoming)
    requires Effect(d, s, e, t)
    ensures t.header == s.header && Tally(e) && e.files == d.files && d.disk.Keys <= e.disk.Keys
  {
  }

  lemma ReceiveEffect(mode: Mode, d: Download, s: Incoming, data: bytes, fin: bool, host: HostAnswers)
    requires Tally(d) && |s.header.line| <= LINE_MAX
    requires s.open ==> 0 <= s.index < |d.files| && d.received[s.index] == 1 && OnDisk(d, s.index)
    ensures var (e, t) := Receive(mode, d, s, data, fin, host);
      && |t.header.line| <= LINE_MAX && Effect(d, s.(header := t.header), e, t)
      && (mode == Dgram ==> e == Fail(d, Peer) && t == s)
  {
    hide ReceiveFile, Feed, Tally, Effect, Fail;
    TallyLengths(d);
    DeniedEffect(d, s, s.index);
    if s.bidi {
      ReceiveFileEffect(d, s, NoName, data, fin, false, host);
      var (e, u) := ReceiveFile(d, s, NoName, data, fin, false, host);
      EffectParts(d, s, e, u);
    } else {
      var (h, _, n) := Feed(s.header, data, fin, true);
      var t := s.(header := h);
      DeniedEffect(d, t, t.index);
      ReceiveFileEffect(d, t, Named(FileName(h)), data[n..], fin, false, host);
      var (e, u) := ReceiveFile(d, t, Named(FileName(h)), data[n..], fin, false, host);
      EffectParts(d, t, e, u);
    }
  }

  lemma ReceiveAsked(mode: Mode, d: Download, s: Incoming, data: bytes, fin: bool, host: HostAnswers, ready: bool)
    requires Tally(d) && Asked(d, ready) && |s.header.line| <= LINE_MAX
    requires s.open ==> 0 <= s.index < |d.files| && d.received[s.index] == 1
    ensures Asked(Receive(mode, d, s, data, fin, host).0, ready)
  {
    hide ReceiveFile, Feed, Asked, Tally, Fail;
    TallyLengths(d);
    FailKeeps(d, [], ready, Peer);
    if s.bidi {
      ReceiveFileAsked(d, s, NoName, data, fin, false, host, ready);
    } else {
      var (h, _, n) := Feed(s.header, data, fin, true);
      ReceiveFileAsked(d, s.(header := h), Named(FileName(h)), data[n..], fin, false, host, ready);
    }
  }

  /** Counts only go up; what is complete, or was never requested, stays as it is. */
  ghost predicate Grows(d: Download, e: Download) {
    && e.files == d.files && |e.received| == |d.received| == |d.files| && (d.success ==> e.success)
    && (forall i :: 0 <= i < |d.received| ==> d.received[i] <= e.received[i])
    && (forall i :: 0 <= i < |d.files| && d.received[i] == 2 ==>
          e.received[i] == 2 && Same(d.disk, e.disk, d.files[i]))
    && (forall name :: name !in d.files ==> Same(d.disk, e.disk, name))
  }

  lemma EffectGrows(d: Download, s: Incoming, e: Download, t: Incoming)
    requires Effect(d, s, e, t) && Distinct(d.files) && |d.received| == |d.files|
    requires s.open ==> 0 <= s.index < |d.received| && d.received[s.index] == 1
    ensures Grows(d, e)
  {
    forall i | 0 <= i < |d.files| && d.received[i] == 2
      ensures e.received[i] == 2 && Same(d.disk, e.disk, d.files[i])
    {
      if i != t.index && 0 <= t.index < |d.files| {
        assert d.files[i] != d.files[t.index];
      }
    }
  }

  lemma OwnedAt(d: Download, streams: seq<Incoming>, k: nat)
    requires Owned(d, streams) && k < |streams| && |d.received| == |d.files|
    ensures |streams[k].header.line| <= LINE_MAX
    ensures streams[k].open ==>
      0 <= streams[k].index < |d.files| && d.received[streams[k].index] == 1 && OnDisk(d, streams[k].index)
  {
  }

  lemma ReceiveSound(r: Requester, k: nat, data: bytes, fin: bool, host: HostAnswers)
    requires Sound(r) && k < |r.streams|
    ensures var q := Step(r, OnData(k, data, fin, host)); Sound(q) && Grows(r.d, q.d)
  {
    hide Receive, Asked, Tally, OnlyFile, Distinct, Grows, OnDisk, Owned, Counted, InOrder, Fail;
    var s := r.streams[k];
    TallyLengths(r.d);
    OwnedAt(r.d, r.streams, k);
    ReceiveEffect(r.mode, r.d, s, data, fin, host);
    ReceiveAsked(r.mode, r.d, s, data, fin, host, r.ready);
    var (e, t) := Receive(r.mode, r.d, s, data, fin, host);
    EffectParts(r.d, s.(header := t.header), e, t);
    OwnedUpdate(r.d, r.streams, k, e, t);
    EffectGrows(r.d, s.(header := t.header), e, t);
    FailKeeps(r.d, [], false, Peer);
  }

  lemma OwnedKept(d: Download, streams: seq<Incoming>, e: Download)
    requires Owned(d, streams) && Grows(d, e) && Tally(e)
    requires forall k :: 0 <= k < |streams| ==> !streams[k].open
    ensures Owned(e, streams)
  {
  }

  lemma ReceiveDatagramSound(r: Requester, data: bytes, host: HostAnswers)
    requires Sound(r)
    ensures var q := Step(r, OnDatagram(data, host)); Sound(q) && Grows(r.d, q.d)
  {
    hide ReceiveFile, Feed, Asked, Tally, Owned, Effect, Grows, InOrder;
    TallyLengths(r.d);
    FailKeeps(r.d, r.streams, r.ready, Peer);
    var (h, _, n) := Feed(EMPTY, data, true, true);
    if r.mode == Dgram && r.d.trouble.Fine? {
      var (e, t) := ReceiveFile(r.d, FRESH, Named(FileName(h)), data[n..], true, true, host);
      ReceiveFileEffect(r.d, FRESH, Named(FileName(h)), data[n..], true, true, host);
      ReceiveFileAsked(r.d, FRESH, Named(FileName(h)), data[n..], true, true, host, r.ready);
      DatagramInOrder(r.d, Named(FileName(h)), data[n..], host);
      EffectGrows(r.d, FRESH, e, t);
      EffectParts(r.d, FRESH, e, t);
      OwnedKept(r.d, r.streams, e);
    }
  }

  lemma RequestKeeps(d: Download, streams: seq<Incoming>)
    requires Tally(d) && Owned(d, streams)
    ensures Tally(Request(d)) && Owned(Request(d), streams) && Grows(d, Request(d)) && Request(d).files == d.files
    ensures InOrder(d) ==> InOrder(Request(d))
  {
  }

  lemma ReadyAsked(d: Download)
    requires Asked(d, false)
    ensures Asked(d, true) && Asked(Request(d), true)
  {
    RequestAsked(d, true);
  }

  lemma ReadySound(r: Requester)
    requires Sound(r)
    ensures var q := Step(r, OnReady); Sound(q) && Grows(r.d, q.d)
  {
    hide Tally, Asked, InOrder, Grows, Request, Owned;
    TallyLengths(r.d);
    FailKeeps(r.d, [], false, Peer);
    RequestKeeps(r.d, r.streams);
    if !r.ready {
      ReadyAsked(r.d);
      OwnedAdd(r.d, r.streams, RequestStreams(r.mode, r.d.files));
    }
  }

  lemma OwnedReplace(d: Download, streams: seq<Incoming>, k: nat, t: Incoming)
    requires Owned(d, streams) && k < |streams|
    requires t.header == streams[k].header && t.index == streams[k].index && (t.open ==> streams[k].open)
    ensures Owned(d, streams[k := t])
  {
  }

  lemma OwnedAdd(d: Download, streams: seq<Incoming>, more: seq<Incoming>)
    requires Owned(d, streams)
    requires forall k :: 0 <= k < |more| ==> !more[k].open && |more[k].header.line| <= LINE_MAX
    ensures Owned(d, streams + more) && Owned(d, [])
  {
  }

  lemma RecordSound(r: Requester, e: Event)
    requires Sound(r) && !e.OnReady? && !e.OnDatagram? && (e.OnData? ==> e.k >= |r.streams|)
    ensures var q := Step(r, e); Sound(q) && Grows(r.d, q.d)
  {
    hide Tally, Asked, InOrder, Grows, Distinct, Owned;
    TallyLengths(r.d);
    FailKeeps(r.d, r.streams, r.ready, Peer);
    match e
    case OnStream(bidi) => OwnedAdd(r.d, r.streams, [FRESH.(bidi := bidi)]);
    case OnSent(k) =>
      if k < |r.streams| {
        OwnedReplace(r.d, r.streams, k, r.streams[k].(complete := true));
      }
    case OnStreamClose(k) =>
      if k < |r.streams| {
        var s := r.streams[k];
        OwnedReplace(if s.complete then r.d else Fail(r.d, Peer), r.streams, k, s.(open := false, live := false));
      }
    case OnClosed => OwnedAdd(if r.d.success then r.d else Fail(r.d, Peer), r.streams, []);
    case OnData(_, _, _, _) =>
  }

  lemma StepSound(r: Requester, e: Event)
    requires Sound(r)
    ensures Sound(Step(r, e)) && Grows(r.d, Step(r, e).d)
  {
    hide Step, Grows;
    match e
    case OnReady => ReadySound(r);
    case OnDatagram(data, host) => ReceiveDatagramSound(r, data, host);
    case OnData(k, data, fin, host) =>
      if k < |r.streams| {
        ReceiveSound(r, k, data, fin, host);
      } else {
        RecordSound(r, e);
      }
    case _ => RecordSound(r, e);
  }

  ghost function Run(r: Requester, es: seq<Event>): (q: Requester)
    requires Sound(r)
    ensures Sound(q) && Grows(r.d, q.d)
    decreases |es|
  {
    FailKeeps(r.d, [], false, Peer);
    if es == [] then r
    else
      StepSound(r, es[0]);
      var q := Run(Step(r, es[0]), es[1..]);
      GrowsThen(r.d, Step(r, es[0]).d, q.d);
      q
  }

  lemma GrowsThen(d: Download, e: Download, f: Download)
    requires Grows(d, e) && Grows(e, f)
    ensures Grows(d, f)
  {
    forall i | 0 <= i < |d.files| && d.received[i] == 2
      ensures f.received[i] == 2 && Same(d.disk, f.disk, d.files[i])
    {
      assert Same(d.disk, e.disk, d.files[i]) && Same(e.disk, f.disk, e.files[i]);
    }
  }

  function Start(mode: Mode, files: seq<bytes>, disk: map<bytes, bytes>): Requester {
    Requester(mode, false, Download(files, seq(|files|, i => 0), 0, false, Fine, disk, []), [])
  }

  lemma {:induction false} TwosNone(received: seq<nat>)
    requires forall i :: 0 <= i < |received| ==> received[i] == 0
    ensures Twos(received) == 0
  {
    if received != [] {
      TwosNone(received[1..]);
    }
  }

  lemma StartSound(mode: Mode, files: seq<bytes>, disk: map<bytes, bytes>)
    requires Distinct(files)
    ensures Sound(Start(mode, files, disk))
  {
    TwosNone(seq(|files|, i => 0));
  }

  /**
   * Whatever the peer sends: completed is the number of files at 2; success means that every
   * requested file is; in datagram mode the files at 2 are the first completed ones; and there are
   * never more datagram requests than files.
   */
  lemma Accounting(mode: Mode, files: seq<bytes>, disk: map<bytes, bytes>, es: seq<Event>)
    requires Distinct(files)
    ensures Sound(Start(mode, files, disk))
    ensures var d := Run(Start(mode, files, disk), es).d;
      && |d.received| == |files| && d.completed == Twos(d.received) && |d.asked| <= |files|
      && (d.success ==> forall i :: 0 <= i < |files| ==> d.received[i] == 2)
      && (mode == Dgram ==> forall i :: 0 <= i < |files| ==> (d.received[i] == 2 <==> i < d.completed))
  {
    hide Run;
    StartSound(mode, files, disk);
    ModeKept(Start(mode, files, disk), es);
    SoundMeans(Run(Start(mode, files, disk), es));
  }

  lemma {:induction false} ModeKept(r: Requester, es: seq<Event>)
    requires Sound(r)
    ensures Run(r, es).mode == r.mode
    decreases |es|
  {
    if es != [] {
      StepSound(r, es[0]);
      ModeKept(Step(r, es[0]), es[1..]);
    }
  }

  lemma SoundMeans(r: Requester)
    requires Sound(r)
    ensures r.d.success ==> forall i :: 0 <= i < |r.d.files| ==> r.d.received[i] == 2
    ensures r.mode == Dgram ==> forall i :: 0 <= i < |r.d.files| ==> (r.d.received[i] == 2 <==> i < r.d.completed)
  {
    TwosAll(r.d.received);
  }

  /** In datagram mode, a repeated PUSH of a completed file changes nothing. */
  lemma RepeatedPush(d: Download, i: nat, data: bytes, rest: bytes, host: HostAnswers)
    requires |d.received| == |d.files| && i < |d.files| && Distinct(d.files) && d.received[i] == 2
    requires Spells(data, true, true, d.files[i], rest) && |data| <= DATAGRAM_MAX
    ensures ReceiveDatagram(Dgram, d, data, host) == d
  {
    SpeltAccepted(data, true, true, d.files[i], rest);
    assert (PUSH + d.files[i])[|PUSH|..] == d.files[i];
    assert Find(d.files, Named(d.files[i])) == i;
  }
}
