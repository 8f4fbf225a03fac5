/** The requester's global context and stream records as they are kept and updated. */
module InteropContext {
  import opened Bytes
  import opened InteropPath
  import opened InteropHeader
  import opened InteropRequester

  /** The list of requested files: legal paths, no more than fit, none twice, not empty. */
  ghost predicate Requestable(names: seq<bytes>) {
    && 0 < |names| <= FILES_MAX && Distinct(names)
    && forall i :: 0 <= i < |names| ==> Legal(names[i])
  }

  /** The loop of xqc_wt_interop_requests over the file parts of the URLs, in a transfer mode. */
  method CollectFiles(names: seq<CString>) returns (ok: bool, files: seq<bytes>)
    ensures ok <==> Requestable(names)
    ensures ok ==> files == names
  {
    hide Legal;
    files := [];
    for n := 0 to |names|
      invariant files == names[..n] && n <= FILES_MAX && Distinct(files)
      invariant forall i :: 0 <= i < n ==> Legal(names[i])
    {
      var valid := ValidPath(names[n]);
      if !valid || |files| == FILES_MAX {
        return false, files;
      }
      for i := 0 to |files|
        invariant forall j :: 0 <= j < i ==> names[j] != names[n]
      {
        if names[n] == files[i] {
          assert names[i] == names[n];
          return false, files;
        }
      }
      files := files + [names[n]];
    }
    return |names| > 0, files;
  }

  class Record {
    const header: HeaderBuffer
    var open: bool
    var index: int
    var complete: bool
    var bidi: bool
    var sending: bool
    var live: bool

    ghost predicate Valid()
      reads this, header, header.line
    {
      header.Valid()
    }

    ghost function State(): Incoming
      requires Valid()
      reads this, header, header.line
    {
      Incoming(header.State(), open, index, complete, bidi, sending, live)
    }

    constructor ()
      ensures Valid() && fresh(header) && fresh(header.line) && State() == FRESH
    {
      header := new HeaderBuffer();
      open, index, complete, bidi, sending, live := false, -1, false, false, false, true;
    }
  }

  class Context {
    const files: seq<bytes>
    const received: array<nat>
    var completed: nat
    var success: bool
    var trouble: Trouble
    var disk: map<bytes, bytes>
    var asked: seq<bytes>

    ghost predicate Valid()
      reads this, received
    {
      received.Length == |files|
    }

    ghost function State(): Download
      requires Valid()
      reads this, received
    {
      Download(files, received[..], completed, success, trouble, disk, asked)
    }

    constructor (files: seq<bytes>, disk: map<bytes, bytes>)
      ensures Valid() && fresh(received) && State() == Start(Uni, files, disk).d
    {
      this.files := files;
      received := new nat[|files|](i => 0);
      completed, success, trouble, this.disk, asked := 0, false, Fine, disk, [];
    }

    method Failing(t: Trouble)
      requires Valid()
      modifies this`trouble
      ensures State() == Fail(old(State()), t)
    {
      if trouble.Fine? {
        trouble := t;
      }
    }

    method CompleteSession(closeOk: bool)
      requires Valid()
      modifies this`trouble, this`success
      ensures State() == Completed(old(State()), closeOk)
      ensures old(Tally(State())) && completed == |files| ==> Tally(State())
    {
      if success || !trouble.Fine? {
        return;
      }
      if !closeOk {
        Failing(Host);
        return;
      }
      success := true;
    }

    method RequestNext()
      requires Valid()
      modifies this`asked
      ensures State() == Request(old(State())) && (old(Tally(State())) ==> Tally(State()))
    {
      if !trouble.Fine? || success || completed >= |files| {
        return;
      }
      asked := asked + [GET + files[completed]];
    }

    /** The write loop on the open file of that name. */
    method WriteAll(name: bytes, data: bytes, writes: seq<WriteResult>) returns (ok: bool)
      requires Valid() && name in disk
      modifies this`disk
      ensures ok == Written(|data|, writes).1
      ensures State() == Appended(old(State()), name, data[..Written(|data|, writes).0])
    {
      hide Written;
      var consumed, i := 0, 0;
      ghost var start := disk;
      assert writes[0..] == writes && data[..0] == [] && disk[name] + [] == disk[name];
      while consumed < |data|
        invariant 0 <= consumed <= |data| && 0 <= i <= |writes|
        invariant disk == start[name := start[name] + data[..consumed]]
        invariant var r := Written(|data| - consumed, writes[i..]); Written(|data|, writes) == (consumed + r.0, r.1)
        decreases |writes| - i
      {
        WrittenTurn(|data| - consumed, writes, i);
        if i == |writes| || writes[i].WriteFailed? || writes[i] == Wrote(0) {
          return false;
        }
        if writes[i].Wrote? {
          var k := if writes[i].n < |data| - consumed then writes[i].n else |data| - consumed;
          disk := disk[name := disk[name] + data[consumed..consumed + k]];
          assert start[name] + data[..consumed] + data[consumed..consumed + k] == start[name] + data[..consumed + k];
          consumed := consumed + k;
        }
        i := i + 1;
      }
      WrittenTurn(0, writes, i);
      return true;
    }

    method FinishFile(s: Record, datagram: bool, host: HostAnswers)
      requires Valid() && s.Valid() && 0 <= s.index < |files|
      modifies this, received, s`open, s`complete
      ensures Valid() && s.Valid() && (State(), s.State()) == Finish(old(State()), old(s.State()), datagram, host)
    {
      s.open := false;
      if !host.close {
        Failing(Host);
        return;
      }
      s.complete := true;
      received[s.index] := 2;
      completed := completed + 1;
      assert received[..] == old(received[..])[s.index := 2];
      if completed == |files| {
        CompleteSession(host.sessionClose);
      } else if datagram {
        RequestNext();
      }
    }

    method StoreData(s: Record, data: bytes, fin: bool, datagram: bool, host: HostAnswers)
      requires Valid() && s.Valid() && 0 <= s.index < |files| && files[s.index] in disk
      modifies this, received, s`open, s`complete
      ensures Valid() && s.Valid()
      ensures (State(), s.State()) == Store(old(State()), old(s.State()), data, fin, datagram, host)
    {
      hide Finish, Written;
      var ok := WriteAll(files[s.index], data, host.writes);
      if !ok {
        Failing(Host);
      } else if fin {
        FinishFile(s, datagram, host);
      }
    }

    /** The search for the named file; the index is that of the first match. */
    method Search(name: Name) returns (i: int)
      requires Valid()
      ensures i == Find(files, name)
    {
      for k := 0 to |files|
        invariant forall j :: 0 <= j < k ==> name != Named(files[j])
      {
        if name == Named(files[k]) {
          return k;
        }
      }
      return -1;
    }

    /** Claims the file the record stands for and opens it. */
    method BeginFile(s: Record, data: bytes, fin: bool, datagram: bool, host: HostAnswers)
      requires Valid() && s.Valid() && !s.open && 0 <= s.index < |files|
      modifies this, received, s`open, s`complete
      ensures Valid() && s.Valid()
      ensures (State(), s.State()) == Begin(old(State()), old(s.State()), data, fin, datagram, host)
    {
      hide Store;
      var i := s.index;
      received[i] := 1;
      assert received[..] == old(received[..])[i := 1];
      if !host.open || Clashes(disk.Keys, files[i]) {
        Failing(Host);
        return;
      }
      disk := disk[files[i] := []];
      s.open := true;
      StoreData(s, data, fin, datagram, host);
    }

    method ReceiveNamed(s: Record, name: Name, data: bytes, fin: bool, datagram: bool, host: HostAnswers)
      requires Valid() && s.Valid() && (s.open ==> OnDisk(State(), s.index))
      modifies this, received, s`open, s`complete, s`index
      ensures Valid() && s.Valid()
      ensures (State(), s.State()) == ReceiveFile(old(State()), old(s.State()), name, data, fin, datagram, host)
    {
      hide Store, Begin, Find, Fail, Clashes;
      if s.open {
        StoreData(s, data, fin, datagram, host);
        return;
      }
      var i := Search(name);
      if i >= 0 {
        if datagram && received[i] == 2 {
          return;
        }
        s.index := i;
      }
      var index := s.index;
      if index < 0 || index >= |files| || received[index] != 0 || (datagram && index != completed) {
        Failing(Peer);
        return;
      }
      BeginFile(s, data, fin, datagram, host);
    }

    /** Data of a unidirectional stream. */
    method OnPushData(s: Record, data: bytes, fin: bool, host: HostAnswers)
      requires Valid() && s.Valid() && (s.open ==> OnDisk(State(), s.index))
      modifies this, received, s, s.header, s.header.line
      ensures Valid() && s.Valid()
      ensures (State(), s.State()) == ReceivePush(old(State()), old(s.State()), data, fin, host)
    {
      hide ReceiveFile, Feed;
      var verdict, consumed := s.header.HeaderFeed(data, fin, true);
      assert State() == old(State());
      match verdict
      case Reject => Failing(Peer);
      case More =>
      case Accept =>
        var name := FileName(Header(s.header.line[..s.header.length], s.header.complete));
        ReceiveNamed(s, Named(name), data[consumed..], fin, false, host);
    }

    /** xqc_wt_interop_receive for a record that was found */
    method OnStreamData(mode: Mode, s: Record, data: bytes, fin: bool, host: HostAnswers)
      requires Valid() && s.Valid() && (s.open ==> OnDisk(State(), s.index))
      modifies this, received, s, s.header, s.header.line
      ensures Valid() && s.Valid()
      ensures (State(), s.State()) == Receive(mode, old(State()), old(s.State()), data, fin, host)
    {
      hide ReceiveFile, ReceivePush;
      if !s.live || s.complete || !trouble.Fine? || (s.sending && !s.bidi) || mode != (if s.bidi then Bidi else Uni) {
        Failing(Peer);
      } else if s.bidi {
        ReceiveNamed(s, NoName, data, fin, false, host);
      } else {
        OnPushData(s, data, fin, host);
      }
    }

    /** xqc_wt_interop_datagram_read, with its record on the stack */
    method OnDatagramData(mode: Mode, data: bytes, host: HostAnswers)
      requires Valid()
      modifies this, received
      ensures Valid() && State() == ReceiveDatagram(mode, old(State()), data, host)
    {
      hide ReceiveFile, Feed;
      if !trouble.Fine? || success {
        return;
      }
      var s := new Record();
      var verdict, consumed := s.header.HeaderFeed(data, true, true);
      if mode != Dgram || |data| > DATAGRAM_MAX || verdict != Accept {
        Failing(Peer);
        return;
      }
      var name := FileName(Header(s.header.line[..s.header.length], s.header.complete));
      ghost var d, r := State(), s.State();
      ReceiveNamed(s, Named(name), data[consumed..], true, true, host);
      StackRecord(d, r, Named(name), data[consumed..], host);
    }
  }

  lemma WrittenTurn(length: nat, writes: seq<WriteResult>, i: nat)
    requires i <= |writes|
    ensures Written(length, writes[i..]) ==
      if length == 0 then (0, true)
      else if i == |writes| || writes[i].WriteFailed? || writes[i] == Wrote(0) then (0, false)
      else if writes[i].WriteInterrupted? then Written(length, writes[i + 1..])
      else
        var k := if writes[i].n < length then writes[i].n else length;
        var r := Written(length - k, writes[i + 1..]);
        (k + r.0, r.1)
  {
    assert i < |writes| ==> writes[i..][0] == writes[i] && writes[i..][1..] == writes[i + 1..];
  }

  /** The header kept beside does not matter to what is received. */
  lemma StackRecord(d: Download, s: Incoming, name: Name, data: bytes, host: HostAnswers)
    requires |d.received| == |d.files| && s == FRESH.(header := s.header)
    ensures ReceiveFile(d, s, name, data, true, true, host).0 == ReceiveFile(d, FRESH, name, data, true, true, host).0
  {
  }
}
