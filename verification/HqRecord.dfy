/** The hq request record as it is kept: a send buffer, a receive buffer, a resource buffer and counters. */
module HqRecord {
  import opened Bytes
  import opened Pipes
  import opened HqRequest

  /** What sending came to: all is out, "try again", or an error. */
  datatype SendCode = Complete | Again | Refused

  class Request {
    var sendBuf: bytes
    var sentCnt: nat
    const recvBuf: array<byte>
    var recvCnt: nat
    const resourceBuf: array<byte>
    var resourceLen: nat
    var readOffset: nat
    var fin: bool

    ghost predicate Valid()
      reads this
    {
      && recvBuf.Length == REQUEST_MAX && resourceBuf.Length == RESOURCE_CAP + 1 && recvBuf != resourceBuf
      && sentCnt <= |sendBuf| && recvCnt <= REQUEST_MAX && readOffset <= resourceLen <= RESOURCE_CAP
    }

    ghost function State(): Reader
      requires Valid()
      reads this, recvBuf, resourceBuf
    {
      Reader(recvBuf[..], recvCnt, fin, resourceBuf[..resourceLen], readOffset)
    }

    constructor ()
      ensures Valid() && fresh(recvBuf) && fresh(resourceBuf) && sendBuf == []
      ensures State() == Reader(recvBuf[..], 0, false, [], 0)
    {
      recvBuf := new byte[REQUEST_MAX];
      resourceBuf := new byte[RESOURCE_CAP + 1];
      sendBuf, sentCnt, recvCnt, resourceLen, readOffset, fin := [], 0, 0, 0, 0, false;
    }

    /**
     * xqc_hq_request_send_data: what the transport took, in order, and whether the FIN went along; each
     * send offers the rest with FIN, and where the answers end, it is blocked.
     */
    method SendData(answers: seq<SendResult>) returns (code: SendCode, wrote: bytes, closed: bool)
      requires Valid()
      modifies this`sentCnt
      ensures Valid() && old(sentCnt) <= sentCnt && wrote == sendBuf[old(sentCnt)..sentCnt]
      ensures code == Complete <==> sentCnt == |sendBuf|
      ensures closed <==> old(sentCnt) < sentCnt == |sendBuf|
    {
      wrote, closed := [], false;
      var i := 0;
      while sentCnt < |sendBuf|
        invariant Valid() && 0 <= i <= |answers|
        invariant old(sentCnt) <= sentCnt && wrote == sendBuf[old(sentCnt)..sentCnt]
        invariant closed <==> old(sentCnt) < sentCnt == |sendBuf|
        decreases |answers| - i
      {
        if i == |answers| || answers[i].Blocked? {
          return Again, wrote, closed;
        }
        if answers[i].Failed? {
          return Refused, wrote, closed;
        }
        var n := Min(answers[i].n, |sendBuf| - sentCnt);
        assert sendBuf[old(sentCnt)..sentCnt + n] == wrote + sendBuf[sentCnt..sentCnt + n];
        wrote := wrote + sendBuf[sentCnt..sentCnt + n];
        sentCnt := sentCnt + n;
        closed := sentCnt == |sendBuf|;
        i := i + 1;
      }
      return Complete, wrote, closed;
    }

    /** xqc_hq_request_send_req: only one request to a stream. */
    method SendReq(resource: CString, answers: seq<SendResult>) returns (code: SendCode, wrote: bytes, closed: bool)
      requires Valid()
      modifies this`sendBuf, this`sentCnt
      ensures Valid()
      ensures old(sendBuf) != [] ==>
        code == Refused && sendBuf == old(sendBuf) && sentCnt == old(sentCnt) && wrote == []
      ensures old(sendBuf) == [] ==>
        sendBuf == Line(resource) && wrote == sendBuf[..sentCnt] && (closed <==> wrote == sendBuf)
    {
      if sendBuf != [] {
        return Refused, [], false;
      }
      sendBuf, sentCnt := Line(resource), 0;
      code, wrote, closed := SendData(answers);
    }

    /** One receive into the buffer behind what is there. */
    method Fill(p: Pipe, n: nat)
      requires Valid() && n <= |p.flight| && recvCnt + n <= REQUEST_MAX
      modifies this`recvCnt, this`fin, recvBuf
      ensures Valid() && State() == Filled(old(State()), p, n)
    {
      for i := 0 to n
        modifies recvBuf
        invariant forall j :: 0 <= j < REQUEST_MAX && !(recvCnt <= j < recvCnt + i) ==> recvBuf[j] == old(recvBuf[j])
        invariant forall j :: 0 <= j < i ==> recvBuf[recvCnt + j] == p.flight[j]
      {
        recvBuf[recvCnt + i] := p.flight[i];
      }
      Overwritten(old(recvBuf[..]), recvBuf[..], recvCnt, p.flight[..n]);
      recvCnt := recvCnt + n;
      fin := CarriesFin(p, n);
    }

    method FetchLoop(p: Pipe, answers: seq<Answer>) returns (q: Pipe, ending: Ending)
      requires Valid()
      modifies this`recvCnt, this`fin, recvBuf
      ensures Valid() && (State(), q, ending) == Fetch(old(State()), p, answers)
    {
      hide Filled, Taken, Get;
      q := p;
      var i := 0;
      assert answers[0..] == answers;
      while i < |answers|
        invariant Valid() && 0 <= i <= |answers|
        invariant Fetch(old(State()), p, answers) == Fetch(State(), q, answers[i..])
      {
        assert answers[i..][0] == answers[i] && answers[i..][1..] == answers[i + 1..];
        if answers[i].Error? {
          return q, Return(Broken);
        }
        var n := Min(answers[i].n, Min(|q.flight|, REQUEST_MAX - recvCnt));
        assert n == Get(State(), q, answers[i].n) by {
          GetIs(State(), q, answers[i].n);
        }
        if n == 0 && !CarriesFin(q, 0) {
          return q, GoOn;
        }
        Fill(q, n);
        q := Taken(q, n);
        i := i + 1;
        if recvCnt == REQUEST_MAX && fin {
          return q, Return(Fatal);
        }
        if n == 0 || fin {
          return q, GoOn;
        }
      }
      return q, GoOn;
    }

    /** Copies out what the caller's buffer has room for; res is the string left in it. */
    method ServePiece(size: nat) returns (reply: Reply)
      requires Valid()
      modifies this`readOffset
      ensures Valid() && (State(), reply) == Serve(old(State()), size)
    {
      if readOffset == resourceLen {
        return Nothing;
      }
      if size <= 1 {
        return NoBuffer;
      }
      var start := readOffset;
      readOffset := readOffset + Min(resourceLen - readOffset, size - 1);
      assert resourceBuf[..resourceLen][start..readOffset] == resourceBuf[start..readOffset];
      return Piece(resourceBuf[start..readOffset], readOffset == resourceLen);
    }

    method CopyResource(resource: bytes)
      requires Valid() && |resource| <= RESOURCE_CAP
      modifies resourceBuf
      ensures Valid() && recvBuf[..] == old(recvBuf[..]) && resourceBuf[..|resource|] == resource
    {
      for i := 0 to |resource|
        modifies resourceBuf
        invariant forall j :: 0 <= j < i ==> resourceBuf[j] == resource[j]
      {
        resourceBuf[i] := resource[i];
      }
    }

    /** The scan of the receive buffer into the resource buffer. */
    method ParseReq() returns (ok: bool, n: nat, ended: bool)
      requires Valid()
      modifies resourceBuf
      ensures Valid() && recvBuf[..] == old(recvBuf[..])
      ensures ok == Parse(recvBuf[..]).Request? && n <= RESOURCE_CAP
      ensures ok ==> n > 0 && Parse(recvBuf[..]) == HqRequest.Request(resourceBuf[..n], ended)
    {
      hide Words, UpToNul;
      var (verb, resource) := Words(UpToNul(recvBuf[..]));
      CopyResource(resource);
      ok, n, ended := verb != [] && resource != [], |resource|, false;
      if ok {
        var length := |verb| + n + 1;
        ended := length + 2 <= REQUEST_MAX && recvBuf[length] == CR && recvBuf[length + 1] == NL;
      }
    }

    /** The rest of the call, behind the receive loop. */
    method Finish(size: nat) returns (reply: Reply)
      requires Valid()
      modifies this`resourceLen, this`readOffset, recvBuf, resourceBuf
      ensures Valid() && (State(), reply) == Conclude(old(State()), size)
    {
      hide Parse, Serve;
      if recvCnt >= REQUEST_MAX {
        return Proto;
      }
      recvBuf[recvCnt] := 0;
      assert recvBuf[..] == old(recvBuf[..])[recvCnt := 0];
      if resourceLen == 0 {
        var ok, n, ended := ParseReq();
        if !ok {
          return if fin then Proto else Nothing;
        }
        if !fin && !ended {
          return Nothing;
        }
        resourceLen := n;
      }
      reply := ServePiece(size);
    }

    method RecvReq(p: Pipe, size: nat, answers: seq<Answer>) returns (q: Pipe, reply: Reply)
      requires Valid()
      modifies this`recvCnt, this`fin, this`resourceLen, this`readOffset, recvBuf, resourceBuf
      ensures Valid() && (State(), q, reply) == Recv(old(State()), p, size, answers)
    {
      hide Fetch, Conclude;
      FetchFits(State(), p, answers);
      var ending;
      q, ending := FetchLoop(p, answers);
      match ending
      case Return(r) => reply := r;
      case GoOn => reply := Finish(size);
    }
  }

  lemma GetIs(r: Reader, p: Pipe, ready: nat)
    requires r.cnt <= REQUEST_MAX
    ensures Get(r, p, ready) == Min(ready, Min(|p.flight|, REQUEST_MAX - r.cnt))
  {
  }

  /** A buffer that differs from another in the bytes from k on, which are data. */
  lemma Overwritten(was: bytes, now: bytes, k: nat, data: bytes)
    requires |now| == |was| && k + |data| <= |was|
    requires forall j :: 0 <= j < |was| && !(k <= j < k + |data|) ==> now[j] == was[j]
    requires forall j :: 0 <= j < |data| ==> now[k + j] == data[j]
    ensures now == was[..k] + data + was[k + |data|..]
  {
    forall j | 0 <= j < |was|
      ensures now[j] == (was[..k] + data + was[k + |data|..])[j]
    {
      if k <= j < k + |data| {
        assert now[k + (j - k)] == data[j - k];
      }
    }
  }
}
