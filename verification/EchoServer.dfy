/** The echo server's side of one bidirectional stream. */
module EchoServer {
  import opened Bytes
  import opened Pipes

  /** XQC_DEMO_WT_PENDING_MAX */
  const PENDING_MAX: nat := 65536

  datatype Server = Server(pending: bytes, fin: bool, sendClosed: bool, readPaused: bool)

  const NEW_SERVER := Server([], false, false, false)

  /** XQC_OK, -XQC_EAGAIN, XQC_ERROR */
  datatype Code = Done | Again | Broken

  /** flush has something to hand to the transport. */
  predicate Sends(s: Server) {
    !s.sendClosed && (s.pending != [] || s.fin)
  }

  /** xqc_demo_wt_bidi_flush, given the transport's answer to its send. */
  function Flush(s: Server, answer: SendResult): (Server, Code) {
    if !Sends(s) then (s, Done)
    else
      match answer
      case Blocked => (s, Done)
      case Failed => (s, Broken)
      case Accepted(n) =>
        if n > |s.pending| then (s, Broken)
        else
          var rest := s.pending[n..];
          (Server(rest, s.fin, s.sendClosed || (rest == [] && s.fin), s.readPaused && rest != []), Done)
  }

  /** xqc_demo_wt_bidi_read of one chunk, which is consumed whole or not at all. */
  function Read(s: Server, data: bytes, fin: bool, answer: SendResult): (Server, Code) {
    if s.sendClosed then (s, Done)
    else if |data| > PENDING_MAX - |s.pending| then (s.(readPaused := true), Again)
    else Flush(s.(pending := s.pending + data, fin := fin), answer)
  }

  /** The record as it is kept: a fixed buffer, its fill and three flags. */
  class Stream {
    const pending: array<byte>
    var length: nat
    var fin: bool
    var sendClosed: bool
    var readPaused: bool

    ghost predicate Valid()
      reads this, pending
    {
      pending.Length == PENDING_MAX && length <= PENDING_MAX
    }

    ghost function State(): Server
      requires Valid()
      reads this, pending
    {
      Server(pending[..length], fin, sendClosed, readPaused)
    }

    constructor ()
      ensures Valid() && fresh(pending) && State() == NEW_SERVER
    {
      pending := new byte[PENDING_MAX];
      length, fin, sendClosed, readPaused := 0, false, false, false;
    }

    /** memmove of the bytes from index n to the front. */
    method Shift(n: nat)
      requires Valid() && n <= length
      modifies pending, this`length
      ensures Valid() && length == old(length) - n && pending[..length] == old(pending[n..length])
    {
      length := length - n;
      for i := 0 to length
        invariant length == old(length) - n
        invariant pending[..i] == old(pending[n..n + i])
        invariant forall j :: n + i <= j < old(length) ==> pending[j] == old(pending[j])
      {
        pending[i] := pending[i + n];
      }
    }

    method BidiFlush(answer: SendResult) returns (code: Code)
      requires Valid()
      modifies this, pending
      ensures Valid() && (State(), code) == Flush(old(State()), answer)
    {
      if sendClosed || (length == 0 && !fin) {
        return Done;
      }
      match answer
      case Blocked => return Done;
      case Failed => return Broken;
      case Accepted(n) =>
        if n > length {
          return Broken;
        }
        Shift(n);
        if length == 0 && fin {
          sendClosed := true;
        }
        if length == 0 && readPaused {
          readPaused := false;
        }
        assert pending[..length] == old(pending[..length])[n..];
        return Done;
    }

    method BidiRead(data: bytes, recvFin: bool, answer: SendResult) returns (code: Code)
      requires Valid()
      modifies this, pending
      ensures Valid() && (State(), code) == Read(old(State()), data, recvFin, answer)
    {
      if sendClosed {
        return Done;
      }
      if |data| > PENDING_MAX - length {
        readPaused := true;
        return Again;
      }
      for i := 0 to |data|
        modifies pending
        invariant pending[..length + i] == old(pending[..length]) + data[..i]
      {
        pending[length + i] := data[i];
      }
      assert data[..|data|] == data;
      length := length + |data|;
      fin := recvFin;
      assert State() == old(State()).(pending := old(State()).pending + data, fin := recvFin);
      code := BidiFlush(answer);
    }
  }
}
