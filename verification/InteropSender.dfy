/** The resumable sender: a header and then a file, through short reads, short writes and blocked sends. */
module InteropSender {
  import opened Bytes
  import opened Pipes
  import opened InteropPath
  import opened InteropHeader

  /** XQC_WT_INTEROP_BUFFER_SIZE */
  const BUFFER_SIZE: nat := 65536

  /** What read returned: some bytes (none only at the end of the file), EINTR, or another error. */
  datatype ReadResult = Chunk(n: nat) | Interrupted | Broken

  /** The file still to be read, or none. */
  datatype Source = Closed | Open(rest: bytes)

  /** The stream record as far as sending goes; failed is the context's flag. */
  datatype Sender = Sender(pending: bytes, offset: nat, source: Source, sent: bool, failed: bool)

  /** What one turn of the loop leads to, and what the transport accepted in it. */
  datatype Outcome = Outcome(s: Sender, again: bool, wrote: bytes, fin: bool)

  /** The answers to the calls of one turn. */
  datatype Turn = Turn(read: ReadResult, send: SendResult)

  function Rest(source: Source): bytes {
    if source.Open? then source.rest else []
  }

  predicate Fits(s: Sender) {
    s.offset <= |s.pending| <= BUFFER_SIZE
  }

  predicate Drained(s: Sender) {
    s.offset == |s.pending|
  }

  /** A read asked for a full buffer gets at least one byte unless the file is at its end. */
  function ReadLength(n: nat, rest: bytes): (k: nat)
    ensures k <= |rest| && k <= BUFFER_SIZE && (k == 0 <==> rest == [])
  {
    var most := if |rest| < BUFFER_SIZE then |rest| else BUFFER_SIZE;
    if n > most then most else if n == 0 && most > 0 then 1 else n
  }

  function Refilled(s: Sender, n: nat): Sender
    requires s.source.Open?
  {
    var k := ReadLength(n, s.source.rest);
    s.(pending := s.source.rest[..k], offset := 0,
       source := if k == 0 then Closed else Open(s.source.rest[k..]))
  }

  function Stuck(s: Sender): Outcome {
    Outcome(s.(failed := true), false, [], false)
  }

  function Attempt(s: Sender, answer: SendResult): Outcome
    requires Fits(s)
  {
    var left := s.pending[s.offset..];
    var fin := left == [] && s.source.Closed?;
    match answer
    case Blocked => Outcome(s, false, [], false)
    case Failed => Stuck(s)
    case Accepted(n) =>
      if n > |left| then Stuck(s)
      else if fin then Outcome(s.(sent := true), true, [], true)
      else Outcome(s.(offset := s.offset + n), n > 0, left[..n], false)
  }

  function Iterate(s: Sender, t: Turn): Outcome
    requires Fits(s)
  {
    if Drained(s) && s.source.Open? then
      match t.read
      case Broken => Stuck(s)
      case Interrupted => Outcome(s, true, [], false)
      case Chunk(n) => Attempt(Refilled(s, n), t.send)
    else Attempt(s, t.send)
  }

  lemma IterateFits(s: Sender, t: Turn)
    requires Fits(s)
    ensures Fits(Iterate(s, t).s)
  {
  }

  /**
   * xqc_wt_interop_flush: the sender afterwards, the bytes accepted and the FINs accepted. Turns
   * answers the calls in order; where it ends, the loop is left as it stands.
   */
  function Flush(s: Sender, turns: seq<Turn>): (r: (Sender, bytes, nat))
    requires Fits(s)
    ensures Fits(r.0)
    decreases |turns|
  {
    if turns == [] || s.sent || s.failed then (s, [], 0)
    else
      IterateFits(s, turns[0]);
      var o := Iterate(s, turns[0]);
      var fins := if o.fin then 1 else 0;
      if !o.again then (o.s, o.wrote, fins)
      else
        var (e, wrote, more) := Flush(o.s, turns[1..]);
        (e, o.wrote + wrote, fins + more)
  }

  // ----------------------------------------------------------------- what goes out

  /** What is written so far, what is pending and what is unread make up the message; the FIN is last. */
  ghost predicate Carries(msg: bytes, wire: bytes, fins: nat, s: Sender) {
    && Fits(s)
    && wire + s.pending[s.offset..] + Rest(s.source) == msg
    && fins == (if s.sent then 1 else 0)
    && (s.sent ==> Drained(s) && s.source.Closed?)
  }

  lemma RefilledCarries(msg: bytes, wire: bytes, fins: nat, s: Sender, n: nat)
    requires Carries(msg, wire, fins, s) && Drained(s) && s.source.Open?
    ensures Carries(msg, wire, fins, Refilled(s, n))
  {
    var r := Refilled(s, n);
    var k := |r.pending|;
    assert s.source.rest == s.source.rest[..k] + s.source.rest[k..];
    assert wire + s.pending[s.offset..] + s.source.rest == wire + s.source.rest;
    assert wire + r.pending[0..] + Rest(r.source) == wire + s.source.rest;
  }

  /** Some of what is pending goes out. */
  lemma MovedOn(msg: bytes, wire: bytes, fins: nat, s: Sender, n: nat)
    requires Carries(msg, wire, fins, s) && !s.sent && s.offset + n <= |s.pending|
    ensures Carries(msg, wire + s.pending[s.offset..][..n], fins, s.(offset := s.offset + n))
  {
    hide Rest;
    var left, rest := s.pending[s.offset..], Rest(s.source);
    assert left[n..] == s.pending[s.offset + n..];
    Regrouped(wire, left, n, rest);
  }

  lemma Regrouped(wire: bytes, left: bytes, n: nat, rest: bytes)
    requires n <= |left|
    ensures wire + left + rest == wire + left[..n] + left[n..] + rest
  {
    assert left == left[..n] + left[n..];
    assert wire + left == wire + left[..n] + left[n..];
  }

  lemma AttemptCarries(msg: bytes, wire: bytes, fins: nat, s: Sender, answer: SendResult)
    requires Carries(msg, wire, fins, s) && !s.sent
    ensures var o := Attempt(s, answer); Carries(msg, wire + o.wrote, fins + (if o.fin then 1 else 0), o.s)
  {
    hide Rest;
    var left := s.pending[s.offset..];
    var o := Attempt(s, answer);
    if answer.Accepted? && answer.n <= |left| && !o.fin {
      hide Carries;
      assert o.s == s.(offset := s.offset + answer.n) && o.wrote == left[..answer.n];
      MovedOn(msg, wire, fins, s, answer.n);
    } else {
      assert o.wrote == [] && wire + [] == wire;
      assert o.s.pending == s.pending && o.s.offset == s.offset && o.s.source == s.source;
    }
  }

  lemma IterateCarries(msg: bytes, wire: bytes, fins: nat, s: Sender, t: Turn)
    requires Carries(msg, wire, fins, s) && !s.sent
    ensures var o := Iterate(s, t); Carries(msg, wire + o.wrote, fins + (if o.fin then 1 else 0), o.s)
  {
    hide Attempt, Refilled;
    assert wire + [] == wire;
    if Drained(s) && s.source.Open? {
      if t.read.Chunk? {
        RefilledCarries(msg, wire, fins, s, t.read.n);
        StillUnsent(s, t.read.n);
        AttemptCarries(msg, wire, fins, Refilled(s, t.read.n), t.send);
      }
    } else {
      AttemptCarries(msg, wire, fins, s, t.send);
    }
  }

  lemma StillUnsent(s: Sender, n: nat)
    requires s.source.Open?
    ensures Refilled(s, n).sent == s.sent
  {
  }

  /** However often it is called and whatever the answers, a flush keeps the message whole. */
  lemma {:induction false} FlushCarries(msg: bytes, wire: bytes, fins: nat, s: Sender, turns: seq<Turn>)
    requires Carries(msg, wire, fins, s)
    ensures var (e, wrote, more) := Flush(s, turns); Carries(msg, wire + wrote, fins + more, e)
    decreases |turns|
  {
    hide Iterate, Carries;
    assert wire + [] == wire;
    CarriesFits(msg, wire, fins, s);
    if turns != [] && !s.sent && !s.failed {
      IterateFits(s, turns[0]);
      IterateCarries(msg, wire, fins, s, turns[0]);
      var o := Iterate(s, turns[0]);
      if o.again {
        FlushCarries(msg, wire + o.wrote, fins + (if o.fin then 1 else 0), o.s, turns[1..]);
        var wrote := Flush(o.s, turns[1..]).1;
        assert wire + o.wrote + wrote == wire + (o.wrote + wrote);
      }
    }
  }

  lemma CarriesFits(msg: bytes, wire: bytes, fins: nat, s: Sender)
    requires Carries(msg, wire, fins, s)
    ensures Fits(s)
  {
  }

  /** What was accepted is a prefix of the message, and a FIN means that it is all of it. */
  lemma CarriesMeans(msg: bytes, wire: bytes, fins: nat, s: Sender)
    requires Carries(msg, wire, fins, s)
    ensures wire <= msg && fins <= 1 && (fins == 1 <==> s.sent) && (fins == 1 ==> wire == msg)
  {
    assert wire <= wire + s.pending[s.offset..] + Rest(s.source);
  }

  function PushHeader(name: bytes): bytes {
    PUSH + name + [NL]
  }

  function PushSender(name: bytes, file: bytes): Sender {
    Sender(PushHeader(name), 0, Open(file), false, false)
  }

  function GetSender(name: bytes): Sender {
    Sender(GET + name, 0, Closed, false, false)
  }

  lemma PushCarries(name: bytes, file: bytes)
    requires |name| <= PATH_MAX
    ensures Carries(PushHeader(name) + file, [], 0, PushSender(name, file))
  {
    assert PushHeader(name)[0..] == PushHeader(name);
    assert [] + PushHeader(name) + file == PushHeader(name) + file;
  }

  lemma GetCarries(name: bytes)
    requires |name| <= PATH_MAX
    ensures Carries(GET + name, [], 0, GetSender(name))
  {
    assert [] + (GET + name)[0..] + [] == GET + name;
  }

  // ------------------------------------------------------------------- the record

  class SendStream {
    const pending: array<byte>
    var length: nat
    var offset: nat
    const file: bytes
    var position: nat
    var open: bool
    var sent: bool
    var failed: bool

    ghost predicate Valid()
      reads this, pending
    {
      pending.Length == BUFFER_SIZE && offset <= length <= BUFFER_SIZE && position <= |file|
    }

    ghost function State(): Sender
      requires Valid()
      reads this, pending
    {
      Sender(pending[..length], offset, if open then Open(file[position..]) else Closed, sent, failed)
    }

    /** The record xqc_wt_interop_send sets up before its first flush. */
    constructor (name: bytes, push: bool, file: bytes)
      requires |name| <= PATH_MAX
      ensures Valid() && fresh(pending)
      ensures State() == if push then PushSender(name, file) else GetSender(name)
    {
      var text := if push then PushHeader(name) else GET + name;
      pending := new byte[BUFFER_SIZE](i => if 0 <= i < |text| then text[i] else 0);
      length, offset := |text|, 0;
      this.file := file;
      position, open, sent, failed := 0, push, false, false;
      new;
      assert pending[..length] == text;
      assert file[0..] == file;
    }

    /** read into the buffer */
    method Refill(n: nat)
      requires Valid() && open && offset == length
      modifies this`length, this`offset, this`position, this`open, pending
      ensures Valid() && State() == Refilled(old(State()), n)
    {
      var k := ReadLength(n, file[position..]);
      for i := 0 to k
        modifies pending
        invariant pending[..i] == file[position..position + i]
      {
        pending[i] := file[position + i];
      }
      length, offset, position := k, 0, position + k;
      open := k != 0;
      assert file[old(position)..][..k] == file[old(position)..position];
      assert file[old(position)..][k..] == file[position..];
    }

    method FlushLoop(turns: seq<Turn>) returns (wrote: bytes, fins: nat)
      requires Valid()
      modifies this, pending
      ensures Valid() && (State(), wrote, fins) == Flush(old(State()), turns)
    {
      hide Iterate;
      wrote, fins := [], 0;
      var i := 0;
      assert turns[0..] == turns && [] + Flush(State(), turns).1 == Flush(State(), turns).1;
      while i < |turns| && !sent && !failed
        invariant Valid() && i <= |turns|
        invariant Flush(old(State()), turns) == Joined(wrote, fins, Flush(State(), turns[i..]))
      {
        ghost var before, said, closed := State(), wrote, fins;
        assert turns[i..][0] == turns[i] && turns[i..][1..] == turns[i + 1..];
        IterateFits(State(), turns[i]);
        var again, more, fin := FlushTurn(turns[i]);
        wrote, fins := wrote + more, fins + if fin then 1 else 0;
        i := i + 1;
        if !again {
          return;
        }
        JoinedTwice(said, closed, more, if fin then 1 else 0, Flush(State(), turns[i..]));
      }
      assert wrote + [] == wrote;
    }

    /** One turn of the loop. */
    method FlushTurn(t: Turn) returns (again: bool, more: bytes, fin: bool)
      requires Valid()
      modifies this, pending
      ensures Valid() && Outcome(State(), again, more, fin) == Iterate(old(State()), t)
    {
      hide Attempt, Refilled;
      if offset == length && open {
        match t.read {
          case Broken =>
            failed := true;
            return false, [], false;
          case Interrupted =>
            return true, [], false;
          case Chunk(n) =>
            Refill(n);
        }
      }
      again, more, fin := SendPending(t.send);
    }

    /** The send, and what its result means. */
    method SendPending(answer: SendResult) returns (again: bool, more: bytes, fin: bool)
      requires Valid()
      modifies this`offset, this`sent, this`failed
      ensures Valid() && Outcome(State(), again, more, fin) == Attempt(old(State()), answer)
    {
      again, more, fin := false, [], false;
      var remaining := length - offset;
      var last := remaining == 0 && !open;
      match answer
      case Blocked =>
      case Failed => failed := true;
      case Accepted(n) =>
        if n > remaining {
          failed := true;
        } else {
          PendingPart(pending[..], length, offset, n);
          more := pending[offset..offset + n];
          offset := offset + n;
          if last {
            sent := true;
          }
          again, fin := last || n > 0, last;
        }
    }
  }

  lemma PendingPart(pending: bytes, length: nat, offset: nat, n: nat)
    requires offset + n <= length <= |pending|
    ensures pending[..length][offset..][..n] == pending[offset..offset + n]
  {
  }

  function Joined(wrote: bytes, fins: nat, r: (Sender, bytes, nat)): (Sender, bytes, nat) {
    (r.0, wrote + r.1, fins + r.2)
  }

  lemma JoinedTwice(a: bytes, m: nat, b: bytes, n: nat, r: (Sender, bytes, nat))
    ensures Joined(a, m, Joined(b, n, r)) == Joined(a + b, m + n, r)
  {
    assert a + (b + r.1) == a + b + r.1;
  }
}
