/** The echo client in stream mode: its steps, and what its verdict means. */
module EchoClient {
  import opened Bytes
  import opened Pipes

  /** The operations the client can report as failed. */
  datatype Reason =
    | StreamMismatch | ShortEcho | DatagramMismatch
    | StreamSend | DatagramSend | StreamCreate | SessionClose | ConnectionClose | ConnectionLost

  datatype Failure = NoFailure | First(reason: Reason)

  datatype Flow = Flow(sent: nat, received: nat, finSent: bool, finReceived: bool)

  datatype Dgram = Dgram(sent: bool, received: bool)

  datatype Session = Session(ready: bool, streamOpen: bool, closeSent: bool, closed: bool, stopped: bool)

  datatype Verdict = Verdict(failure: Failure, result: int)

  datatype Client = Client(payload: bytes, datagram: bytes, flow: Flow, dgram: Dgram, session: Session,
                           verdict: Verdict)

  function NewClient(payload: bytes, datagram: bytes): Client {
    Client(payload, datagram, Flow(0, 0, false, false), Dgram(false, false),
           Session(false, false, false, false, false), Verdict(NoFailure, 1))
  }

  predicate Ok(c: Client) {
    c.verdict.failure.NoFailure?
  }

  function Fail(c: Client, r: Reason): Client {
    if Ok(c) then c.(verdict := Verdict(First(r), 1)) else c
  }

  /** A flush is not over before it starts. */
  predicate Active(c: Client) {
    c.session.ready && Ok(c) && !c.session.closeSent
  }

  predicate SendsStream(c: Client) {
    Active(c) && c.session.streamOpen && !c.flow.finSent
  }

  function FlushStream(c: Client, answer: SendResult): Client {
    if !SendsStream(c) then c
    else
      var left := |c.payload| - c.flow.sent;
      match answer
      case Accepted(n) =>
        if n <= left then c.(flow := c.flow.(sent := c.flow.sent + n, finSent := n == left))
        else Fail(c, StreamSend)
      case Blocked => c
      case Failed => Fail(c, StreamSend)
  }

  predicate SendsDatagram(c: Client) {
    Active(c) && !c.dgram.sent
  }

  function FlushDatagram(c: Client, answer: SendResult): Client {
    if !SendsDatagram(c) then c
    else
      match answer
      case Accepted(_) => c.(dgram := c.dgram.(sent := true))
      case Blocked => c
      case Failed => Fail(c, DatagramSend)
  }

  /** The transport's answers to the calls one callback may make. */
  datatype Answers = Answers(stream: SendResult, datagram: SendResult, close: bool)

  /** xqc_demo_wt_client_flush */
  function FlushBoth(c: Client, a: Answers): Client {
    FlushDatagram(FlushStream(c, a.stream), a.datagram)
  }

  /** xqc_demo_wt_client_maybe_close */
  function MaybeClose(c: Client, closeOk: bool): Client {
    if !Ok(c) || c.session.closeSent || !c.flow.finReceived || !c.dgram.received then c
    else
      var d := c.(session := c.session.(closeSent := true));
      if closeOk then d else Fail(d, SessionClose)
  }

  /** Data is what the payload holds at that place. */
  predicate Matches(payload: bytes, at: nat, data: bytes) {
    at + |data| <= |payload| && payload[at..at + |data|] == data
  }

  /** xqc_demo_wt_client_stream_read */
  function StreamRead(c: Client, data: bytes, fin: bool, a: Answers): Client {
    if !c.session.streamOpen then c
    else if |data| > c.flow.sent - c.flow.received || !Matches(c.payload, c.flow.received, data) then
      Fail(c, StreamMismatch)
    else Received(c.(flow := c.flow.(received := c.flow.received + |data|)), fin, a)
  }

  /** The rest of the read callback, once the data is counted. */
  function Received(c: Client, fin: bool, a: Answers): Client {
    if !fin then FlushBoth(c, a)
    else if c.flow.received != |c.payload| || !c.flow.finSent then Fail(c, ShortEcho)
    else MaybeClose(c.(flow := c.flow.(finReceived := true)), a.close)
  }

  /** xqc_demo_wt_client_datagram_read */
  function DatagramRead(c: Client, data: bytes, a: Answers): Client {
    if data != c.datagram then Fail(c, DatagramMismatch)
    else MaybeClose(c.(dgram := c.dgram.(received := true)), a.close)
  }

  /** xqc_demo_wt_client_ready */
  function Ready(c: Client, streamCreated: bool, a: Answers): Client {
    var d := c.(session := c.session.(ready := true, streamOpen := streamCreated));
    if streamCreated then FlushBoth(d, a) else Fail(d, StreamCreate)
  }

  predicate Complete(c: Client) {
    Ok(c) && c.session.ready && c.session.closeSent && c.flow.finReceived && c.dgram.received
  }

  /** xqc_demo_wt_client_closed, given the peer's close code and whether the connection close worked. */
  function Closed(c: Client, code: nat, closeOk: bool): Client {
    if c.session.stopped then c
    else
      var pass := Complete(c) && code == 0;
      var d := c.(session := c.session.(closed := true, streamOpen := false),
                  verdict := if pass then Verdict(c.verdict.failure, 0) else c.verdict);
      if closeOk then d else Fail(d, ConnectionClose)
  }

  datatype Event =
    | OnReady(streamCreated: bool, answers: Answers)
    | OnWritable(answers: Answers)
    | OnStream(data: bytes, fin: bool, answers: Answers)
    | OnDatagram(data: bytes, answers: Answers)
    | OnStreamClosed
    | OnClosed(code: nat, closeOk: bool)
    | OnConnectionClosing
    | OnFinish

  function Step(c: Client, e: Event): Client {
    match e
    case OnReady(created, a) => Ready(c, created, a)
    case OnWritable(a) => FlushBoth(c, a)
    case OnStream(data, fin, a) => StreamRead(c, data, fin, a)
    case OnDatagram(data, a) => DatagramRead(c, data, a)
    case OnStreamClosed => c.(session := c.session.(streamOpen := false))
    case OnClosed(code, ok) => Closed(c, code, ok)
    case OnConnectionClosing => if c.session.stopped || c.session.closed then c else Fail(c, ConnectionLost)
    case OnFinish => c.(session := c.session.(stopped := true))
  }

  // -------------------------------------------------------- what the network showed

  /**
   * An account of what the network delivered, kept beside the client: the bytes of all stream reads,
   * the FINs that came after the client's own FIN was accepted, whether the datagram came back, and
   * whether a session close with code 0 was seen and answered.
   */
  datatype Account = Account(got: bytes, fins: nat, matched: bool, goodClose: bool)

  function Watch(w: Account, c: Client, e: Event): Account {
    match e
    case OnStream(data, fin, _) =>
      if !c.session.streamOpen then w
      else w.(got := w.got + data, fins := w.fins + if fin && c.flow.finSent then 1 else 0)
    case OnDatagram(data, _) => w.(matched := w.matched || data == c.datagram)
    case OnClosed(code, ok) => w.(goodClose := w.goodClose || (code == 0 && ok && !c.session.stopped))
    case _ => w
  }

  /** As long as nothing has failed, the counters and flags tell what really happened. */
  ghost predicate Honest(c: Client, w: Account) {
    && (Ok(c) ==> HonestFlow(c.payload, c.flow, w))
    && (Ok(c) && c.dgram.received ==> w.matched)
    && (Ok(c) && c.session.closeSent ==> c.flow.finReceived && c.dgram.received)
    && (c.verdict.result == 0 ==> Complete(c) && w.goodClose)
  }

  ghost predicate HonestFlow(payload: bytes, f: Flow, w: Account) {
    && f.received <= f.sent <= |payload|
    && w.got == payload[..f.received]
    && (f.finSent ==> f.sent == |payload|)
    && (f.finReceived ==> w.fins > 0 && f.finSent && f.received == |payload|)
  }

  lemma HonestFlush(c: Client, w: Account, a: Answers)
    requires Honest(c, w)
    ensures Honest(FlushBoth(c, a), w)
  {
  }

  lemma HonestClose(c: Client, w: Account, closeOk: bool)
    requires Honest(c, w)
    ensures Honest(MaybeClose(c, closeOk), w)
  {
  }

  lemma HonestReceived(c: Client, w: Account, fin: bool, a: Answers)
    requires Honest(c, w) && (fin && c.flow.finSent ==> w.fins > 0)
    ensures Honest(Received(c, fin, a), w)
  {
    hide FlushBoth, MaybeClose;
    if !fin {
      HonestFlush(c, w, a);
    } else if c.flow.received == |c.payload| && c.flow.finSent {
      HonestClose(c.(flow := c.flow.(finReceived := true)), w, a.close);
    }
  }

  lemma HonestRead(c: Client, w: Account, data: bytes, fin: bool, a: Answers)
    requires Honest(c, w)
    ensures Honest(StreamRead(c, data, fin, a), Watch(w, c, OnStream(data, fin, a)))
  {
    hide Received;
    if c.session.streamOpen && |data| <= c.flow.sent - c.flow.received && Matches(c.payload, c.flow.received, data) {
      assert c.payload[..c.flow.received] + data == c.payload[..c.flow.received + |data|];
      HonestReceived(c.(flow := c.flow.(received := c.flow.received + |data|)),
                     Watch(w, c, OnStream(data, fin, a)), fin, a);
    }
  }

  lemma HonestStep(c: Client, w: Account, e: Event)
    requires Honest(c, w)
    ensures Honest(Step(c, e), Watch(w, c, e))
  {
    match e
    case OnStream(data, fin, a) => HonestRead(c, w, data, fin, a);
    case OnReady(created, a) =>
      HonestFlush(c.(session := c.session.(ready := true, streamOpen := created)), w, a);
    case OnWritable(a) => HonestFlush(c, w, a);
    case OnDatagram(data, a) =>
      if data == c.datagram {
        HonestClose(c.(dgram := c.dgram.(received := true)), Watch(w, c, e), a.close);
      }
    case _ =>
  }

  lemma HonestAfter(c: Client, e: Event)
    ensures forall w :: Honest(c, w) ==> Honest(Step(c, e), Watch(w, c, e))
  {
    hide Honest, Step, Watch;
    forall w | Honest(c, w)
      ensures Honest(Step(c, e), Watch(w, c, e))
    {
      HonestStep(c, w, e);
    }
  }

  function Run(c: Client, es: seq<Event>): Client {
    if es == [] then c else Step(Run(c, es[..|es| - 1]), es[|es| - 1])
  }

  function WatchRun(c: Client, es: seq<Event>): Account {
    if es == [] then Account([], 0, false, false)
    else
      var before := es[..|es| - 1];
      Watch(WatchRun(c, before), Run(c, before), es[|es| - 1])
  }

  lemma {:induction false} HonestRun(payload: bytes, datagram: bytes, es: seq<Event>)
    ensures Honest(Run(NewClient(payload, datagram), es), WatchRun(NewClient(payload, datagram), es))
    ensures Run(NewClient(payload, datagram), es).payload == payload
    decreases |es|
  {
    var c := NewClient(payload, datagram);
    if es != [] {
      hide Honest, Step, Watch;
      var before := es[..|es| - 1];
      HonestRun(payload, datagram, before);
      HonestStep(Run(c, before), WatchRun(c, before), es[|es| - 1]);
      PayloadKept(Run(c, before), es[|es| - 1]);
    }
  }

  lemma PayloadKept(c: Client, e: Event)
    ensures Step(c, e).payload == c.payload
  {
  }

  /**
   * Whatever the network does, the client passes only after it received exactly the payload, then
   * the FIN behind its own, got its datagram back, and saw its close answered with code 0.
   */
  lemma PassMeansEchoed(payload: bytes, datagram: bytes, es: seq<Event>)
    requires Run(NewClient(payload, datagram), es).verdict.result == 0
    ensures var c := Run(NewClient(payload, datagram), es); var w := WatchRun(NewClient(payload, datagram), es);
      && w.got == payload && c.flow.sent == |payload| && c.flow.finSent
      && w.fins > 0 && w.matched && c.session.closeSent && w.goodClose
  {
    HonestRun(payload, datagram, es);
    var c := Run(NewClient(payload, datagram), es);
    assert c.payload[..|payload|] == payload;
  }

  // ------------------------------------------------------------- the global record

  class Context {
    const payload: bytes
    const datagram: bytes
    var sent: nat
    var received: nat
    var ready: bool
    var stream: bool
    var finSent: bool
    var finReceived: bool
    var datagramSent: bool
    var datagramReceived: bool
    var closeSent: bool
    var sessionClosed: bool
    var stopped: bool
    var failure: Failure
    var result: int

    ghost function State(): Client
      reads this
    {
      Client(payload, datagram, Flow(sent, received, finSent, finReceived), Dgram(datagramSent, datagramReceived),
             Session(ready, stream, closeSent, sessionClosed, stopped), Verdict(failure, result))
    }

    constructor (payload: bytes, datagram: bytes)
      ensures State() == NewClient(payload, datagram)
    {
      this.payload, this.datagram := payload, datagram;
      sent, received, result, failure := 0, 0, 1, NoFailure;
      ready, stream, finSent, finReceived := false, false, false, false;
      datagramSent, datagramReceived := false, false;
      closeSent, sessionClosed, stopped := false, false, false;
    }

    method Failing(r: Reason)
      modifies this`failure, this`result
      ensures State() == Fail(old(State()), r)
    {
      if failure.NoFailure? {
        failure := First(r);
        result := 1;
      }
    }

    method Flush(a: Answers)
      modifies this`sent, this`finSent, this`datagramSent, this`failure, this`result
      ensures State() == FlushBoth(old(State()), a)
    {
      if !ready || failure.First? || closeSent {
        return;
      }
      if stream && !finSent {
        var len := |payload| - sent;
        if a.stream.Accepted? && a.stream.n <= len {
          sent := sent + a.stream.n;
          finSent := a.stream.n == len;
        } else if !a.stream.Blocked? {
          Failing(StreamSend);
          return;
        }
      }
      if !datagramSent {
        if a.datagram.Accepted? {
          datagramSent := true;
        } else if !a.datagram.Blocked? {
          Failing(DatagramSend);
        }
      }
    }

    method TryClose(closeOk: bool)
      modifies this`closeSent, this`failure, this`result
      ensures State() == MaybeClose(old(State()), closeOk)
      ensures forall w :: old(Honest(State(), w)) ==> Honest(State(), w)
    {
      forall w | Honest(State(), w)
        ensures Honest(MaybeClose(State(), closeOk), w)
      {
        HonestClose(State(), w, closeOk);
      }
      if failure.First? || closeSent || !finReceived || !datagramReceived {
        return;
      }
      closeSent := true;
      if !closeOk {
        Failing(SessionClose);
      }
    }

    /** The byte-by-byte comparison with the payload. */
    method Compare(data: bytes) returns (same: bool)
      requires received + |data| <= |payload|
      ensures same <==> Matches(payload, received, data)
    {
      for i := 0 to |data|
        invariant forall j :: 0 <= j < i ==> data[j] == payload[received + j]
      {
        if data[i] != payload[received + i] {
          assert payload[received..received + |data|][i] == payload[received + i];
          return false;
        }
      }
      return true;
    }

    /** The rest of the read callback, once the data is counted. */
    method Arrived(fin: bool, a: Answers)
      modifies this
      ensures State() == Received(old(State()), fin, a)
    {
      hide FlushBoth, MaybeClose;
      if fin {
        if received != |payload| || !finSent {
          Failing(ShortEcho);
          return;
        }
        finReceived := true;
        TryClose(a.close);
      } else {
        Flush(a);
      }
    }

    method OnStreamRead(data: bytes, fin: bool, a: Answers)
      requires received <= sent <= |payload|
      modifies this
      ensures State() == StreamRead(old(State()), data, fin, a)
    {
      hide Matches, Received;
      if !stream {
        return;
      }
      if |data| > sent - received {
        Failing(StreamMismatch);
        return;
      }
      var same := Compare(data);
      if !same {
        Failing(StreamMismatch);
        return;
      }
      received := received + |data|;
      Arrived(fin, a);
    }

    method OnDatagramRead(data: bytes, a: Answers)
      modifies this
      ensures State() == DatagramRead(old(State()), data, a)
      ensures forall w :: old(Honest(State(), w)) ==> Honest(State(), Watch(w, old(State()), OnDatagram(data, a)))
    {
      HonestAfter(State(), OnDatagram(data, a));
      if data != datagram {
        Failing(DatagramMismatch);
        return;
      }
      datagramReceived := true;
      TryClose(a.close);
    }

    method OnSessionClosed(code: nat, closeOk: bool)
      modifies this
      ensures State() == Closed(old(State()), code, closeOk)
      ensures forall w :: old(Honest(State(), w)) ==> Honest(State(), Watch(w, old(State()), OnClosed(code, closeOk)))
    {
      HonestAfter(State(), OnClosed(code, closeOk));
      if stopped {
        return;
      }
      sessionClosed := true;
      if failure.NoFailure? && ready && closeSent && finReceived && datagramReceived && code == 0 {
        result := 0;
      }
      stream := false;
      if failure.NoFailure? && !closeOk {
        result := 1;
        Failing(ConnectionClose);
      }
    }
  }
}
