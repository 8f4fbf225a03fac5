/**
 * Echo client and echo server over two reliable byte pipes and a lossy, duplicating datagram
 * network, for any segmentation, short write, blocked send and order of callbacks.
 */
module EchoProtocol {
  import opened Bytes
  import opened Pipes
  import opened EchoServer
  import opened EchoClient

  /** XQC_DEMO_WT_DGRAM_MAX */
  const DGRAM_MAX: nat := 64

  /** Datagrams on their way to the server, queued there for a retry, and on their way back. */
  datatype Net = Net(up: set<bytes>, queue: seq<bytes>, down: set<bytes>)

  /** Everything ever accepted from the client, consumed by the server, echoed and delivered. */
  datatype Log = Log(accepted: bytes, consumed: bytes, echoed: bytes, delivered: bytes, fins: nat)

  datatype World = World(client: Client, server: Server, up: Pipe, down: Pipe, net: Net, log: Log)

  function Start(payload: bytes, datagram: bytes): World {
    World(NewClient(payload, datagram), NEW_SERVER, IDLE, IDLE, Net({}, [], {}), Log([], [], [], [], 0))
  }

  // ------------------------------------------------------------------------- actions

  datatype Fate = Sent | Delayed | Lost

  datatype Action =
    | ClientEvent(e: Event)
    | ClientReads(n: nat, answers: Answers)
    | ClientDatagram(d: bytes, answers: Answers)
    | ServerReads(n: nat, answer: SendResult)
    | ServerWrites(answer: SendResult)
    | ServerDatagram(d: bytes, fate: Fate)
    | ServerRetries(fate: Fate)

  /** What the transport contract lets happen. */
  predicate Enabled(w: World, a: Action) {
    match a
    case ClientEvent(e) => !e.OnStream? && !e.OnDatagram?
    case ClientReads(n, _) => CanRead(w.down, n) && w.client.session.streamOpen
    case ClientDatagram(d, _) => d in w.net.down
    case ServerReads(n, _) => CanRead(w.up, n)
    case ServerWrites(_) => true
    case ServerDatagram(d, fate) => d in w.net.up && (fate.Delayed? ==> |w.net.queue| < DGRAM_MAX)
    case ServerRetries(fate) => w.net.queue != []
  }

  /** The client's new state, with what it handed to the transport. */
  function ClientMoves(w: World, c: Client): World {
    var from, to := w.client.flow.sent, c.flow.sent;
    var more := if from <= to <= |c.payload| then c.payload[from..to] else [];
    w.(client := c,
       up := Offered(w.up, more, c.flow.finSent),
       net := if c.dgram.sent then w.net.(up := w.net.up + {c.datagram}) else w.net,
       log := w.log.(accepted := w.log.accepted + more))
  }

  /** The server's new state behind a flush of offered, with what the transport accepted of it. */
  function ServerMoves(w: World, offered: bytes, s: Server): World {
    var more := if |s.pending| <= |offered| then offered[..|offered| - |s.pending|] else [];
    var closing := s.sendClosed && !w.server.sendClosed;
    w.(server := s,
       down := Offered(w.down, more, closing),
       log := w.log.(echoed := w.log.echoed + more, fins := w.log.fins + if closing then 1 else 0))
  }

  function Next(w: World, a: Action): World
    requires Enabled(w, a)
  {
    match a
    case ClientEvent(e) => ClientMoves(w, Step(w.client, e))
    case ClientReads(n, answers) =>
      var data := w.down.flight[..n];
      var v := w.(down := Taken(w.down, n), log := w.log.(delivered := w.log.delivered + data));
      ClientMoves(v, StreamRead(w.client, data, CarriesFin(w.down, n), answers))
    case ClientDatagram(d, answers) => ClientMoves(w, DatagramRead(w.client, d, answers))
    case ServerReads(n, answer) =>
      var data := w.up.flight[..n];
      var (s, code) := Read(w.server, data, CarriesFin(w.up, n), answer);
      if code == Again then w.(server := s)
      else
        ServerMoves(w.(up := Taken(w.up, n), log := w.log.(consumed := w.log.consumed + data)),
                    w.server.pending + data, s)
    case ServerWrites(answer) => ServerMoves(w, w.server.pending, Flush(w.server, answer).0)
    case ServerDatagram(d, fate) =>
      w.(net := match fate
                case Sent => w.net.(down := w.net.down + {d})
                case Delayed => w.net.(queue := w.net.queue + [d])
                case Lost => w.net)
    case ServerRetries(fate) =>
      w.(net := match fate
                case Sent => w.net.(down := w.net.down + {w.net.queue[0]}, queue := w.net.queue[1..])
                case Delayed => w.net
                case Lost => w.net.(queue := w.net.queue[1..]))
  }

  // ----------------------------------------------------------------------- invariant

  /** Conservation: every accepted byte is in exactly one place, in order. */
  ghost predicate Conserved(w: World) {
    && w.client.flow.received <= w.client.flow.sent <= |w.client.payload|
    && w.log.accepted == w.client.payload[..w.client.flow.sent]
    && w.log.accepted == w.log.consumed + w.up.flight
    && w.log.consumed == w.log.echoed + w.server.pending
    && w.log.echoed == w.log.delivered + w.down.flight
    && w.log.delivered == w.client.payload[..w.client.flow.received]
    && |w.server.pending| <= PENDING_MAX
  }

  /** The FIN goes around once, behind everything else. */
  ghost predicate FinLast(w: World) {
    && w.up.finIn == w.client.flow.finSent
    && (w.up.finIn ==> w.client.flow.sent == |w.client.payload|)
    && (w.up.finOut ==> w.up.finIn && w.up.flight == [])
    && w.server.fin == w.up.finOut
    && (w.server.sendClosed ==> w.server.fin && w.server.pending == [])
    && w.down.finIn == w.server.sendClosed
    && (w.down.finOut ==> w.down.finIn && w.down.flight == [])
    && w.log.fins == (if w.server.sendClosed then 1 else 0)
  }

  ghost predicate Genuine(w: World) {
    && (forall d :: d in w.net.up || d in w.net.queue || d in w.net.down ==> d == w.client.datagram)
    && |w.net.queue| <= DGRAM_MAX
  }

  /** No failure that blames the peer for a wrong or short echo. */
  predicate NoFalseAlarm(c: Client) {
    c.verdict.failure.First? ==> c.verdict.failure.reason !in {StreamMismatch, ShortEcho, DatagramMismatch}
  }

  ghost predicate Inv(w: World) {
    Conserved(w) && FinLast(w) && Genuine(w) && NoFalseAlarm(w.client)
  }

  // --------------------------------------------------------------- the client's moves

  /** How a step that delivers nothing can change the client. */
  ghost predicate Quiet(c: Client, d: Client) {
    && d.payload == c.payload && d.datagram == c.datagram
    && c.flow.sent <= d.flow.sent <= |c.payload|
    && d.flow.received == c.flow.received
    && (c.flow.finSent ==> d.flow.finSent)
    && (d.flow.finSent && !c.flow.finSent ==> d.flow.sent == |c.payload|)
    && (c.flow.finSent ==> d.flow.sent == c.flow.sent)
    && (NoFalseAlarm(c) ==> NoFalseAlarm(d))
  }

  lemma FlushQuiet(c: Client, a: Answers)
    requires c.flow.sent <= |c.payload|
    ensures Quiet(c, FlushBoth(c, a))
  {
  }

  lemma CloseQuiet(c: Client, closeOk: bool)
    requires c.flow.sent <= |c.payload|
    ensures Quiet(c, MaybeClose(c, closeOk))
  {
  }

  lemma EventQuiet(c: Client, e: Event)
    requires c.flow.sent <= |c.payload| && !e.OnStream? && !e.OnDatagram?
    ensures Quiet(c, Step(c, e))
  {
    match e
    case OnReady(created, a) => FlushQuiet(c.(session := c.session.(ready := true, streamOpen := created)), a);
    case OnWritable(a) => FlushQuiet(c, a);
    case _ =>
  }

  lemma QuietMove(w: World, c: Client)
    requires Inv(w) && Quiet(w.client, c)
    ensures Inv(ClientMoves(w, c))
  {
    var f, g := w.client.flow, c.flow;
    assert c.payload[..f.sent] + c.payload[f.sent..g.sent] == c.payload[..g.sent];
    assert w.log.consumed + w.up.flight + c.payload[f.sent..g.sent]
        == w.log.consumed + (w.up.flight + c.payload[f.sent..g.sent]);
  }

  lemma SameBytes(p: bytes, r: nat, data: bytes)
    requires r + |data| <= |p| && forall i :: 0 <= i < |data| ==> p[r + i] == data[i]
    ensures Matches(p, r, data)
  {
    assert p[r..r + |data|] == data;
  }

  /** Everything the server has echoed, and so everything the client can be given, is payload in order. */
  lemma FlightIsPayload(w: World, n: nat)
    requires Conserved(w) && n <= |w.down.flight|
    ensures n <= w.client.flow.sent - w.client.flow.received
    ensures Matches(w.client.payload, w.client.flow.received, w.down.flight[..n])
  {
    hide Matches;
    var p, r := w.client.payload, w.client.flow.received;
    var rest := w.down.flight + w.server.pending + w.up.flight;
    assert p[..w.client.flow.sent] == w.log.delivered + rest by {
      assert w.log.delivered + w.down.flight + w.server.pending + w.up.flight == w.log.delivered + rest;
    }
    assert |rest| == w.client.flow.sent - r;
    forall i | 0 <= i < n
      ensures p[r + i] == w.down.flight[i]
    {
      assert p[..w.client.flow.sent][r + i] == (w.log.delivered + rest)[r + i] == rest[i];
    }
    SameBytes(p, r, w.down.flight[..n]);
  }

  /** When the FIN arrives at the client, the whole payload has. */
  lemma FinAfterPayload(w: World)
    requires Inv(w) && w.down.finIn
    ensures w.client.flow.finSent && w.log.echoed == w.client.payload
  {
    assert w.log.consumed == w.log.echoed && w.log.accepted == w.log.consumed;
    assert w.client.payload[..|w.client.payload|] == w.client.payload;
  }

  /** The client once the data of a read is counted. */
  function Counted(w: World, n: nat): World
    requires n <= |w.down.flight|
  {
    w.(client := w.client.(flow := w.client.flow.(received := w.client.flow.received + n)),
       down := Taken(w.down, n),
       log := w.log.(delivered := w.log.delivered + w.down.flight[..n]))
  }

  lemma CountedInv(w: World, n: nat)
    requires Inv(w) && n <= |w.down.flight|
    ensures Inv(Counted(w, n))
  {
    FlightIsPayload(w, n);
    var p, r := w.client.payload, w.client.flow.received;
    assert p[..r] + p[r..r + n] == p[..r + n];
    assert w.log.delivered + w.down.flight == w.log.delivered + w.down.flight[..n] + w.down.flight[n..];
  }

  lemma ReceivedQuiet(c: Client, fin: bool, a: Answers)
    requires c.flow.sent <= |c.payload| && (fin ==> c.flow.received == |c.payload| && c.flow.finSent)
    ensures Quiet(c, Received(c, fin, a))
  {
    if fin {
      CloseQuiet(c.(flow := c.flow.(finReceived := true)), a.close);
    } else {
      FlushQuiet(c, a);
    }
  }

  lemma ClientReadsInv(w: World, n: nat, a: Answers)
    requires Inv(w) && Enabled(w, ClientReads(n, a))
    ensures Inv(Next(w, ClientReads(n, a)))
  {
    hide Received, Matches;
    FlightIsPayload(w, n);
    CountedInv(w, n);
    var v, fin := Counted(w, n), CarriesFin(w.down, n);
    if fin {
      FinAfterPayload(w);
      assert w.down.flight[..n] == w.down.flight;
      assert v.log.delivered == w.client.payload;
    }
    ReceivedQuiet(v.client, fin, a);
    QuietMove(v, Received(v.client, fin, a));
  }

  lemma ClientDatagramInv(w: World, d: bytes, a: Answers)
    requires Inv(w) && Enabled(w, ClientDatagram(d, a))
    ensures Inv(Next(w, ClientDatagram(d, a)))
  {
    var c := w.client.(dgram := w.client.dgram.(received := true));
    CloseQuiet(c, a.close);
    QuietMove(w, DatagramRead(w.client, d, a));
  }

  // --------------------------------------------------------------- the server's moves

  /** A flush keeps a suffix of what is pending and closes only behind a FIN and an empty buffer. */
  lemma FlushKeepsSuffix(s: Server, answer: SendResult)
    ensures Flush(s, answer).1 != Again
    ensures var r := Flush(s, answer).0;
      && r.fin == s.fin
      && |r.pending| <= |s.pending| && r.pending == s.pending[|s.pending| - |r.pending|..]
      && (s.sendClosed ==> r == s)
      && (r.sendClosed && !s.sendClosed ==> r.fin && r.pending == [])
  {
  }

  /** A world that is in order but for the server's pending bytes, which are to be flushed. */
  lemma FlushInv(w: World, s: Server, answer: SendResult)
    requires Inv(w.(server := s)) && s.sendClosed == w.server.sendClosed
    ensures Inv(ServerMoves(w, s.pending, Flush(s, answer).0))
  {
    hide Flush;
    FlushKeepsSuffix(s, answer);
    var r := Flush(s, answer).0;
    var n := |s.pending| - |r.pending|;
    assert s.pending == s.pending[..n] + r.pending;
    assert w.log.echoed + s.pending == w.log.echoed + s.pending[..n] + r.pending;
    assert w.log.delivered + w.down.flight + s.pending[..n] == w.log.delivered + (w.down.flight + s.pending[..n]);
  }

  lemma ServerReadsInv(w: World, n: nat, answer: SendResult)
    requires Inv(w) && Enabled(w, ServerReads(n, answer))
    ensures Inv(Next(w, ServerReads(n, answer)))
  {
    hide Flush;
    var data, fin := w.up.flight[..n], CarriesFin(w.up, n);
    if n <= PENDING_MAX - |w.server.pending| {
      var s := w.server.(pending := w.server.pending + data, fin := fin);
      var v := w.(up := Taken(w.up, n), log := w.log.(consumed := w.log.consumed + data));
      assert w.log.consumed + w.up.flight == w.log.consumed + data + w.up.flight[n..];
      assert w.log.echoed + w.server.pending + data == w.log.echoed + (w.server.pending + data);
      assert Inv(v.(server := s));
      FlushKeepsSuffix(s, answer);
      FlushInv(v, s, answer);
    }
  }

  lemma InvStep(w: World, a: Action)
    requires Inv(w) && Enabled(w, a)
    ensures Inv(Next(w, a))
  {
    hide FinLast, Flush, Step, Read, StreamRead, DatagramRead;
    match a
    case ClientEvent(e) =>
      EventQuiet(w.client, e);
      QuietMove(w, Step(w.client, e));
    case ClientReads(n, answers) => ClientReadsInv(w, n, answers);
    case ClientDatagram(d, answers) => ClientDatagramInv(w, d, answers);
    case ServerReads(n, answer) => ServerReadsInv(w, n, answer);
    case ServerWrites(answer) => FlushInv(w, w.server, answer);
    case ServerDatagram(d, fate) => DatagramInv(w, a);
    case ServerRetries(fate) => DatagramInv(w, a);
  }

  lemma DatagramInv(w: World, a: Action)
    requires Inv(w) && Enabled(w, a) && (a.ServerDatagram? || a.ServerRetries?)
    ensures Inv(Next(w, a))
  {
    hide Conserved, FinLast, NoFalseAlarm, Genuine;
    NetOnly(w, Next(w, a).net);
    DatagramGenuine(w, a);
  }

  lemma DatagramGenuine(w: World, a: Action)
    requires Genuine(w) && Enabled(w, a) && (a.ServerDatagram? || a.ServerRetries?)
    ensures Genuine(Next(w, a))
  {
    if a.ServerRetries? {
      QueueParts(w.net.queue);
    } else {
      QueueMore(w.net.queue, a.d);
    }
  }

  lemma QueueParts(queue: seq<bytes>)
    requires queue != []
    ensures queue[0] in queue && forall d :: d in queue[1..] ==> d in queue
  {
  }

  lemma QueueMore(queue: seq<bytes>, datagram: bytes)
    ensures forall d :: d in queue + [datagram] ==> d in queue || d == datagram
  {
  }

  lemma NetOnly(w: World, net: Net)
    ensures Conserved(w) == Conserved(w.(net := net)) && FinLast(w) == FinLast(w.(net := net))
  {
  }

  // ------------------------------------------------------------------------ all runs

  /** The action sequences the transport contract allows from w. */
  predicate Allowed(w: World, run: seq<Action>)
    decreases |run|
  {
    run != [] ==> Enabled(w, run[0]) && Allowed(Next(w, run[0]), run[1..])
  }

  function After(w: World, run: seq<Action>): World
    requires Allowed(w, run)
    decreases |run|
  {
    if run == [] then w else After(Next(w, run[0]), run[1..])
  }

  lemma {:induction false} RunInv(w: World, run: seq<Action>)
    requires Inv(w) && Allowed(w, run)
    ensures Inv(After(w, run)) && After(w, run).client.payload == w.client.payload
    decreases |run|
  {
    hide Inv, Next, Enabled;
    if run != [] {
      InvStep(w, run[0]);
      PayloadKept(w, run[0]);
      RunInv(Next(w, run[0]), run[1..]);
    }
  }

  lemma PayloadKept(w: World, a: Action)
    requires Enabled(w, a)
    ensures Next(w, a).client.payload == w.client.payload
  {
  }

  /**
   * In every run: each accepted byte is delivered, in flight or pending, once and in order, so that
   * what comes back is a prefix of what was echoed, that of what was consumed, that of what was
   * accepted, that of the payload; the FIN comes back at most once and behind the whole payload; and
   * the client never reports a wrong or short echo.
   */
  lemma EchoSafety(payload: bytes, datagram: bytes, run: seq<Action>)
    requires Allowed(Start(payload, datagram), run)
    ensures var w := After(Start(payload, datagram), run);
      && w.log.accepted == w.log.delivered + w.down.flight + w.server.pending + w.up.flight
      && w.log.delivered <= w.log.echoed <= w.log.consumed <= w.log.accepted <= payload
      && |w.server.pending| <= PENDING_MAX && |w.net.queue| <= DGRAM_MAX
      && w.log.fins <= 1
      && (w.log.fins == 1 ==> w.log.echoed == payload)
      && (w.down.finOut ==> w.log.fins == 1 && w.log.delivered == payload)
      && NoFalseAlarm(w.client)
  {
    RunInv(Start(payload, datagram), run);
    var w := After(Start(payload, datagram), run);
    if w.log.fins == 1 {
      FinAfterPayload(w);
    }
  }
}
