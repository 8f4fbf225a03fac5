/** The echo exchange can always be brought to its end: a run in which the client passes, for any payload. */
module EchoCompletes {
  import opened Bytes
  import opened Pipes
  import opened EchoServer
  import opened EchoClient
  import opened EchoProtocol

  /** Some run leads from w to a client that passes. */
  ghost predicate CanPass(w: World) {
    exists run: seq<Action> :: Allowed(w, run) && After(w, run).client.verdict.result == 0
  }

  lemma StepFirst(w: World, a: Action)
    requires Enabled(w, a) && CanPass(Next(w, a))
    ensures CanPass(w)
  {
    hide Next, Enabled;
    var run: seq<Action> :| Allowed(Next(w, a), run) && After(Next(w, a), run).client.verdict.result == 0;
    var all := [a] + run;
    assert all[0] == a && all[1..] == run;
    assert Allowed(w, all) && After(w, all) == After(Next(w, a), run);
  }

  const WILLING := Answers(Blocked, Blocked, true)

  /** The client has sent everything and heard nothing. */
  function Waiting(payload: bytes, datagram: bytes): Client {
    Client(payload, datagram, Flow(|payload|, 0, true, false), Dgram(true, false),
           Session(true, true, false, false, false), Verdict(NoFailure, 1))
  }

  function ReadyEvent(payload: bytes): Action {
    ClientEvent(OnReady(true, Answers(Accepted(|payload|), Accepted(0), true)))
  }

  /** The server relays: all it has taken, it has sent on. */
  ghost predicate Relaying(w: World) {
    && Inv(w) && w.client == Waiting(w.client.payload, w.client.datagram)
    && w.server == NEW_SERVER && w.up.finIn && !w.up.finOut && !w.down.finOut && w.client.datagram in w.net.up
  }

  lemma BeginsRelaying(payload: bytes, datagram: bytes)
    ensures var w := Start(payload, datagram);
      Enabled(w, ReadyEvent(payload)) && Relaying(Next(w, ReadyEvent(payload)))
  {
    var w := Start(payload, datagram);
    InvStep(w, ReadyEvent(payload));
  }

  /** Everything is on its way back. */
  ghost predicate Echoed(w: World) {
    && Inv(w) && w.client == Waiting(w.client.payload, w.client.datagram)
    && w.down.finIn && !w.down.finOut && w.client.datagram in w.net.up
  }

  function Piece(w: World): nat {
    if |w.up.flight| < PENDING_MAX then |w.up.flight| else PENDING_MAX
  }

  lemma RelayStep(w: World)
    requires Relaying(w)
    ensures var a := ServerReads(Piece(w), Accepted(Piece(w)));
      && Enabled(w, a)
      && var v := Next(w, a);
      if Piece(w) == |w.up.flight| then Echoed(v) else Relaying(v) && |v.up.flight| < |w.up.flight|
  {
    var n := Piece(w);
    InvStep(w, ServerReads(n, Accepted(n)));
    var data := w.up.flight[..n];
    assert [] + data == data && data[n..] == [];
  }

  lemma {:induction false} Relayed(w: World)
    requires Relaying(w)
    ensures CanPass(w)
    decreases |w.up.flight|
  {
    hide Relaying, Echoed, Next, Enabled;
    RelayStep(w);
    var a := ServerReads(Piece(w), Accepted(Piece(w)));
    if Piece(w) == |w.up.flight| {
      Returned(Next(w, a));
    } else {
      Relayed(Next(w, a));
    }
    StepFirst(w, a);
  }

  /** The stream comes back, then the datagram, then the close. */
  lemma Returned(w: World)
    requires Echoed(w)
    ensures CanPass(w)
  {
    var payload, datagram := w.client.payload, w.client.datagram;
    var a := ClientReads(|w.down.flight|, WILLING);
    ReadsBack(w);
    var w1 := Next(w, a);
    var b := ServerDatagram(datagram, Sent);
    var w2 := Next(w1, b);
    var c := ClientDatagram(datagram, WILLING);
    var w3 := Next(w2, c);
    Closes(w1);
    StepFirst(w2, c);
    StepFirst(w1, b);
    StepFirst(w, a);
  }

  /** The client after the stream came back whole. */
  function Heard(payload: bytes, datagram: bytes): Client {
    Waiting(payload, datagram).(flow := Flow(|payload|, |payload|, true, true))
  }

  lemma ReadsBack(w: World)
    requires Echoed(w)
    ensures var a := ClientReads(|w.down.flight|, WILLING);
      && Enabled(w, a)
      && Next(w, a).client == Heard(w.client.payload, w.client.datagram) && Next(w, a).net.up >= w.net.up
  {
    var n := |w.down.flight|;
    FlightIsPayload(w, n);
    FinAfterPayload(w);
    assert w.down.flight[..n] == w.down.flight;
    assert |w.log.echoed| == n;
  }

  lemma Closes(w: World)
    requires w.client == Heard(w.client.payload, w.client.datagram) && w.client.datagram in w.net.up
    ensures var d := w.client.datagram; var b := ServerDatagram(d, Sent);
      && Enabled(w, b)
      && var v := Next(w, b); var c := ClientDatagram(d, WILLING);
      Enabled(v, c) && CanPass(Next(v, c))
  {
    var d := w.client.datagram;
    var v := Next(w, ServerDatagram(d, Sent));
    var u := Next(v, ClientDatagram(d, WILLING));
    var last := ClientEvent(OnClosed(0, true));
    var t := Next(u, last);
    assert t.client.verdict.result == 0;
    assert Allowed(t, []) && After(t, []) == t;
    StepFirst(u, last);
  }

  /** For every payload and datagram, some run ends with the client passing. */
  lemma EchoCanPass(payload: bytes, datagram: bytes)
    ensures CanPass(Start(payload, datagram))
  {
    BeginsRelaying(payload, datagram);
    Relayed(Next(Start(payload, datagram), ReadyEvent(payload)));
    StepFirst(Start(payload, datagram), ReadyEvent(payload));
  }
}
