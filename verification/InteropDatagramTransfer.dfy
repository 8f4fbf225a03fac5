/**
 * The whole file transfer over datagrams, which the network may lose, repeat, delay and reorder: one
 * request at a time, each file in one datagram.
 */
module InteropDatagramTransfer {
  import opened Bytes
  import opened InteropPath
  import opened InteropHeader
  import opened InteropSender
  import opened InteropRequester
  import opened InteropStages

  // -------------------------------------------------------------------- the response

  function Message(name: bytes, file: bytes): bytes {
    PushHeader(name) + file
  }

  /** As much of the message as the response buffer takes: one byte more than a datagram may have. */
  function Reply(name: bytes, file: bytes): bytes {
    var msg := Message(name, file);
    if |msg| <= DATAGRAM_MAX + 1 then msg else msg[..DATAGRAM_MAX + 1]
  }

  /** The loop that fills the response; a read that is not answered fails. */
  method BuildReply(name: bytes, file: bytes, answers: seq<ReadResult>) returns (ok: bool, reply: bytes)
    requires |name| <= PATH_MAX
    ensures ok ==> reply == Reply(name, file)
    ensures |answers| > DATAGRAM_MAX && (forall k :: 0 <= k < |answers| ==> answers[k].Chunk?) ==> ok
  {
    var response := new byte[DATAGRAM_MAX + 1];
    var line := PushHeader(name);
    forall i | 0 <= i < |line| {
      response[i] := line[i];
    }
    var used, position, k := |line|, 0, 0;
    ghost var msg := line + file;
    while used < response.Length
      invariant 0 <= k <= |answers| && 0 <= position <= |file| && used == |line| + position <= response.Length
      invariant forall i :: 0 <= i < used ==> response[i] == msg[i]
      invariant (forall j :: 0 <= j < k ==> answers[j].Chunk?) ==> k <= position
      decreases |answers| - k
    {
      if k == |answers| || answers[k].Broken? {
        return false, [];
      }
      if answers[k].Chunk? {
        var left := |file| - position;
        var most := if left < response.Length - used then left else response.Length - used;
        var n := if answers[k].n > most then most else if answers[k].n == 0 && most > 0 then 1 else answers[k].n;
        if n == 0 {
          break;
        }
        forall i | 0 <= i < n {
          response[used + i] := file[position + i];
        }
        used, position := used + n, position + n;
      }
      k := k + 1;
    }
    assert response[..used] == msg[..used];
    return true, response[..used];
  }

  /** The responder's answer to a request: the datagram it queues, or the failure it records. */
  datatype Answer = Queued(reply: bytes) | Failing(trouble: Trouble)

  /** xqc_wt_interop_datagram_read on the responder; host tells whether files can be read and the queue has room. */
  ghost function Answering(library: map<bytes, bytes>, request: bytes, host: bool): Answer {
    var (h, verdict, _) := Feed(EMPTY, request, true, false);
    if |request| > DATAGRAM_MAX || verdict != Accept then Failing(Peer)
    else
      var name := if |GET| <= |h.line| then h.line[|GET|..] else [];
      if !host || name !in library || |Reply(name, library[name])| > DATAGRAM_MAX then Failing(Host)
      else Queued(Reply(name, library[name]))
  }

  // ------------------------------------------------------------------------- the world

  /**
   * The responder's files, whether it is the server, its failure, whether it passed at the end, the
   * replies that wait in its queue and those it has sent; the session; the requester's context, which
   * has the requests it queued.
   */
  datatype World = World(library: map<bytes, bytes>, server: bool, responder: Trouble, passed: bool,
                         waiting: seq<bytes>, replies: set<bytes>, session: Session, ready: bool, d: Download)

  datatype Action =
    | Commence
    | Inquire(request: bytes, host: bool)
    | Emit
    | Hand(reply: bytes, answers: HostAnswers)
    | CloseAsker
    | CloseAnswerer

  /** The session is closed by an endpoint that has failed, and by a requester that has all its files. */
  predicate Closing(w: World) {
    !w.d.trouble.Fine? || w.d.success || !w.responder.Fine?
  }

  /** While the session is up, any request and any reply may arrive at any time, again or never. */
  predicate Enabled(w: World, a: Action) {
    match a
    case Commence => w.session.asker && !w.ready
    case Inquire(request, _) => w.session.answerer && request in w.d.asked
    case Emit => w.session.answerer && w.waiting != []
    case Hand(reply, _) => w.session.asker && reply in w.replies
    case CloseAsker => w.session.asker && Closing(w)
    case CloseAnswerer => w.session.answerer && Closing(w)
  }

  /** xqc_wt_interop_responder_done on a responder that has not failed */
  predicate ResponderDone(w: World) {
    w.replies != {} && w.waiting == []
  }

  /** Who may blame the other: one whose peer failed on its own host, or a responder left with a reply to send. */
  predicate Blame(responder: Trouble, d: Download) {
    (d.trouble == Peer ==> responder == Host) && (responder == Peer ==> d.trouble == Host || d.success)
  }

  /** A reply the responder has made, sent or not. */
  predicate Made(w: World, reply: bytes) {
    reply in w.replies || reply in w.waiting
  }

  /** A datagram for file i carries the whole file, and was asked for in its turn. */
  ghost predicate Genuine(w: World, reply: bytes, i: nat) {
    && i < |w.d.files| && i <= w.d.completed && w.d.files[i] in w.library
    && reply == Message(w.d.files[i], w.library[w.d.files[i]]) && |reply| <= DATAGRAM_MAX
  }

  ghost predicate InTurn(d: Download, request: bytes, i: nat) {
    i < |d.files| && i <= d.completed && request == GET + d.files[i]
  }

  ghost predicate Inv(w: World) {
    && Sound(Requester(Dgram, w.ready, w.d, []))
    && (forall i :: 0 <= i < |w.d.files| ==> Legal(w.d.files[i]))
    && Blame(w.responder, w.d) && (w.d.success ==> w.replies != {})
    && (!w.session.answerer && w.responder.Fine? ==> w.server || w.passed)
    && (forall request :: request in w.d.asked ==> exists i :: InTurn(w.d, request, i))
    && (forall reply :: Made(w, reply) ==> exists i :: Genuine(w, reply, i))
    && (forall i :: 0 <= i < |w.d.files| && w.d.received[i] == 2 ==> Arrived(w, i))
  }

  /** File i is on the disk as the responder has it, and it fits a datagram. */
  ghost predicate Arrived(w: World, i: nat) {
    && i < |w.d.files| && w.d.files[i] in w.library && w.d.files[i] in w.d.disk
    && w.d.disk[w.d.files[i]] == w.library[w.d.files[i]]
    && |Message(w.d.files[i], w.library[w.d.files[i]])| <= DATAGRAM_MAX
  }

  ghost function Next(w: World, a: Action): World
    requires Inv(w) && Enabled(w, a)
  {
    match a
    case Commence => w.(ready := true, d := Request(w.d))
    case Inquire(request, host) =>
      if !w.responder.Fine? then w
      else
        (match Answering(w.library, request, host)
         case Queued(reply) => w.(waiting := w.waiting + [reply])
         case Failing(trouble) => w.(responder := trouble))
    case Emit =>
      if !w.responder.Fine? then w else w.(replies := w.replies + {w.waiting[0]}, waiting := w.waiting[1..])
    case Hand(reply, answers) => w.(d := ReceiveDatagram(Dgram, w.d, reply, answers))
    case CloseAsker => w.(session := w.session.(asker := false), d := if w.d.success then w.d else Fail(w.d, Peer))
    case CloseAnswerer =>
      var done := w.responder.Fine? && ResponderDone(w);
      w.(session := w.session.(answerer := false), passed := !w.server && done,
         responder := if w.responder.Fine? && !w.server && !done then Peer else w.responder)
  }

  // --------------------------------------------------------------- every action keeps it

  lemma SoundLengths(w: World)
    requires Sound(Requester(Dgram, w.ready, w.d, []))
    ensures |w.d.received| == |w.d.files| && Distinct(w.d.files) && InOrder(w.d) && Tally(w.d)
  {
  }

  lemma LegalGet(name: bytes)
    requires Legal(name)
    ensures |GET + name| <= DATAGRAM_MAX
    ensures Feed(EMPTY, GET + name, true, false) == (Header(GET + name, true), Accept, |GET + name|)
  {
    LegalFits(name, false);
    SpeltAccepted(GET + name, true, false, name, []);
  }

  /** A request in its turn is answered with the whole file, or the responder's host fails. */
  lemma Inquiry(w: World, request: bytes, host: bool, i: nat)
    requires Inv(w) && Enabled(w, Inquire(request, host)) && InTurn(w.d, request, i) && w.responder.Fine?
    ensures var v := Next(w, Inquire(request, host)); var name := w.d.files[i];
      || v == w.(responder := Host)
      || (name in w.library && Genuine(w, Message(name, w.library[name]), i)
          && v == w.(waiting := w.waiting + [Message(name, w.library[name])]))
  {
    hide Sound, Legal, Feed;
    var name := w.d.files[i];
    assert Legal(name);
    LegalGet(name);
    assert (GET + name)[|GET|..] == name;
  }

  lemma InquireInv(w: World, request: bytes, host: bool)
    requires Inv(w) && Enabled(w, Inquire(request, host))
    ensures Inv(Next(w, Inquire(request, host)))
  {
    hide Sound, Legal, Next;
    SoundLengths(w);
    var i: nat :| InTurn(w.d, request, i);
    var v := Next(w, Inquire(request, host));
    if w.responder.Fine? {
      Inquiry(w, request, host, i);
      QueuedInv(w, v, i);
    } else {
      Ignored(w, request, host);
    }
  }

  lemma Ignored(w: World, request: bytes, host: bool)
    requires Inv(w) && Enabled(w, Inquire(request, host)) && !w.responder.Fine?
    ensures Next(w, Inquire(request, host)) == w
  {
  }

  lemma QueuedInv(w: World, v: World, i: nat)
    requires Inv(w) && w.responder.Fine? && i < |w.d.files|
    requires v == w.(responder := Host) ||
      (v.waiting != [] && var last := v.waiting[|v.waiting| - 1];
       v == w.(waiting := w.waiting + [last]) && Genuine(w, last, i))
    ensures Inv(v)
  {
    hide Sound, Legal, InTurn, Arrived;
    SoundLengths(w);
    forall reply | Made(v, reply)
      ensures exists k :: Genuine(v, reply, k)
    {
      if Made(w, reply) {
        var k: nat :| Genuine(w, reply, k);
        assert Genuine(v, reply, k);
      } else {
        assert Genuine(v, reply, i);
      }
    }
    forall k | 0 <= k < |w.d.files| && w.d.received[k] == 2
      ensures Arrived(v, k)
    {
      ArrivedStays(w, v, k);
    }
  }

  lemma ArrivedStays(w: World, v: World, k: nat)
    requires Arrived(w, k) && v.d == w.d && v.library == w.library
    ensures Arrived(v, k)
  {
  }

  /** Between two contexts nothing but requests changed, each in its turn. */
  lemma CommenceInv(w: World)
    requires Inv(w) && Enabled(w, Commence)
    ensures Inv(Next(w, Commence))
  {
    hide Sound, Legal;
    var r := Requester(Dgram, w.ready, w.d, []);
    StepSound(r, OnReady);
    var v := Next(w, Commence);
    assert Step(r, OnReady) == Requester(Dgram, true, v.d, []);
    StillInTurn(w, v);
  }

  /** As completed only grows, what was in turn stays so. */
  lemma StillInTurn(w: World, v: World)
    requires Inv(w) && v.library == w.library && v.d.files == w.d.files
    requires forall reply :: Made(v, reply) ==> Made(w, reply)
    requires w.d.completed <= v.d.completed
    requires v.d.asked == w.d.asked ||
      (v.d.completed < |v.d.files| && v.d.asked == w.d.asked + [GET + v.d.files[v.d.completed]])
    ensures forall request :: request in v.d.asked ==> exists i :: InTurn(v.d, request, i)
    ensures forall reply :: Made(v, reply) ==> exists i :: Genuine(v, reply, i)
    ensures forall i :: 0 <= i < |w.d.files| && w.d.received[i] == 2 && v.d.disk == w.d.disk ==> Arrived(v, i)
  {
    hide Sound, Legal;
    SoundLengths(w);
    forall request | request in v.d.asked
      ensures exists i :: InTurn(v.d, request, i)
    {
      if request in w.d.asked {
        var i: nat :| InTurn(w.d, request, i);
        assert InTurn(v.d, request, i);
      } else {
        assert InTurn(v.d, request, v.d.completed);
      }
    }
    forall reply | Made(v, reply)
      ensures exists i :: Genuine(v, reply, i)
    {
      var i: nat :| Genuine(w, reply, i);
      assert Genuine(v, reply, i);
    }
    forall i | 0 <= i < |w.d.files| && w.d.received[i] == 2 && v.d.disk == w.d.disk
      ensures Arrived(v, i)
    {
      assert Arrived(w, i);
    }
  }

  /** How the end of a file moves the count and the requests. */
  lemma FinishMoves(d: Download, s: Incoming, host: HostAnswers)
    requires 0 <= s.index < |d.received|
    ensures var e := Finish(d, s, true, host).0;
      && d.completed <= e.completed <= d.completed + 1
      && (e.asked == d.asked || (e.completed < |e.files| && e.asked == d.asked + [GET + e.files[e.completed]]))
  {
  }

  lemma BeginMoves(d: Download, s: Incoming, data: bytes, host: HostAnswers)
    requires |d.received| == |d.files| && 0 <= s.index < |d.files|
    ensures var e := Begin(d, s, data, true, true, host).0;
      && d.completed <= e.completed <= d.completed + 1
      && (e.asked == d.asked || (e.completed < |e.files| && e.asked == d.asked + [GET + e.files[e.completed]]))
  {
    hide Finish, Written;
    var e := d.(received := d.received[s.index := 1]);
    e := e.(disk := e.disk[d.files[s.index] := []]);
    var f := Appended(e, d.files[s.index], data[..Written(|data|, host.writes).0]);
    FinishMoves(f, s.(open := true), host);
  }

  /** What the next file's datagram does. */
  lemma NextFile(d: Download, i: nat, reply: bytes, file: bytes, host: HostAnswers)
    requires |d.received| == |d.files| && i < |d.files| && Distinct(d.files) && Legal(d.files[i])
    requires d.trouble.Fine? && !d.success && d.received[i] == 0 && i == d.completed
    requires reply == Message(d.files[i], file) && |reply| <= DATAGRAM_MAX
    ensures ReceiveDatagram(Dgram, d, reply, host) == Begin(d, FRESH.(index := i), file, true, true, host).0
  {
    hide Feed, Begin, Legal;
    var name := d.files[i];
    assert reply == PUSH + name + [NL] + file;
    SpeltAccepted(reply, true, true, name, file);
    assert (PUSH + name)[|PUSH|..] == name && reply[|PushHeader(name)|..] == file;
    assert Find(d.files, Named(name)) == i;
  }

  lemma HandInv(w: World, reply: bytes, host: HostAnswers)
    requires Inv(w) && Enabled(w, Hand(reply, host))
    ensures Inv(Next(w, Hand(reply, host)))
  {
    hide Sound, Legal, ReceiveDatagram;
    SoundLengths(w);
    assert Made(w, reply);
    var i: nat :| Genuine(w, reply, i);
    if !w.d.trouble.Fine? || w.d.success {
      LateHand(w.d, reply, host);
    } else if i < w.d.completed {
      var name := w.d.files[i];
      assert reply == PUSH + name + [NL] + w.library[name];
      RepeatedPush(w.d, i, reply, w.library[name], host);
    } else {
      HandNext(w, i, reply, host);
    }
  }

  lemma LateHand(d: Download, reply: bytes, host: HostAnswers)
    requires |d.received| == |d.files| && (!d.trouble.Fine? || d.success)
    ensures ReceiveDatagram(Dgram, d, reply, host) == d
  {
  }

  lemma HandNext(w: World, i: nat, reply: bytes, host: HostAnswers)
    requires Inv(w) && reply in w.replies && Genuine(w, reply, i)
    requires i == w.d.completed && w.d.trouble.Fine? && !w.d.success
    ensures Inv(w.(d := ReceiveDatagram(Dgram, w.d, reply, host)))
  {
    hide Sound, Legal, ReceiveDatagram, Begin;
    SoundLengths(w);
    var name := w.d.files[i];
    var file := w.library[name];
    NextFile(w.d, i, reply, file, host);
    BeginMoves(w.d, FRESH.(index := i), file, host);
    BeginStaged(name, i, w.d, FRESH.(index := i), file, true, true, host);
    var r := Requester(Dgram, w.ready, w.d, []);
    ReceiveDatagramSound(r, reply, host);
    var v := w.(d := ReceiveDatagram(Dgram, w.d, reply, host));
    assert Step(r, OnDatagram(reply, host)) == Requester(Dgram, w.ready, v.d, []);
    StillInTurn(w, v);
    SoundLengths(v);
    forall j | 0 <= j < |v.d.files| && v.d.received[j] == 2
      ensures Arrived(v, j)
    {
      if j != i {
        assert w.d.received[j] == 2;
        assert Arrived(w, j);
      }
    }
  }

  // -------------------------------------------------------------------------- all runs

  /** Sending a reply and closing the session leave the files where they are. */
  lemma QuietInv(w: World, a: Action)
    requires Inv(w) && Enabled(w, a) && (a.Emit? || a.CloseAsker? || a.CloseAnswerer?)
    ensures Inv(Next(w, a))
  {
    hide Sound, Legal;
    var v := Next(w, a);
    QuietSound(w, v);
    StillInTurn(w, v);
  }

  lemma QuietSound(w: World, v: World)
    requires Sound(Requester(Dgram, w.ready, w.d, [])) && v.ready == w.ready && v.d == w.d.(trouble := v.d.trouble)
    requires v.d.trouble.Fine? ==> w.d.trouble.Fine?
    ensures Sound(Requester(Dgram, v.ready, v.d, []))
  {
  }

  lemma InvStep(w: World, a: Action)
    requires Inv(w) && Enabled(w, a)
    ensures Inv(Next(w, a)) && Next(w, a).library == w.library && Next(w, a).d.files == w.d.files
  {
    hide Inv, ReceiveDatagram, Answering;
    match a
    case Commence => CommenceInv(w);
    case Inquire(request, host) => InquireInv(w, request, host);
    case Emit => QuietInv(w, a);
    case CloseAsker => QuietInv(w, a);
    case CloseAnswerer => QuietInv(w, a);
    case Hand(reply, host) =>
      HandInv(w, reply, host);
      FilesKept(w, reply, host);
  }

  lemma FilesKept(w: World, reply: bytes, host: HostAnswers)
    requires Inv(w)
    ensures ReceiveDatagram(Dgram, w.d, reply, host).files == w.d.files
  {
    hide ReceiveDatagram;
    ReceiveDatagramSound(Requester(Dgram, w.ready, w.d, []), reply, host);
  }

  ghost predicate Allowed(w: World, run: seq<Action>)
    requires Inv(w)
    decreases |run|
  {
    run != [] ==> Enabled(w, run[0]) && (InvStep(w, run[0]); Allowed(Next(w, run[0]), run[1..]))
  }

  ghost function After(w: World, run: seq<Action>): (v: World)
    requires Inv(w) && Allowed(w, run)
    ensures Inv(v) && v.library == w.library && v.d.files == w.d.files
    decreases |run|
  {
    if run == [] then w
    else
      InvStep(w, run[0]);
      After(Next(w, run[0]), run[1..])
  }

  function Initial(files: seq<bytes>, library: map<bytes, bytes>, disk: map<bytes, bytes>, server: bool): World {
    World(library, server, Fine, false, [], {}, Session(true, true), false, Start(Dgram, files, disk).d)
  }

  lemma InitialInv(files: seq<bytes>, library: map<bytes, bytes>, disk: map<bytes, bytes>, server: bool)
    requires Distinct(files) && forall i :: 0 <= i < |files| ==> Legal(files[i])
    ensures Inv(Initial(files, library, disk, server))
  {
    StartSound(Dgram, files, disk);
  }

  /**
   * In every run over a network that loses, repeats, delays and reorders: the files at 2 are the first
   * completed ones, each is on the disk as the responder has it, and success means all are. A requester
   * blames the responder only when that one's host failed; a responder the requester only when that
   * one's host failed or the requester had all its files.
   */
  lemma DatagramSafety(files: seq<bytes>, library: map<bytes, bytes>, disk: map<bytes, bytes>, server: bool,
                       run: seq<Action>)
    requires Distinct(files) && forall i :: 0 <= i < |files| ==> Legal(files[i])
    ensures Inv(Initial(files, library, disk, server))
    ensures Allowed(Initial(files, library, disk, server), run) ==>
      var w := After(Initial(files, library, disk, server), run);
      && |w.d.received| == |files|
      && (w.d.trouble == Peer ==> w.responder == Host)
      && (w.responder == Peer ==> w.d.trouble == Host || w.d.success)
      && (!w.session.answerer && w.responder.Fine? ==> w.server || w.passed)
      && (forall i :: 0 <= i < |files| ==> (w.d.received[i] == 2 <==> i < w.d.completed))
      && (forall i :: 0 <= i < |files| && w.d.received[i] == 2 ==> Arrived(w, i))
      && (w.d.success ==> forall i :: 0 <= i < |files| ==> Arrived(w, i))
  {
    hide After, Arrived;
    InitialInv(files, library, disk, server);
    if Allowed(Initial(files, library, disk, server), run) {
      var w := After(Initial(files, library, disk, server), run);
      SoundMeans(Requester(Dgram, w.ready, w.d, []));
      SoundLengths(w);
    }
  }

  // ------------------------------------------------------------------------- exactness

  /** Some run leads from w to success. */
  ghost predicate CanSucceed(w: World)
    requires Inv(w)
  {
    exists run: seq<Action> :: Allowed(w, run) && After(w, run).d.success
  }

  /** Some run leads from w to v. */
  ghost predicate Reaches(w: World, v: World)
    requires Inv(w)
  {
    exists run: seq<Action> :: Allowed(w, run) && After(w, run) == v
  }

  lemma StepFirst(w: World, a: Action, v: World)
    requires Inv(w) && Enabled(w, a) && Inv(Next(w, a)) && Reaches(Next(w, a), v)
    ensures Reaches(w, v)
  {
    hide Inv, Next, Enabled;
    var run: seq<Action> :| Allowed(Next(w, a), run) && After(Next(w, a), run) == v;
    var all := [a] + run;
    assert all[0] == a && all[1..] == run;
    assert Allowed(w, all) && After(w, all) == After(Next(w, a), run);
  }

  /** The files before i are done, the next has been asked for, the names of the others are free. */
  ghost predicate Stands(w: World, i: nat) {
    && Inv(w) && i <= |w.d.files| && Apart(w.d.files) && w.session == Session(true, true)
    && w.d.trouble.Fine? && w.responder.Fine? && w.d.completed == i && (w.d.success <==> i == |w.d.files|)
    && (i < |w.d.files| ==> GET + w.d.files[i] in w.d.asked)
    && (forall j :: i <= j < |w.d.files| ==> !Clashes(w.d.disk.Keys, w.d.files[j]))
  }

  /** Every file is there to be read and fits one datagram. */
  ghost predicate AllFit(files: seq<bytes>, library: map<bytes, bytes>) {
    forall i :: 0 <= i < |files| ==> Fits(files, library, i)
  }

  ghost predicate Fits(files: seq<bytes>, library: map<bytes, bytes>, i: nat) {
    i < |files| && files[i] in library && |Message(files[i], library[files[i]])| <= DATAGRAM_MAX
  }

  lemma Inquired(w: World, i: nat)
    requires Stands(w, i) && i < |w.d.files| && Fits(w.d.files, w.library, i)
    ensures var name := w.d.files[i]; var a := Inquire(GET + name, true);
      Enabled(w, a) && Next(w, a) == w.(waiting := w.waiting + [Message(name, w.library[name])])
  {
    hide Sound, Legal, Feed;
    var name := w.d.files[i];
    LegalGet(name);
    assert (GET + name)[|GET|..] == name;
  }

  lemma Emitted(w: World, reply: bytes)
    requires Inv(w) && w.session.answerer && w.responder.Fine? && w.waiting != [] && w.waiting[0] == reply
    ensures Enabled(w, Emit) && Next(w, Emit) == w.(replies := w.replies + {reply}, waiting := w.waiting[1..])
  {
  }

  lemma Handed(w: World, i: nat)
    requires Stands(w, i) && i < |w.d.files| && Fits(w.d.files, w.library, i)
    requires Message(w.d.files[i], w.library[w.d.files[i]]) in w.replies
    ensures var file := w.library[w.d.files[i]]; var a := Hand(Message(w.d.files[i], file), WillingHost(file));
      && Enabled(w, a) && Next(w, a) == w.(d := Next(w, a).d) && Next(w, a).d.files == w.d.files
      && Stands(Next(w, a), i + 1)
  {
    hide Sound, Legal, ReceiveDatagram, Begin, Clash, Clashes;
    SoundLengths(w);
    var name := w.d.files[i];
    var file := w.library[name];
    var reply := Message(name, file);
    NextFile(w.d, i, reply, file, WillingHost(file));
    StoredWhole(w.d, FRESH.(index := i), file, true);
    InvStep(w, Hand(reply, WillingHost(file)));
    forall j | i < j < |w.d.files|
      ensures !Clashes(w.d.disk.Keys + {name}, w.d.files[j])
    {
      ClashesGrow(w.d.disk.Keys, name, w.d.files[j]);
    }
  }

  lemma {:induction false} Completes(w: World, i: nat) returns (z: World)
    requires Stands(w, i) && w.waiting == [] && AllFit(w.d.files, w.library)
    ensures Reaches(w, z) && z.d.success
    decreases |w.d.files| - i
  {
    hide Inv, Next, Enabled, Sound;
    if i == |w.d.files| {
      z := w;
      assert Allowed(w, []) && After(w, []) == w;
    } else {
      assert Fits(w.d.files, w.library, i);
      var name := w.d.files[i];
      var file := w.library[name];
      Inquired(w, i);
      var a := Inquire(GET + name, true);
      InvStep(w, a);
      var v := Next(w, a);
      Emitted(v, Message(name, file));
      InvStep(v, Emit);
      var u := Next(v, Emit);
      Handed(u, i);
      var b := Hand(Message(name, file), WillingHost(file));
      z := Completes(Next(u, b), i + 1);
      StepFirst(u, b, z);
      StepFirst(v, Emit, z);
      StepFirst(w, a, z);
    }
  }

  /**
   * For files the responder has, whose names are free at the requester, success can be reached exactly if
   * every file fits a datagram.
   */
  lemma DatagramExact(files: seq<bytes>, library: map<bytes, bytes>, disk: map<bytes, bytes>, server: bool)
    requires files != [] && Apart(files)
    requires forall i :: 0 <= i < |files| ==> Legal(files[i]) && files[i] in library && !Clashes(disk.Keys, files[i])
    ensures Inv(Initial(files, library, disk, server))
    ensures CanSucceed(Initial(files, library, disk, server)) <==> AllFit(files, library)
  {
    hide Inv, Sound, Legal, Clash, Clashes;
    ApartDistinct(files);
    InitialInv(files, library, disk, server);
    var w := Initial(files, library, disk, server);
    if CanSucceed(w) {
      var run: seq<Action> :| Allowed(w, run) && After(w, run).d.success;
      DatagramSafety(files, library, disk, server, run);
      forall i | 0 <= i < |files|
        ensures Fits(files, library, i)
      {
        assert Arrived(After(w, run), i);
      }
    }
    if AllFit(files, library) {
      InvStep(w, Commence);
      var v := Next(w, Commence);
      assert Stands(v, 0);
      var z := Completes(v, 0);
      StepFirst(w, Commence, z);
    }
  }

  // ------------------------------------------------------------- a responder that blames

  /** When the requester has all its files, the responder fails at the close exactly if it still has a reply to send. */
  lemma ResponderAtClose(w: World)
    requires Inv(w) && w.d.success && w.responder.Fine? && w.session.answerer
    ensures Enabled(w, CloseAnswerer)
    ensures Next(w, CloseAnswerer).responder == Peer <==> !w.server && w.waiting != []
    ensures Next(w, CloseAnswerer).d == w.d
    ensures Next(w, CloseAnswerer).passed <==> !w.server && w.waiting == []
  {
    hide Sound, Legal;
  }

  /** That happens: a request that arrives twice leaves a reply in the queue. */
  lemma RepeatBlamed(name: bytes, file: bytes) returns (z: World)
    requires Legal(name) && |Message(name, file)| <= DATAGRAM_MAX
    ensures var w := Initial([name], map[name := file], map[], false);
      Inv(w) && Reaches(w, z) && z.d.success && z.responder == Peer
  {
    hide Sound, Legal, Feed;
    var w := Initial([name], map[name := file], map[], false);
    InitialInv([name], map[name := file], map[], false);
    InvStep(w, Commence);
    var w1 := Next(w, Commence);
    assert Stands(w1, 0) && Fits(w1.d.files, w1.library, 0);
    z := Twice(w1, name, file);
    StepFirst(w, Commence, z);
  }

  lemma Twice(w: World, name: bytes, file: bytes) returns (z: World)
    requires Stands(w, 0) && w.d.files == [name] && w.library == map[name := file] && Fits(w.d.files, w.library, 0)
    requires !w.server && w.waiting == []
    ensures Reaches(w, z) && z.d.success && z.responder == Peer
  {
    hide Inv, Next, Enabled, Sound, Legal;
    var a, reply := Inquire(GET + name, true), Message(name, file);
    Inquired(w, 0);
    InvStep(w, a);
    var w1 := Next(w, a);
    Inquired(w1, 0);
    InvStep(w1, a);
    var w2 := Next(w1, a);
    Emitted(w2, reply);
    InvStep(w2, Emit);
    var w3 := Next(w2, Emit);
    assert w3.waiting == [reply];
    var b := Hand(reply, WillingHost(file));
    Handed(w3, 0);
    InvStep(w3, b);
    var w4 := Next(w3, b);
    ResponderAtClose(w4);
    InvStep(w4, CloseAnswerer);
    z := Next(w4, CloseAnswerer);
    assert Allowed(z, []) && After(z, []) == z;
    StepFirst(w4, CloseAnswerer, z);
    StepFirst(w3, b, z);
    StepFirst(w2, Emit, z);
    StepFirst(w1, a, z);
    StepFirst(w, a, z);
  }
}
