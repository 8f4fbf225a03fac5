/**
 * The whole file transfer over streams: the requester asks for each file on a stream of its own, the
 * responder answers on that stream, or pushes the file on another, the requester stores what arrives.
 */
module InteropTransfer {
  import opened Bytes
  import opened Pipes
  import opened InteropPath
  import opened InteropHeader
  import opened InteropSender
  import opened InteropRequester
  import opened InteropStages

  // -------------------------------------------------------------------- both endpoints

  /** XQC_WT_INTEROP_STREAMS_MAX: stream records an endpoint can hold, which it frees with the session only. */
  const STREAMS_MAX: nat := 64

  datatype Pushing = NotYet | Push(s: Sender)

  /** What became of a stream at the endpoint that did not open it: not announced yet, recorded, or refused. */
  datatype Fate = Unseen | Held | Refused

  /**
   * One file: whether the answer comes on the stream of the request, whether that was opened, the way
   * up, the responder's record of it, the way down, the requester's record of that.
   */
  datatype Transfer = Transfer(bidi: bool, asked: bool, get: Sender, up: Line, taken: Fate, question: Header,
                               push: Pushing, down: Line, met: Fate, incoming: Incoming)

  /**
   * Whether the streams are bidirectional; the responder's files, whether it is the server, its failure
   * and whether it passed at the end; the session; the requester's context; the transfers.
   */
  datatype World = World(bidi: bool, library: map<bytes, bytes>, server: bool, responder: Trouble, passed: bool,
                         session: Session, d: Download, transfers: seq<Transfer>)

  datatype Action =
    | Request(i: nat, opens: bool)
    | FlushGet(i: nat, turns: seq<Turn>)
    | TakeRequest(i: nat)
    | Ask(i: nat, n: nat, opens: bool)
    | FlushPush(i: nat, turns: seq<Turn>)
    | TakePush(i: nat)
    | Deliver(i: nat, n: nat, host: HostAnswers)
    | StopAsker(i: nat)
    | StopAnswerer(i: nat)
    | CloseAsker
    | CloseAnswerer(streamsFirst: bool)

  /** The records a transfer takes at the requester or at the responder. */
  function Cost(t: Transfer, asker: bool): nat {
    if asker then (if t.asked then 1 else 0) + (if t.met.Held? then 1 else 0)
    else (if t.taken.Held? then 1 else 0) + (if t.push.Push? && !t.bidi then 1 else 0)
  }

  /** stream_count */
  function Records(ts: seq<Transfer>, asker: bool): nat {
    if ts == [] then 0 else Cost(ts[0], asker) + Records(ts[1..], asker)
  }

  /** The requester has a record of the stream the answer comes on. */
  predicate Recorded(t: Transfer) {
    if t.bidi then t.asked else t.met.Held?
  }

  ghost predicate Usable(d: Download, s: Incoming) {
    && |s.header.line| <= LINE_MAX
    && (s.open ==> 0 <= s.index < |d.files| == |d.received| && d.received[s.index] == 1 && OnDisk(d, s.index))
  }

  /** Transfer i is where the bytes that went through its streams put it. */
  ghost predicate Linked(library: map<bytes, bytes>, responder: Trouble, d: Download, i: nat, t: Transfer) {
    && i < |d.files| == |d.received|
    && var name := d.files[i];
    && Conveys(GET + name, t.get, t.up)
    && |t.question.line| <= LINE_MAX
    && (responder.Fine? ==>
          Questioned(name, t.question, t.up.got, t.up.pipe.finOut) && (t.push.Push? <==> t.up.pipe.finOut))
    && (t.push.NotYet? ==> t.down == SILENT)
    && (t.push.Push? ==> name in library && Conveys(Payload(name, library[name], t.bidi), t.push.s, t.down))
    && Usable(d, t.incoming)
    && (d.trouble.Fine? ==> Staged(name, i, d, t.incoming, t.down.got, t.down.pipe.finOut, t.bidi))
    && (d.received[i] == 2 ==>
          name in library && Right(name, i, d, library[name]) && Recorded(t) && t.down.pipe.finOut)
    && (t.taken.Refused? || t.met.Refused? ==> Many(d, t.bidi)) && (t.bidi ==> t.met.Unseen?)
    && (t.met.Held? ==> t.push.Push?) && (t.push.Push? ==> t.taken.Held?) && (t.taken.Held? ==> t.asked)
  }

  /** More files than the records of an endpoint can serve, where each takes two. */
  predicate Many(d: Download, bidi: bool) {
    !bidi && 2 * |d.files| > STREAMS_MAX
  }

  /** Who may blame the other: one whose peer failed on its own host, or could run out of records. */
  predicate Blame(responder: Trouble, requester: Trouble, many: bool) {
    (requester == Peer ==> responder == Host || many) && (responder == Peer ==> requester == Host || many)
  }

  ghost predicate Inv(w: World) {
    && |w.transfers| == |w.d.files| && Distinct(w.d.files) && Tally(w.d)
    && (forall i :: 0 <= i < |w.d.files| ==> Legal(w.d.files[i]))
    && Blame(w.responder, w.d.trouble, Many(w.d, w.bidi))
    && (w.d.success ==> w.d.files != [])
    && (!w.session.answerer && w.responder.Fine? ==> w.server || w.passed)
    && Records(w.transfers, true) <= STREAMS_MAX && Records(w.transfers, false) <= STREAMS_MAX
    && (forall i :: 0 <= i < |w.transfers| ==>
          w.transfers[i].bidi == w.bidi && Linked(w.library, w.responder, w.d, i, w.transfers[i]))
  }

  /** The session is closed by an endpoint that has failed, and by a requester that has all its files. */
  predicate Closing(w: World) {
    !w.d.trouble.Fine? || w.d.success || !w.responder.Fine?
  }

  predicate Enabled(w: World, a: Action) {
    match a
    case Request(i, _) =>
      && w.session.asker && w.d.trouble.Fine? && i < |w.transfers| && !w.transfers[i].asked
      && forall j :: 0 <= j < i ==> w.transfers[j].asked
    case FlushGet(i, _) => w.session.asker && i < |w.transfers| && w.transfers[i].asked
    case TakeRequest(i) =>
      w.session.answerer && i < |w.transfers| && w.transfers[i].asked && w.transfers[i].taken.Unseen?
    case Ask(i, n, _) =>
      w.session.answerer && i < |w.transfers| && w.transfers[i].taken.Held? && CanRead(w.transfers[i].up.pipe, n)
    case FlushPush(i, _) => w.session.answerer && i < |w.transfers| && w.transfers[i].push.Push?
    case TakePush(i) =>
      && w.session.asker && !w.bidi && i < |w.transfers|
      && w.transfers[i].push.Push? && w.transfers[i].met.Unseen?
    case Deliver(i, n, _) =>
      w.session.asker && i < |w.transfers| && Recorded(w.transfers[i]) && CanRead(w.transfers[i].down.pipe, n)
    case StopAsker(i) => w.session.asker && i < |w.transfers| && w.transfers[i].taken.Refused?
    case StopAnswerer(i) => w.session.answerer && i < |w.transfers| && w.transfers[i].met.Refused?
    case CloseAsker => w.session.asker && Closing(w)
    case CloseAnswerer(_) => w.session.answerer && Closing(w)
  }

  /** A request that was answered to the end. */
  predicate Served(t: Transfer) {
    t.question.complete && t.push.Push? && t.push.s.sent
  }

  predicate Unfinished(ts: seq<Transfer>) {
    exists i :: 0 <= i < |ts| && ts[i].taken.Held? && !Served(ts[i])
  }

  /** xqc_wt_interop_responder_done on a responder that has not failed */
  predicate ResponderDone(ts: seq<Transfer>) {
    (exists i :: 0 <= i < |ts| && Served(ts[i])) && !Unfinished(ts)
  }

  /** A stream the other endpoint opened: recorded, or refused for want of a record. */
  function Admitted(ts: seq<Transfer>, asker: bool): Fate {
    if Records(ts, asker) < STREAMS_MAX then Held else Refused
  }

  /** The responder's side of xqc_wt_interop_receive: a complete request opens the file and starts the answer. */
  ghost function Answered(library: map<bytes, bytes>, t: Transfer, data: bytes, fin: bool, opens: bool)
    : (Transfer, Trouble)
    requires |t.question.line| <= LINE_MAX
  {
    var (h, verdict, _) := Feed(t.question, data, fin, false);
    var u := t.(question := h);
    match verdict
    case Reject => (u, Peer)
    case More => (u, Fine)
    case Accept =>
      var name := if |GET| <= |h.line| then h.line[|GET|..] else [];
      if opens && name in library then
        (u.(push := Push(AnswerSender(name, library[name], t.bidi))), Fine)
      else (u, Host)
  }

  ghost function Asking(w: World, i: nat, n: nat, opens: bool): World
    requires Inv(w) && Enabled(w, Ask(i, n, opens))
  {
    var t := w.transfers[i];
    assert Linked(w.library, w.responder, w.d, i, t);
    var u := t.(up := ReadLine(t.up, n));
    if !w.responder.Fine? then w.(transfers := w.transfers[i := u])
    else
      var (v, trouble) := Answered(w.library, u, t.up.pipe.flight[..n], CarriesFin(t.up.pipe, n),
                                   opens && (t.bidi || Records(w.transfers, false) < STREAMS_MAX));
      w.(transfers := w.transfers[i := v], responder := trouble)
  }

  ghost function Delivering(w: World, i: nat, n: nat, host: HostAnswers): World
    requires Inv(w) && Enabled(w, Deliver(i, n, host))
  {
    var t := w.transfers[i];
    assert Linked(w.library, w.responder, w.d, i, t);
    var data := t.down.pipe.flight[..n];
    var (d, s) := Receive(ModeOf(t.bidi), w.d, t.incoming, data, CarriesFin(t.down.pipe, n), host);
    w.(transfers := w.transfers[i := t.(down := ReadLine(t.down, n), incoming := s)], d := d)
  }

  ghost function Next(w: World, a: Action): World
    requires Inv(w) && Enabled(w, a)
  {
    match a
    case Request(i, opens) =>
      if opens && Records(w.transfers, true) < STREAMS_MAX then
        w.(transfers := w.transfers[i := w.transfers[i].(asked := true)])
      else w.(d := Fail(w.d, Host))
    case FlushGet(i, turns) =>
      var t := w.transfers[i];
      if !w.d.trouble.Fine? then w
      else
        var (s, wrote, fins) := Flush(t.get, turns);
        w.(transfers := w.transfers[i := t.(get := s, up := SendLine(t.up, wrote, fins))],
           d := if s.failed then Fail(w.d, Host) else w.d)
    case TakeRequest(i) =>
      w.(transfers := w.transfers[i := w.transfers[i].(taken := Admitted(w.transfers, false))])
    case Ask(i, n, opens) => Asking(w, i, n, opens)
    case FlushPush(i, turns) =>
      var t := w.transfers[i];
      assert Linked(w.library, w.responder, w.d, i, t);
      if !w.responder.Fine? then w
      else
        var (s, wrote, fins) := Flush(t.push.s, turns);
        w.(transfers := w.transfers[i := t.(push := Push(s), down := SendLine(t.down, wrote, fins))],
           responder := if s.failed then Host else Fine)
    case TakePush(i) =>
      w.(transfers := w.transfers[i := w.transfers[i].(met := Admitted(w.transfers, true))])
    case Deliver(i, n, host) => Delivering(w, i, n, host)
    case StopAsker(i) => w.(d := Fail(w.d, Peer))
    case StopAnswerer(i) => w.(responder := if w.responder.Fine? then Peer else w.responder)
    case CloseAsker => w.(session := w.session.(asker := false), d := if w.d.success then w.d else Fail(w.d, Peer))
    case CloseAnswerer(streamsFirst) =>
      var done := w.responder.Fine? && ResponderDone(w.transfers);
      var ends := (streamsFirst && Unfinished(w.transfers)) || (!w.server && !done);
      w.(session := w.session.(answerer := false), passed := !w.server && done,
         responder := if w.responder.Fine? && ends then Peer else w.responder)
  }

  // ------------------------------------------------------------- every action keeps it

  ghost predicate Kept(w: World, v: World) {
    Inv(v) && v.d.files == w.d.files && v.library == w.library && v.bidi == w.bidi
  }

  /** What happens to other files leaves a transfer where it is. */
  lemma LinkedElsewhere(library: map<bytes, bytes>, r: Trouble, d: Download, j: nat, t: Transfer, q: Trouble,
                        e: Download)
    requires Linked(library, r, d, j, t) && (q.Fine? ==> r.Fine?)
    requires d.trouble.Fine? || e == d
    requires e.files == d.files && |e.received| == |d.received| && e.received[j] == d.received[j]
    requires Same(d.disk, e.disk, d.files[j])
    ensures Linked(library, q, e, j, t)
  {
    hide Conveys, Questioned;
  }

  lemma {:induction false} RecordsUpdate(ts: seq<Transfer>, i: nat, u: Transfer, asker: bool)
    requires i < |ts|
    ensures Records(ts[i := u], asker) == Records(ts, asker) - Cost(ts[i], asker) + Cost(u, asker)
  {
    hide Cost;
    if i == 0 {
      assert ts[i := u][1..] == ts[1..];
    } else {
      assert ts[i := u][1..] == ts[1..][i - 1 := u];
      RecordsUpdate(ts[1..], i - 1, u, asker);
    }
  }

  /** A transfer takes no more records than before, or one more of those left. */
  predicate Affordable(ts: seq<Transfer>, t: Transfer, u: Transfer, asker: bool) {
    Cost(u, asker) <= Cost(t, asker) || (Cost(u, asker) == Cost(t, asker) + 1 && Records(ts, asker) < STREAMS_MAX)
  }

  lemma OthersLinked(w: World, i: nat, u: Transfer, q: Trouble, e: Download)
    requires Inv(w) && i < |w.transfers| && (q.Fine? ==> w.responder.Fine?) && Blame(q, e.trouble, Many(e, w.bidi))
    requires u.bidi == w.bidi
    requires Affordable(w.transfers, w.transfers[i], u, true) && Affordable(w.transfers, w.transfers[i], u, false)
    requires w.d.trouble.Fine? || e == w.d
    requires Tally(e) && e.files == w.d.files
    requires forall j :: 0 <= j < |w.transfers| && j != i ==>
      e.received[j] == w.d.received[j] && Same(w.d.disk, e.disk, w.d.files[j])
    requires Linked(w.library, q, e, i, u)
    ensures Inv(w.(transfers := w.transfers[i := u], responder := q, d := e))
  {
    hide Linked, Tally, Legal, Cost, Records;
    RecordsUpdate(w.transfers, i, u, true);
    RecordsUpdate(w.transfers, i, u, false);
    TallyLengths(e);
    TallyLengths(w.d);
    var all := w.transfers[i := u];
    forall j | 0 <= j < |all|
      ensures Linked(w.library, q, e, j, all[j])
    {
      if j != i {
        LinkedElsewhere(w.library, w.responder, w.d, j, w.transfers[j], q, e);
      }
    }
  }

  lemma NothingChanged(d: Download, e: Download)
    requires e == d.(trouble := e.trouble)
    requires Tally(d)
    ensures Tally(e) && e.files == d.files && e.received == d.received && e.disk == d.disk
    ensures forall j :: 0 <= j < |d.files| ==> e.received[j] == d.received[j] && Same(d.disk, e.disk, d.files[j])
  {
  }

  lemma FlushGetInv(w: World, i: nat, turns: seq<Turn>)
    requires Inv(w) && Enabled(w, FlushGet(i, turns))
    ensures Kept(w, Next(w, FlushGet(i, turns)))
  {
    hide Records, Conveys, Flush, Tally, Questioned, SendLine, Staged, Legal, Distinct;
    var t := w.transfers[i];
    assert Linked(w.library, w.responder, w.d, i, t);
    if w.d.trouble.Fine? {
      var name := w.d.files[i];
      ConveysFits(GET + name, t.get, t.up);
      SendConveys(GET + name, t.get, t.up, turns);
      var (s, wrote, fins) := Flush(t.get, turns);
      SendLineKeeps(t.up, wrote, fins);
      var e := if s.failed then Fail(w.d, Host) else w.d;
      NothingChanged(w.d, e);
      OthersLinked(w, i, t.(get := s, up := SendLine(t.up, wrote, fins)), w.responder, e);
    }
  }

  lemma ConveysFits(msg: bytes, s: Sender, l: Line)
    requires Conveys(msg, s, l)
    ensures Fits(s)
  {
  }

  lemma SendLineKeeps(l: Line, wrote: bytes, fins: nat)
    ensures var m := SendLine(l, wrote, fins); m.got == l.got && m.pipe.finOut == l.pipe.finOut
  {
  }

  lemma FlushPushInv(w: World, i: nat, turns: seq<Turn>)
    requires Inv(w) && Enabled(w, FlushPush(i, turns))
    ensures Kept(w, Next(w, FlushPush(i, turns)))
  {
    hide Records, Conveys, Flush, Tally, Questioned, SendLine, Staged, Legal, Distinct;
    var t := w.transfers[i];
    assert Linked(w.library, w.responder, w.d, i, t);
    if w.responder.Fine? {
      var name := w.d.files[i];
      var msg := Payload(name, w.library[name], w.bidi);
      ConveysFits(msg, t.push.s, t.down);
      SendConveys(msg, t.push.s, t.down, turns);
      var (s, wrote, fins) := Flush(t.push.s, turns);
      SendLineKeeps(t.down, wrote, fins);
      NothingChanged(w.d, w.d);
      var q := if s.failed then Host else Fine;
      OthersLinked(w, i, t.(push := Push(s), down := SendLine(t.down, wrote, fins)), q, w.d);
    }
  }

  lemma AnsweredLinked(library: map<bytes, bytes>, d: Download, i: nat, t: Transfer, n: nat, opens: bool)
    requires Linked(library, Fine, d, i, t) && Legal(d.files[i]) && t.taken.Held? && CanRead(t.up.pipe, n)
    ensures var (u, trouble) := Answered(library, t.(up := ReadLine(t.up, n)), t.up.pipe.flight[..n],
                                         CarriesFin(t.up.pipe, n), opens);
      && trouble != Peer && Linked(library, trouble, d, i, u)
      && Cost(u, true) == Cost(t, true)
      && u.bidi == t.bidi
      && (Cost(u, false) == Cost(t, false) || (opens && !t.bidi && Cost(u, false) == Cost(t, false) + 1))
  {
    hide Conveys, Feed, Staged, Legal;
    var name, fin := d.files[i], CarriesFin(t.up.pipe, n);
    ReadConveys(GET + name, t.get, t.up, n);
    var data := t.up.pipe.flight[..n];
    QuestionFed(name, t.up.got, data, fin);
    LegalFits(name, false);
    if fin {
      assert (GET + name)[|GET|..] == name;
      if name in library {
        AnswerBegins(name, library[name], t.bidi);
      }
    } else {
      assert |t.up.got + data| <= |GET + name|;
    }
  }

  lemma AnswerBegins(name: bytes, file: bytes, bidi: bool)
    requires Legal(name)
    ensures Conveys(Payload(name, file, bidi), AnswerSender(name, file, bidi), SILENT)
  {
    if bidi {
      assert [] + [] + file == file;
    } else {
      PushCarries(name, file);
    }
  }

  lemma AskInv(w: World, i: nat, n: nat, opens: bool)
    requires Inv(w) && Enabled(w, Ask(i, n, opens))
    ensures Kept(w, Next(w, Ask(i, n, opens)))
  {
    hide Tally, Distinct, Answered, Legal, Linked, Records;
    var t := w.transfers[i];
    assert Linked(w.library, w.responder, w.d, i, t);
    LinkedParts(w.library, w.responder, w.d, i, t);
    var u := t.(up := ReadLine(t.up, n));
    NothingChanged(w.d, w.d);
    if w.responder.Fine? {
      var room := opens && (t.bidi || Records(w.transfers, false) < STREAMS_MAX);
      AnsweredLinked(w.library, w.d, i, t, n, room);
      var (v, trouble) := Answered(w.library, u, t.up.pipe.flight[..n], CarriesFin(t.up.pipe, n), room);
      OthersLinked(w, i, v, trouble, w.d);
    } else {
      ReadUpLinked(w.library, w.responder, w.d, i, t, n);
      OthersLinked(w, i, u, w.responder, w.d);
    }
  }

  lemma LinkedParts(library: map<bytes, bytes>, r: Trouble, d: Download, i: nat, t: Transfer)
    requires Linked(library, r, d, i, t)
    ensures i < |d.files| == |d.received| && |t.question.line| <= LINE_MAX && Usable(d, t.incoming)
  {
  }

  /** A responder that has failed looks at nothing any more. */
  lemma ReadUpLinked(library: map<bytes, bytes>, r: Trouble, d: Download, i: nat, t: Transfer, n: nat)
    requires Linked(library, r, d, i, t) && !r.Fine? && CanRead(t.up.pipe, n)
    ensures Linked(library, r, d, i, t.(up := ReadLine(t.up, n)))
  {
    ReadConveys(GET + d.files[i], t.get, t.up, n);
  }

  lemma DeliverLinked(library: map<bytes, bytes>, r: Trouble, d: Download, i: nat, t: Transfer, n: nat,
                      host: HostAnswers)
    requires Linked(library, r, d, i, t) && Recorded(t) && CanRead(t.down.pipe, n)
    requires Tally(d) && Distinct(d.files) && Legal(d.files[i]) && d.trouble.Fine?
    ensures var data, fin := t.down.pipe.flight[..n], CarriesFin(t.down.pipe, n);
      var (e, s) := Receive(ModeOf(t.bidi), d, t.incoming, data, fin, host);
      && e.files == d.files && Tally(e) && e.trouble != Peer
      && Linked(library, r, e, i, t.(down := ReadLine(t.down, n), incoming := s))
      && forall j :: 0 <= j < |d.files| && j != i ==> e.received[j] == d.received[j] && Same(d.disk, e.disk, d.files[j])
  {
    hide Conveys, Receive, Staged, Legal, Questioned, Tally;
    var name, fin, data := d.files[i], CarriesFin(t.down.pipe, n), t.down.pipe.flight[..n];
    assert t.push.Push?;
    var file := library[name];
    ReadConveys(Payload(name, file, t.bidi), t.push.s, t.down, n);
    ReceiveStaged(name, file, i, d, t.incoming, t.down.got, data, fin, host, t.bidi);
    ReceiveEffect(ModeOf(t.bidi), d, t.incoming, data, fin, host);
    var (e, s) := Receive(ModeOf(t.bidi), d, t.incoming, data, fin, host);
    DeliverEffect(d, i, t.incoming.(header := s.header), e, s);
  }

  /** What receiving for file i leaves of the other files. */
  lemma DeliverEffect(d: Download, i: nat, s: Incoming, e: Download, t: Incoming)
    requires |d.received| == |d.files| && Distinct(d.files) && i < |d.files|
    requires Effect(d, s, e, t) && (t.index == i || t.index == -1)
    ensures forall j :: 0 <= j < |d.files| && j != i ==>
      e.received[j] == d.received[j] && Same(d.disk, e.disk, d.files[j])
  {
    hide Same;
    forall j | 0 <= j < |d.files| && j != i
      ensures e.received[j] == d.received[j] && Same(d.disk, e.disk, d.files[j])
    {
      assert d.files[j] != d.files[i];
    }
  }

  /** A record more, at one end or the other, moves nothing. */
  lemma RecordInv(w: World, i: nat, u: Transfer)
    requires Inv(w) && i < |w.transfers|
    requires var t := w.transfers[i]; u == t.(asked := u.asked, taken := u.taken, met := u.met)
    requires u.asked && (u.taken.Held? || !u.push.Push?) && (u.met.Held? ==> u.push.Push?)
    requires (u.taken.Refused? || u.met.Refused? ==> Many(w.d, w.bidi)) && (w.bidi ==> u.met.Unseen?)
    requires w.transfers[i].met.Held? ==> u.met.Held?
    requires Affordable(w.transfers, w.transfers[i], u, true) && Affordable(w.transfers, w.transfers[i], u, false)
    ensures Inv(w.(transfers := w.transfers[i := u]))
  {
    hide Records, Tally, Conveys, Questioned, Staged, Legal, Distinct;
    assert Linked(w.library, w.responder, w.d, i, w.transfers[i]);
    NothingChanged(w.d, w.d);
    OthersLinked(w, i, u, w.responder, w.d);
  }

  /** Each file takes at most two records at an endpoint. */
  lemma {:induction false} FullMeansMany(ts: seq<Transfer>, i: nat, asker: bool)
    requires i < |ts|
    ensures Records(ts, asker) <= 2 * (|ts| - 1) + Cost(ts[i], asker)
  {
    if |ts| > 1 {
      FullMeansMany(ts[1..], if i == 0 then 0 else i - 1, asker);
    }
  }

  /** Where the answer comes on the stream of the request, a responder that takes requests never runs out of records. */
  lemma {:induction false} TakenAreAsked(ts: seq<Transfer>, i: nat)
    requires i < |ts| && ts[i].asked && !ts[i].taken.Held?
    requires forall j :: 0 <= j < |ts| ==> ts[j].bidi && (ts[j].taken.Held? ==> ts[j].asked)
    ensures Records(ts, false) < Records(ts, true)
  {
    if i > 0 {
      TakenAreAsked(ts[1..], i - 1);
    } else {
      NoMoreTaken(ts[1..]);
    }
  }

  lemma {:induction false} NoMoreTaken(ts: seq<Transfer>)
    requires forall j :: 0 <= j < |ts| ==> ts[j].bidi && (ts[j].taken.Held? ==> ts[j].asked)
    ensures Records(ts, false) <= Records(ts, true)
  {
    if ts != [] {
      NoMoreTaken(ts[1..]);
    }
  }

  lemma LinkedTaken(w: World)
    requires Inv(w)
    ensures forall j :: 0 <= j < |w.transfers| ==>
      w.transfers[j].bidi == w.bidi && (w.transfers[j].taken.Held? ==> w.transfers[j].asked)
  {
    hide Conveys, Questioned, Staged, Legal, Distinct, Tally, Records;
    forall j | 0 <= j < |w.transfers|
      ensures w.transfers[j].bidi == w.bidi && (w.transfers[j].taken.Held? ==> w.transfers[j].asked)
    {
      assert Linked(w.library, w.responder, w.d, j, w.transfers[j]);
    }
  }

  lemma RecordStep(w: World, a: Action)
    requires Inv(w) && Enabled(w, a) && (a.Request? || a.TakeRequest? || a.TakePush?)
    ensures Kept(w, Next(w, a))
  {
    hide Records, Tally, Conveys, Questioned, Staged, Legal, Distinct;
    var t := w.transfers[a.i];
    assert Linked(w.library, w.responder, w.d, a.i, t);
    match a
    case Request(i, opens) =>
      if opens && Records(w.transfers, true) < STREAMS_MAX {
        RecordInv(w, i, t.(asked := true));
      } else {
        NothingChanged(w.d, Fail(w.d, Host));
        OthersLinked(w, i, t, w.responder, Fail(w.d, Host));
        assert w.transfers[i := t] == w.transfers;
      }
    case TakeRequest(i) =>
      LinkedTaken(w);
      if w.bidi {
        TakenAreAsked(w.transfers, i);
      }
      FullMeansMany(w.transfers, i, false);
      RecordInv(w, i, t.(taken := Admitted(w.transfers, false)));
    case TakePush(i) =>
      FullMeansMany(w.transfers, i, true);
      RecordInv(w, i, t.(met := Admitted(w.transfers, true)));
  }

  /** A requester with all its files has left the responder nothing to do. */
  lemma SuccessServed(w: World)
    requires Inv(w) && w.d.success && w.responder.Fine?
    ensures ResponderDone(w.transfers)
  {
    hide Legal, Staged, Records, Distinct, Flush;
    TwosAll(w.d.received);
    forall i | 0 <= i < |w.transfers|
      ensures Served(w.transfers[i])
    {
      SentWhole(w.library, w.d, i, w.transfers[i]);
    }
    assert Served(w.transfers[0]);
  }

  lemma SentWhole(library: map<bytes, bytes>, d: Download, i: nat, t: Transfer)
    requires Linked(library, Fine, d, i, t) && d.received[i] == 2
    ensures Served(t)
  {
    hide Legal, Staged;
    CarriesMeans(Payload(d.files[i], library[d.files[i]], t.bidi), t.down.wire, t.down.fins, t.push.s);
  }

  lemma CloseInv(w: World, a: Action)
    requires Inv(w) && Enabled(w, a) && (a.CloseAsker? || a.CloseAnswerer? || a.StopAsker? || a.StopAnswerer?)
    ensures Kept(w, Next(w, a))
  {
    hide Records, Tally, Linked, Legal, Distinct, ResponderDone, Unfinished;
    if w.d.success && w.responder.Fine? {
      SuccessServed(w);
      NothingLeft(w.transfers);
    }
    if a.StopAsker? || a.StopAnswerer? {
      RefusedMany(w.library, w.responder, w.d, a.i, w.transfers[a.i]);
    }
    TroubleInv(w, Next(w, a));
  }

  lemma RefusedMany(library: map<bytes, bytes>, r: Trouble, d: Download, i: nat, t: Transfer)
    requires Linked(library, r, d, i, t) && (t.taken.Refused? || t.met.Refused?)
    ensures Many(d, t.bidi)
  {
  }

  lemma NothingLeft(ts: seq<Transfer>)
    requires ResponderDone(ts)
    ensures !Unfinished(ts)
  {
  }

  lemma TroubleInv(w: World, v: World)
    requires Inv(w) && v == w.(session := v.session, passed := v.passed, responder := v.responder, d := v.d)
    requires v.d == w.d || v.d == Fail(w.d, Peer)
    requires (v.responder.Fine? ==> w.responder.Fine?) && Blame(v.responder, v.d.trouble, Many(w.d, w.bidi))
    requires !v.session.answerer && v.responder.Fine? ==> w.server || v.passed
    ensures Inv(v)
  {
    hide Records, Tally, Linked, Legal, Distinct;
    TallyLengths(w.d);
    NothingChanged(w.d, v.d);
    forall j | 0 <= j < |v.transfers|
      ensures Linked(v.library, v.responder, v.d, j, v.transfers[j])
    {
      LinkedElsewhere(w.library, w.responder, w.d, j, w.transfers[j], v.responder, v.d);
    }
  }

  lemma InvStep(w: World, a: Action)
    requires Inv(w) && Enabled(w, a)
    ensures Inv(Next(w, a)) && Next(w, a).d.files == w.d.files && Next(w, a).library == w.library
    ensures Next(w, a).bidi == w.bidi
  {
    hide Inv, Next, Enabled;
    match a
    case Request(_, _) => RecordStep(w, a);
    case FlushGet(i, turns) => FlushGetInv(w, i, turns);
    case TakeRequest(i) => RecordStep(w, a);
    case Ask(i, n, opens) => AskInv(w, i, n, opens);
    case FlushPush(i, turns) => FlushPushInv(w, i, turns);
    case TakePush(i) => RecordStep(w, a);
    case Deliver(i, n, host) => DeliverInv(w, i, n, host);
    case StopAsker(_) => CloseInv(w, a);
    case StopAnswerer(_) => CloseInv(w, a);
    case CloseAsker => CloseInv(w, a);
    case CloseAnswerer(_) => CloseInv(w, a);
  }

  lemma DeliverInv(w: World, i: nat, n: nat, host: HostAnswers)
    requires Inv(w) && Enabled(w, Deliver(i, n, host))
    ensures Kept(w, Next(w, Deliver(i, n, host)))
  {
    hide Tally, Distinct, Receive, Legal, Linked, Records;
    var t := w.transfers[i];
    assert Linked(w.library, w.responder, w.d, i, t);
    LinkedParts(w.library, w.responder, w.d, i, t);
    if w.d.trouble.Fine? {
      DeliverLinked(w.library, w.responder, w.d, i, t, n, host);
    } else {
      LateDelivery(w.library, w.responder, w.d, i, t, n, host);
      NothingChanged(w.d, w.d);
    }
    var (e, s) := Receive(ModeOf(t.bidi), w.d, t.incoming, t.down.pipe.flight[..n], CarriesFin(t.down.pipe, n), host);
    OthersLinked(w, i, t.(down := ReadLine(t.down, n), incoming := s), w.responder, e);
  }

  /** A requester that has failed looks at nothing any more. */
  lemma LateDelivery(library: map<bytes, bytes>, r: Trouble, d: Download, i: nat, t: Transfer, n: nat,
                     host: HostAnswers)
    requires Linked(library, r, d, i, t) && !d.trouble.Fine? && CanRead(t.down.pipe, n)
    ensures var data, fin := t.down.pipe.flight[..n], CarriesFin(t.down.pipe, n);
      Receive(ModeOf(t.bidi), d, t.incoming, data, fin, host) == (d, t.incoming)
    ensures Linked(library, r, d, i, t.(down := ReadLine(t.down, n)))
  {
    hide Conveys, Staged;
    assert t.push.Push?;
    ReadConveys(Payload(d.files[i], library[d.files[i]], t.bidi), t.push.s, t.down, n);
  }

  // -------------------------------------------------------------------------- all runs

  function Begun(i: nat, name: bytes, bidi: bool): Transfer {
    Transfer(bidi, false, GetSender(name), SILENT, Unseen, EMPTY, NotYet, SILENT, Unseen, Awaiting(i, bidi))
  }

  function Initial(files: seq<bytes>, library: map<bytes, bytes>, disk: map<bytes, bytes>, server: bool, bidi: bool)
    : World
  {
    World(bidi, library, server, Fine, false, Session(true, true), Start(ModeOf(bidi), files, disk).d,
          seq(|files|, i requires 0 <= i < |files| => Begun(i, files[i], bidi)))
  }

  lemma InitialInv(files: seq<bytes>, library: map<bytes, bytes>, disk: map<bytes, bytes>, server: bool,
                   bidi: bool)
    requires Distinct(files) && forall i :: 0 <= i < |files| ==> Legal(files[i])
    ensures Inv(Initial(files, library, disk, server, bidi))
  {
    hide Legal;
    StartSound(ModeOf(bidi), files, disk);
    var w := Initial(files, library, disk, server, bidi);
    NoRecords(w.transfers, true);
    NoRecords(w.transfers, false);
    forall i | 0 <= i < |w.transfers|
      ensures Linked(w.library, w.responder, w.d, i, w.transfers[i])
    {
      assert Legal(files[i]) && |files[i]| <= PATH_MAX by {
        LegalParts(files[i]);
      }
      GetCarries(files[i]);
    }
  }

  lemma {:induction false} NoRecords(ts: seq<Transfer>, asker: bool)
    requires forall i :: 0 <= i < |ts| ==> Cost(ts[i], asker) == 0
    ensures Records(ts, asker) == 0
  {
    if ts != [] {
      NoRecords(ts[1..], asker);
    }
  }

  ghost predicate Allowed(w: World, run: seq<Action>)
    requires Inv(w)
    decreases |run|
  {
    run != [] ==> Enabled(w, run[0]) && (InvStep(w, run[0]); Allowed(Next(w, run[0]), run[1..]))
  }

  ghost function After(w: World, run: seq<Action>): (v: World)
    requires Inv(w) && Allowed(w, run)
    ensures Inv(v) && v.d.files == w.d.files && v.library == w.library && v.bidi == w.bidi
    decreases |run|
  {
    if run == [] then w
    else
      InvStep(w, run[0]);
      After(Next(w, run[0]), run[1..])
  }

  /**
   * In every run, over streams of either kind, for any short read, short write, blocked send and
   * segmentation, and with the session closed under either endpoint: an answer is a prefix of the file,
   * behind "PUSH name\n" where it has a stream of its own, and its one FIN follows all of it; a file
   * counted as received is, under its own name, the responder's file; success means that all are; no
   * endpoint holds more records than it has; an endpoint blames the other only when the other's host
   * failed or there are more than 32 pushed files; and a responder that is not the server and did not
   * fail has passed once the session is closed.
   */
  lemma TransferSafety(files: seq<bytes>, library: map<bytes, bytes>, disk: map<bytes, bytes>, server: bool,
                       bidi: bool, run: seq<Action>)
    requires Distinct(files) && forall i :: 0 <= i < |files| ==> Legal(files[i])
    ensures Inv(Initial(files, library, disk, server, bidi))
    ensures Allowed(Initial(files, library, disk, server, bidi), run) ==>
      var w := After(Initial(files, library, disk, server, bidi), run);
      && |w.transfers| == |w.d.received| == |files|
      && w.d.completed == Twos(w.d.received)
      && (w.d.trouble == Peer ==> w.responder == Host || (!bidi && |files| > 32))
      && (w.responder == Peer ==> w.d.trouble == Host || (!bidi && |files| > 32))
      && (!w.session.answerer && w.responder.Fine? ==> w.server || w.passed)
      && Records(w.transfers, true) <= STREAMS_MAX && Records(w.transfers, false) <= STREAMS_MAX
      && (forall i :: 0 <= i < |files| ==> Answers(library, files[i], w.transfers[i].down, bidi))
      && (forall i :: 0 <= i < |files| && w.d.received[i] == 2 ==> Downloaded(library, w.d.disk, files[i]))
      && (w.d.success ==> forall i :: 0 <= i < |files| ==> Downloaded(library, w.d.disk, files[i]))
  {
    InitialInv(files, library, disk, server, bidi);
    if Allowed(Initial(files, library, disk, server, bidi), run) {
      InvMeans(After(Initial(files, library, disk, server, bidi), run));
    }
  }

  ghost predicate Answers(library: map<bytes, bytes>, name: bytes, l: Line, bidi: bool) {
    && l.got <= l.wire && l.fins <= 1
    && (l.wire != [] || l.fins == 1 ==> name in library && l.wire <= Payload(name, library[name], bidi))
    && (l.fins == 1 ==> l.wire == Payload(name, library[name], bidi))
  }

  ghost predicate Downloaded(library: map<bytes, bytes>, disk: map<bytes, bytes>, name: bytes) {
    name in library && name in disk && disk[name] == library[name]
  }

  lemma InvMeans(w: World)
    requires Inv(w)
    ensures forall i :: 0 <= i < |w.d.files| ==> Answers(w.library, w.d.files[i], w.transfers[i].down, w.bidi)
    ensures forall i :: 0 <= i < |w.d.files| && w.d.received[i] == 2 ==> Downloaded(w.library, w.d.disk, w.d.files[i])
    ensures w.d.success ==> forall i :: 0 <= i < |w.d.files| ==> w.d.received[i] == 2
  {
    TwosAll(w.d.received);
    forall i | 0 <= i < |w.d.files|
      ensures Answers(w.library, w.d.files[i], w.transfers[i].down, w.bidi)
      ensures w.d.received[i] == 2 ==> Downloaded(w.library, w.d.disk, w.d.files[i])
    {
      var t := w.transfers[i];
      assert Linked(w.library, w.responder, w.d, i, t);
      if t.push.Push? {
        CarriesMeans(Payload(w.d.files[i], w.library[w.d.files[i]], w.bidi), t.down.wire, t.down.fins, t.push.s);
      }
    }
  }
}
