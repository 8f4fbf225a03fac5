/**
 * The transfer can be brought to its end: a run that leads to success, for as many files as both
 * endpoints have stream records for, and for no more.
 */
module InteropCompletes {
  import opened Bytes
  import opened Pipes
  import opened InteropPath
  import opened InteropHeader
  import opened InteropSender
  import opened InteropRequester
  import opened InteropStages
  import opened InteropTransfer

  // ---------------------------------------------------------------- a willing transport

  /** Answers that read the rest of a file in full buffers and accept all of it, then the FIN. */
  function WillingTurns(rest: bytes): seq<Turn> {
    if rest == [] then [Turn(Chunk(0), Accepted(0))]
    else
      var k := ReadLength(BUFFER_SIZE, rest);
      [Turn(Chunk(BUFFER_SIZE), Accepted(k))] + WillingTurns(rest[k..])
  }

  lemma {:induction false} FileGoesOut(s: Sender)
    requires Fits(s) && Drained(s) && s.source.Open? && !s.sent && !s.failed
    ensures var e := Flush(s, WillingTurns(s.source.rest)).0; e.sent && !e.failed
    decreases |s.source.rest|
  {
    var rest, turns := s.source.rest, WillingTurns(s.source.rest);
    IterateFits(s, turns[0]);
    var o := Iterate(s, turns[0]);
    if rest == [] {
      assert o.s.sent && o.again;
    } else {
      var k := ReadLength(BUFFER_SIZE, rest);
      assert o.s.pending == rest[..k] && o.s.offset == k && o.again;
      assert turns[1..] == WillingTurns(rest[k..]);
      FileGoesOut(o.s);
    }
  }

  lemma PushGoesOut(name: bytes, file: bytes)
    requires |name| <= PATH_MAX
    ensures var e := Flush(PushSender(name, file), AnswerTurns(name, file, false)).0; e.sent && !e.failed
  {
    var s, turns := PushSender(name, file), AnswerTurns(name, file, false);
    IterateFits(s, turns[0]);
    var o := Iterate(s, turns[0]);
    assert s.pending[0..] == s.pending && o.s.offset == |s.pending| && o.again;
    assert turns[1..] == WillingTurns(file);
    FileGoesOut(o.s);
  }

  function AnswerTurns(name: bytes, file: bytes, bidi: bool): seq<Turn> {
    (if bidi then [] else [Turn(Chunk(0), Accepted(|PushHeader(name)|))]) + WillingTurns(file)
  }

  lemma AnswerGoesOut(name: bytes, file: bytes, bidi: bool)
    requires |name| <= PATH_MAX
    ensures Fits(AnswerSender(name, file, bidi))
    ensures var e := Flush(AnswerSender(name, file, bidi), AnswerTurns(name, file, bidi)).0; e.sent && !e.failed
  {
    hide Flush;
    if bidi {
      assert AnswerTurns(name, file, bidi) == WillingTurns(file);
      FileGoesOut(AnswerSender(name, file, bidi));
    } else {
      PushGoesOut(name, file);
    }
  }

  function GetTurns(name: bytes): seq<Turn> {
    [Turn(Chunk(0), Accepted(|GET + name|)), Turn(Chunk(0), Accepted(0))]
  }

  lemma GetGoesOut(name: bytes)
    requires |name| <= PATH_MAX
    ensures var e := Flush(GetSender(name), GetTurns(name)).0; e.sent && !e.failed
  {
    var s, turns := GetSender(name), GetTurns(name);
    IterateFits(s, turns[0]);
    var o := Iterate(s, turns[0]);
    assert s.pending[0..] == s.pending && o.s.offset == |s.pending| && o.again;
    assert turns[1..] == [turns[1]];
    IterateFits(o.s, turns[1]);
    var last := Iterate(o.s, turns[1]);
    assert last.s == o.s.(sent := true) && last.again && [turns[1]][1..] == [];
    assert Flush(last.s, []).0 == last.s;
    assert Flush(o.s, [turns[1]]).0 == last.s;
  }

  /** An answer that arrives in one piece is stored and counted. */
  lemma DeliveredWhole(d: Download, i: nat, file: bytes, bidi: bool)
    requires |d.received| == |d.files| && i < |d.files| && Distinct(d.files) && Legal(d.files[i])
    requires d.trouble.Fine? && !d.success && d.received[i] == 0 && !Clashes(d.disk.Keys, d.files[i])
    ensures var all := Payload(d.files[i], file, bidi);
      var e := Receive(ModeOf(bidi), d, Awaiting(i, bidi), all, true, WillingHost(file)).0;
      && e.trouble.Fine? && e.received == d.received[i := 2] && e.completed == d.completed + 1
      && (e.success <==> e.completed == |d.files|) && e.disk.Keys == d.disk.Keys + {d.files[i]}
  {
    hide Feed, Begin, Legal, Find;
    if bidi {
      assert Find(d.files, NoName) == -1;
      StoredWhole(d, Awaiting(i, true), file, false);
    } else {
      PushDeliveredWhole(d, i, file);
    }
  }

  lemma PushDeliveredWhole(d: Download, i: nat, file: bytes)
    requires |d.received| == |d.files| && i < |d.files| && Distinct(d.files) && Legal(d.files[i])
    requires d.trouble.Fine? && !d.success && d.received[i] == 0 && !Clashes(d.disk.Keys, d.files[i])
    ensures var e := Receive(Uni, d, FRESH, PushHeader(d.files[i]) + file, true, WillingHost(file)).0;
      && e.trouble.Fine? && e.received == d.received[i := 2] && e.completed == d.completed + 1
      && (e.success <==> e.completed == |d.files|) && e.disk.Keys == d.disk.Keys + {d.files[i]}
  {
    hide Feed, Begin, Legal;
    var name := d.files[i];
    var data := PushHeader(name) + file;
    assert [] + data == data;
    PushFed(name, file, [], data, true);
    assert (PUSH + name)[|PUSH|..] == name && data[|PushHeader(name)|..] == file;
    assert Find(d.files, Named(name)) == i;
    StoredWhole(d, Incoming(Header(PUSH + name, true), false, i, false, false, false, true), file, false);
  }

  // ------------------------------------------------------------------ one file's journey

  /** Some run leads from w to success. */
  ghost predicate CanSucceed(w: World)
    requires Inv(w)
  {
    exists run: seq<Action> :: Allowed(w, run) && After(w, run).d.success
  }

  lemma StepFirst(w: World, a: Action)
    requires Inv(w) && Enabled(w, a) && Inv(Next(w, a))
    ensures CanSucceed(Next(w, a)) ==> CanSucceed(w)
  {
    hide Inv, Next, Enabled;
    if CanSucceed(Next(w, a)) {
      var run: seq<Action> :| Allowed(Next(w, a), run) && After(Next(w, a), run).d.success;
      var all := [a] + run;
      assert all[0] == a && all[1..] == run;
      assert Allowed(w, all) && After(w, all) == After(Next(w, a), run);
    }
  }

  /** A file whose request stream has been opened, and no more. */
  function Wanted(i: nat, name: bytes, bidi: bool): Transfer {
    Begun(i, name, bidi).(asked := true)
  }

  /** The records a file takes at either endpoint. */
  function Each(bidi: bool): nat {
    if bidi then 1 else 2
  }

  /** The files before i are there, nothing keeps the others away. */
  ghost predicate Clear(w: World, i: nat) {
    && Inv(w) && i <= |w.d.files| && Each(w.bidi) * |w.d.files| <= STREAMS_MAX && w.session == Session(true, true)
    && w.d.trouble.Fine? && w.responder.Fine? && w.d.completed == i && (w.d.success <==> i == |w.d.files|)
    && Apart(w.d.files)
    && forall j :: i <= j < |w.d.files| ==>
         w.d.received[j] == 0 && w.d.files[j] in w.library && !Clashes(w.d.disk.Keys, w.d.files[j])
  }

  /** The requests for the first k files have been opened. */
  ghost predicate Opened(w: World, k: nat) {
    && Clear(w, 0) && k <= |w.d.files| && Records(w.transfers, true) == k && Records(w.transfers, false) == 0
    && forall j :: 0 <= j < |w.d.files| ==>
         w.transfers[j] == Begun(j, w.d.files[j], w.bidi).(asked := j < k)
  }

  /** All requests have been opened, the transfers before i are done. */
  ghost predicate Stands(w: World, i: nat) {
    && Clear(w, i) && Records(w.transfers, true) == |w.d.files| + (if w.bidi then 0 else i)
    && Records(w.transfers, false) == (if w.bidi then i else 2 * i)
    && forall j :: i <= j < |w.d.files| ==> w.transfers[j] == Wanted(j, w.d.files[j], w.bidi)
  }

  /** As Stands, with the request for file i arrived and answered. */
  ghost predicate Answering(w: World, i: nat) {
    && Clear(w, i) && i < |w.d.files|
    && Records(w.transfers, true) == |w.d.files| + (if w.bidi then 0 else i)
    && Records(w.transfers, false) == (if w.bidi then i + 1 else 2 * i + 2)
    && (forall j :: i < j < |w.d.files| ==> w.transfers[j] == Wanted(j, w.d.files[j], w.bidi))
    && var name, t := w.d.files[i], w.transfers[i];
    && t.push == Push(AnswerSender(name, w.library[name], w.bidi)) && t.down == SILENT && t.asked && t.taken.Held?
    && t.met.Unseen? && t.incoming == Awaiting(i, w.bidi) && t.bidi == w.bidi
  }

  /** All of msg is in flight, the FIN behind it, nothing delivered yet. */
  ghost predicate Under(l: Line, msg: bytes) {
    l.pipe == Pipe(msg, true, false) && l.got == []
  }

  lemma AllSent(msg: bytes, s: Sender, turns: seq<Turn>)
    requires Conveys(msg, s, SILENT) && Flush(s, turns).0.sent
    ensures var (e, wrote, fins) := Flush(s, turns); Under(SendLine(SILENT, wrote, fins), msg)
  {
    hide Flush, Carries;
    ConveysFits(msg, s, SILENT);
    SendConveys(msg, s, SILENT, turns);
    var (e, wrote, fins) := Flush(s, turns);
    var l := SendLine(SILENT, wrote, fins);
    CarriesMeans(msg, l.wire, l.fins, e);
    assert l.got + l.pipe.flight == l.pipe.flight;
  }

  lemma GetFlies(w: World, i: nat)
    requires Stands(w, i) && i < |w.d.files|
    ensures var v := Next(w, FlushGet(i, GetTurns(w.d.files[i])));
      && v == w.(transfers := w.transfers[i := w.transfers[i].(get := v.transfers[i].get, up := v.transfers[i].up)])
      && Under(v.transfers[i].up, GET + w.d.files[i])
  {
    hide Flush, Legal, Tally, Records;
    var name, t := w.d.files[i], w.transfers[i];
    assert Linked(w.library, w.responder, w.d, i, t) && Legal(name);
    LegalLength(name);
    GetGoesOut(name);
    AllSent(GET + name, t.get, GetTurns(name));
  }

  lemma LegalLength(path: bytes)
    requires Legal(path)
    ensures |path| <= PATH_MAX
  {
  }

  /** A request that arrives in one piece starts the push of that file. */
  lemma AskedWhole(library: map<bytes, bytes>, t: Transfer, name: bytes)
    requires Legal(name) && name in library && t.question == EMPTY
    ensures Answered(library, t, GET + name, true, true)
         == (t.(question := Header(GET + name, true), push := Push(AnswerSender(name, library[name], t.bidi))), Fine)
  {
    hide Feed, Legal;
    assert [] + (GET + name) == GET + name;
    QuestionFed(name, [], GET + name, true);
    assert (GET + name)[|GET|..] == name;
  }

  lemma AskLands(v: World, i: nat, name: bytes)
    requires Inv(v) && i < |v.transfers| && v.d.files[i] == name && v.responder.Fine? && name in v.library
    requires v.session.answerer && v.transfers[i].taken.Held?
    requires v.transfers[i].bidi == v.bidi && (v.bidi || Records(v.transfers, false) < STREAMS_MAX)
    requires Under(v.transfers[i].up, GET + name) && v.transfers[i].question == EMPTY
    ensures var t := v.transfers[i]; var n := |GET + name|;
      && Enabled(v, Ask(i, n, true))
      && Next(v, Ask(i, n, true))
         == v.(transfers := v.transfers[i := t.(up := ReadLine(t.up, n), question := Header(GET + name, true),
                                                push := Push(AnswerSender(name, v.library[name], v.bidi)))])
  {
    hide Legal, Tally, Linked, Answered, Records;
    var t, n := v.transfers[i], |GET + name|;
    assert Linked(v.library, v.responder, v.d, i, t) && Legal(name);
    assert t.up.pipe.flight[..n] == GET + name;
    AskedWhole(v.library, t.(up := ReadLine(t.up, n)), name);
  }

  lemma PushFlies(v: World, i: nat, name: bytes)
    requires Inv(v) && i < |v.transfers| && v.d.files[i] == name && v.responder.Fine? && name in v.library
    requires v.session.answerer
    requires v.transfers[i].push == Push(AnswerSender(name, v.library[name], v.bidi)) && v.transfers[i].down == SILENT
    requires v.transfers[i].bidi == v.bidi
    ensures var a := FlushPush(i, AnswerTurns(name, v.library[name], v.bidi));
      && Enabled(v, a)
      && var u := Next(v, a);
      && u.transfers[i].push.Push?
      && var t := v.transfers[i];
      && u == v.(transfers := v.transfers[i := t.(push := u.transfers[i].push, down := u.transfers[i].down)])
      && Under(u.transfers[i].down, Payload(name, v.library[name], v.bidi))
  {
    hide Flush, Legal, Tally, Records;
    var t, file := v.transfers[i], v.library[name];
    assert Linked(v.library, v.responder, v.d, i, t) && Legal(name);
    LegalLength(name);
    AnswerGoesOut(name, file, v.bidi);
    AllSent(Payload(name, file, v.bidi), t.push.s, AnswerTurns(name, file, v.bidi));
  }

  lemma PushLands(v: World, i: nat, name: bytes)
    requires Inv(v) && i < |v.transfers| && v.d.files[i] == name && v.d.trouble.Fine? && name in v.library
    requires Under(v.transfers[i].down, Payload(name, v.library[name], v.bidi))
    requires v.transfers[i].incoming == Awaiting(i, v.bidi) && v.transfers[i].bidi == v.bidi
    requires v.session.asker && Recorded(v.transfers[i])
    requires !v.d.success && v.d.received[i] == 0 && !Clashes(v.d.disk.Keys, name)
    ensures var file := v.library[name]; var a := Deliver(i, |Payload(name, file, v.bidi)|, WillingHost(file));
      && Enabled(v, a)
      && var u := Next(v, a);
      && u == v.(transfers := u.transfers, d := u.d)
      && |u.transfers| == |v.transfers| && var t, now := v.transfers[i], u.transfers[i];
      && u.transfers == v.transfers[i := t.(down := now.down, incoming := now.incoming)]
      && u.d.files == v.d.files && u.d.trouble.Fine? && u.d.received == v.d.received[i := 2]
      && u.d.completed == v.d.completed + 1 && (u.d.success <==> u.d.completed == |v.d.files|)
      && u.d.disk.Keys == v.d.disk.Keys + {name}
  {
    hide Legal, Tally, Receive, Records;
    var t, file := v.transfers[i], v.library[name];
    var msg := Payload(name, file, v.bidi);
    assert Linked(v.library, v.responder, v.d, i, t) && Legal(name);
    assert t.down.pipe.flight[..|msg|] == msg;
    DeliveredWhole(v.d, i, file, v.bidi);
    DeliverInv(v, i, |msg|, WillingHost(file));
  }

  lemma InvLengths(w: World)
    requires Inv(w)
    ensures |w.transfers| == |w.d.files| == |w.d.received| && Distinct(w.d.files)
  {
  }

  /** The request for file i goes out, is taken and is answered. */
  lemma Question(w: World, i: nat) returns (v: World)
    requires Stands(w, i) && i < |w.d.files|
    ensures Answering(v, i) && v.d.files == w.d.files && v.bidi == w.bidi && (CanSucceed(v) ==> CanSucceed(w))
  {
    hide Inv, Next, Records, Cost, CanSucceed, Apart, Clashes;
    InvLengths(w);
    var name := w.d.files[i];
    var u := Requested(w, i);
    var c := Ask(i, |GET + name|, true);
    AskLands(u, i, name);
    InvStep(u, c);
    StepFirst(u, c);
    v := Next(u, c);
    AnswerRecords(u, i, v.transfers[i]);
  }

  /** The request for file i goes out and is taken. */
  lemma Requested(w: World, i: nat) returns (v: World)
    requires Stands(w, i) && i < |w.d.files|
    ensures Inv(v) && (CanSucceed(v) ==> CanSucceed(w))
    ensures |v.transfers| == |w.transfers| && i < |w.transfers| && var t := v.transfers[i];
      && v == w.(transfers := w.transfers[i := t])
      && t == Wanted(i, w.d.files[i], w.bidi).(get := t.get, up := t.up, taken := Held)
      && Under(t.up, GET + w.d.files[i])
    ensures Records(v.transfers, true) == Records(w.transfers, true)
    ensures Records(v.transfers, false) == Records(w.transfers, false) + 1
  {
    hide Inv, Next, Records, Cost, CanSucceed, Apart, Clashes;
    InvLengths(w);
    GetFlies(w, i);
    var a, b := FlushGet(i, GetTurns(w.d.files[i])), TakeRequest(i);
    InvStep(w, a);
    StepFirst(w, a);
    var w1 := Next(w, a);
    SameRecords(w, i, w1.transfers[i]);
    TakesRequest(w1, i);
    InvStep(w1, b);
    StepFirst(w1, b);
    v := Next(w1, b);
  }

  lemma SameRecords(w: World, i: nat, u: Transfer)
    requires i < |w.transfers| && var t := w.transfers[i]; u.asked == t.asked && u.taken == t.taken && u.met == t.met
    requires u.push.Push? == w.transfers[i].push.Push? && u.bidi == w.transfers[i].bidi
    ensures forall asker :: Records(w.transfers[i := u], asker) == Records(w.transfers, asker)
  {
    hide Records;
    RecordsUpdate(w.transfers, i, u, true);
    RecordsUpdate(w.transfers, i, u, false);
  }

  lemma AnswerRecords(w: World, i: nat, u: Transfer)
    requires i < |w.transfers| && var t := w.transfers[i]; u.asked == t.asked && u.taken == t.taken && u.met == t.met
    requires u.push.Push? && w.transfers[i].push.NotYet? && u.bidi == w.transfers[i].bidi
    ensures Records(w.transfers[i := u], true) == Records(w.transfers, true)
    ensures Records(w.transfers[i := u], false) == Records(w.transfers, false) + (if u.bidi then 0 else 1)
  {
    hide Records;
    RecordsUpdate(w.transfers, i, u, true);
    RecordsUpdate(w.transfers, i, u, false);
  }

  lemma TakesRequest(w: World, i: nat)
    requires Inv(w) && i < |w.transfers| && w.session.answerer && w.transfers[i].asked && w.transfers[i].taken.Unseen?
    requires Records(w.transfers, false) < STREAMS_MAX
    ensures Enabled(w, TakeRequest(i))
    ensures var v := Next(w, TakeRequest(i));
      && v == w.(transfers := w.transfers[i := w.transfers[i].(taken := Held)])
      && Records(v.transfers, true) == Records(w.transfers, true)
      && Records(v.transfers, false) == Records(w.transfers, false) + 1
  {
    hide Records, Inv;
    var u := w.transfers[i].(taken := Held);
    RecordsUpdate(w.transfers, i, u, true);
    RecordsUpdate(w.transfers, i, u, false);
  }

  lemma TakesPush(w: World, i: nat)
    requires Inv(w) && i < |w.transfers| && w.session.asker && !w.bidi
    requires w.transfers[i].push.Push? && w.transfers[i].met.Unseen?
    requires Records(w.transfers, true) < STREAMS_MAX
    ensures Enabled(w, TakePush(i))
    ensures var v := Next(w, TakePush(i));
      && v == w.(transfers := w.transfers[i := w.transfers[i].(met := Held)])
      && Records(v.transfers, true) == Records(w.transfers, true) + 1
      && Records(v.transfers, false) == Records(w.transfers, false)
  {
    hide Records, Inv;
    var u := w.transfers[i].(met := Held);
    RecordsUpdate(w.transfers, i, u, true);
    RecordsUpdate(w.transfers, i, u, false);
  }

  /** The answer with file i goes out, on a stream of its own is taken, and is stored. */
  lemma Answer(w: World, i: nat) returns (v: World)
    requires Answering(w, i)
    ensures Stands(v, i + 1) && v.d.files == w.d.files && (CanSucceed(v) ==> CanSucceed(w))
  {
    hide Inv, Next, Records, Cost, CanSucceed, Clash, Clashes;
    InvLengths(w);
    var name := w.d.files[i];
    PushFlies(w, i, name);
    var a := FlushPush(i, AnswerTurns(name, w.library[name], w.bidi));
    InvStep(w, a);
    StepFirst(w, a);
    var w1 := Next(w, a);
    SameRecords(w, i, w1.transfers[i]);
    var w2 := w1;
    if !w.bidi {
      TakesPush(w1, i);
      InvStep(w1, TakePush(i));
      StepFirst(w1, TakePush(i));
      w2 := Next(w1, TakePush(i));
    }
    v := Arrive(w2, i);
  }

  /** The answer with file i is stored. */
  lemma Arrive(w: World, i: nat) returns (v: World)
    requires Clear(w, i) && i < |w.d.files|
    requires Records(w.transfers, true) == |w.d.files| + (if w.bidi then 0 else i + 1)
    requires Records(w.transfers, false) == (if w.bidi then i + 1 else 2 * i + 2)
    requires forall j :: i < j < |w.d.files| ==> w.transfers[j] == Wanted(j, w.d.files[j], w.bidi)
    requires Under(w.transfers[i].down, Payload(w.d.files[i], w.library[w.d.files[i]], w.bidi))
    requires w.transfers[i].incoming == Awaiting(i, w.bidi) && w.transfers[i].bidi == w.bidi && Recorded(w.transfers[i])
    ensures Stands(v, i + 1) && v.d.files == w.d.files && (CanSucceed(v) ==> CanSucceed(w))
  {
    hide Inv, Next, Records, Cost, CanSucceed, Clash, Clashes;
    InvLengths(w);
    var name := w.d.files[i];
    var file := w.library[name];
    var c := Deliver(i, |Payload(name, file, w.bidi)|, WillingHost(file));
    PushLands(w, i, name);
    InvStep(w, c);
    StepFirst(w, c);
    v := Next(w, c);
    SameRecords(w, i, v.transfers[i]);
    forall j | i + 1 <= j < |w.d.files|
      ensures !Clashes(v.d.disk.Keys, w.d.files[j])
    {
      ClashesGrow(w.d.disk.Keys, name, w.d.files[j]);
    }
  }

  lemma {:induction false} Completes(w: World, i: nat)
    requires Stands(w, i)
    ensures CanSucceed(w)
    decreases |w.d.files| - i
  {
    hide Inv, Next, Enabled, Records;
    if i == |w.d.files| {
      assert Allowed(w, []) && After(w, []) == w;
    } else {
      var v := Question(w, i);
      var u := Answer(v, i);
      Completes(u, i + 1);
    }
  }

  lemma OneRequest(w: World, k: nat)
    requires Opened(w, k) && k < |w.d.files|
    ensures Enabled(w, Request(k, true))
    ensures var v := Next(w, Request(k, true)); v.d == w.d && v.bidi == w.bidi && Opened(v, k + 1)
  {
    hide Records, Linked, Tally, Legal, Clashes, Clash;
    InvStep(w, Request(k, true));
    var u := w.transfers[k].(asked := true);
    RecordsUpdate(w.transfers, k, u, true);
    RecordsUpdate(w.transfers, k, u, false);
  }

  lemma {:induction false} Opens(w: World, k: nat)
    requires Opened(w, k) && w.d.files != []
    ensures CanSucceed(w)
    decreases |w.d.files| - k
  {
    hide Inv, Next, Enabled, Records;
    if k == |w.d.files| {
      Completes(w, 0);
    } else {
      OneRequest(w, k);
      Opens(Next(w, Request(k, true)), k + 1);
      StepFirst(w, Request(k, true));
    }
  }

  // --------------------------------------------------------------------------- exactness

  lemma {:induction false} SameEach(ts: seq<Transfer>, each: nat)
    requires forall i :: 0 <= i < |ts| ==> Cost(ts[i], true) == each
    ensures Records(ts, true) == each * |ts|
  {
    if ts != [] {
      SameEach(ts[1..], each);
    }
  }

  /** A requester with all its files holds two records for each, or one where the answer needs no other stream. */
  lemma SuccessHolds(w: World)
    requires Inv(w) && w.d.success
    ensures Records(w.transfers, true) == Each(w.bidi) * |w.d.files| <= STREAMS_MAX
  {
    hide Records, Legal, Conveys, Staged;
    TwosAll(w.d.received);
    forall i | 0 <= i < |w.transfers|
      ensures Cost(w.transfers[i], true) == Each(w.bidi)
    {
      assert Linked(w.library, w.responder, w.d, i, w.transfers[i]);
    }
    SameEach(w.transfers, Each(w.bidi));
  }

  /**
   * For files the responder has, whose names are free at the requester, success can be reached exactly
   * if there are at most 32 of them over unidirectional streams, where each takes two of the 64 records
   * at either endpoint, and at most 64 over bidirectional ones, where each takes one.
   */
  lemma TransferExact(files: seq<bytes>, library: map<bytes, bytes>, disk: map<bytes, bytes>, server: bool, bidi: bool)
    requires files != [] && Apart(files)
    requires forall i :: 0 <= i < |files| ==> Legal(files[i]) && files[i] in library && !Clashes(disk.Keys, files[i])
    ensures Inv(Initial(files, library, disk, server, bidi))
    ensures CanSucceed(Initial(files, library, disk, server, bidi)) <==> |files| <= if bidi then 64 else 32
  {
    hide Inv, Records, Legal, Clashes, Clash, Opened, Enabled, Next, Initial;
    ApartDistinct(files);
    InitialInv(files, library, disk, server, bidi);
    var w := Initial(files, library, disk, server, bidi);
    InitialIs(files, library, disk, server, bidi);
    if CanSucceed(w) {
      var run: seq<Action> :| Allowed(w, run) && After(w, run).d.success;
      SuccessHolds(After(w, run));
    }
    if |files| <= if bidi then 64 else 32 {
      InitialOpened(files, library, disk, server, bidi);
      Opens(w, 0);
    }
  }

  lemma InitialIs(files: seq<bytes>, library: map<bytes, bytes>, disk: map<bytes, bytes>, server: bool, bidi: bool)
    ensures var w := Initial(files, library, disk, server, bidi); w.bidi == bidi && w.d.files == files
  {
  }

  lemma InitialOpened(files: seq<bytes>, library: map<bytes, bytes>, disk: map<bytes, bytes>, server: bool, bidi: bool)
    requires files != [] && Apart(files) && |files| <= if bidi then 64 else 32
    requires forall i :: 0 <= i < |files| ==> files[i] in library && !Clashes(disk.Keys, files[i])
    requires Inv(Initial(files, library, disk, server, bidi))
    ensures Opened(Initial(files, library, disk, server, bidi), 0)
  {
    hide Inv, Records, Clashes, Clash;
    var w := Initial(files, library, disk, server, bidi);
    NoRecords(w.transfers, true);
    NoRecords(w.transfers, false);
  }

  /** Names of one letter: a to z, then A to G. */
  function Letter(i: nat): bytes
    requires i < 33
  {
    [(if i < 26 then 97 + i else 39 + i) as byte]
  }

  /** 33 files with names of one letter cannot be fetched over unidirectional streams, but over bidirectional ones. */
  lemma ThirtyThree(library: map<bytes, bytes>, server: bool)
    requires forall i :: 0 <= i < 33 ==> Letter(i) in library
    ensures var files := seq(33, i requires 0 <= i < 33 => Letter(i));
      && Inv(Initial(files, library, map[], server, false))
      && !CanSucceed(Initial(files, library, map[], server, false))
      && Inv(Initial(files, library, map[], server, true))
      && CanSucceed(Initial(files, library, map[], server, true))
  {
    hide Inv, Legal, CanSucceed;
    var files := seq(33, i requires 0 <= i < 33 => Letter(i));
    forall i | 0 <= i < 33
      ensures Legal(files[i])
    {
      LetterLegal(i);
    }
    TransferExact(files, library, map[], server, false);
    TransferExact(files, library, map[], server, true);
  }

  lemma LetterLegal(i: nat)
    requires i < 33
    ensures Legal(Letter(i))
  {
    assert AllGood([Letter(i)]) && Join([Letter(i)]) == Letter(i);
  }
}
