/** The ring of datagrams that wait to be sent, and the bounded queue it stands for. */
module InteropDatagrams {
  import opened Bytes
  import opened InteropPath
  import opened InteropHeader
  import opened InteropRequester

  /** XQC_WT_INTEROP_DATAGRAM_INTERVAL_US */
  const INTERVAL_US: nat := 2000

  /** What a datagram send came to: accepted (with the clock read behind it), blocked, an error, or accepted
      while the session closed under it. */
  datatype SendOutcome = Sent(stamp: nat) | Blocked | Failed | ClosedUnder

  /** Paced and counting (a responder's) are fixed; the rest changes. */
  datatype Queue = Queue(paced: bool, counting: bool, waiting: seq<bytes>, session: bool, failed: bool,
                         success: bool, nextAt: nat, completed: nat)

  /** xqc_wt_interop_datagram_queue */
  function Enqueue(q: Queue, data: bytes): Queue {
    if |data| > DATAGRAM_MAX || |q.waiting| == FILES_MAX then q.(failed := true)
    else q.(waiting := q.waiting + [data])
  }

  predicate Takes(q: Queue, data: bytes) {
    |data| <= DATAGRAM_MAX && |q.waiting| < FILES_MAX
  }

  /** The session has closed: nothing waits any more. */
  function Cleared(q: Queue): Queue {
    q.(waiting := [], session := false)
  }

  function Popped(q: Queue, stamp: nat): Queue
    requires q.waiting != []
  {
    q.(waiting := q.waiting[1..],
       completed := if q.counting then q.completed + 1 else q.completed,
       nextAt := if q.paced then stamp + INTERVAL_US else q.nextAt)
  }

  /** The send loop: the queue afterwards and what was sent; where the answers end, it is blocked. */
  function Drain(q: Queue, sends: seq<SendOutcome>): (Queue, seq<bytes>)
    decreases |sends|
  {
    if q.waiting == [] || q.failed || sends == [] then (q, [])
    else
      match sends[0]
      case Blocked => (q, [])
      case Failed => (q.(failed := true), [])
      case ClosedUnder => (Cleared(q), [q.waiting[0]])
      case Sent(stamp) =>
        if q.paced then (Popped(q, stamp), [q.waiting[0]])
        else
          var (e, more) := Drain(Popped(q, stamp), sends[1..]);
          (e, [q.waiting[0]] + more)
  }

  /** xqc_wt_interop_datagram_write */
  function Write(q: Queue, now: nat, sends: seq<SendOutcome>): (Queue, seq<bytes>) {
    if q.waiting == [] || q.failed || q.success || (q.paced && now < q.nextAt) then (q, [])
    else Drain(q, sends)
  }

  // ------------------------------------------------------------------------- all runs

  datatype Event =
    | Queued(data: bytes)
    | Writable(now: nat, sends: seq<SendOutcome>)
    | Tick(now: nat, sends: seq<SendOutcome>)
    | SessionClosed

  /** The queue with all that was accepted and sent since the session opened. */
  datatype History = History(q: Queue, accepted: seq<bytes>, sent: seq<bytes>)

  function Wrote(h: History, r: (Queue, seq<bytes>)): History {
    History(r.0, h.accepted, h.sent + r.1)
  }

  function Step(h: History, e: Event): History {
    match e
    case Queued(data) =>
      History(Enqueue(h.q, data), if Takes(h.q, data) then h.accepted + [data] else h.accepted, h.sent)
    case Writable(now, sends) => Wrote(h, Write(h.q, now, sends))
    case Tick(now, sends) =>
      if h.q.session && h.q.waiting != [] then Wrote(h, Write(h.q, now, sends)) else h
    case SessionClosed => h.(q := Cleared(h.q))
  }

  function Run(h: History, es: seq<Event>): History
    decreases |es|
  {
    if es == [] then h else Run(Step(h, es[0]), es[1..])
  }

  /** First in, first out, within bounds. A closed session has lost what was waiting. */
  ghost predicate Fifo(h: History) {
    && |h.q.waiting| <= FILES_MAX
    && (forall i :: 0 <= i < |h.q.waiting| ==> |h.q.waiting[i]| <= DATAGRAM_MAX)
    && (h.q.session ==> h.sent + h.q.waiting == h.accepted)
    && (h.q.session && h.q.counting ==> h.q.completed == |h.sent|)
  }

  lemma {:induction false} DrainFifo(h: History, sends: seq<SendOutcome>)
    requires Fifo(h)
    ensures Fifo(Wrote(h, Drain(h.q, sends)))
    decreases |sends|
  {
    assert h.sent + [] == h.sent;
    if h.q.waiting != [] && !h.q.failed && sends != [] && sends[0].Sent? {
      var first, rest := [h.q.waiting[0]], h.q.waiting[1..];
      assert h.sent + h.q.waiting == h.sent + first + rest;
      var p := Popped(h.q, sends[0].stamp);
      assert Fifo(History(p, h.accepted, h.sent + first));
      if !h.q.paced {
        DrainFifo(History(p, h.accepted, h.sent + first), sends[1..]);
        var more := Drain(p, sends[1..]).1;
        assert h.sent + first + more == h.sent + (first + more);
      }
    }
  }

  lemma StepFifo(h: History, e: Event)
    requires Fifo(h)
    ensures Fifo(Step(h, e))
  {
    hide Drain;
    assert h.sent + [] == h.sent;
    match e
    case Queued(data) => assert h.sent + (h.q.waiting + [data]) == h.sent + h.q.waiting + [data];
    case Writable(now, sends) => DrainFifo(h, sends);
    case Tick(now, sends) => DrainFifo(h, sends);
    case SessionClosed =>
  }

  function Opened(paced: bool, counting: bool): History {
    History(Queue(paced, counting, [], true, false, false, 0, 0), [], [])
  }

  lemma {:induction false} RunFifo(h: History, es: seq<Event>)
    requires Fifo(h)
    ensures Fifo(Run(h, es))
    decreases |es|
  {
    if es != [] {
      StepFifo(h, es[0]);
      RunFifo(Step(h, es[0]), es[1..]);
    }
  }

  /** Over every run, until the session closes, what was sent and then what waits is what was accepted. */
  lemma RingIsQueue(paced: bool, counting: bool, es: seq<Event>)
    ensures var h := Run(Opened(paced, counting), es);
      && |h.q.waiting| <= FILES_MAX
      && (h.q.session ==> h.sent + h.q.waiting == h.accepted)
      && (h.q.session && counting ==> h.q.completed == |h.sent|)
  {
    RunFifo(Opened(paced, counting), es);
    FlagsKept(Opened(paced, counting), es);
  }

  lemma {:induction false} FlagsKept(h: History, es: seq<Event>)
    ensures Run(h, es).q.counting == h.q.counting && Run(h, es).q.paced == h.q.paced
    decreases |es|
  {
    if es != [] {
      var e := es[0];
      if e.Writable? || e.Tick? {
        DrainFlags(h.q, e.sends);
      }
      FlagsKept(Step(h, e), es[1..]);
    }
  }

  lemma {:induction false} DrainFlags(q: Queue, sends: seq<SendOutcome>)
    ensures Drain(q, sends).0.counting == q.counting && Drain(q, sends).0.paced == q.paced
    decreases |sends|
  {
    if q.waiting != [] && sends != [] && sends[0].Sent? {
      DrainFlags(Popped(q, sends[0].stamp), sends[1..]);
    }
  }

  /** A paced queue sends at most one datagram at a time, none early, and sets the next time by the clock. */
  lemma Pacing(q: Queue, now: nat, sends: seq<SendOutcome>)
    requires q.paced
    ensures var (e, sent) := Write(q, now, sends);
      && |sent| <= 1
      && (sent != [] ==> q.nextAt <= now)
      && (sent != [] && e.session ==> sends != [] && sends[0].Sent? && e.nextAt == sends[0].stamp + INTERVAL_US)
      && (sent == [] ==> e.nextAt == q.nextAt && e.waiting == q.waiting)
  {
  }

  /** The requests of a requester never meet the bound of the queue. */
  lemma RequestsFit(r: Requester, h: History)
    requires Sound(r) && |r.d.files| <= FILES_MAX && forall i :: 0 <= i < |r.d.files| ==> Legal(r.d.files[i])
    requires Fifo(h) && h.q.session && h.accepted < r.d.asked
    ensures Takes(h.q, r.d.asked[|h.accepted|])
  {
    var data := r.d.asked[|h.accepted|];
    assert IsRequest(r.d.files, data);
    var j :| 0 <= j < |r.d.files| && data == GET + r.d.files[j];
    assert Legal(r.d.files[j]);
  }

  // ------------------------------------------------------------------------- the ring

  /** The slots in use, from the head on and around the end. */
  function Window(slots: seq<bytes>, head: nat, count: nat): (w: seq<bytes>)
    requires |slots| == FILES_MAX && head < FILES_MAX && count <= FILES_MAX
    ensures |w| == count
  {
    seq(count, i requires 0 <= i < count => slots[(head + i) % FILES_MAX])
  }

  lemma Around(head: nat, i: nat)
    requires head < FILES_MAX && i < FILES_MAX
    ensures ((head + 1) % FILES_MAX + i) % FILES_MAX == (head + (i + 1)) % FILES_MAX
  {
  }

  lemma WindowPop(slots: seq<bytes>, head: nat, count: nat)
    requires |slots| == FILES_MAX && head < FILES_MAX && 0 < count <= FILES_MAX
    ensures Window(slots, head, count)[0] == slots[head]
    ensures Window(slots, (head + 1) % FILES_MAX, count - 1) == Window(slots, head, count)[1..]
  {
    var a, b := Window(slots, (head + 1) % FILES_MAX, count - 1), Window(slots, head, count);
    forall i | 0 <= i < count - 1
      ensures a[i] == b[i + 1]
    {
      Around(head, i);
    }
  }

  lemma WindowPush(slots: seq<bytes>, head: nat, count: nat, data: bytes)
    requires |slots| == FILES_MAX && head < FILES_MAX && count < FILES_MAX
    ensures Window(slots[(head + count) % FILES_MAX := data], head, count + 1) == Window(slots, head, count) + [data]
  {
    var k := (head + count) % FILES_MAX;
    var a, b := Window(slots[k := data], head, count + 1), Window(slots, head, count);
    forall i | 0 <= i < count
      ensures a[i] == b[i]
    {
      assert (head + i) % FILES_MAX != k;
    }
  }

  class Ring {
    const paced: bool
    const counting: bool
    const slots: array<bytes>
    var head: nat
    var count: nat
    var session: bool
    var failed: bool
    var success: bool
    var nextAt: nat
    var completed: nat

    ghost predicate Valid()
      reads this
    {
      slots.Length == FILES_MAX && head < FILES_MAX && count <= FILES_MAX
    }

    ghost function State(): Queue
      requires Valid()
      reads this, slots
    {
      Queue(paced, counting, Window(slots[..], head, count), session, failed, success, nextAt, completed)
    }

    constructor (paced: bool, counting: bool)
      ensures Valid() && fresh(slots) && State() == Opened(paced, counting).q
    {
      this.paced, this.counting := paced, counting;
      slots := new bytes[FILES_MAX](_ => []);
      head, count, nextAt, completed := 0, 0, 0, 0;
      session, failed, success := true, false, false;
    }

    method Push(data: bytes) returns (ok: bool)
      requires Valid()
      modifies this`count, this`failed, slots
      ensures Valid() && State() == Enqueue(old(State()), data) && ok == Takes(old(State()), data)
    {
      if |data| > DATAGRAM_MAX || count == FILES_MAX {
        failed := true;
        return false;
      }
      hide Window;
      WindowPush(slots[..], head, count, data);
      slots[(head + count) % FILES_MAX] := data;
      assert slots[..] == old(slots[..])[(head + count) % FILES_MAX := data];
      count := count + 1;
      return true;
    }

    method Pop(stamp: nat)
      requires Valid() && count > 0
      modifies this`head, this`count, this`completed, this`nextAt
      ensures Valid() && State() == Popped(old(State()), stamp)
    {
      hide Window;
      WindowPop(slots[..], head, count);
      head := (head + 1) % FILES_MAX;
      count := count - 1;
      if counting {
        completed := completed + 1;
      }
      if paced {
        nextAt := stamp + INTERVAL_US;
      }
    }

    method Clear()
      requires Valid()
      modifies this`head, this`count, this`session
      ensures Valid() && State() == Cleared(old(State()))
    {
      count, head, session := 0, 0, false;
    }

    method DatagramWrite(now: nat, sends: seq<SendOutcome>) returns (sent: seq<bytes>)
      requires Valid()
      modifies this
      ensures Valid() && (State(), sent) == Write(old(State()), now, sends)
    {
      if count == 0 || failed || success || (paced && now < nextAt) {
        return [];
      }
      sent := DrainLoop(sends);
    }

    method DrainLoop(sends: seq<SendOutcome>) returns (sent: seq<bytes>)
      requires Valid()
      modifies this
      ensures Valid() && (State(), sent) == Drain(old(State()), sends)
    {
      hide Popped, Cleared, Window;
      sent := [];
      var i := 0;
      assert sends[0..] == sends && [] + Drain(State(), sends).1 == Drain(State(), sends).1;
      while count > 0 && !failed && i < |sends|
        invariant Valid() && 0 <= i <= |sends|
        invariant Drain(old(State()), sends) == After(sent, Drain(State(), sends[i..]))
        decreases |sends| - i
      {
        assert sends[i..][0] == sends[i] && sends[i..][1..] == sends[i + 1..];
        WindowPop(slots[..], head, count);
        ghost var said, q := sent, State();
        match sends[i]
        case Blocked =>
          assert sent + [] == sent;
          return;
        case Failed =>
          failed := true;
          assert State() == q.(failed := true) && sent + [] == sent;
          return;
        case ClosedUnder =>
          sent := sent + [slots[head]];
          Clear();
          return;
        case Sent(stamp) =>
          var item := slots[head];
          Pop(stamp);
          sent := sent + [item];
          i := i + 1;
          if paced {
            return;
          }
          AfterTwice(said, [item], Drain(State(), sends[i..]));
      }
      assert sent + [] == sent;
    }

    /** xqc_wt_interop_datagram_tick, before the endpoint has stopped */
    method OnTick(now: nat, sends: seq<SendOutcome>) returns (sent: seq<bytes>)
      requires Valid()
      modifies this
      ensures Valid()
      ensures (State(), sent) ==
        if old(session && count > 0) then Write(old(State()), now, sends) else (old(State()), [])
    {
      sent := [];
      if session && count > 0 {
        sent := DatagramWrite(now, sends);
      }
    }
  }

  function After(sent: seq<bytes>, r: (Queue, seq<bytes>)): (Queue, seq<bytes>) {
    (r.0, sent + r.1)
  }

  lemma AfterTwice(a: seq<bytes>, b: seq<bytes>, r: (Queue, seq<bytes>))
    ensures After(a, After(b, r)) == After(a + b, r)
  {
    assert a + (b + r.1) == a + b + r.1;
  }
}
