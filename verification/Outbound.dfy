/** The outbound queue of internal/network/conn.go: any number of concurrent `sendFrame` calls,
    the one writer goroutine, and shutdown, as a machine whose steps are the code's atomic ones.
    `outboundMu` is `lock`: a packet enters the queue before its bytes are counted, and the
    writer may already hold it by then. */
module Outbound {
  import Octets = Bytes
  import opened Wrappers

  const QUEUE_SIZE := 256
  const MAX_BYTES := 8 * 1024 * 1024

  type Frame = seq<Octets.byte>

  datatype Outcome = Sent | Failed | Closed | Full

  /** `call` is the index of the sendFrame call that made the packet. */
  datatype Packet = Packet(call: nat, frame: Frame, waits: bool)

  /** Where a sendFrame call stands. */
  datatype Call =
    | Selecting(p: Packet)              // holds the lock, size checked
    | Enqueued(p: Packet)               // holds the lock, packet in the channel
    | Refused(p: Packet)                // lock released, about to abort
    | Waiting(p: Packet)                // on its done channel or on closing
    | Polling(p: Packet)                // saw the closing, looks at its done channel once more
    | Returned(p: Packet, o: Outcome)

  /** Where the writer goroutine stands. */
  datatype Writer =
    | Idle
    | Writing(p: Packet, n: nat)
    | Wrote(p: Packet, o: Outcome)      // about to uncount the bytes
    | Answering(p: Packet, o: Outcome)
    | Stopping
    | Draining(o: Outcome)
    | Dropping(p: Packet, o: Outcome)   // about to uncount the bytes
    | Refusing(p: Packet, o: Outcome)
    | Stopped
  {
    /** The packet taken from the queue and not yet answered. */
    function Held(): Option<Packet> {
      match this
      case Writing(p, _) => Some(p)
      case Wrote(p, _) => Some(p)
      case Answering(p, _) => Some(p)
      case Dropping(p, _) => Some(p)
      case Refusing(p, _) => Some(p)
      case _ => None
    }

    /** Its bytes while they are still counted as pending. */
    function HeldBytes(): nat {
      match this
      case Writing(p, _) => |p.frame|
      case Wrote(p, _) => |p.frame|
      case Dropping(p, _) => |p.frame|
      case _ => 0
    }
  }

  /** `answers` says what was sent on each call's done channel, which has room for one;
      `accepted` and `wire` are what was ever queued and written. */
  datatype State = State(
    queue: seq<Packet>,
    pendingBytes: int,
    closed: bool,
    lock: Option<nat>,
    calls: seq<Call>,
    answers: seq<Option<Outcome>>,
    writer: Writer,
    accepted: seq<Packet>,
    wire: Frame)

  const START := State([], 0, false, None, [], [], Idle, [], [])

  datatype Action =
    // a sendFrame call
    | Begin(frame: Frame, waits: bool)
    | SelectDone(c: nat)
    | SelectQueue(c: nat)
    | SelectDefault(c: nat)
    | Count(c: nat)
    | Abort(c: nat)
    | Receive(c: nat)
    | SeeDone(c: nat)
    | Poll(c: nat)
    // the writer
    | Take
    | Write(n: nat)
    | WriteEnds
    | WriteFails(n: nat)
    | Uncount
    | Answer
    | Stop
    | NoticeDone
    | Drain
    | Finish
    // anyone
    | Close

  predicate At(s: State, c: nat) { c < |s.calls| && c < |s.answers| }

  predicate Enabled(s: State, a: Action) {
    match a
    case Begin(_, _) => s.lock.None?
    case SelectDone(c) => At(s, c) && s.calls[c].Selecting? && s.closed
    case SelectQueue(c) => At(s, c) && s.calls[c].Selecting? && |s.queue| < QUEUE_SIZE
    case SelectDefault(c) => At(s, c) && s.calls[c].Selecting? && !s.closed && |s.queue| >= QUEUE_SIZE
    case Count(c) => At(s, c) && s.calls[c].Enqueued?
    case Abort(c) => At(s, c) && s.calls[c].Refused?
    case Receive(c) => At(s, c) && s.calls[c].Waiting? && s.answers[c].Some?
    case SeeDone(c) => At(s, c) && s.calls[c].Waiting? && s.closed
    case Poll(c) => At(s, c) && s.calls[c].Polling?
    case Take => s.writer.Idle? && s.queue != []
    case Write(n) => s.writer.Writing? && 0 < n && s.writer.n + n <= |s.writer.p.frame|
    case WriteEnds => s.writer.Writing? && s.writer.n == |s.writer.p.frame|
    case WriteFails(n) => s.writer.Writing? && s.writer.n + n <= |s.writer.p.frame|
    case Uncount => (s.writer.Wrote? || s.writer.Dropping?) && s.lock.None?
    case Answer =>
      && (s.writer.Answering? || s.writer.Refusing?)
      && (s.writer.p.waits ==> At(s, s.writer.p.call) && s.answers[s.writer.p.call].None?)
    case Stop => s.writer.Stopping?
    case NoticeDone => s.writer.Idle? && s.closed
    case Drain => s.writer.Draining? && s.queue != []
    case Finish => s.writer.Draining? && s.queue == []
    case Close => true
  }

  function SetCall(s: State, c: nat, call: Call): State
    requires At(s, c)
  {
    s.(calls := s.calls[c := call])
  }

  function Apply(s: State, a: Action): State
    requires Enabled(s, a)
  {
    match a
    case Begin(frame, waits) =>
      var p := Packet(|s.calls|, frame, waits);
      var fits := s.pendingBytes + |frame| <= MAX_BYTES;
      s.(calls := s.calls + [if fits then Selecting(p) else Refused(p)],
         answers := s.answers + [None],
         lock := if fits then Some(|s.calls|) else None)
    case SelectDone(c) => SetCall(s, c, Returned(s.calls[c].p, Closed)).(lock := None)
    case SelectQueue(c) =>
      var p := s.calls[c].p;
      SetCall(s, c, Enqueued(p)).(queue := s.queue + [p], accepted := s.accepted + [p])
    case SelectDefault(c) => SetCall(s, c, Refused(s.calls[c].p)).(lock := None)
    case Count(c) =>
      var p := s.calls[c].p;
      SetCall(s, c, if p.waits then Waiting(p) else Returned(p, Sent))
        .(pendingBytes := s.pendingBytes + |p.frame|, lock := None)
    case Abort(c) => SetCall(s, c, Returned(s.calls[c].p, Full)).(closed := true)
    case Receive(c) => SetCall(s, c, Returned(s.calls[c].p, s.answers[c].value))
    case SeeDone(c) => SetCall(s, c, Polling(s.calls[c].p))
    case Poll(c) =>
      var o := if s.answers[c].Some? then s.answers[c].value else Closed;
      SetCall(s, c, Returned(s.calls[c].p, o))
    case Take => s.(queue := s.queue[1..], writer := Writing(s.queue[0], 0))
    case Write(n) =>
      var w := s.writer;
      s.(wire := s.wire + w.p.frame[w.n..w.n + n], writer := Writing(w.p, w.n + n))
    case WriteEnds => s.(writer := Wrote(s.writer.p, Sent))
    case WriteFails(n) =>
      var w := s.writer;
      s.(wire := s.wire + w.p.frame[w.n..w.n + n], writer := Wrote(w.p, Failed))
    case Uncount =>
      var w := s.writer;
      s.(pendingBytes := s.pendingBytes - |w.p.frame|,
         writer := if w.Wrote? then Answering(w.p, w.o) else Refusing(w.p, w.o))
    case Answer =>
      var w := s.writer;
      var s1 := if w.p.waits then s.(answers := s.answers[w.p.call := Some(w.o)]) else s;
      s1.(writer := if w.Refusing? then Draining(w.o) else if w.o.Sent? then Idle else Stopping)
    case Stop => s.(closed := true, writer := Draining(Failed))
    case NoticeDone => s.(writer := Draining(Closed))
    case Drain => s.(queue := s.queue[1..], writer := Dropping(s.queue[0], s.writer.o))
    case Finish => s.(writer := Stopped)
    case Close => s.(closed := true)
  }

  // ---- Runs

  ghost predicate IsRun(s: State, run: seq<Action>)
    decreases |run|
  {
    run == [] || (Enabled(s, run[0]) && IsRun(Apply(s, run[0]), run[1..]))
  }

  ghost function After(s: State, run: seq<Action>): State
    requires IsRun(s, run)
    decreases |run|
  {
    if run == [] then s else After(Apply(s, run[0]), run[1..])
  }

  // ---- The invariant

  function Bytes(ps: seq<Packet>): Frame {
    if ps == [] then [] else Bytes(ps[..|ps| - 1]) + ps[|ps| - 1].frame
  }

  function Load(ps: seq<Packet>): nat {
    if ps == [] then 0 else |ps[0].frame| + Load(ps[1..])
  }

  /** How many accepted packets the writer has taken, and how many of those are answered. */
  function Taken(s: State): int { |s.accepted| - |s.queue| }
  function Settled(s: State): int { Taken(s) - (if s.writer.Held().Some? then 1 else 0) }

  ghost predicate Locking(s: State) {
    && |s.answers| == |s.calls|
    && (forall c :: 0 <= c < |s.calls| ==> s.calls[c].p.call == c)
    && (forall c :: 0 <= c < |s.calls| ==>
          ((s.calls[c].Selecting? || s.calls[c].Enqueued?) <==> s.lock == Some(c)))
    && (s.lock.Some? ==> s.lock.value < |s.calls|)
  }

  /** The bytes of a packet that is in the channel but not yet counted. */
  function Uncounted(s: State): nat {
    if s.lock.Some? && s.lock.value < |s.calls| && s.calls[s.lock.value].Enqueued?
    then |s.calls[s.lock.value].p.frame| else 0
  }

  /** Pending bytes are those queued and those in the writer's hands, within the limit. */
  ghost predicate Accounting(s: State) {
    && s.pendingBytes + Uncounted(s) == Load(s.queue) + s.writer.HeldBytes()
    && 0 <= s.pendingBytes <= MAX_BYTES
    && (s.lock.Some? && s.lock.value < |s.calls| ==>
          s.pendingBytes + |s.calls[s.lock.value].p.frame| <= MAX_BYTES)
    && |s.queue| <= QUEUE_SIZE
  }

  /** An accepted packet is some call's own, and that call is past queueing it. */
  ghost predicate PacketOk(s: State, k: nat) {
    k < |s.accepted| ==>
      && s.accepted[k].call < |s.calls|
      && s.accepted[k] == s.calls[s.accepted[k].call].p
      && !s.calls[s.accepted[k].call].Selecting?
  }

  /** The queue is the end of what was accepted; each call's packet was accepted at most once. */
  ghost predicate Order(s: State) {
    && |s.queue| <= |s.accepted| && s.accepted[Taken(s)..] == s.queue
    && (s.writer.Held().Some? ==> Taken(s) > 0 && s.accepted[Taken(s) - 1] == s.writer.Held().value)
    && (forall k: nat :: PacketOk(s, k))
    && (forall j, k :: 0 <= j < k < |s.accepted| ==> s.accepted[j].call != s.accepted[k].call)
  }

  /** The wire holds the accepted frames in order, whole but for the one being written. */
  ghost predicate OnWire(s: State)
    requires Order(s)
  {
    match s.writer
    case Idle => s.wire == Bytes(s.accepted[..Taken(s)])
    case Writing(p, n) => n <= |p.frame| && s.wire == Bytes(s.accepted[..Taken(s) - 1]) + p.frame[..n]
    case Wrote(_, o) =>
      if o.Sent? then s.wire == Bytes(s.accepted[..Taken(s)]) else s.wire <= Bytes(s.accepted[..Taken(s)])
    case Answering(_, o) =>
      if o.Sent? then s.wire == Bytes(s.accepted[..Taken(s)]) else s.wire <= Bytes(s.accepted[..Taken(s)])
    case _ => s.wire <= Bytes(s.accepted[..Taken(s)])
  }

  /** A packet in the queue or in the writer's hands is unanswered, any other is answered if its
      call waits; a good answer means its frame, after all those before it, is on the wire. */
  ghost predicate AnswerOk(s: State, k: nat)
    requires Locking(s) && Order(s)
  {
    k < |s.accepted| ==>
      assert PacketOk(s, k);
      var answer := s.answers[s.accepted[k].call];
      && (k >= Settled(s) ==> answer.None?)
      && (k < Settled(s) && s.accepted[k].waits ==> answer.Some?)
      && (answer == Some(Sent) ==> Bytes(s.accepted[..k + 1]) <= s.wire)
  }

  ghost predicate CallOk(s: State, c: nat)
    requires Locking(s)
  {
    c < |s.calls| ==>
      var call := s.calls[c];
      && (s.answers[c].Some? || call.Waiting? || call.Enqueued? ==> call.p in s.accepted)
      && (call.Waiting? || call.Polling? ==> call.p.waits)
      && (call.Returned? && call.o.Sent? && call.p.waits ==> s.answers[c] == Some(Sent))
  }

  ghost predicate Answers(s: State)
    requires Locking(s) && Order(s)
  {
    (forall k: nat :: AnswerOk(s, k)) && (forall c: nat :: CallOk(s, c))
  }

  ghost predicate Shutdown(s: State) {
    && (s.writer.Draining? || s.writer.Dropping? || s.writer.Refusing? || s.writer.Stopped? ==> s.closed)
    && (s.writer.Draining? || s.writer.Dropping? || s.writer.Refusing? ==> !s.writer.o.Sent?)
  }

  ghost predicate Inv(s: State) {
    Locking(s) && Accounting(s) && Order(s) && OnWire(s) && Answers(s) && Shutdown(s)
  }

  lemma LoadAppend(ps: seq<Packet>, p: Packet)
    ensures Load(ps + [p]) == Load(ps) + |p.frame|
  {
    if ps == [] {
      assert ps + [p] == [p];
    } else {
      assert (ps + [p])[1..] == ps[1..] + [p];
      LoadAppend(ps[1..], p);
    }
  }

  lemma BytesStep(ps: seq<Packet>, k: nat)
    requires k < |ps|
    ensures Bytes(ps[..k + 1]) == Bytes(ps[..k]) + ps[k].frame
  {
    assert ps[..k + 1][..k] == ps[..k];
  }

  lemma BytesMonotone(ps: seq<Packet>, j: nat, k: nat)
    requires j <= k <= |ps|
    ensures Bytes(ps[..j]) <= Bytes(ps[..k])
    decreases k - j
  {
    if j < k {
      BytesMonotone(ps, j, k - 1);
      BytesStep(ps, k - 1);
    }
  }

  lemma KeepLocking(s: State, a: Action)
    requires Locking(s) && Enabled(s, a)
    ensures Locking(Apply(s, a))
  {
    hide Locking, Apply, Enabled;
    if ByWriter(a) || a.Close? { KeepLockingByWriter(s, a); } else { KeepLockingByCall(s, a); }
  }

  lemma KeepLockingByWriter(s: State, a: Action)
    requires Locking(s) && Enabled(s, a) && (ByWriter(a) || a.Close?)
    ensures Locking(Apply(s, a))
  {
    var t := Apply(s, a);
    assert t.calls == s.calls && t.lock == s.lock && |t.answers| == |s.answers|;
  }

  lemma KeepLockingByCall(s: State, a: Action)
    requires Locking(s) && Enabled(s, a) && !ByWriter(a) && !a.Close?
    ensures Locking(Apply(s, a))
  {
  }

  lemma KeepShutdown(s: State, a: Action)
    requires Shutdown(s) && Enabled(s, a)
    ensures Shutdown(Apply(s, a))
  {
  }

  predicate ByWriter(a: Action) {
    a.Take? || a.Write? || a.WriteEnds? || a.WriteFails? || a.Uncount? || a.Answer?
    || a.Stop? || a.NoticeDone? || a.Drain? || a.Finish?
  }

  lemma KeepAccountingByCall(s: State, a: Action)
    requires Locking(s) && Accounting(s) && Enabled(s, a) && !ByWriter(a)
    ensures Accounting(Apply(s, a))
  {
    if a.SelectQueue? { LoadAppend(s.queue, s.calls[a.c].p); }
  }

  lemma KeepAccountingByWriter(s: State, a: Action)
    requires Accounting(s) && Enabled(s, a) && ByWriter(a)
    ensures Accounting(Apply(s, a))
  {
    assert s.queue != [] ==> Load(s.queue) == |s.queue[0].frame| + Load(s.queue[1..]);
  }

  /** `t` is `s` with call `c` further on, and nothing changed but the lock, the byte count and closing. */
  ghost predicate Moved(s: State, t: State, c: nat) {
    && At(s, c) && c < |t.calls|
    && t.calls == s.calls[c := t.calls[c]] && t.calls[c].p == s.calls[c].p && !t.calls[c].Selecting?
    && t == s.(calls := t.calls, lock := t.lock, pendingBytes := t.pendingBytes, closed := t.closed)
  }

  lemma KeepMoved(s: State, t: State, c: nat)
    requires Locking(s) && Order(s) && OnWire(s) && Answers(s)
    requires |t.calls| == |s.calls| && Moved(s, t, c) && Locking(t) && CallOk(t, c)
    ensures Order(t) && OnWire(t) && Answers(t)
  {
    forall k: nat ensures PacketOk(t, k) { assert PacketOk(s, k); }
    forall k: nat ensures AnswerOk(t, k) { assert AnswerOk(s, k); }
    forall d: nat ensures CallOk(t, d) { assert CallOk(s, d); }
  }

  lemma KeepBegin(s: State, a: Action)
    requires Locking(s) && Order(s) && OnWire(s) && Answers(s) && a.Begin? && Enabled(s, a)
    ensures var t := Apply(s, a); Locking(t) && Order(t) && OnWire(t) && Answers(t)
  {
    var t := Apply(s, a);
    KeepLocking(s, a);
    forall k: nat ensures PacketOk(t, k) { assert PacketOk(s, k); }
    forall k: nat ensures AnswerOk(t, k) { assert AnswerOk(s, k) && PacketOk(s, k); }
    forall d: nat ensures CallOk(t, d) { assert CallOk(s, d); }
  }

  lemma KeepSelectOrder(s: State, c: nat)
    requires Locking(s) && Order(s) && OnWire(s) && Enabled(s, SelectQueue(c))
    ensures var t := Apply(s, SelectQueue(c)); Locking(t) && Order(t) && OnWire(t)
    ensures s.calls[c].p !in s.accepted
  {
    var t := Apply(s, SelectQueue(c));
    var p := s.calls[c].p;
    KeepLocking(s, SelectQueue(c));
    forall k: nat ensures PacketOk(t, k) { assert PacketOk(s, k); }
    assert t.accepted[Taken(t)..] == s.accepted[Taken(s)..] + [p];
    assert t.accepted[..Taken(t)] == s.accepted[..Taken(s)];
    assert Taken(s) > 0 ==> t.accepted[..Taken(t) - 1] == s.accepted[..Taken(s) - 1];
    forall k | 0 <= k < |s.accepted| ensures s.accepted[k].call != c { assert PacketOk(s, k); }
  }

  lemma SelectKeepsAnswer(s: State, c: nat, k: nat)
    requires Locking(s) && Order(s) && AnswerOk(s, k) && CallOk(s, c) && Enabled(s, SelectQueue(c))
    requires var t := Apply(s, SelectQueue(c)); Locking(t) && Order(t)
    requires s.calls[c].p !in s.accepted
    ensures AnswerOk(Apply(s, SelectQueue(c)), k)
  {
    hide Bytes;
    var t := Apply(s, SelectQueue(c));
    if k < |s.accepted| { assert t.accepted[..k + 1] == s.accepted[..k + 1]; }
  }

  lemma SelectKeepsCall(s: State, c: nat, d: nat)
    requires Locking(s) && CallOk(s, d) && Enabled(s, SelectQueue(c)) && Locking(Apply(s, SelectQueue(c)))
    ensures CallOk(Apply(s, SelectQueue(c)), d)
  {
  }

  lemma KeepSelectQueue(s: State, c: nat)
    requires Locking(s) && Order(s) && OnWire(s) && Answers(s) && Enabled(s, SelectQueue(c))
    ensures var t := Apply(s, SelectQueue(c)); Locking(t) && Order(t) && OnWire(t) && Answers(t)
  {
    hide OnWire, Locking, Order, AnswerOk, CallOk;
    var t := Apply(s, SelectQueue(c));
    KeepSelectOrder(s, c);
    assert CallOk(s, c);
    forall k: nat ensures AnswerOk(t, k) { SelectKeepsAnswer(s, c, k); }
    forall d: nat ensures CallOk(t, d) { SelectKeepsCall(s, c, d); }
  }

  /** `t` is `s` with the writer further on, the same packet in hand, and perhaps more on the wire. */
  lemma KeepWriting(s: State, t: State)
    requires Locking(s) && Order(s) && Answers(s)
    requires t == s.(writer := t.writer, wire := t.wire, pendingBytes := t.pendingBytes, closed := t.closed)
    requires t.writer.Held() == s.writer.Held() && s.wire <= t.wire
    ensures Locking(t) && Order(t) && Answers(t)
  {
    forall k: nat ensures PacketOk(t, k) { assert PacketOk(s, k); }
    forall k: nat ensures AnswerOk(t, k) { assert AnswerOk(s, k); }
    forall d: nat ensures CallOk(t, d) { assert CallOk(s, d); }
  }

  lemma KeepWriterMoves(s: State, a: Action)
    requires Locking(s) && Order(s) && OnWire(s) && Answers(s) && Shutdown(s) && Enabled(s, a)
    requires a.WriteEnds? || a.Uncount? || a.Stop? || a.NoticeDone? || a.Finish?
    ensures var t := Apply(s, a); Locking(t) && Order(t) && OnWire(t) && Answers(t)
  {
    hide Answers, Locking;
    KeepWriting(s, Apply(s, a));
    if a.WriteEnds? {
      BytesStep(s.accepted, Taken(s) - 1);
      assert s.writer.p.frame[..s.writer.n] == s.writer.p.frame;
    }
  }

  lemma KeepWrite(s: State, a: Action)
    requires Locking(s) && Order(s) && OnWire(s) && Answers(s) && Enabled(s, a)
    requires a.Write? || a.WriteFails?
    ensures var t := Apply(s, a); Locking(t) && Order(t) && OnWire(t) && Answers(t)
  {
    hide Answers, Locking, Order, OnWire, Bytes;
    KeepWriting(s, Apply(s, a));
    KeepWire(s, a);
  }

  lemma KeepWire(s: State, a: Action)
    requires Enabled(s, a) && (a.Write? || a.WriteFails?)
    requires Order(s) && Order(Apply(s, a)) && OnWire(s)
    ensures OnWire(Apply(s, a))
  {
    hide PacketOk, Bytes;
    var w := s.writer;
    WireGrows(Bytes(s.accepted[..Taken(s) - 1]), w.p.frame, w.n, a.n);
    BytesStep(s.accepted, Taken(s) - 1);
  }

  lemma WireGrows(before: Frame, frame: Frame, n: nat, more: nat)
    requires n + more <= |frame|
    ensures before + frame[..n] + frame[n..n + more] == before + frame[..n + more] <= before + frame
  {
    assert frame[..n] + frame[n..n + more] == frame[..n + more];
    assert before + frame == before + frame[..n + more] + frame[n + more..];
  }

  lemma KeepTakenOrder(s: State, a: Action)
    requires Locking(s) && Order(s) && OnWire(s) && Enabled(s, a)
    requires a.Take? || a.Drain?
    ensures var t := Apply(s, a); Locking(t) && Order(t) && OnWire(t)
  {
    hide Bytes;
    var t := Apply(s, a);
    assert s.accepted[Taken(s)] == s.queue[0] && s.accepted[Taken(s) + 1..] == s.queue[1..];
    forall k: nat ensures PacketOk(t, k) { assert PacketOk(s, k); }
    BytesStep(s.accepted, Taken(s));
  }

  lemma KeepTaken(s: State, a: Action)
    requires Locking(s) && Order(s) && OnWire(s) && Answers(s) && Enabled(s, a)
    requires a.Take? || a.Drain?
    ensures var t := Apply(s, a); Locking(t) && Order(t) && OnWire(t) && Answers(t)
  {
    hide OnWire;
    var t := Apply(s, a);
    KeepTakenOrder(s, a);
    forall k: nat ensures AnswerOk(t, k) { assert AnswerOk(s, k); }
    forall d: nat ensures CallOk(t, d) { assert CallOk(s, d); }
  }

  lemma KeepAnswerOrder(s: State)
    requires Locking(s) && Order(s) && OnWire(s) && Shutdown(s) && Enabled(s, Answer)
    ensures var t := Apply(s, Answer); Locking(t) && Order(t) && OnWire(t)
  {
    var t := Apply(s, Answer);
    forall k: nat ensures PacketOk(t, k) { assert PacketOk(s, k); }
  }

  lemma GoodAnswerIsOnWire(s: State)
    requires Order(s) && OnWire(s) && Shutdown(s) && Enabled(s, Answer)
    ensures s.writer.o.Sent? ==> s.wire == Bytes(s.accepted[..Taken(s)])
  {
  }

  lemma AnswerKeepsPacket(s: State, k: nat)
    requires Locking(s) && Order(s) && AnswerOk(s, k) && Enabled(s, Answer)
    requires s.writer.o.Sent? ==> s.wire == Bytes(s.accepted[..Taken(s)])
    requires Locking(Apply(s, Answer)) && Order(Apply(s, Answer))
    ensures AnswerOk(Apply(s, Answer), k)
  {
    assert PacketOk(s, k) && PacketOk(s, Taken(s) - 1);
  }

  lemma AnswerKeepsCall(s: State, c: nat)
    requires Locking(s) && Order(s) && Answers(s) && Enabled(s, Answer)
    requires Locking(Apply(s, Answer))
    ensures CallOk(Apply(s, Answer), c)
  {
    assert CallOk(s, c) && PacketOk(s, Taken(s) - 1);
  }

  lemma KeepAnswer(s: State)
    requires Locking(s) && Order(s) && OnWire(s) && Answers(s) && Shutdown(s) && Enabled(s, Answer)
    ensures var t := Apply(s, Answer); Locking(t) && Order(t) && OnWire(t) && Answers(t)
  {
    hide Locking, Order, OnWire, Shutdown, AnswerOk, CallOk;
    KeepAnswerOrder(s);
    GoodAnswerIsOnWire(s);
    var t := Apply(s, Answer);
    forall k: nat ensures AnswerOk(t, k) { AnswerKeepsPacket(s, k); }
    forall d: nat ensures CallOk(t, d) { AnswerKeepsCall(s, d); }
  }

  lemma KeepPlaces(s: State, a: Action)
    requires Inv(s) && Enabled(s, a)
    ensures var t := Apply(s, a); Locking(t) && Order(t) && OnWire(t) && Answers(t)
  {
    hide Locking, Order, OnWire, Answers, Accounting, Shutdown, Apply, Enabled;
    match a
    case Begin(_, _) => KeepBegin(s, a);
    case SelectQueue(c) => KeepSelectQueue(s, c);
    case WriteEnds => KeepWriterMoves(s, a);
    case Uncount => KeepWriterMoves(s, a);
    case Stop => KeepWriterMoves(s, a);
    case NoticeDone => KeepWriterMoves(s, a);
    case Finish => KeepWriterMoves(s, a);
    case Write(_) => KeepWrite(s, a);
    case WriteFails(_) => KeepWrite(s, a);
    case Take => KeepTaken(s, a);
    case Drain => KeepTaken(s, a);
    case Answer => KeepAnswer(s);
    case Close => KeepClose(s);
    case _ => KeepCallMoves(s, a);
  }

  lemma KeepClose(s: State)
    requires Locking(s) && Order(s) && OnWire(s) && Answers(s)
    ensures var t := Apply(s, Close); Locking(t) && Order(t) && OnWire(t) && Answers(t)
  {
    var t := Apply(s, Close);
    forall k: nat ensures PacketOk(t, k) { assert PacketOk(s, k); }
    forall k: nat ensures AnswerOk(t, k) { assert AnswerOk(s, k); }
    forall d: nat ensures CallOk(t, d) { assert CallOk(s, d); }
  }

  lemma KeepCallMoves(s: State, a: Action)
    requires Locking(s) && Order(s) && OnWire(s) && Answers(s) && Enabled(s, a)
    requires a.SelectDone? || a.SelectDefault? || a.Count? || a.Abort? || a.Receive? || a.SeeDone? || a.Poll?
    ensures var t := Apply(s, a); Locking(t) && Order(t) && OnWire(t) && Answers(t)
  {
    var t := Apply(s, a);
    KeepLocking(s, a);
    assert CallOk(s, a.c);
    KeepMoved(s, t, a.c);
  }

  lemma KeepInv(s: State, a: Action)
    requires Inv(s) && Enabled(s, a)
    ensures Inv(Apply(s, a))
  {
    KeepPlaces(s, a);
    KeepShutdown(s, a);
    if ByWriter(a) { KeepAccountingByWriter(s, a); } else { KeepAccountingByCall(s, a); }
  }

  // ---- What every run from the start keeps

  lemma StartInv()
    ensures Inv(START)
  {
  }

  lemma {:induction false} RunInv(s: State, run: seq<Action>)
    requires Inv(s) && IsRun(s, run)
    ensures Inv(After(s, run))
    decreases |run|
  {
    if run != [] {
      KeepInv(s, run[0]);
      RunInv(Apply(s, run[0]), run[1..]);
    }
  }

  lemma WirePrefix(s: State)
    requires Inv(s)
    ensures s.wire <= Bytes(s.accepted)
  {
    assert s.accepted[..|s.accepted|] == s.accepted;
    BytesMonotone(s.accepted, Taken(s), |s.accepted|);
    if s.writer.Writing? {
      BytesStep(s.accepted, Taken(s) - 1);
      WireGrows(Bytes(s.accepted[..Taken(s) - 1]), s.writer.p.frame, 0, s.writer.n);
    }
  }

  /** In every run: pending bytes are exactly those queued, in the writer's hands, less those of
      a packet not yet counted, and never pass the limit; the wire holds a prefix of the accepted
      frames in the order they were accepted. */
  lemma SafeRun(run: seq<Action>)
    requires IsRun(START, run)
    ensures var t := After(START, run);
            && t.pendingBytes + Uncounted(t) == Load(t.queue) + t.writer.HeldBytes()
            && 0 <= t.pendingBytes <= MAX_BYTES
            && |t.queue| <= |t.accepted| && t.queue == t.accepted[|t.accepted| - |t.queue|..]
            && t.wire <= Bytes(t.accepted)
  {
    StartInv();
    RunInv(START, run);
    WirePrefix(After(START, run));
  }

  /** A waiting call that returned without error has its frame on the wire, after the frames of
      all packets accepted before its own. */
  lemma SentIsOnWire(run: seq<Action>, c: nat)
    requires IsRun(START, run)
    requires var t := After(START, run);
             c < |t.calls| && t.calls[c].Returned? && t.calls[c].o.Sent? && t.calls[c].p.waits
    ensures var t := After(START, run);
            exists k: nat :: k < |t.accepted| && t.accepted[k] == t.calls[c].p && Bytes(t.accepted[..k + 1]) <= t.wire
  {
    StartInv();
    RunInv(START, run);
    var t := After(START, run);
    assert CallOk(t, c);
    var k: nat :| k < |t.accepted| && t.accepted[k] == t.calls[c].p;
    assert AnswerOk(t, k);
  }

  /** A packet gets one result at most: its answer never changes, and the writer never has
      to wait for room on a done channel. */
  lemma AnsweredOnce(s: State, a: Action)
    requires Inv(s)
    ensures Enabled(s, a) ==>
            forall c :: 0 <= c < |s.calls| && s.answers[c].Some? ==> Apply(s, a).answers[c] == s.answers[c]
    ensures s.writer.Answering? || s.writer.Refusing? ==> Enabled(s, Answer)
  {
    if s.writer.Held().Some? {
      assert PacketOk(s, Taken(s) - 1);
      assert AnswerOk(s, Taken(s) - 1);
    }
  }

  // ---- What calls return

  /** The three ways a call leaves its select. */
  predicate Selects(a: Action, c: nat) { a == SelectDone(c) || a == SelectQueue(c) || a == SelectDefault(c) }

  /** At this step call c begins with more than 8 MiB counted, its own frame included, or it selects on an open
      connection with 256 packets queued. */
  predicate MeetsFull(s: State, a: Action, c: nat) {
    || (a.Begin? && |s.calls| == c && s.pendingBytes + |a.frame| > 8 * 1024 * 1024)
    || (Selects(a, c) && !s.closed && |s.queue| >= 256)
  }

  ghost predicate MetFull(s: State, run: seq<Action>, c: nat)
    requires IsRun(s, run)
    decreases |run|
  {
    run != [] && (MeetsFull(s, run[0], c) || MetFull(Apply(s, run[0]), run[1..], c))
  }

  predicate IsFull(s: State, c: nat) {
    c < |s.calls| && (s.calls[c].Refused? || (s.calls[c].Returned? && s.calls[c].o.Full?))
  }

  /** Where results come from: `Full` only from a refused call, `Closed` only on a closed connection, and
      `Failed` only once the writer is on its way to close it. */
  ghost predicate Honest(s: State) {
    && (s.writer.Wrote? || s.writer.Answering? ==> s.writer.o in {Sent, Failed})
    && (s.writer.Draining? || s.writer.Dropping? || s.writer.Refusing? ==> s.writer.o in {Failed, Closed})
    && (forall c: nat :: AnswerHonest(s, c))
    && (forall c: nat :: CallHonest(s, c))
  }

  predicate Closing(s: State) { s.closed || s.writer.Stopping? }

  predicate AnswerHonest(s: State, c: nat) {
    c < |s.answers| && s.answers[c].Some? ==>
      match s.answers[c].value
      case Sent => true
      case Failed => Closing(s)
      case Closed => s.closed
      case Full => false
  }

  predicate CallHonest(s: State, c: nat) {
    c < |s.calls| ==>
      match s.calls[c]
      case Polling(_) => s.closed
      case Returned(_, Failed) => Closing(s)
      case Returned(_, Closed) => s.closed
      case Returned(_, Full) => s.closed
      case _ => true
  }

  lemma KeepHonest(s: State, a: Action)
    requires Locking(s) && Shutdown(s) && Honest(s) && Enabled(s, a)
    ensures Honest(Apply(s, a))
  {
    hide Locking, Shutdown, Honest, Enabled, Apply;
    if ByWriter(a) || a.Close? { KeepHonestByWriter(s, a); } else { KeepHonestByCall(s, a); }
  }

  lemma KeepHonestByWriter(s: State, a: Action)
    requires Shutdown(s) && Honest(s) && Enabled(s, a) && (ByWriter(a) || a.Close?)
    ensures Honest(Apply(s, a))
  {
    var t := Apply(s, a);
    forall c: nat ensures AnswerHonest(t, c) { assert AnswerHonest(s, c); }
    forall c: nat ensures CallHonest(t, c) { assert CallHonest(s, c); }
  }

  lemma KeepHonestByCall(s: State, a: Action)
    requires Honest(s) && Enabled(s, a) && !ByWriter(a) && !a.Close?
    ensures Honest(Apply(s, a))
  {
    var t := Apply(s, a);
    forall c: nat ensures AnswerHonest(t, c) { assert AnswerHonest(s, c); }
    forall c: nat ensures CallHonest(t, c) { assert CallHonest(s, c) && AnswerHonest(s, c); }
  }

  lemma FullStep(s: State, a: Action, c: nat)
    requires Locking(s) && Honest(s) && Enabled(s, a)
    ensures IsFull(Apply(s, a), c) <==> IsFull(s, c) || MeetsFull(s, a, c)
  {
    hide Locking, Honest, Enabled, Apply, IsFull, MeetsFull;
    HonestAt(s, c);
    if ByWriter(a) || a.Close? {
      FullByWriter(s, a, c);
    } else if a.Begin? {
      FullByBegin(s, a, c);
    } else {
      FullByCall(s, a, c);
    }
  }

  lemma HonestAt(s: State, c: nat)
    requires Honest(s)
    ensures AnswerHonest(s, c) && CallHonest(s, c)
  {
  }

  lemma FullByWriter(s: State, a: Action, c: nat)
    requires Enabled(s, a) && (ByWriter(a) || a.Close?)
    ensures (IsFull(Apply(s, a), c) <==> IsFull(s, c)) && !MeetsFull(s, a, c)
  {
    assert Apply(s, a).calls == s.calls;
  }

  lemma FullByBegin(s: State, a: Action, c: nat)
    requires Locking(s) && Enabled(s, a) && a.Begin?
    ensures IsFull(Apply(s, a), c) <==> IsFull(s, c) || MeetsFull(s, a, c)
  {
  }

  lemma FullByCall(s: State, a: Action, c: nat)
    requires AnswerHonest(s, c) && Enabled(s, a) && !ByWriter(a) && !a.Close? && !a.Begin?
    ensures IsFull(Apply(s, a), c) <==> IsFull(s, c) || MeetsFull(s, a, c)
  {
    var t := Apply(s, a);
    assert t.calls == s.calls[a.c := t.calls[a.c]];
  }

  lemma {:induction false} FullRun(s: State, run: seq<Action>, c: nat)
    requires Inv(s) && Honest(s) && IsRun(s, run)
    ensures Honest(After(s, run)) && (IsFull(After(s, run), c) <==> IsFull(s, c) || MetFull(s, run, c))
    decreases |run|
  {
    hide Honest, MeetsFull, IsFull, Enabled, Apply;
    if run != [] {
      KeepInv(s, run[0]);
      InvHas(s);
      KeepHonest(s, run[0]);
      FullStep(s, run[0], c);
      FullRun(Apply(s, run[0]), run[1..], c);
    }
  }

  lemma InvHas(s: State)
    requires Inv(s)
    ensures Locking(s) && Shutdown(s)
  {
  }

  /** In every run a call that returned was refused as full exactly when it met the byte limit as it began, or
      a full queue on an open connection as it selected. */
  lemma FullExactly(run: seq<Action>, c: nat)
    requires IsRun(START, run) && c < |After(START, run).calls| && After(START, run).calls[c].Returned?
    ensures After(START, run).calls[c].o.Full? <==> MetFull(START, run, c)
  {
    hide Apply, Enabled, MeetsFull;
    StartInv();
    FullRun(START, run, c);
  }

  /** With room in bytes and in the queue of an open connection a send is accepted: its three steps can be
      taken and leave its packet last in the queue. */
  lemma AcceptedWithRoom(s: State, frame: Frame, waits: bool)
    requires Inv(s) && !s.closed && s.lock.None?
    requires s.pendingBytes + |frame| <= 8 * 1024 * 1024 && |s.queue| < 256
    ensures var c := |s.calls|;
            var send, p := [Begin(frame, waits), SelectQueue(c), Count(c)], Packet(c, frame, waits);
            && IsRun(s, send)
            && var t := After(s, send);
            && t.queue == s.queue + [p] && t.accepted == s.accepted + [p]
            && t.calls == s.calls + [if waits then Waiting(p) else Returned(p, Sent)]
            && t.pendingBytes == s.pendingBytes + |frame| && t.lock.None? && !t.closed
  {
    InvHas(s);
    var c := |s.calls|;
    var send := [Begin(frame, waits), SelectQueue(c), Count(c)];
    var s1 := Apply(s, send[0]);
    var s2 := Apply(s1, send[1]);
    var s3 := Apply(s2, send[2]);
    assert send[1..] == [SelectQueue(c), Count(c)] && send[1..][1..] == [Count(c)] && send[1..][1..][1..] == [];
    assert IsRun(s3, []) && After(s3, []) == s3;
    assert IsRun(s2, [Count(c)]) && After(s2, [Count(c)]) == s3;
    assert IsRun(s1, send[1..]) && After(s1, send[1..]) == s3;
  }

  /** A call returns `Closed` only on a closed connection, and not while another answer waits for it. */
  lemma ClosedMeans(run: seq<Action>, a: Action, c: nat)
    requires IsRun(START, run) && Enabled(After(START, run), a)
    requires var s, t := After(START, run), Apply(After(START, run), a);
             && c < |s.calls| && !s.calls[c].Returned?
             && t.calls[c].Returned? && t.calls[c].o.Closed?
    ensures var s := After(START, run); s.closed && c < |s.answers| && s.answers[c] in {None, Some(Closed)}
  {
    hide Apply, Enabled, MeetsFull, Honest, Inv, IsRun, After;
    StartInv();
    StartHonest();
    FullRun(START, run, c);
    RunInv(START, run);
    var s := After(START, run);
    HonestAt(s, c);
    ClosedStep(s, a, c);
    if s.calls[c].Selecting? { Unanswered(s, c); }
  }

  lemma StartHonest()
    ensures Honest(START)
  {
  }

  lemma ClosedStep(s: State, a: Action, c: nat)
    requires AnswerHonest(s, c) && CallHonest(s, c) && Enabled(s, a) && c < |s.calls| && !s.calls[c].Returned?
    requires Apply(s, a).calls[c].Returned? && Apply(s, a).calls[c].o.Closed?
    ensures s.closed && c < |s.answers|
    ensures s.calls[c].Selecting? || s.answers[c] in {None, Some(Closed)}
  {
  }

  /** A call that has queued nothing has no answer. */
  lemma Unanswered(s: State, c: nat)
    requires Inv(s) && c < |s.calls| && s.calls[c].Selecting?
    ensures s.answers[c].None?
  {
    assert CallOk(s, c);
    forall k: nat | k < |s.accepted| ensures s.accepted[k] != s.calls[c].p { assert PacketOk(s, k); }
  }

  /** What is left in the queue is answered with the error of the failed write, or as closed when the connection
      was closed from elsewhere. */
  lemma LeftoversAnswered(s: State)
    requires Inv(s) && s.lock.None? && s.queue != [] && s.queue[0].waits
    requires s.writer.Stopping? || (s.writer.Idle? && s.closed)
    ensures var c := s.queue[0].call;
            var steps := [if s.writer.Stopping? then Stop else NoticeDone, Drain, Uncount, Answer];
            && IsRun(s, steps) && c < |After(s, steps).answers|
            && After(s, steps).answers[c] == Some(if s.writer.Stopping? then Failed else Closed)
  {
    hide Inv, Apply, Enabled;
    FirstIsOwed(s);
    LeftoverSteps(s);
    FourSteps(s, if s.writer.Stopping? then Stop else NoticeDone, Drain, Uncount, Answer);
  }

  lemma FourSteps(s: State, a: Action, b: Action, c: Action, d: Action)
    requires Enabled(s, a)
    requires var s1 := Apply(s, a);
             && Enabled(s1, b)
             && var s2 := Apply(s1, b);
             && Enabled(s2, c) && Enabled(Apply(s2, c), d)
    ensures IsRun(s, [a, b, c, d]) && After(s, [a, b, c, d]) == Apply(Apply(Apply(Apply(s, a), b), c), d)
  {
    hide Apply, Enabled;
    var s1 := Apply(s, a);
    var s2 := Apply(s1, b);
    var s3 := Apply(s2, c);
    var s4 := Apply(s3, d);
    StepThen(s3, d, []);
    StepThen(s2, c, [d]);
    StepThen(s1, b, [c, d]);
    StepThen(s, a, [b, c, d]);
    assert [d] + [] == [d] && [c] + [d] == [c, d] && [b] + [c, d] == [b, c, d] && [a] + [b, c, d] == [a, b, c, d];
  }

  lemma StepThen(s: State, a: Action, more: seq<Action>)
    requires Enabled(s, a) && IsRun(Apply(s, a), more)
    ensures IsRun(s, [a] + more) && After(s, [a] + more) == After(Apply(s, a), more)
  {
    hide Apply, Enabled;
    assert ([a] + more)[1..] == more;
  }

  lemma LeftoverSteps(s: State)
    requires s.lock.None? && s.queue != [] && s.queue[0].waits
    requires s.writer.Stopping? || (s.writer.Idle? && s.closed)
    requires At(s, s.queue[0].call) && s.answers[s.queue[0].call].None?
    ensures var a := if s.writer.Stopping? then Stop else NoticeDone;
            && Enabled(s, a)
            && var s1 := Apply(s, a);
            && Enabled(s1, Drain)
            && var s2 := Apply(s1, Drain);
            && Enabled(s2, Uncount)
            && var s3 := Apply(s2, Uncount);
            && Enabled(s3, Answer)
            && var s4 := Apply(s3, Answer);
            && At(s4, s.queue[0].call)
            && s4.answers[s.queue[0].call] == Some(if s.writer.Stopping? then Failed else Closed)
  {
  }

  /** The first packet of the queue is some call's, and not answered. */
  lemma FirstIsOwed(s: State)
    requires Inv(s) && s.queue != []
    ensures At(s, s.queue[0].call) && s.answers[s.queue[0].call].None?
  {
    var k := Taken(s);
    assert s.accepted[k] == s.queue[0];
    assert PacketOk(s, k) && AnswerOk(s, k);
  }

  // ---- Nothing is refused without a reason

  predicate Smooth(a: Action) { !a.WriteFails? && !a.Close? }

  /** The connection is open, the writer has met no error and every result is a success. */
  ghost predicate AllGood(s: State) {
    && !s.closed && !s.writer.Stopping? && !s.writer.Draining? && !s.writer.Dropping? && !s.writer.Refusing?
    && !s.writer.Stopped? && (s.writer.Wrote? || s.writer.Answering? ==> s.writer.o.Sent?)
    && (forall c :: 0 <= c < |s.answers| && s.answers[c].Some? ==> s.answers[c].value.Sent?)
    && (forall c :: 0 <= c < |s.calls| ==>
          && !s.calls[c].Refused? && !s.calls[c].Polling?
          && (s.calls[c].Returned? ==> s.calls[c].o.Sent?))
  }

  lemma KeepAllGood(s: State, a: Action)
    requires Locking(s) && AllGood(s) && Enabled(s, a) && Smooth(a) && forall c: nat :: !MeetsFull(s, a, c)
    ensures AllGood(Apply(s, a))
  {
    assert a.Begin? ==> !MeetsFull(s, a, |s.calls|);
    assert a.SelectDefault? ==> !MeetsFull(s, a, a.c);
  }

  lemma {:induction false} OnlySuccess(s: State, run: seq<Action>)
    requires Inv(s) && AllGood(s) && IsRun(s, run) && forall a :: a in run ==> Smooth(a)
    requires forall c: nat :: !MetFull(s, run, c)
    ensures AllGood(After(s, run))
    decreases |run|
  {
    hide Apply, Enabled, AllGood, Smooth, MeetsFull;
    if run != [] {
      var t := Apply(s, run[0]);
      forall c: nat ensures !MeetsFull(s, run[0], c) && !MetFull(t, run[1..], c) { assert !MetFull(s, run, c); }
      KeepInv(s, run[0]);
      InvHas(s);
      KeepAllGood(s, run[0]);
      OnlySuccess(t, run[1..]);
    }
  }

  // ---- No call hangs

  predicate Internal(a: Action) { !a.Begin? && !a.Close? }

  function CallRank(call: Call): nat {
    match call
    case Selecting(p) => |p.frame| + 20
    case Enqueued(_) => 5
    case Refused(_) => 4
    case Waiting(_) => 3
    case Polling(_) => 2
    case Returned(_, _) => 0
  }

  function CallsRank(calls: seq<Call>): nat {
    if calls == [] then 0 else CallRank(calls[0]) + CallsRank(calls[1..])
  }

  function QueueRank(ps: seq<Packet>): nat { Load(ps) + 10 * |ps| }

  function WriterRank(w: Writer): int {
    match w
    case Idle => 5
    case Writing(p, n) => 9 + |p.frame| - n
    case Wrote(_, _) => 8
    case Answering(_, _) => 7
    case Stopping => 4
    case Draining(_) => 3
    case Dropping(_, _) => 5
    case Refusing(_, _) => 4
    case Stopped => 0
  }

  function Measure(s: State): int { CallsRank(s.calls) + QueueRank(s.queue) + WriterRank(s.writer) }

  lemma {:induction false} CallsRankUpdate(calls: seq<Call>, c: nat, call: Call)
    requires c < |calls|
    ensures CallsRank(calls[c := call]) == CallsRank(calls) - CallRank(calls[c]) + CallRank(call)
  {
    if c == 0 {
      assert calls[c := call][1..] == calls[1..];
    } else {
      assert calls[c := call][1..] == calls[1..][c - 1 := call];
      CallsRankUpdate(calls[1..], c - 1, call);
    }
  }

  lemma Progress(s: State, a: Action)
    requires Inv(s) && Enabled(s, a) && Internal(a)
    ensures Measure(Apply(s, a)) < Measure(s)
  {
    var t := Apply(s, a);
    if ByWriter(a) {
      WriterProgress(s, a);
    } else {
      CallsRankUpdate(s.calls, a.c, t.calls[a.c]);
      if a.SelectQueue? { LoadAppend(s.queue, s.calls[a.c].p); }
    }
  }

  lemma WriterProgress(s: State, a: Action)
    requires Enabled(s, a) && ByWriter(a)
    ensures Measure(Apply(s, a)) < Measure(s)
  {
    hide CallsRank;
    assert s.queue != [] ==> Load(s.queue) == |s.queue[0].frame| + Load(s.queue[1..]);
  }

  /** From any reachable state, the calls already made and the writer take a bounded number of steps. */
  lemma {:induction false} BoundedRun(s: State, run: seq<Action>)
    requires Inv(s) && IsRun(s, run)
    requires forall i :: 0 <= i < |run| ==> Internal(run[i])
    ensures |run| <= Measure(s)
    decreases |run|
  {
    if run == [] {
      MeasureNatural(s);
    } else {
      assert Internal(run[0]);
      Progress(s, run[0]);
      KeepInv(s, run[0]);
      BoundedRun(Apply(s, run[0]), run[1..]);
    }
  }

  lemma MeasureNatural(s: State)
    requires Inv(s)
    ensures 0 <= Measure(s)
  {
  }

  /** When none of those steps is left to take, every sendFrame call has returned, and the writer is
      either idle on an empty queue of an open connection or stopped on a closed one. */
  lemma QuietMeansReturned(s: State)
    requires Inv(s) && forall a :: Internal(a) ==> !Enabled(s, a)
    ensures forall c :: 0 <= c < |s.calls| ==> s.calls[c].Returned?
    ensures (s.writer.Idle? && s.queue == [] && !s.closed) || (s.writer.Stopped? && s.closed)
  {
    if s.lock.Some? { LockHolderMoves(s); }
    if !s.writer.Idle? && !s.writer.Stopped? { WriterMoves(s); }
    assert !Enabled(s, Take) && !Enabled(s, NoticeDone);
    forall c: nat | c < |s.calls| ensures s.calls[c].Returned? {
      assert !Enabled(s, Abort(c)) && !Enabled(s, Poll(c)) && !Enabled(s, Receive(c)) && !Enabled(s, SeeDone(c));
      if s.calls[c].Waiting? { WaitingIsOwed(s, c); }
    }
  }

  /** Whoever holds the lock can go on. */
  lemma LockHolderMoves(s: State)
    requires Locking(s) && s.lock.Some?
    ensures exists a :: Internal(a) && Enabled(s, a)
  {
    var c := s.lock.value;
    var a := if s.calls[c].Enqueued? then Count(c)
             else if s.closed then SelectDone(c)
             else if |s.queue| < QUEUE_SIZE then SelectQueue(c)
             else SelectDefault(c);
    assert Internal(a) && Enabled(s, a);
  }

  /** A writer that is neither idle nor stopped can go on once the lock is free. */
  lemma WriterMoves(s: State)
    requires Inv(s) && s.lock.None? && !s.writer.Idle? && !s.writer.Stopped?
    ensures exists a :: Internal(a) && Enabled(s, a)
  {
    AnsweredOnce(s, Answer);
    var a := match s.writer
             case Writing(p, n) => if n == |p.frame| then WriteEnds else Write(1)
             case Wrote(_, _) => Uncount
             case Dropping(_, _) => Uncount
             case Stopping => Stop
             case Draining(_) => if s.queue == [] then Finish else Drain
             case _ => Answer;
    assert Internal(a) && Enabled(s, a);
  }

  /** The packet of a waiting call is answered, or it is still in the queue or in the writer's hands. */
  lemma WaitingIsOwed(s: State, c: nat)
    requires Inv(s) && c < |s.calls| && s.calls[c].Waiting?
    ensures s.answers[c].Some? || s.queue != [] || s.writer.Held().Some?
  {
    assert CallOk(s, c);
    var k: nat :| k < |s.accepted| && s.accepted[k] == s.calls[c].p;
    assert AnswerOk(s, k);
  }

  /** When no write fails, nobody closes the connection and no call meets a limit, every call that returns has
      succeeded; and once nothing is left to do, every call has returned and every accepted frame is out. */
  lemma EverySendSucceeds(run: seq<Action>)
    requires IsRun(START, run) && (forall a :: a in run ==> Smooth(a)) && forall c: nat :: !MetFull(START, run, c)
    ensures var t := After(START, run);
            && !t.closed && (forall c :: 0 <= c < |t.calls| && t.calls[c].Returned? ==> t.calls[c].o.Sent?)
            && ((forall a :: Internal(a) ==> !Enabled(t, a)) ==>
                  (forall c :: 0 <= c < |t.calls| ==> t.calls[c].Returned?) && t.wire == Bytes(t.accepted))
  {
    hide Inv, Enabled, Apply, Smooth, MeetsFull, Bytes;
    StartInv();
    RunInv(START, run);
    OnlySuccess(START, run);
    var t := After(START, run);
    if forall a :: Internal(a) ==> !Enabled(t, a) {
      QuietMeansReturned(t);
      IdleWire(t);
    }
  }

  lemma IdleWire(s: State)
    requires Inv(s) && s.writer.Idle? && s.queue == []
    ensures s.wire == Bytes(s.accepted)
  {
    assert s.accepted[..|s.accepted|] == s.accepted;
  }
}
