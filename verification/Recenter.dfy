/** The newest-wins request queue of internal/network/streamer.go: any number of goroutines in
    `requestRecenter`, and the streamer receiving in `run` and draining in `latestRecenter`, one
    channel operation a step. */
module Recenter {
  import opened Wrappers

  const CAPACITY := 4

  datatype Request = Request(cx: int, cz: int)

  /** A requestRecenter call: about to send, having found the channel full, or returned. */
  datatype Call = Sending(req: Request) | FoundFull(req: Request) | Returned(req: Request)

  /** The streamer: parked on the channel, processing a centre, or draining while it does. */
  datatype Streamer = Parked | Processing(req: Request) | Draining(req: Request, latest: Option<Request>)

  /** `history` is every request ever sent on the channel; `seen` is the place in it just after the
      last one the streamer received. */
  datatype State = State(
    queue: seq<Request>,
    calls: seq<Call>,
    streamer: Streamer,
    centre: Option<Request>,
    history: seq<Request>,
    seen: nat)

  const START := State([], [], Parked, None, [], 0)

  datatype Action =
    | Call(req: Request)
    | Send(c: nat)
    | SeeFull(c: nat)
    | DropOldest(c: nat)
    | SeeEmpty(c: nat)
    | Receive
    | Drain
    | TakeNewer
    | DrainEnds
    | Park

  predicate Enabled(s: State, a: Action) {
    match a
    case Call(_) => true
    case Send(c) => c < |s.calls| && s.calls[c].Sending? && |s.queue| < CAPACITY
    case SeeFull(c) => c < |s.calls| && s.calls[c].Sending? && |s.queue| >= CAPACITY
    case DropOldest(c) => c < |s.calls| && s.calls[c].FoundFull? && s.queue != []
    case SeeEmpty(c) => c < |s.calls| && s.calls[c].FoundFull? && s.queue == []
    case Receive => s.streamer.Parked? && s.queue != []
    case Drain => s.streamer.Processing?
    case TakeNewer => s.streamer.Draining? && s.queue != []
    case DrainEnds => s.streamer.Draining? && s.queue == []
    case Park => s.streamer.Processing?
  }

  function Apply(s: State, a: Action): State
    requires Enabled(s, a)
  {
    match a
    case Call(req) => s.(calls := s.calls + [Sending(req)])
    case Send(c) =>
      var req := s.calls[c].req;
      s.(queue := s.queue + [req], history := s.history + [req], calls := s.calls[c := Returned(req)])
    case SeeFull(c) => s.(calls := s.calls[c := FoundFull(s.calls[c].req)])
    case DropOldest(c) => s.(queue := s.queue[1..], calls := s.calls[c := Sending(s.calls[c].req)])
    case SeeEmpty(c) => s.(calls := s.calls[c := Sending(s.calls[c].req)])
    case Receive =>
      Taken(s).(streamer := Processing(s.queue[0]), centre := Some(s.queue[0]))
    case Drain => s.(streamer := Draining(s.streamer.req, None))
    case TakeNewer => Taken(s).(streamer := s.streamer.(latest := Some(s.queue[0])))
    case DrainEnds =>
      if s.streamer.latest.None? then s.(streamer := Processing(s.streamer.req))
      else
        var req := s.streamer.latest.value;
        s.(streamer := Processing(req), centre := Some(req))
    case Park => s.(streamer := Parked)
  }

  /** The streamer receives the oldest queued request. */
  function Taken(s: State): State
    requires s.queue != []
  {
    s.(queue := s.queue[1..], seen := if |s.history| >= |s.queue| then |s.history| - |s.queue| + 1 else 0)
  }

  ghost predicate IsRun(s: State, run: seq<Action>)
    decreases |run|
  {
    run == [] || (Enabled(s, run[0]) && IsRun(Apply(s, run[0]), run[1..]))
  }

  ghost function After(s: State, run: seq<Action>): State
    requires IsRun(s, run)
    decreases |run|
  {
    if run == [] then s else After(Apply(s, run[0]), run[1..])
  }

  // ---- The invariant

  ghost predicate Suffix(s: State) {
    && |s.queue| <= CAPACITY && |s.queue| <= |s.history|
    && s.history[|s.history| - |s.queue|..] == s.queue
    && s.seen <= |s.history| - |s.queue|
  }

  /** The newest request leaves the queue only for the streamer, or for a call not yet returned. */
  ghost predicate NewestKept(s: State) {
    s.queue == [] ==> s.seen == |s.history| || exists c :: 0 <= c < |s.calls| && !s.calls[c].Returned?
  }

  /** What the streamer works on is the last request it received. */
  ghost predicate WorksOnSeen(s: State)
    requires Suffix(s)
  {
    if s.seen == 0 then s.streamer.Parked? && s.centre.None?
    else
      var last := s.history[s.seen - 1];
      match s.streamer
      case Parked => s.centre == Some(last)
      case Processing(req) => req == last && s.centre == Some(last)
      case Draining(req, latest) =>
        s.centre == Some(req) && (if latest.None? then req == last else latest.value == last)
  }

  ghost predicate Inv(s: State) { Suffix(s) && NewestKept(s) && WorksOnSeen(s) }

  lemma KeepSuffix(s: State, a: Action)
    requires Suffix(s) && Enabled(s, a)
    ensures Suffix(Apply(s, a))
  {
    var t := Apply(s, a);
    if a.Send? {
      assert t.history[|t.history| - |t.queue|..] == s.history[|s.history| - |s.queue|..] + [s.calls[a.c].req];
    }
  }

  lemma KeepWorks(s: State, a: Action)
    requires Suffix(s) && WorksOnSeen(s) && Enabled(s, a) && Suffix(Apply(s, a))
    ensures WorksOnSeen(Apply(s, a))
  {
    if s.queue != [] { assert s.history[|s.history| - |s.queue|] == s.queue[0]; }
  }

  lemma KeepNewest(s: State, a: Action)
    requires Suffix(s) && NewestKept(s) && Enabled(s, a)
    ensures NewestKept(Apply(s, a))
  {
    var t := Apply(s, a);
    if t.queue == [] && a.DropOldest? {
      assert !t.calls[a.c].Returned?;
    } else if s.queue == [] && s.seen != |s.history| && !a.Send? {
      var c :| 0 <= c < |s.calls| && !s.calls[c].Returned?;
      assert !t.calls[c].Returned?;
    }
  }

  lemma {:induction false} RunInv(s: State, run: seq<Action>)
    requires Inv(s) && IsRun(s, run)
    ensures Inv(After(s, run))
    decreases |run|
  {
    if run != [] {
      KeepSuffix(s, run[0]);
      KeepWorks(s, run[0]);
      KeepNewest(s, run[0]);
      RunInv(Apply(s, run[0]), run[1..]);
    }
  }

  /** In every run the queue is the end of the history of requests sent, and when the streamer is
      parked on an empty queue with no call under way, the centre it last processed is the newest
      request. */
  lemma NewestWins(run: seq<Action>)
    requires IsRun(START, run)
    ensures var s := After(START, run);
            && |s.queue| <= |s.history| && s.queue == s.history[|s.history| - |s.queue|..]
            && (s.streamer.Parked? && s.queue == [] && s.history != []
                && (forall c :: 0 <= c < |s.calls| ==> s.calls[c].Returned?)
                ==> s.centre == Some(s.history[|s.history| - 1]))
  {
    RunInv(START, run);
  }

  // ---- What each side can always do

  /** The steps of one call that is about to send, with no one else moving: it sends when there is room for a
      fifth request, or else makes room by dropping the oldest. */
  function SendSteps(s: State, c: nat): seq<Action> {
    if |s.queue| < 4 then [Send(c)] else [SeeFull(c), DropOldest(c), Send(c)]
  }

  lemma OneStep(s: State, a: Action, more: seq<Action>)
    requires Enabled(s, a) && IsRun(Apply(s, a), more)
    ensures IsRun(s, [a] + more) && After(s, [a] + more) == After(Apply(s, a), more)
  {
    assert ([a] + more)[1..] == more;
  }

  /** A call can always return, with its request last in a queue of at most four. */
  lemma CallCanReturn(s: State, c: nat)
    requires |s.queue| <= 4 && c < |s.calls| && s.calls[c].Sending?
    ensures IsRun(s, SendSteps(s, c))
    ensures var t, req := After(s, SendSteps(s, c)), s.calls[c].req;
            && t.calls == s.calls[c := Returned(req)] && t.history == s.history + [req]
            && t.queue == (if |s.queue| < 4 then s.queue else s.queue[1..]) + [req] && |t.queue| <= 4
            && t.streamer == s.streamer && t.centre == s.centre
  {
    var send := [Send(c)];
    if |s.queue| < 4 {
      assert IsRun(Apply(s, Send(c)), []);
      OneStep(s, Send(c), []);
      assert send + [] == send;
    } else {
      var s1 := Apply(s, SeeFull(c));
      var s2 := Apply(s1, DropOldest(c));
      assert IsRun(Apply(s2, Send(c)), []);
      OneStep(s2, Send(c), []);
      assert send + [] == send;
      OneStep(s1, DropOldest(c), send);
      OneStep(s, SeeFull(c), [DropOldest(c)] + send);
      assert SendSteps(s, c) == [SeeFull(c)] + ([DropOldest(c)] + send);
    }
  }

  function Drains(n: nat): seq<Action> { if n == 0 then [DrainEnds] else [TakeNewer] + Drains(n - 1) }

  /** A streamer that drains, with no one else moving, ends on the newest request of the queue, or goes on where
      it was when the queue was empty. */
  lemma {:induction false} DrainTakesNewest(s: State)
    requires s.streamer.Draining?
    ensures IsRun(s, Drains(|s.queue|))
    ensures var t := After(s, Drains(|s.queue|));
            && t.queue == [] && t.calls == s.calls && t.history == s.history
            && (s.queue != [] ==> t.centre == Some(s.queue[|s.queue| - 1]) && t.streamer == Processing(t.centre.value))
            && (s.queue == [] && s.streamer.latest.None? ==>
                  t.centre == s.centre && t.streamer == Processing(s.streamer.req))
            && (s.queue == [] && s.streamer.latest.Some? ==>
                  t.centre == s.streamer.latest && t.streamer == Processing(s.streamer.latest.value))
    decreases |s.queue|
  {
    if s.queue == [] {
      assert IsRun(Apply(s, DrainEnds), []);
      OneStep(s, DrainEnds, []);
      assert [DrainEnds] + [] == [DrainEnds];
    } else {
      DrainTakesNewest(Apply(s, TakeNewer));
      OneStep(s, TakeNewer, Drains(|s.queue| - 1));
    }
  }

  /** A parked streamer can take the oldest queued request, and only that. */
  lemma ReceiveTakes(s: State)
    requires s.streamer.Parked? && s.queue != []
    ensures Enabled(s, Receive)
    ensures var t := Apply(s, Receive);
            t.streamer == Processing(s.queue[0]) && t.centre == Some(s.queue[0]) && t.queue == s.queue[1..]
  {
  }

  // ---- Why no call may be under way

  ghost predicate Reached(s: State) {
    exists run :: IsRun(START, run) && After(START, run) == s
  }

  lemma {:induction false} RunAppend(s: State, run: seq<Action>, a: Action)
    requires IsRun(s, run) && Enabled(After(s, run), a)
    ensures IsRun(s, run + [a]) && After(s, run + [a]) == Apply(After(s, run), a)
    decreases |run|
  {
    if run == [] {
      assert run + [a] == [a];
      assert IsRun(Apply(s, a), []);
    } else {
      assert (run + [a])[1..] == run[1..] + [a];
      RunAppend(Apply(s, run[0]), run[1..], a);
    }
  }

  lemma Reach(s: State, a: Action)
    requires Reached(s) && Enabled(s, a)
    ensures Reached(Apply(s, a))
  {
    var run :| IsRun(START, run) && After(START, run) == s;
    RunAppend(START, run, a);
  }

  lemma ReachCalls(a: Request, b: Request)
    ensures Reached(State([], [Sending(a), Sending(a), Sending(a), Sending(b), Sending(b)], Parked, None, [], 0))
  {
    assert IsRun(START, []) && After(START, []) == START;
    var s := START;
    Reach(s, Call(a)); s := Apply(s, Call(a));
    Reach(s, Call(a)); s := Apply(s, Call(a));
    Reach(s, Call(a)); s := Apply(s, Call(a));
    Reach(s, Call(b)); s := Apply(s, Call(b));
    Reach(s, Call(b)); s := Apply(s, Call(b));
    assert s == State([], [Sending(a), Sending(a), Sending(a), Sending(b), Sending(b)], Parked, None, [], 0);
  }

  /** Five calls under way; four have filled the channel, the request `b` last. */
  lemma ReachFull(a: Request, b: Request)
    ensures Reached(State([a, a, a, b], [Returned(a), Returned(a), Returned(a), Returned(b), FoundFull(b)],
                          Parked, None, [a, a, a, b], 0))
  {
    hide Reached;
    ReachCalls(a, b);
    var s := State([], [Sending(a), Sending(a), Sending(a), Sending(b), Sending(b)], Parked, None, [], 0);
    Reach(s, Send(0)); s := Apply(s, Send(0));
    Reach(s, Send(1)); s := Apply(s, Send(1));
    Reach(s, Send(2)); s := Apply(s, Send(2));
    Reach(s, Send(3)); s := Apply(s, Send(3));
    Reach(s, SeeFull(4)); s := Apply(s, SeeFull(4));
    assert s == State([a, a, a, b], [Returned(a), Returned(a), Returned(a), Returned(b), FoundFull(b)],
                      Parked, None, [a, a, a, b], 0);
  }

  /** A call that found the channel full can empty it of the newest request, sent by another call,
      before it sends its own: the streamer is then parked on an older centre. */
  lemma NewestLostMidCall(a: Request, b: Request)
    requires a != b
    ensures exists s ::
              Reached(s) && s.streamer.Parked? && s.queue == [] && s.history == [a, a, a, b] && s.centre == Some(a)
  {
    hide Reached;
    ReachFull(a, b);
    var calls := [Returned(a), Returned(a), Returned(a), Returned(b), FoundFull(b)];
    var s := State([a, a, a, b], calls, Parked, None, [a, a, a, b], 0);
    Reach(s, Receive); s := Apply(s, Receive);
    Reach(s, Drain); s := Apply(s, Drain);
    Reach(s, TakeNewer); s := Apply(s, TakeNewer);
    Reach(s, TakeNewer); s := Apply(s, TakeNewer);
    assert s == State([b], calls, Draining(a, Some(a)), Some(a), [a, a, a, b], 3);
    Reach(s, DropOldest(4)); s := Apply(s, DropOldest(4));
    Reach(s, DrainEnds); s := Apply(s, DrainEnds);
    Reach(s, Park); s := Apply(s, Park);
  }
}
