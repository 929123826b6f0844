/** The recenter queue and the streamer of internal/network/streamer.go together: once requests stop,
    the client ends with exactly the square around the newest one. */
module Settling {
  import opened Batching
  import opened Spiral
  import opened Wrappers
  import Recenter
  import Streamer

  function ChunkOf(r: Recenter.Request): Chunk { Chunk(r.cx, r.cz) }

  /** The step ends the pass around the current centre: a newer request was found, or none is left. */
  predicate EndsPass(s: Recenter.State, a: Recenter.Action)
    requires Recenter.Enabled(s, a)
  {
    a.Park? || (a.DrainEnds? && s.streamer.latest.Some?)
  }

  /** The centre of the pass that ends, and the newer request it found. */
  function Ending(s: Recenter.State, a: Recenter.Action): Chunk
    requires Recenter.Enabled(s, a) && EndsPass(s, a)
  {
    ChunkOf(s.streamer.req)
  }

  function Newer(s: Recenter.State, a: Recenter.Action): Option<Chunk>
    requires Recenter.Enabled(s, a) && EndsPass(s, a)
  {
    if a.Park? then None else Some(ChunkOf(s.streamer.latest.value))
  }

  /** A pass ends exactly when the streamer parks or goes on with a newer request; it was around the centre worked
      on, and what it found is the centre of the next. */
  lemma PassesMean(s: Recenter.State, a: Recenter.Action)
    requires Recenter.Enabled(s, a)
    ensures var t := Recenter.Apply(s, a);
            && (EndsPass(s, a) <==>
                  || (!s.streamer.Parked? && t.streamer.Parked?)
                  || (s.streamer.Draining? && t.streamer.Processing? && s.streamer.latest.Some?))
            && (EndsPass(s, a) ==>
                  && Ending(s, a) == Chunk(s.streamer.req.cx, s.streamer.req.cz)
                  && (t.streamer.Parked? ==> Newer(s, a) == None)
                  && (t.streamer.Processing? ==> Newer(s, a) == Some(Chunk(t.streamer.req.cx, t.streamer.req.cz))))
  {
  }

  /** The place in the run, which goes on at place i, where its last pass ends; `before` if it has none. */
  ghost function LastPass(s: Recenter.State, run: seq<Recenter.Action>, i: nat, before: Option<nat>): Option<nat>
    requires Recenter.IsRun(s, run)
    decreases |run|
  {
    if run == [] then before
    else LastPass(Recenter.Apply(s, run[0]), run[1..], i + 1, if EndsPass(s, run[0]) then Some(i) else before)
  }

  /** Every pass of the run finds the newer request that the queue holds for it, or none. */
  ghost predicate Linked(s: Recenter.State, run: seq<Recenter.Action>, i: nat, env: nat -> Pass, radius: nat, pool: nat)
    requires Recenter.IsRun(s, run) && pool > 0
    decreases |run|
  {
    run == [] ||
    (&& (EndsPass(s, run[0]) ==> env(i).Next(Ending(s, run[0]), radius, pool) == Newer(s, run[0]))
     && Linked(Recenter.Apply(s, run[0]), run[1..], i + 1, env, radius, pool))
  }

  /** No send of any pass fails, no connection is torn down and no dimension switch comes. */
  ghost predicate Working(env: nat -> Pass) {
    forall i :: env(i).Working() && forall b :: env(i).view(b).switchAt.None?
  }

  /** The streamer has made its last pass around c: when that was calm, found nothing newer and left the
      connection open, what it has sent is exactly the square. */
  ghost predicate Settled(st: Streamer.Streamer, last: Pass, c: Chunk)
    requires st.poolSize > 0
    reads st
  {
    && st.hasCentre && st.centre == c && st.loaded <= Square(c, st.viewRadius)
    && (st.open && last.Next(c, st.viewRadius, st.poolSize).None? && Calm(last.view) ==>
          !st.resetPending && st.loaded == Square(c, st.viewRadius))
  }

  /** A run of the queue with the passes it makes the streamer do, whatever happens in each. */
  method Follow(st: Streamer.Streamer, run: seq<Recenter.Action>, env: nat -> Pass)
    requires st.Valid() && Recenter.IsRun(Recenter.START, run)
    modifies st
    ensures st.Valid() && (st.open ==> old(st.open)) && (Working(env) ==> st.open == old(st.open))
    ensures var s := Recenter.After(Recenter.START, run);
            var last := LastPass(Recenter.START, run, 0, None);
            s.streamer.Parked? && s.centre.Some? ==> last.Some? && Settled(st, env(last.value), ChunkOf(s.centre.value))
  {
    hide Recenter.Suffix, Recenter.NewestKept, Recenter.WorksOnSeen, Recenter.Apply, Recenter.Enabled, EndsPass, Ending;
    hide Settled;
    var s := Recenter.START;
    ghost var last: Option<nat> := None;
    StartKept();
    PoolPositive(st);
    for i := 0 to |run|
      invariant st.Valid() && (st.open ==> old(st.open)) && (Working(env) ==> st.open == old(st.open))
      invariant Recenter.Inv(s) && Recenter.IsRun(s, run[i..])
      invariant Recenter.After(s, run[i..]) == Recenter.After(Recenter.START, run)
      invariant LastPass(s, run[i..], i, last) == LastPass(Recenter.START, run, 0, None)
      invariant s.streamer.Parked? && s.centre.Some? ==>
                  last.Some? && Settled(st, env(last.value), ChunkOf(s.centre.value))
    {
      var a := run[i];
      assert run[i..][0] == a && run[i..][1..] == run[i + 1..];
      StepKept(s, a);
      if EndsPass(s, a) {
        OnePass(st, Ending(s, a), env(i));
        last := Some(i);
      }
      s := Recenter.Apply(s, a);
    }
  }

  method OnePass(st: Streamer.Streamer, c: Chunk, env: Pass)
    requires st.Valid()
    modifies st
    ensures st.Valid() && st.poolSize > 0 && Settled(st, env, c) && (st.open ==> old(st.open))
    ensures env.Working() && (forall b :: env.view(b).switchAt.None?) ==> st.open == old(st.open)
  {
    if env.switchFirst {
      st.SwitchDimension();
    }
    ghost var gone, sent;
    var next;
    next, gone, sent := st.ProcessRecenter(c, env);
  }

  lemma PoolPositive(st: Streamer.Streamer)
    requires st.Valid()
    ensures st.poolSize > 0
  {
  }

  lemma StartKept()
    ensures Recenter.Inv(Recenter.START) && !Recenter.START.centre.Some?
  {
  }

  /** The streamer parks only when a pass ends, on the centre of that pass. */
  lemma StepKept(s: Recenter.State, a: Recenter.Action)
    requires Recenter.Inv(s) && Recenter.Enabled(s, a)
    ensures var t := Recenter.Apply(s, a);
            && Recenter.Inv(t)
            && (t.streamer.Parked? ==> t.centre == s.centre && (a.Park? || (s.streamer.Parked? && !EndsPass(s, a))))
            && (a.Park? ==> EndsPass(s, a) && s.centre.Some? && Ending(s, a) == ChunkOf(s.centre.value))
  {
    Recenter.KeepSuffix(s, a);
    Recenter.KeepWorks(s, a);
    Recenter.KeepNewest(s, a);
  }

  /** The last pass of a parked streamer found no newer request. */
  lemma {:induction false} LastFoundNone(s: Recenter.State, run: seq<Recenter.Action>, i: nat, before: Option<nat>,
                                         env: nat -> Pass, radius: nat, pool: nat)
    requires Recenter.Inv(s) && Recenter.IsRun(s, run) && pool > 0 && Linked(s, run, i, env, radius, pool)
    requires s.streamer.Parked? && s.centre.Some? ==>
               before.Some? && env(before.value).Next(ChunkOf(s.centre.value), radius, pool).None?
    ensures var t := Recenter.After(s, run);
            var last := LastPass(s, run, i, before);
            t.streamer.Parked? && t.centre.Some? ==>
              last.Some? && env(last.value).Next(ChunkOf(t.centre.value), radius, pool).None?
    decreases |run|
  {
    hide Recenter.Inv, Recenter.Apply, Recenter.Enabled, EndsPass, Ending, Pass.Next;
    if run != [] {
      StepKept(s, run[0]);
      LastFoundNone(Recenter.Apply(s, run[0]), run[1..], i + 1, if EndsPass(s, run[0]) then Some(i) else before,
                    env, radius, pool);
    }
  }

  // ---- Every run has its passes

  /** What each step of the run finds, if it ends a pass. */
  ghost function Finds(s: Recenter.State, run: seq<Recenter.Action>): (finds: seq<Option<Chunk>>)
    requires Recenter.IsRun(s, run)
    ensures |finds| == |run|
    decreases |run|
  {
    if run == [] then []
    else [if EndsPass(s, run[0]) then Newer(s, run[0]) else None] + Finds(Recenter.Apply(s, run[0]), run[1..])
  }

  /** Passes that find these, and meet no trouble. */
  function Passes(finds: seq<Option<Chunk>>): nat -> Pass {
    (i: nat) => PassFinding(if i < |finds| then finds[i] else None)
  }

  lemma {:induction false} FindsLinked(s: Recenter.State, run: seq<Recenter.Action>, i: nat, finds: seq<Option<Chunk>>,
                                       radius: nat, pool: nat)
    requires Recenter.IsRun(s, run) && pool > 0 && i + |run| == |finds| && finds[i..] == Finds(s, run)
    ensures Linked(s, run, i, Passes(finds), radius, pool)
    decreases |run|
  {
    hide EndsPass, Ending, Newer, Recenter.Apply, Recenter.Enabled, Pass.Next, PassFinding;
    if run != [] {
      assert finds[i] == finds[i..][0] && finds[i..][1..] == finds[i + 1..];
      if EndsPass(s, run[0]) { PassFindingFinds(finds[i], Ending(s, run[0]), radius, pool); }
      FindsLinked(Recenter.Apply(s, run[0]), run[1..], i + 1, finds, radius, pool);
    }
  }

  /** For every run of the queue there are passes that find exactly what it holds for each, calm and with
      working sends. */
  lemma PassesExist(run: seq<Recenter.Action>, radius: nat, pool: nat) returns (env: nat -> Pass)
    requires Recenter.IsRun(Recenter.START, run) && pool > 0
    ensures Linked(Recenter.START, run, 0, env, radius, pool) && Working(env) && forall i :: Calm(env(i).view)
  {
    hide Pass.Next, Calm, Pass.Working, PassFinding;
    var finds := Finds(Recenter.START, run);
    env := Passes(finds);
    assert finds[0..] == finds;
    FindsLinked(Recenter.START, run, 0, finds, radius, pool);
    forall i: nat
      ensures Calm(env(i).view) && env(i).Working() && forall b :: env(i).view(b).switchAt.None?
    {
      PassFindingFinds(if i < |finds| then finds[i] else None, Chunk(0, 0), radius, pool);
      CalmHas(env(i).view);
    }
  }

  lemma CalmHas(view: nat -> Outcome)
    requires Calm(view)
    ensures forall b :: view(b).switchAt.None?
  {
  }

  /** When every call has returned, the streamer waits on an empty queue, and its last pass was calm and
      left the connection open, the client has exactly the square around the newest request. */
  method Settle(st: Streamer.Streamer, run: seq<Recenter.Action>, env: nat -> Pass)
    requires st.Valid() && Recenter.IsRun(Recenter.START, run)
    requires Linked(Recenter.START, run, 0, env, st.viewRadius, st.poolSize)
    modifies st
    ensures Working(env) ==> st.open == old(st.open)
    ensures var s := Recenter.After(Recenter.START, run);
            s.streamer.Parked? && s.queue == [] && s.history != []
            && (forall c :: 0 <= c < |s.calls| ==> s.calls[c].Returned?)
            ==>
              var last := LastPass(Recenter.START, run, 0, None);
              && last.Some?
              && (st.open && Calm(env(last.value).view) ==>
                    var newest := s.history[|s.history| - 1];
                    Streamer.Replay(st.wire) == Streamer.Has(Square(Chunk(newest.cx, newest.cz), st.viewRadius)))
  {
    hide Streamer.Replay, Order, Square, Pass.Next, LastPass, Recenter.After, Linked;
    Recenter.NewestWins(run);
    StartKept();
    LastFoundNone(Recenter.START, run, 0, None, env, st.viewRadius, st.poolSize);
    Follow(st, run, env);
  }
}
