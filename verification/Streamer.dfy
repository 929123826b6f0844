/** The chunk streamer of internal/network/streamer.go: which chunks a client is sent and told to
    forget, over any sequence of recenters, worker results, failed sends, interruptions and dimension
    switches. */
module Streamer {
  import opened Batching
  import opened Spiral
  import opened Wrappers

  // ---- What the client has

  datatype Packet = CacheCentre(c: Chunk) | Forget(k: Chunk) | Frame(k: Chunk) | Respawn

  datatype Client = Has(chunks: set<Chunk>) | Confused

  /** The client after one more packet: a chunk it already has, or one to forget that it
      does not have, confuses it. A respawn in another dimension drops all its chunks. */
  function Receive(client: Client, p: Packet): Client {
    match client
    case Confused => Confused
    case Has(chunks) =>
      match p
      case CacheCentre(_) => client
      case Forget(k) => if k in chunks then Has(chunks - {k}) else Confused
      case Frame(k) => if k in chunks then Confused else Has(chunks + {k})
      case Respawn => Has({})
  }

  function Replay(wire: seq<Packet>): Client {
    if wire == [] then Has({}) else Receive(Replay(wire[..|wire| - 1]), wire[|wire| - 1])
  }

  /** A client that is not confused in the end never was: every frame was for a chunk it lacked, and
      every forget for one it had. */
  lemma {:induction false} NeverConfused(wire: seq<Packet>, i: nat)
    requires Replay(wire).Has? && i < |wire|
    ensures Replay(wire[..i]).Has?
    ensures wire[i].Frame? ==> wire[i].k !in Replay(wire[..i]).chunks
    ensures wire[i].Forget? ==> wire[i].k in Replay(wire[..i]).chunks
  {
    var last := |wire| - 1;
    if i < last {
      NeverConfused(wire[..last], i);
      assert wire[..last][..i] == wire[..i];
    }
  }

  lemma ReplayAppend(wire: seq<Packet>, p: Packet)
    ensures Replay(wire + [p]) == Receive(Replay(wire), p)
  {
    assert (wire + [p])[..|wire|] == wire;
  }

  function Frames(keys: seq<Chunk>): seq<Packet> { seq(|keys|, i requires 0 <= i < |keys| => Frame(keys[i])) }

  function Forgets(keys: seq<Chunk>): seq<Packet> { seq(|keys|, i requires 0 <= i < |keys| => Forget(keys[i])) }

  lemma FrameStep(pending: seq<Chunk>, n: nat)
    requires n < |pending| && Distinct(pending)
    ensures Frames(pending[..n + 1]) == Frames(pending[..n]) + [Frame(pending[n])]
    ensures Members(pending[..n + 1]) == Members(pending[..n]) + {pending[n]}
    ensures pending[n] !in Members(pending[..n])
  {
  }

  lemma FramesJoin(was: seq<Packet>, a: seq<Chunk>, b: seq<Chunk>)
    ensures was + Frames(a) + Frames(b) == was + Frames(a + b)
    ensures Members(a) + Members(b) == Members(a + b)
  {
  }

  lemma NothingGone(wire: seq<Packet>)
    ensures Distinct([]) && Members([]) == {} && wire + Forgets([]) == wire
  {
  }

  lemma GoneStep(gone: seq<Chunk>, k: Chunk)
    requires Distinct(gone) && k !in Members(gone)
    ensures Distinct(gone + [k]) && Members(gone + [k]) == Members(gone) + {k}
    ensures Forgets(gone + [k]) == Forgets(gone) + [Forget(k)]
  {
  }

  class Streamer {
    const viewRadius: nat
    const genRadius: nat
    const poolSize: nat
    var loaded: set<Chunk>
    var resident: set<Chunk>
    var centre: Chunk
    var hasCentre: bool
    var open: bool
    var resetPending: bool
    var wire: seq<Packet>

    /** While the connection is open the client has exactly the resident chunks, the set that other
        goroutines read; once it failed, nothing more is sent. The streamer's own set agrees with it,
        but for a dimension switch not yet applied, which empties only the resident set. */
    ghost predicate Valid()
      reads this
    {
      && genRadius == viewRadius + 1 && poolSize >= 2
      && resident == (if resetPending then {} else loaded)
      && Replay(wire).Has?
      && (open ==> Replay(wire) == Has(resident))
    }

    constructor (viewDistance: int, pool: int)
      ensures Valid() && loaded == {} && open && !resetPending
      ensures viewRadius == if viewDistance < 2 then 2 else if viewDistance > 16 then 16 else viewDistance
      ensures poolSize == (if pool < 2 then 2 else pool) && !hasCentre && wire == []
    {
      var v := if viewDistance < 2 then 2 else if viewDistance > 16 then 16 else viewDistance;
      viewRadius := v;
      genRadius := v + 1;
      poolSize := if pool < 2 then 2 else pool;
      loaded, resident := {}, {};
      centre, hasCentre := Chunk(0, 0), false;
      open, resetPending := true, false;
      wire := [];
    }

    /** Put a packet on the connection; a failure closes it. */
    method Send(p: Packet, works: bool) returns (ok: bool)
      modifies this`open, this`wire
      ensures ok == (old(open) && works) && open == ok
      ensures wire == if ok then old(wire) + [p] else old(wire)
    {
      ok := open && works;
      open := ok;
      if ok {
        wire := wire + [p];
      }
    }

    method SetResident(k: Chunk, present: bool)
      modifies this`resident
      ensures resident == if present then old(resident) + {k} else old(resident) - {k}
    {
      resident := if present then resident + {k} else resident - {k};
    }

    /** Called by the one that moves the player, with the respawn packet. */
    method SwitchDimension()
      requires Valid()
      modifies this`resident, this`resetPending, this`wire
      ensures Valid() && resetPending && resident == {}
      ensures wire == if open then old(wire) + [Respawn] else old(wire)
    {
      hide Replay;
      ReplayAppend(wire, Respawn);
      resetPending := true;
      resident := {};
      if open {
        wire := wire + [Respawn];
      }
    }

    /** The two sets agree again. */
    method ApplyPendingSwitch()
      requires Valid()
      modifies this`loaded, this`resident, this`resetPending
      ensures Valid() && !resetPending && resident == loaded == if old(resetPending) then {} else old(loaded)
    {
      if !resetPending {
        return;
      }
      resetPending := false;
      loaded := {};
      resident := {};
    }

    /** The keys not loaded, in their order. */
    method Lacking(keys: seq<Chunk>) returns (pending: seq<Chunk>)
      ensures pending == Pending(keys, loaded)
    {
      hide Pending;
      pending := [];
      assert keys[0..] == keys;
      for i := 0 to |keys|
        invariant pending + Pending(keys[i..], loaded) == Pending(keys, loaded)
      {
        PendingStep(pending, keys[i..], loaded);
        assert keys[i..][1..] == keys[i + 1..];
        if keys[i] !in loaded {
          pending := pending + [keys[i]];
        }
      }
    }

    /** `parallelSend`: whatever the order of the answers, the pending chunks go out in list order, up to
        the first whose frame did not arrive before an error, or to the send that fails, or to a
        dimension switch, pending or just before a check. */
    method ParallelSend(keys: seq<Chunk>, o: Outcome) returns (ghost sent: nat)
      requires Valid() && Distinct(keys)
      modifies this`loaded, this`resident, this`open, this`resetPending, this`wire
      ensures Emitted(old(wire), old(loaded), Pending(keys, old(loaded)), sent) && (open ==> old(open))
      ensures var jobs := Pending(keys, old(loaded));
              && sent <= Reach(ReadyJobs(jobs, o), o.failAt, old(open))
              && (!resetPending ==>
                    && sent == Reach(ReadyJobs(jobs, o), o.failAt, old(open))
                    && open == StaysOpen(ReadyJobs(jobs, o), o.failAt, old(open)))
      ensures o.switchAt.None? ==> resetPending == old(resetPending)
      ensures old(resetPending) ==> sent == 0 && wire == old(wire) && resetPending
    {
      hide Valid, Ready, Good, Emitted, Reach;
      var pending := Lacking(keys);
      sent := SendReady(pending, o);
    }

    /** The first n pending chunks went out, in order, on top of an earlier wire and residency, and
        nothing after them but the respawn of a dimension switch. */
    ghost predicate Emitted(was: seq<Packet>, had: set<Chunk>, pending: seq<Chunk>, n: nat)
      reads this
    {
      && Valid() && n <= |pending| && loaded == had + Members(pending[..n])
      && (wire == was + Frames(pending[..n]) || (resetPending && wire == was + Frames(pending[..n]) + [Respawn]))
    }

    /** One frame in the caller's order; the residency follows only what was sent. */
    method SendFrame(pending: seq<Chunk>, n: nat, works: bool, ghost was: seq<Packet>, ghost had: set<Chunk>)
      returns (ok: bool)
      requires n < |pending| && Distinct(pending) && pending[n] !in had
      requires Emitted(was, had, pending, n) && !resetPending
      modifies this`loaded, this`resident, this`open, this`wire
      ensures ok == (old(open) && works) && open == ok
      ensures Emitted(was, had, pending, if ok then n + 1 else n)
    {
      hide Frames, Members, Distinct;
      FrameStep(pending, n);
      var j := pending[n];
      ok := Send(Frame(j), works);
      if ok {
        ReplayAppend(old(wire), Frame(j));
        loaded := loaded + {j};
        SetResident(j, true);
      }
    }

    /** Send what is ready from place `from` on. The run stops early at a send that fails, or at a
        check, counted from `seen`, that finds a dimension switch. */
    method Emit(pending: seq<Chunk>, generated: set<Chunk>, from: nat, o: Outcome, seen: nat,
                ghost was: seq<Packet>, ghost had: set<Chunk>)
      returns (nextIdx: nat, checks: nat, failed: bool)
      requires Distinct(pending) && (forall k :: k in pending ==> k !in had)
      requires from <= Reach(Ready(pending, generated), o.failAt, open)
      requires Emitted(was, had, pending, from)
      modifies this`loaded, this`resident, this`open, this`resetPending, this`wire
      ensures Emitted(was, had, pending, nextIdx) && (open ==> old(open))
      ensures from <= nextIdx <= Reach(Ready(pending, generated), o.failAt, old(open))
      ensures !failed ==> nextIdx == Ready(pending, generated) && open == old(open) && resetPending == old(resetPending)
      ensures failed && !resetPending ==>
                !open && nextIdx == Reach(Ready(pending, generated), o.failAt, old(open)) < Ready(pending, generated)
      ensures o.switchAt.None? ==> resetPending == old(resetPending)
      ensures old(resetPending) ==> nextIdx == from && wire == old(wire) && resetPending
    {
      hide Ready, Pending, Valid, Frames, Members;
      nextIdx, checks, failed := from, seen, false;
      while nextIdx < |pending|
        invariant from <= nextIdx <= Reach(Ready(pending, generated), o.failAt, open)
        invariant Emitted(was, had, pending, nextIdx) && open == old(open) && resetPending == old(resetPending)
        invariant resetPending ==> nextIdx == from && wire == old(wire)
        decreases |pending| - nextIdx
      {
        checks := checks + 1;
        if o.switchAt.Some? && checks > o.switchAt.value && !resetPending {
          SwitchDimension();
        }
        if resetPending {
          failed := true;
          return;
        }
        if pending[nextIdx] !in generated {
          return;
        }
        var ok := SendFrame(pending, nextIdx, o.failAt.None? || nextIdx < o.failAt.value, was, had);
        if !ok {
          failed := true;
          return;
        }
        nextIdx := nextIdx + 1;
      }
    }

    /** The sender loop over the answers as they arrive. */
    method SendReady(pending: seq<Chunk>, o: Outcome) returns (nextIdx: nat)
      requires Valid() && Distinct(pending) && forall k :: k in pending ==> k !in loaded
      modifies this`loaded, this`resident, this`open, this`resetPending, this`wire
      ensures Emitted(old(wire), old(loaded), pending, nextIdx) && (open ==> old(open))
      ensures nextIdx <= Reach(ReadyJobs(pending, o), o.failAt, old(open))
      ensures !resetPending ==>
                && nextIdx == Reach(ReadyJobs(pending, o), o.failAt, old(open))
                && open == StaysOpen(ReadyJobs(pending, o), o.failAt, old(open))
      ensures o.switchAt.None? ==> resetPending == old(resetPending)
      ensures old(resetPending) ==> nextIdx == 0 && wire == old(wire) && resetPending
    {
      hide Ready, Pending, Valid, Good;
      var results := o.answers(pending);
      var generated: set<Chunk> := {};
      ghost var all := Good(results);
      nextIdx := 0;
      var failed := false;
      var checks: nat := 0;
      StartEmitting(pending, results);
      for i := 0 to |results|
        invariant Emitted(old(wire), old(loaded), pending, nextIdx) && (open ==> old(open))
        invariant generated <= all && nextIdx <= Reach(Ready(pending, all), o.failAt, old(open))
        invariant !failed ==> open == old(open) && nextIdx == Ready(pending, generated)
        invariant !failed ==> nextIdx <= Reach(Ready(pending, generated), o.failAt, open)
        invariant !failed ==> resetPending == old(resetPending) && generated + Good(results[i..]) == all
        invariant failed && !resetPending ==>
                    && nextIdx == Reach(Ready(pending, all), o.failAt, old(open))
                    && open == StaysOpen(Ready(pending, all), o.failAt, old(open))
        invariant o.switchAt.None? ==> resetPending == old(resetPending)
        invariant old(resetPending) ==> nextIdx == 0 && wire == old(wire) && resetPending
      {
        var r := results[i];
        GoodStep(results, i);
        if !r.ok {
          failed := true;
          continue;
        }
        if failed {
          continue;
        }
        ReadyMonotone(pending, generated, generated + {r.key});
        generated := generated + {r.key};
        ReadyMonotone(pending, generated, all);
        nextIdx, checks, failed := Emit(pending, generated, nextIdx, o, checks, old(wire), old(loaded));
      }
      GoodEnd(results);
    }

    method BatchEnd(c: Chunk, keys: seq<Chunk>, start: nat) returns (end: nat)
      requires start < |keys|
      ensures end == EndOf(c, keys, start, start, poolSize)
    {
      end := start;
      while end < |keys| && end - start < poolSize && Distance(c, keys[end]) == Distance(c, keys[start])
        invariant start <= end <= |keys|
        invariant EndOf(c, keys, start, end, poolSize) == EndOf(c, keys, start, start, poolSize)
      {
        end := end + 1;
      }
    }

    /** One batch on top of what this pass has already sent; `s` is what it would have sent without a
        dimension switch. */
    method SendBatch(batch: seq<Chunk>, o: Outcome, ghost was: seq<Packet>, ghost had: set<Chunk>,
                     ghost before: seq<Chunk>, ghost s: Streamed)
      returns (ghost sent: seq<Chunk>)
      requires Distinct(batch) && Emitted(was, had, before, |before|)
      requires before <= s.sent && (!resetPending ==> s == Streamed(before, open))
      modifies this`loaded, this`resident, this`open, this`resetPending, this`wire
      ensures Emitted(was, had, sent, |sent|) && (open ==> old(open))
      ensures var t := StreamBatch(batch, o, had, s);
              sent <= t.sent && (!resetPending ==> t == Streamed(sent, open))
      ensures o.switchAt.None? ==> resetPending == old(resetPending)
    {
      hide Valid, Ready, Good, Distinct, Frames, Members, Reach, StaysOpen;
      ghost var jobs := Pending(batch, loaded);
      ghost var n := ParallelSend(batch, o);
      assert before[..|before|] == before;
      BatchAdds(batch, o, had, s);
      sent := before + jobs[..n];
      FramesJoin(was, before, jobs[..n]);
      assert sent[..|sent|] == sent;
    }

    /** Send, or with `send` false only preload, the keys batch by batch, until a newer recenter is
        found or the connection is torn down. */
    method StreamPriority(c: Chunk, keys: seq<Chunk>, send: bool, env: nat -> Outcome, batching: bool)
      returns (next: Option<Chunk>, ghost sent: seq<Chunk>)
      requires Valid() && (send ==> !resetPending) && Distinct(keys)
      modifies this`loaded, this`resident, this`open, this`resetPending, this`wire
      ensures Emitted(old(wire), old(loaded), sent, |sent|) && (open ==> old(open))
      ensures next == Polled(c, keys, send, env, batching, poolSize)
      ensures IsFound(c, keys, send, env, batching, poolSize, next)
      ensures !send ==> open == old(open) && resetPending == old(resetPending)
      ensures !send ==> wire == old(wire) && loaded == old(loaded)
      ensures var t := Stream(c, keys, env, batching, poolSize, old(loaded), 0, 0, 0, Streamed([], old(open)));
              send ==> sent <= t.sent && (!resetPending ==> t == Streamed(sent, open))
      ensures send && (forall b :: env(b).switchAt.None?) ==> !resetPending
    {
      hide Valid, Ready, Pending, Distinct, Distance, Members, Frames, StreamBatch, EndOf, Emitted, IsFound;
      next, sent := None, [];
      AppendNothing();
      FoundExactly(c, keys, send, env, batching, poolSize);
      if !send && batching {
        next := env(0).next;
        return;
      }
      var lastPreloadedRing, start, b := 0, 0, 0;
      ghost var s := Streamed([], open);
      ghost var all := Stream(c, keys, env, batching, poolSize, loaded, 0, 0, 0, s);
      while start < |keys|
        invariant start <= |keys|
        invariant Emitted(old(wire), old(loaded), sent, |sent|) && (open ==> old(open))
        invariant !send ==> open == old(open) && resetPending == old(resetPending)
        invariant !send ==> wire == old(wire) && loaded == old(loaded)
        invariant sent <= s.sent && (send && !resetPending ==> s == Streamed(sent, open))
        invariant send && (forall b :: env(b).switchAt.None?) ==> !resetPending
        invariant Found(c, keys, send, env, batching, poolSize, start, b, lastPreloadedRing)
               == Found(c, keys, send, env, batching, poolSize, 0, 0, 0)
        invariant send ==> Stream(c, keys, env, batching, poolSize, old(loaded), start, b, lastPreloadedRing, s) == all
      {
        var ring := Distance(c, keys[start]);
        if send && ring > lastPreloadedRing && batching {
          if env(b).early.Some? {
            next := env(b).early;
            return;
          }
        }
        var end := BatchEnd(c, keys, start);
        if send {
          SliceDistinct(keys, start, end);
          ghost var t := StreamBatch(keys[start..end], env(b), old(loaded), s);
          sent := SendBatch(keys[start..end], env(b), old(wire), old(loaded), sent, s);
          s := t;
        }
        if env(b).next.Some? {
          next := env(b).next;
          return;
        }
        if env(b).cancelled {
          return;
        }
        if send && ring > lastPreloadedRing && batching {
          lastPreloadedRing := ring;
        }
        start, b := end, b + 1;
      }
    }

    /** Of the chunks `had`, all but `todo` have been looked at and those outside the view forgotten. */
    ghost predicate Dropped(was: seq<Packet>, had: set<Chunk>, view: set<Chunk>, todo: set<Chunk>, gone: seq<Chunk>)
      reads this
    {
      && Valid() && !resetPending && loaded == todo + had * view
      && Distinct(gone) && Members(gone) == had - view - todo
      && (open ==> wire == was + Forgets(gone))
    }

    /** Chunks that left the view are forgotten, whatever order the map is walked in. */
    method DropStale(view: set<Chunk>, failAt: Option<nat>) returns (ghost gone: seq<Chunk>)
      requires Valid() && !resetPending
      modifies this`loaded, this`resident, this`open, this`wire
      ensures Valid() && !resetPending
      ensures open == (old(open) && StaysOpen(|old(loaded) - view|, failAt, true))
      ensures Distinct(gone) && Members(gone) == old(loaded) - view && loaded == old(loaded) * view
      ensures open ==> wire == old(wire) + Forgets(gone)
    {
      hide Dropped;
      var todo := loaded;
      gone := [];
      var sends := 0;
      NothingDropped(view);
      while todo != {}
        invariant Dropped(old(wire), old(loaded), view, todo, gone) && todo <= old(loaded)
        invariant sends + |todo - view| == |old(loaded) - view|
        invariant open == (old(open) && StaysOpen(sends, failAt, true))
        decreases |todo|
      {
        var key :| key in todo;
        OneLess(todo, view, key);
        if key !in view {
          Drop(key, failAt.None? || sends < failAt.value, old(wire), old(loaded), view, todo, gone);
          sends := sends + 1;
          gone := gone + [key];
        } else {
          Stays(key, old(wire), old(loaded), view, todo, gone);
        }
        todo := todo - {key};
      }
      AllDropped(old(wire), old(loaded), view, gone);
    }

    lemma AllDropped(was: seq<Packet>, had: set<Chunk>, view: set<Chunk>, gone: seq<Chunk>)
      requires Dropped(was, had, view, {}, gone)
      ensures Valid() && !resetPending
      ensures Distinct(gone) && Members(gone) == had - view && loaded == had * view
      ensures open ==> wire == was + Forgets(gone)
    {
      hide Valid, Distinct, Members, Forgets;
    }

    lemma NothingDropped(view: set<Chunk>)
      requires Valid() && !resetPending
      ensures Dropped(wire, loaded, view, loaded, [])
    {
      NothingGone(wire);
    }

    lemma Stays(k: Chunk, was: seq<Packet>, had: set<Chunk>, view: set<Chunk>, todo: set<Chunk>, gone: seq<Chunk>)
      requires Dropped(was, had, view, todo, gone) && k in todo && k in view && todo <= had
      ensures Dropped(was, had, view, todo - {k}, gone)
    {
      hide Valid, Distinct, Members, Forgets;
    }

    /** Tell the client to forget one chunk. */
    method Drop(k: Chunk, works: bool, ghost was: seq<Packet>, ghost had: set<Chunk>, ghost view: set<Chunk>,
                ghost todo: set<Chunk>, ghost gone: seq<Chunk>)
      requires Dropped(was, had, view, todo, gone) && k in todo && k !in view && todo <= had
      modifies this`loaded, this`resident, this`open, this`wire
      ensures Dropped(was, had, view, todo - {k}, gone + [k]) && open == (old(open) && works)
    {
      hide Distinct, Members, Forgets, Replay;
      GoneStep(gone, k);
      SetResident(k, false);
      ReplayAppend(wire, Forget(k));
      var _ := Send(Forget(k), works);
      loaded := loaded - {k};
    }

    method Announce(c: Chunk, works: bool)
      requires Valid()
      modifies this`centre, this`hasCentre, this`open, this`wire
      ensures Valid() && centre == c && hasCentre && open == (old(open) && works)
      ensures open ==> wire == old(wire) + [CacheCentre(c)]
    {
      hide Replay;
      centre, hasCentre := c, true;
      ReplayAppend(wire, CacheCentre(c));
      var _ := Send(CacheCentre(c), works);
    }

    /** One pass around a centre. It starts from what is left after a dimension switch, if one came
        since the last pass. */
    method ProcessRecenter(c: Chunk, env: Pass)
      returns (next: Option<Chunk>, ghost gone: seq<Chunk>, ghost sent: seq<Chunk>)
      requires Valid()
      modifies this
      ensures Valid() && centre == c && hasCentre && (open ==> old(open))
      ensures next == env.Next(c, viewRadius, poolSize) && PassFinds(env, c, viewRadius, poolSize, next)
      ensures var had := if old(resetPending) then {} else old(loaded);
              var all := env.Sends(c, viewRadius, poolSize, had, old(open));
              && Distinct(gone) && Members(gone) == had - Square(c, viewRadius)
              && loaded == had * Square(c, viewRadius) + Members(sent)
              && sent <= all.sent && (!resetPending ==> all == Streamed(sent, open))
      ensures open ==> Followed(old(wire) + [CacheCentre(c)] + Forgets(gone) + Frames(sent))
      ensures (forall b :: env.view(b).switchAt.None?) ==> !resetPending
      ensures loaded <= Square(c, viewRadius)
      ensures open && next.None? && Calm(env.view) ==> !resetPending && loaded == Square(c, viewRadius)
      ensures old(open) && env.Working() && (forall b :: env.view(b).switchAt.None?) ==> open
    {
      hide Valid, Distinct, Near, Members, Frames, Forgets, Order, Ring, Within, Stream, Found, Polled, StaysOpen;
      hide IsFound, PassFinds;
      ApplyPendingSwitch();
      Outlook(c, env, loaded);
      NextExactly(env, c, viewRadius, poolSize);
      Announce(c, env.centreSent);
      var order := SpiralOrder(c.x, c.z, genRadius);
      var toSend, toPreGen := Split(c, order, viewRadius);
      SplitIs(c, viewRadius);
      gone := DropStale(Members(toSend), env.forgetFailAt);
      next, sent := StreamPriority(c, toSend, true, env.view, env.batching);
      assert sent[..|sent|] == sent;
      MembersIn(sent, Square(c, viewRadius));
      if next.Some? {
        return;
      }
      ghost var none;
      next, none := StreamPriority(c, toPreGen, false, env.ring, env.batching);
    }

    /** What a pass from the chunks `had` will come to. */
    lemma Outlook(c: Chunk, env: Pass, had: set<Chunk>)
      requires Valid()
      ensures var all := env.Sends(c, viewRadius, poolSize, had, open);
              && (forall k :: k in all.sent ==> k in Square(c, viewRadius))
              && (all.open && env.Next(c, viewRadius, poolSize).None? && Calm(env.view) ==>
                    had * Square(c, viewRadius) + Members(all.sent) == Square(c, viewRadius))
              && (env.Working() ==> all.open == open)
    {
      hide Distinct, Near, Members, Order, Pass.Next, Pass.Sends, Square, Calm;
      SendsInPlace(env, c, viewRadius, poolSize, had, open);
      if env.Working() { PassStaysOpen(env, c, viewRadius, poolSize, had, open); }
      var all := env.Sends(c, viewRadius, poolSize, had, open);
      if all.open && env.Next(c, viewRadius, poolSize).None? && Calm(env.view) {
        PassCompletes(env, c, viewRadius, poolSize, had, open);
      }
    }

    /** The wire is `base`, but for the respawn of a dimension switch. */
    ghost predicate Followed(base: seq<Packet>)
      reads this
    {
      wire == base || (resetPending && wire == base + [Respawn])
    }

    /** Any sequence of passes: each starts from the recenter that cut the last one short, or else from
        the one that comes off the queue, and dimension switches may come at any time between checks. */
    method Run(passes: seq<Pass>)
      requires Valid()
      modifies this
      ensures Valid() && (open ==> old(open))
      ensures |passes| > 0 ==> hasCentre && centre == CentreOf(passes, |passes| - 1, viewRadius, poolSize)
      ensures |passes| > 0 ==> loaded <= Square(centre, viewRadius)
    {
      hide Valid, Pass.Next, Pass.Sends, Distinct, Near, Forgets, Frames, Members, Square, Calm, Followed, Pass.Working;
      AppendNothing();
      var next: Option<Chunk> := None;
      for i := 0 to |passes|
        invariant Valid() && (open ==> old(open))
        invariant i == 0 ==> next.None?
        invariant i > 0 ==> hasCentre && centre == CentreOf(passes, i - 1, viewRadius, poolSize)
        invariant i > 0 ==> loaded <= Square(centre, viewRadius)
        invariant i > 0 ==> next == passes[i - 1].Next(centre, viewRadius, poolSize)
      {
        if passes[i].switchFirst {
          SwitchDimension();
        }
        ghost var gone, sent;
        next, gone, sent := ProcessRecenter(if next.Some? then next.value else passes[i].request, passes[i]);
      }
    }

    lemma AppendNothing()
      requires Valid()
      ensures Emitted(wire, loaded, [], 0) && poolSize > 0
    {
      assert wire + Frames([]) == wire;
    }

    lemma StartEmitting(pending: seq<Chunk>, results: seq<FrameResult>)
      requires Valid()
      ensures Emitted(wire, loaded, pending, 0) && Ready(pending, {}) == 0 && results[0..] == results
    {
      assert pending[..0] == [];
    }
  }
}
