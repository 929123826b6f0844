/** What one pass of the streamer of internal/network/streamer.go sends: the order of the view, cut into
    batches of one ring, each resequenced from the answers of the workers. */
module Batching {
  import opened Spiral
  import opened Wrappers

  // ---- Sets of chunks

  function Members(keys: seq<Chunk>): set<Chunk> { set k | k in keys }

  function Square(c: Chunk, r: nat): set<Chunk> { Members(Order(c, r)) }

  lemma MembersHas(s: seq<Chunk>)
    ensures forall k :: k in Members(s) <==> k in s
  {
  }

  /** The chunks at most r away in either direction. */
  lemma SquareMeans(c: Chunk, r: nat, k: Chunk)
    ensures k in Square(c, r) <==> c.x - r <= k.x <= c.x + r && c.z - r <= k.z <= c.z + r
  {
    OrderCovers(c, r);
    MembersHas(Order(c, r));
  }

  lemma MembersJoin(a: seq<Chunk>, b: seq<Chunk>)
    ensures Members(a + b) == Members(a) + Members(b)
  {
  }

  lemma MembersIn(a: seq<Chunk>, s: set<Chunk>)
    ensures (forall k :: k in a ==> k in s) ==> Members(a) <= s
  {
  }

  lemma OneLess(s: set<Chunk>, view: set<Chunk>, k: Chunk)
    requires k in s
    ensures |s - {k}| == |s| - 1
    ensures |s - {k} - view| == |s - view| - if k in view then 0 else 1
  {
    assert s - {k} - view == s - view - {k};
  }

  // ---- Resequencing

  /** A worker's answer: a frame for the chunk or an error. */
  datatype FrameResult = FrameResult(key: Chunk, ok: bool)

  /** The chunks of a batch still to send. */
  function Pending(keys: seq<Chunk>, loaded: set<Chunk>): (p: seq<Chunk>)
    ensures forall k :: k in p <==> k in keys && k !in loaded
    ensures Distinct(keys) ==> Distinct(p)
    ensures |p| <= |keys|
  {
    if keys == [] then []
    else
      var rest := Pending(keys[1..], loaded);
      assert Distinct(keys) ==> Distinct(keys[1..]);
      if keys[0] in loaded then rest
      else
        assert Distinct(keys) ==> keys[0] !in keys[1..];
        [keys[0]] + rest
  }

  /** The pending chunks are in the order of the keys. */
  lemma {:induction false} PendingAppend(keys: seq<Chunk>, k: Chunk, loaded: set<Chunk>)
    ensures Pending(keys + [k], loaded) == Pending(keys, loaded) + if k in loaded then [] else [k]
  {
    if keys == [] {
      assert [k][1..] == [] && keys + [k] == [k];
    } else {
      assert (keys + [k])[1..] == keys[1..] + [k];
      PendingAppend(keys[1..], k, loaded);
    }
  }

  lemma PendingStep(before: seq<Chunk>, keys: seq<Chunk>, loaded: set<Chunk>)
    requires keys != []
    ensures before + Pending(keys, loaded)
            == (if keys[0] in loaded then before else before + [keys[0]]) + Pending(keys[1..], loaded)
  {
  }

  /** The chunks whose frames arrived before the first error. */
  function Good(results: seq<FrameResult>): set<Chunk> {
    if results == [] || !results[0].ok then {} else {results[0].key} + Good(results[1..])
  }

  /** How many of the first pending chunks have all arrived. */
  function Ready(pending: seq<Chunk>, arrived: set<Chunk>): (n: nat)
    ensures n <= |pending|
    ensures forall i :: 0 <= i < n ==> pending[i] in arrived
    ensures n < |pending| ==> pending[n] !in arrived
  {
    if pending == [] || pending[0] !in arrived then 0 else 1 + Ready(pending[1..], arrived)
  }

  lemma ReadyIs(pending: seq<Chunk>, arrived: set<Chunk>, n: nat)
    requires n <= |pending| && (forall i :: 0 <= i < n ==> pending[i] in arrived)
    ensures Ready(pending, arrived) >= n
  {
  }

  /** Frames for all the pending chunks, in any order and no error: the whole list is ready. */
  lemma AllReady(pending: seq<Chunk>, results: seq<FrameResult>)
    requires forall r :: r in results ==> r.ok
    requires forall k :: k in pending ==> FrameResult(k, true) in results
    ensures Ready(pending, Good(results)) == |pending|
  {
    forall k | FrameResult(k, true) in results ensures k in Good(results) { AllGood(results, k); }
    ReadyIs(pending, Good(results), |pending|);
  }

  lemma AllGood(results: seq<FrameResult>, k: Chunk)
    requires forall r :: r in results ==> r.ok
    requires FrameResult(k, true) in results
    ensures k in Good(results)
  {
    if results[0].key != k { AllGood(results[1..], k); }
  }

  /** A chunk's frame counts when it came without error and before the first one. */
  lemma {:induction false} GoodMeans(results: seq<FrameResult>, k: Chunk)
    ensures k in Good(results) <==>
              exists i :: 0 <= i < |results| && results[i].key == k && forall j :: 0 <= j <= i ==> results[j].ok
  {
    if results != [] && results[0].ok {
      var rest := results[1..];
      GoodMeans(rest, k);
      if i :| 0 <= i < |rest| && rest[i].key == k && forall j :: 0 <= j <= i ==> rest[j].ok {
        assert results[i + 1] == rest[i];
        forall j | 0 <= j <= i + 1 ensures results[j].ok { if j > 0 { assert results[j] == rest[j - 1]; } }
      }
      if i :| 0 < i < |results| && results[i].key == k && forall j :: 0 <= j <= i ==> results[j].ok {
        assert rest[i - 1] == results[i];
        forall j | 0 <= j <= i - 1 ensures rest[j].ok { assert rest[j] == results[j + 1]; }
      }
    }
  }

  lemma GoodStep(results: seq<FrameResult>, i: nat)
    requires i < |results|
    ensures Good(results[i..]) == if results[i].ok then {results[i].key} + Good(results[i + 1..]) else {}
  {
    assert results[i..][1..] == results[i + 1..];
  }

  lemma GoodEnd(results: seq<FrameResult>)
    ensures Good(results[|results|..]) == {}
  {
  }

  lemma ReadyMonotone(pending: seq<Chunk>, a: set<Chunk>, b: set<Chunk>)
    requires a <= b
    ensures Ready(pending, a) <= Ready(pending, b)
  {
    ReadyIs(pending, b, Ready(pending, a));
  }

  // ---- Batches

  ghost predicate Near(c: Chunk, s: seq<Chunk>) {
    forall i, j :: 0 <= i < j < |s| ==> Distance(c, s[i]) <= Distance(c, s[j])
  }

  /** A batch stays within one ring and within the pool, and is as long as that allows. */
  ghost predicate IsBatch(c: Chunk, keys: seq<Chunk>, from: nat, to: nat, pool: nat) {
    && from < to <= |keys| && to - from <= pool
    && (forall i :: from <= i < to ==> Distance(c, keys[i]) == Distance(c, keys[from]))
    && (to == |keys| || to - from == pool || Distance(c, keys[to]) != Distance(c, keys[from]))
  }

  /** Where the batch that starts at `from` ends, when it reaches at least to `to`. */
  function EndOf(c: Chunk, keys: seq<Chunk>, from: nat, to: nat, pool: nat): (end: nat)
    requires from <= to <= |keys| && from < |keys|
    ensures to <= end <= |keys| && (from == to && pool > 0 ==> end > to)
    decreases |keys| - to
  {
    if to < |keys| && to - from < pool && Distance(c, keys[to]) == Distance(c, keys[from])
    then EndOf(c, keys, from, to + 1, pool) else to
  }

  lemma {:induction false} EndIsBatch(c: Chunk, keys: seq<Chunk>, from: nat, to: nat, pool: nat)
    requires from < to <= |keys| && to - from <= pool
    requires forall i :: from <= i < to ==> Distance(c, keys[i]) == Distance(c, keys[from])
    ensures IsBatch(c, keys, from, EndOf(c, keys, from, to, pool), pool)
    decreases |keys| - to
  {
    hide Distance;
    if to < |keys| && to - from < pool && Distance(c, keys[to]) == Distance(c, keys[from]) {
      EndIsBatch(c, keys, from, to + 1, pool);
    }
  }

  /** The places between the batches. */
  function Cuts(c: Chunk, keys: seq<Chunk>, from: nat, pool: nat): (cuts: seq<nat>)
    requires from <= |keys| && pool > 0
    ensures cuts != [] && cuts[0] == from
    decreases |keys| - from
  {
    if from == |keys| then [from] else [from] + Cuts(c, keys, EndOf(c, keys, from, from, pool), pool)
  }

  /** The keys are covered in order by batches, each as long as it may be. */
  lemma {:induction false} CutsCover(c: Chunk, keys: seq<Chunk>, from: nat, pool: nat)
    requires from <= |keys| && pool > 0
    ensures var cuts := Cuts(c, keys, from, pool);
            && cuts[0] == from && cuts[|cuts| - 1] == |keys|
            && forall b :: 0 <= b < |cuts| - 1 ==> IsBatch(c, keys, cuts[b], cuts[b + 1], pool)
    decreases |keys| - from
  {
    hide IsBatch, Distance, EndOf;
    if from < |keys| {
      NextBatch(c, keys, from, pool);
      var end := EndOf(c, keys, from, from, pool);
      CutsCover(c, keys, end, pool);
      var cuts, rest := Cuts(c, keys, from, pool), Cuts(c, keys, end, pool);
      forall b | 0 <= b < |cuts| - 1 ensures IsBatch(c, keys, cuts[b], cuts[b + 1], pool) {
        if b > 0 { assert cuts[b] == rest[b - 1] && cuts[b + 1] == rest[b]; }
      }
    }
  }

  lemma NextBatch(c: Chunk, keys: seq<Chunk>, from: nat, pool: nat)
    requires from < |keys| && pool > 0
    ensures IsBatch(c, keys, from, EndOf(c, keys, from, from, pool), pool)
  {
    EndIsBatch(c, keys, from, from + 1, pool);
  }

  /** What happens around one batch: what the workers answer to the jobs they are given, the send that
      fails, the check just before which a dimension switch comes, the newest recenter found after it
      or after the lighting preload before it, and whether the connection is being torn down. */
  datatype Outcome = Outcome(answers: seq<Chunk> -> seq<FrameResult>, failAt: Option<nat>, switchAt: Option<nat>,
                             early: Option<Chunk>, next: Option<Chunk>, cancelled: bool)

  /** How far a batch gets in which so many frames are ready. */
  function Reach(ready: nat, failAt: Option<nat>, open: bool): (n: nat)
    ensures n <= ready
  {
    if !open then 0 else if failAt.Some? && failAt.value < ready then failAt.value else ready
  }

  function StaysOpen(ready: nat, failAt: Option<nat>, open: bool): bool {
    open && (failAt.None? || failAt.value >= ready)
  }

  function ReadyJobs(jobs: seq<Chunk>, o: Outcome): (n: nat)
    ensures n <= |jobs|
  {
    Ready(jobs, Good(o.answers(jobs)))
  }

  /** What the keys from `start` on, from batch b, add to what was sent, without a dimension switch; the
      lighting of the rings up to `ring` is preloaded. */
  datatype Streamed = Streamed(sent: seq<Chunk>, open: bool)

  function Stream(c: Chunk, keys: seq<Chunk>, env: nat -> Outcome, batching: bool, pool: nat, had: set<Chunk>,
                  start: nat, b: nat, ring: nat, s: Streamed): Streamed
    requires start <= |keys| && pool > 0
    decreases |keys| - start
  {
    if start == |keys| then s
    else
      var r, o := Distance(c, keys[start]), env(b);
      if batching && r > ring && o.early.Some? then s
      else
        var end := EndOf(c, keys, start, start, pool);
        var s1 := StreamBatch(keys[start..end], o, had, s);
        if o.next.Some? || o.cancelled then s1
        else Stream(c, keys, env, batching, pool, had, end, b + 1, if batching && r > ring then r else ring, s1)
  }

  function StreamBatch(batch: seq<Chunk>, o: Outcome, had: set<Chunk>, s: Streamed): Streamed {
    var jobs := Pending(batch, had + Members(s.sent));
    var ready := ReadyJobs(jobs, o);
    Streamed(s.sent + jobs[..Reach(ready, o.failAt, s.open)], StaysOpen(ready, o.failAt, s.open))
  }

  /** The newer recenter found on the way, if any. */
  function Found(c: Chunk, keys: seq<Chunk>, send: bool, env: nat -> Outcome, batching: bool, pool: nat,
                 start: nat, b: nat, ring: nat): Option<Chunk>
    requires start <= |keys| && pool > 0
    decreases |keys| - start
  {
    if start == |keys| then None
    else
      var r, o := Distance(c, keys[start]), env(b);
      var lighting := send && batching && r > ring;
      if lighting && o.early.Some? then o.early
      else if o.next.Some? then o.next
      else if o.cancelled then None
      else
        var end := EndOf(c, keys, start, start, pool);
        Found(c, keys, send, env, batching, pool, end, b + 1, if lighting then r else ring)
  }

  /** A batch generator preloads everything at once. */
  function Polled(c: Chunk, keys: seq<Chunk>, send: bool, env: nat -> Outcome, batching: bool, pool: nat): Option<Chunk>
    requires pool > 0
  {
    if !send && batching then env(0).next else Found(c, keys, send, env, batching, pool, 0, 0, 0)
  }

  /** The workers answer every job with its frame, in whatever order. */
  ghost predicate Answered(o: Outcome) {
    forall jobs :: (forall r :: r in o.answers(jobs) ==> r.ok)
                   && (forall k :: k in jobs ==> FrameResult(k, true) in o.answers(jobs))
  }

  ghost predicate Calm(env: nat -> Outcome) {
    forall b :: Answered(env(b)) && env(b).switchAt.None? && !env(b).cancelled
  }

  lemma NearAppend(c: Chunk, keys: seq<Chunk>, at: nat, a: seq<Chunk>, b: seq<Chunk>, d: nat)
    requires Near(c, keys) && Near(c, a) && at < |keys| && Distance(c, keys[at]) == d
    requires forall k :: k in a ==> k in keys[..at]
    requires forall k :: k in b ==> Distance(c, k) == d
    ensures Near(c, a + b)
  {
    forall i | 0 <= i < |a| ensures Distance(c, a[i]) <= d {
      assert a[i] in keys[..at];
    }
    forall i | 0 <= i < |b| ensures Distance(c, b[i]) == d { assert b[i] in b; }
  }

  lemma BatchBounds(c: Chunk, keys: seq<Chunk>, from: nat, to: nat, pool: nat)
    requires IsBatch(c, keys, from, to, pool)
    ensures from < to <= |keys|
  {
  }

  lemma BatchOrder(c: Chunk, keys: seq<Chunk>, from: nat, to: nat, a: seq<Chunk>, b: seq<Chunk>, pool: nat)
    requires Near(c, keys) && Near(c, a) && IsBatch(c, keys, from, to, pool)
    requires (forall k :: k in a ==> k in keys[..from]) && (forall k :: k in b ==> k in keys[from..to])
    ensures Near(c, a + b) && forall k :: k in a + b ==> k in keys[..to]
  {
    hide Distance;
    SameRing(c, keys, from, to, b);
    NearAppend(c, keys, from, a, b, Distance(c, keys[from]));
    assert keys[..from] + keys[from..to] == keys[..to];
  }

  lemma SliceDistinct(keys: seq<Chunk>, from: nat, to: nat)
    requires Distinct(keys) && from <= to <= |keys|
    ensures Distinct(keys[from..to])
    ensures forall k :: k in keys[from..to] ==> k !in keys[..from]
  {
    forall k | k in keys[from..to] ensures k !in keys[..from] {
      var i :| from <= i < to && keys[i] == k;
    }
  }

  lemma SameRing(c: Chunk, keys: seq<Chunk>, from: nat, to: nat, b: seq<Chunk>)
    requires from < to <= |keys|
    requires forall i :: from <= i < to ==> Distance(c, keys[i]) == Distance(c, keys[from])
    requires forall k :: k in b ==> k in keys[from..to]
    ensures forall k :: k in b ==> Distance(c, k) == Distance(c, keys[from]) && k in keys[..to]
  {
    forall k | k in b ensures Distance(c, k) == Distance(c, keys[from]) && k in keys[..to] {
      var i :| 0 <= i < to - from && keys[from..to][i] == k;
      assert keys[..to][from + i] == k;
    }
  }

  // ---- What a stream sends

  /** What is sent comes from the keys passed so far, each once, nearest first, and nothing the client
      had already. */
  ghost predicate InPlace(c: Chunk, keys: seq<Chunk>, start: nat, had: set<Chunk>, sent: seq<Chunk>)
    requires start <= |keys|
  {
    Near(c, sent) && Distinct(sent) && forall k :: k in sent ==> k in keys[..start] && k !in had
  }

  lemma BatchInPlace(c: Chunk, keys: seq<Chunk>, start: nat, end: nat, pool: nat, had: set<Chunk>, s: Streamed,
                     o: Outcome)
    requires Distinct(keys) && Near(c, keys) && IsBatch(c, keys, start, end, pool)
    requires InPlace(c, keys, start, had, s.sent)
    ensures InPlace(c, keys, end, had, StreamBatch(keys[start..end], o, had, s).sent)
  {
    hide Ready, Good, Distance, Near, Distinct, IsBatch, Members, Reach;
    BatchBounds(c, keys, start, end, pool);
    SliceDistinct(keys, start, end);
    var jobs := Pending(keys[start..end], had + Members(s.sent));
    var more := jobs[..Reach(ReadyJobs(jobs, o), o.failAt, s.open)];
    PrefixDistinct(jobs, |more|);
    BatchOrder(c, keys, start, end, s.sent, more, pool);
    MembersHas(s.sent);
    DistinctAppend(s.sent, more);
  }

  lemma PrefixDistinct(s: seq<Chunk>, n: nat)
    requires Distinct(s) && n <= |s|
    ensures Distinct(s[..n]) && forall k :: k in s[..n] ==> k in s
  {
  }

  /** Everything a pass sends is in its place, and what was sent is never taken back. */
  lemma {:induction false} StreamInPlace(c: Chunk, keys: seq<Chunk>, env: nat -> Outcome, batching: bool, pool: nat,
                                         had: set<Chunk>, start: nat, b: nat, ring: nat, s: Streamed)
    requires start <= |keys| && pool > 0 && Distinct(keys) && Near(c, keys) && InPlace(c, keys, start, had, s.sent)
    ensures var t := Stream(c, keys, env, batching, pool, had, start, b, ring, s);
            InPlace(c, keys, |keys|, had, t.sent) && s.sent <= t.sent && (t.open ==> s.open)
    decreases |keys| - start
  {
    hide Distance, IsBatch, InPlace, StreamBatch, EndOf;
    PlaceGrows(c, keys, start, had, s.sent);
    if start < |keys| {
      var end := EndOf(c, keys, start, start, pool);
      var s1 := StreamBatch(keys[start..end], env(b), had, s);
      var r := Distance(c, keys[start]);
      NextBatch(c, keys, start, pool);
      BatchInPlace(c, keys, start, end, pool, had, s, env(b));
      BatchAdds(keys[start..end], env(b), had, s);
      PlaceGrows(c, keys, end, had, s1.sent);
      StreamInPlace(c, keys, env, batching, pool, had, end, b + 1, if batching && r > ring then r else ring, s1);
    }
  }

  lemma BatchAdds(batch: seq<Chunk>, o: Outcome, had: set<Chunk>, s: Streamed)
    ensures var t := StreamBatch(batch, o, had, s); s.sent <= t.sent && (t.open ==> s.open)
  {
  }

  lemma PlaceGrows(c: Chunk, keys: seq<Chunk>, start: nat, had: set<Chunk>, sent: seq<Chunk>)
    requires start <= |keys| && InPlace(c, keys, start, had, sent)
    ensures InPlace(c, keys, |keys|, had, sent)
  {
    hide Near, Distinct;
    assert keys[..|keys|] == keys && forall k :: k in keys[..start] ==> k in keys;
  }

  /** A batch whose jobs are all answered, and after which the connection is still open, sends all it lacks. */
  lemma BatchCompletes(batch: seq<Chunk>, o: Outcome, had: set<Chunk>, s: Streamed)
    requires Answered(o) && StreamBatch(batch, o, had, s).open
    ensures had + Members(StreamBatch(batch, o, had, s).sent) == had + Members(s.sent) + Members(batch)
  {
    hide Ready, Good, Members;
    var jobs := Pending(batch, had + Members(s.sent));
    assert o.answers(jobs) == o.answers(jobs);
    AllReady(jobs, o.answers(jobs));
    assert jobs[..|jobs|] == jobs;
    MembersJoin(s.sent, jobs);
    MembersHas(jobs);
    MembersHas(batch);
  }

  /** A calm stream that no newer recenter cuts short, and after which the connection is still open, has
      sent everything the client lacked. */
  lemma {:induction false} StreamCompletes(c: Chunk, keys: seq<Chunk>, env: nat -> Outcome, batching: bool, pool: nat,
                                           had: set<Chunk>, start: nat, b: nat, ring: nat, s: Streamed)
    requires start <= |keys| && pool > 0 && Calm(env)
    requires Found(c, keys, true, env, batching, pool, start, b, ring).None?
    requires Stream(c, keys, env, batching, pool, had, start, b, ring, s).open
    requires had + Members(s.sent) == had + Members(keys[..start])
    ensures had + Members(Stream(c, keys, env, batching, pool, had, start, b, ring, s).sent) == had + Members(keys)
    decreases |keys| - start
  {
    hide Distance, StreamBatch, Members, Answered, EndOf;
    if start == |keys| {
      assert keys[..start] == keys;
    } else {
      var end := EndOf(c, keys, start, start, pool);
      var s1 := StreamBatch(keys[start..end], env(b), had, s);
      var r := Distance(c, keys[start]);
      OpenBefore(c, keys, env, batching, pool, had, end, b + 1, if batching && r > ring then r else ring, s1);
      BatchCompletes(keys[start..end], env(b), had, s);
      MembersJoin(keys[..start], keys[start..end]);
      assert keys[..start] + keys[start..end] == keys[..end];
      StreamCompletes(c, keys, env, batching, pool, had, end, b + 1, if batching && r > ring then r else ring, s1);
    }
  }

  /** A connection that is open in the end was open all along. */
  lemma {:induction false} OpenBefore(c: Chunk, keys: seq<Chunk>, env: nat -> Outcome, batching: bool, pool: nat,
                                      had: set<Chunk>, start: nat, b: nat, ring: nat, s: Streamed)
    requires start <= |keys| && pool > 0 && Stream(c, keys, env, batching, pool, had, start, b, ring, s).open
    ensures s.open
    decreases |keys| - start
  {
    hide Distance, StreamBatch, EndOf;
    if start < |keys| {
      var end := EndOf(c, keys, start, start, pool);
      var s1 := StreamBatch(keys[start..end], env(b), had, s);
      var r := Distance(c, keys[start]);
      BatchAdds(keys[start..end], env(b), had, s);
      if s1.open {
      } else if !((batching && r > ring && env(b).early.Some?) || env(b).next.Some? || env(b).cancelled) {
        OpenBefore(c, keys, env, batching, pool, had, end, b + 1, if batching && r > ring then r else ring, s1);
      }
    }
  }

  lemma BatchOpen(batch: seq<Chunk>, o: Outcome, had: set<Chunk>, s: Streamed)
    requires o.failAt.None?
    ensures StreamBatch(batch, o, had, s).open == s.open
  {
  }

  /** And when every send works it stays open. */
  lemma {:induction false} StreamOpen(c: Chunk, keys: seq<Chunk>, env: nat -> Outcome, batching: bool, pool: nat,
                                      had: set<Chunk>, start: nat, b: nat, ring: nat, s: Streamed)
    requires start <= |keys| && pool > 0 && forall i :: env(i).failAt.None?
    ensures Stream(c, keys, env, batching, pool, had, start, b, ring, s).open == s.open
    decreases |keys| - start
  {
    hide Distance, EndOf, StreamBatch;
    if start < |keys| {
      var end := EndOf(c, keys, start, start, pool);
      var s1 := StreamBatch(keys[start..end], env(b), had, s);
      var r := Distance(c, keys[start]);
      BatchOpen(keys[start..end], env(b), had, s);
      StreamOpen(c, keys, env, batching, pool, had, end, b + 1, if batching && r > ring then r else ring, s1);
    }
  }

  // ---- Which newer recenter is found, and exactly what is sent by then

  /** The ring of the j-th batch. */
  function RingOf(c: Chunk, keys: seq<Chunk>, cuts: seq<nat>, j: nat): nat
    requires j < |cuts| - 1
  {
    if cuts[j] < |keys| then Distance(c, keys[cuts[j]]) else 0
  }

  /** The j-th batch is the first of a ring past the centre, whose lighting is preloaded before it. */
  ghost predicate Lit(c: Chunk, keys: seq<Chunk>, cuts: seq<nat>, j: nat)
    requires j < |cuts| - 1
  {
    RingOf(c, keys, cuts, j) > 0 && forall i: nat :: i < j ==> RingOf(c, keys, cuts, i) < RingOf(c, keys, cuts, j)
  }

  /** A newer recenter is found before the j-th batch is sent. */
  ghost predicate EarlyAt(c: Chunk, keys: seq<Chunk>, cuts: seq<nat>, send: bool, env: nat -> Outcome,
                          batching: bool, j: nat)
    requires j < |cuts| - 1
  {
    send && batching && env(j).early.Some? && Lit(c, keys, cuts, j)
  }

  /** The stream ends with the j-th batch. */
  ghost predicate Stops(c: Chunk, keys: seq<Chunk>, cuts: seq<nat>, send: bool, env: nat -> Outcome,
                        batching: bool, j: nat)
    requires j < |cuts| - 1
  {
    EarlyAt(c, keys, cuts, send, env, batching, j) || env(j).next.Some? || env(j).cancelled
  }

  /** x is what is found at the first batch that ends the stream, or nothing when none does. */
  ghost predicate FirstFind(c: Chunk, keys: seq<Chunk>, cuts: seq<nat>, send: bool, env: nat -> Outcome,
                            batching: bool, x: Option<Chunk>)
  {
    && ((forall i: nat :: i < |cuts| - 1 ==> !Stops(c, keys, cuts, send, env, batching, i)) ==> x.None?)
    && forall j: nat :: j < |cuts| - 1 && Stops(c, keys, cuts, send, env, batching, j)
                        && (forall i: nat :: i < j ==> !Stops(c, keys, cuts, send, env, batching, i)) ==>
                          x == if EarlyAt(c, keys, cuts, send, env, batching, j) then env(j).early else env(j).next
  }

  lemma {:induction false} CutsAt(c: Chunk, keys: seq<Chunk>, from: nat, pool: nat, j: nat)
    requires from <= |keys| && pool > 0 && j < |Cuts(c, keys, from, pool)|
    ensures var cuts := Cuts(c, keys, from, pool);
            && cuts[j] <= |keys| && (j == |cuts| - 1 <==> cuts[j] == |keys|)
            && (j < |cuts| - 1 ==> cuts[j + 1] == EndOf(c, keys, cuts[j], cuts[j], pool))
    decreases |keys| - from
  {
    hide EndOf, Distance;
    if from < |keys| {
      EndLater(c, keys, from, pool);
      var end := EndOf(c, keys, from, from, pool);
      if j > 0 { CutsAt(c, keys, end, pool, j - 1); }
    }
  }

  lemma EndLater(c: Chunk, keys: seq<Chunk>, from: nat, pool: nat)
    requires from < |keys| && pool > 0
    ensures from < EndOf(c, keys, from, from, pool) <= |keys|
  {
  }

  /** What `ring` is when the b-th batch is reached: the outermost ring of the batches before. */
  ghost predicate Outermost(c: Chunk, keys: seq<Chunk>, cuts: seq<nat>, b: nat, ring: nat)
    requires b < |cuts|
  {
    && (forall i: nat :: i < b ==> RingOf(c, keys, cuts, i) <= ring)
    && (ring == 0 || exists i: nat :: i < b && RingOf(c, keys, cuts, i) == ring)
  }

  lemma OutermostNext(c: Chunk, keys: seq<Chunk>, cuts: seq<nat>, b: nat, ring: nat)
    requires b < |cuts| - 1
    requires Outermost(c, keys, cuts, b, ring)
    ensures var r := RingOf(c, keys, cuts, b);
            (r > ring <==> Lit(c, keys, cuts, b)) && Outermost(c, keys, cuts, b + 1, if r > ring then r else ring)
  {
    hide Distance;
  }

  lemma {:induction false} FoundFrom(c: Chunk, keys: seq<Chunk>, send: bool, env: nat -> Outcome, batching: bool,
                                     pool: nat, b: nat, ring: nat, x: Option<Chunk>)
    requires pool > 0
    requires var cuts := Cuts(c, keys, 0, pool);
             && b < |cuts| && cuts[b] <= |keys|
             && (send && batching ==> Outermost(c, keys, cuts, b, ring))
             && (forall i: nat :: i < b ==> !Stops(c, keys, cuts, send, env, batching, i))
             && x == Found(c, keys, send, env, batching, pool, cuts[b], b, ring)
    ensures FirstFind(c, keys, Cuts(c, keys, 0, pool), send, env, batching, x)
    decreases |Cuts(c, keys, 0, pool)| - b
  {
    hide Cuts, EndOf, Distance, Outermost, Lit;
    var cuts := Cuts(c, keys, 0, pool);
    CutsAt(c, keys, 0, pool, b);
    if b < |cuts| - 1 {
      if send && batching { OutermostNext(c, keys, cuts, b, ring); }
      if !Stops(c, keys, cuts, send, env, batching, b) {
        var r := RingOf(c, keys, cuts, b);
        CutsAt(c, keys, 0, pool, b + 1);
        FoundFrom(c, keys, send, env, batching, pool, b + 1, if send && batching && r > ring then r else ring, x);
      }
    }
  }

  /** What is found while the keys are sent, or with `send` false only preloaded: a batch generator preloads
      everything at once. */
  ghost predicate IsFound(c: Chunk, keys: seq<Chunk>, send: bool, env: nat -> Outcome, batching: bool, pool: nat,
                          x: Option<Chunk>)
    requires pool > 0
  {
    if !send && batching then x == env(0).next
    else FirstFind(c, keys, Cuts(c, keys, 0, pool), send, env, batching, x)
  }

  /** The newer recenter found on the way is that of the first batch that has one. */
  lemma FoundExactly(c: Chunk, keys: seq<Chunk>, send: bool, env: nat -> Outcome, batching: bool, pool: nat)
    requires pool > 0
    ensures IsFound(c, keys, send, env, batching, pool, Polled(c, keys, send, env, batching, pool))
  {
    FoundFrom(c, keys, send, env, batching, pool, 0, 0, Found(c, keys, send, env, batching, pool, 0, 0, 0));
  }

  /** The first n batches are sent whole, and then the stream ends: no newer recenter cuts it short before,
      and one is found there, or the connection is torn down, or no batch is left. */
  ghost predicate EndsAfter(c: Chunk, keys: seq<Chunk>, cuts: seq<nat>, env: nat -> Outcome, batching: bool, n: nat)
    requires n < |cuts|
  {
    && (forall j: nat :: j < n ==> !EarlyAt(c, keys, cuts, true, env, batching, j))
    && (forall j: nat :: j + 1 < n ==> env(j).next.None? && !env(j).cancelled)
    && (n == |cuts| - 1 || EarlyAt(c, keys, cuts, true, env, batching, n)
        || (n > 0 && (env(n - 1).next.Some? || env(n - 1).cancelled)))
  }

  lemma {:induction false} PendingParts(a: seq<Chunk>, b: seq<Chunk>, had: set<Chunk>)
    ensures Pending(a + b, had) == Pending(a, had) + Pending(b, had)
  {
    if a == [] {
      assert a + b == b;
    } else {
      assert (a + b)[1..] == a[1..] + b;
      PendingParts(a[1..], b, had);
    }
  }

  lemma {:induction false} PendingSame(keys: seq<Chunk>, x: set<Chunk>, y: set<Chunk>)
    requires forall k :: k in keys ==> (k in x <==> k in y)
    ensures Pending(keys, x) == Pending(keys, y)
  {
    if keys != [] { PendingSame(keys[1..], x, y); }
  }

  lemma PendingJoin(a: seq<Chunk>, b: seq<Chunk>, had: set<Chunk>)
    requires forall k :: k in b ==> k !in a
    ensures Pending(a + b, had) == Pending(a, had) + Pending(b, had + Members(Pending(a, had)))
  {
    PendingParts(a, b, had);
    PendingSame(b, had, had + Members(Pending(a, had)));
  }

  lemma BatchAll(batch: seq<Chunk>, o: Outcome, had: set<Chunk>, s: Streamed)
    requires Answered(o) && StreamBatch(batch, o, had, s).open
    ensures StreamBatch(batch, o, had, s).sent == s.sent + Pending(batch, had + Members(s.sent))
  {
    hide Ready, Good, Members;
    var jobs := Pending(batch, had + Members(s.sent));
    assert o.answers(jobs) == o.answers(jobs);
    AllReady(jobs, o.answers(jobs));
    assert jobs[..|jobs|] == jobs;
  }

  lemma StreamStep(c: Chunk, keys: seq<Chunk>, env: nat -> Outcome, batching: bool, pool: nat, had: set<Chunk>,
                   start: nat, b: nat, ring: nat, s: Streamed)
    requires start < |keys| && pool > 0
    ensures var r, o, end := Distance(c, keys[start]), env(b), EndOf(c, keys, start, start, pool);
            var s1 := StreamBatch(keys[start..end], o, had, s);
            Stream(c, keys, env, batching, pool, had, start, b, ring, s) ==
              if batching && r > ring && o.early.Some? then s
              else if o.next.Some? || o.cancelled then s1
              else Stream(c, keys, env, batching, pool, had, end, b + 1, if batching && r > ring then r else ring, s1)
  {
  }

  lemma StreamNothing(c: Chunk, keys: seq<Chunk>, env: nat -> Outcome, batching: bool, pool: nat, had: set<Chunk>,
                      b: nat, ring: nat, s: Streamed)
    requires pool > 0
    ensures Stream(c, keys, env, batching, pool, had, |keys|, b, ring, s) == s
  {
  }

  lemma {:induction false} SentFrom(c: Chunk, keys: seq<Chunk>, env: nat -> Outcome, batching: bool, pool: nat,
                                    had: set<Chunk>, b: nat, ring: nat, s: Streamed, n: nat)
    requires pool > 0 && Distinct(keys) && forall i :: Answered(env(i))
    requires var cuts := Cuts(c, keys, 0, pool);
             && b <= n < |cuts| && cuts[b] <= |keys|
             && (batching ==> Outermost(c, keys, cuts, b, ring)) && EndsAfter(c, keys, cuts, env, batching, n)
             && (b == n > 0 ==> n == |cuts| - 1 || EarlyAt(c, keys, cuts, true, env, batching, n))
             && s.sent == Pending(keys[..cuts[b]], had)
             && Stream(c, keys, env, batching, pool, had, cuts[b], b, ring, s).open
    ensures var cuts := Cuts(c, keys, 0, pool);
            cuts[n] <= |keys|
            && Stream(c, keys, env, batching, pool, had, cuts[b], b, ring, s).sent == Pending(keys[..cuts[n]], had)
    decreases n - b
  {
    hide Cuts, EndOf, Distance, Outermost, Lit, StreamBatch, Answered, Distinct, Members, Stream, Pending;
    var cuts := Cuts(c, keys, 0, pool);
    CutsAt(c, keys, 0, pool, b);
    if b < n {
      CutsAt(c, keys, 0, pool, b + 1);
      if batching { OutermostNext(c, keys, cuts, b, ring); }
      var r, batch := RingOf(c, keys, cuts, b), keys[cuts[b]..cuts[b + 1]];
      var s1, ring1 := StreamBatch(batch, env(b), had, s), if batching && r > ring then r else ring;
      StreamStep(c, keys, env, batching, pool, had, cuts[b], b, ring, s);
      assert !EarlyAt(c, keys, cuts, true, env, batching, b);
      if !(env(b).next.Some? || env(b).cancelled) {
        OpenBefore(c, keys, env, batching, pool, had, cuts[b + 1], b + 1, ring1, s1);
      }
      BatchAll(batch, env(b), had, s);
      SliceDistinct(keys, cuts[b], cuts[b + 1]);
      PendingJoin(keys[..cuts[b]], batch, had);
      assert keys[..cuts[b]] + batch == keys[..cuts[b + 1]];
      if !(env(b).next.Some? || env(b).cancelled) {
        SentFrom(c, keys, env, batching, pool, had, b + 1, ring1, s1, n);
      }
    } else if n == |cuts| - 1 {
      StreamNothing(c, keys, env, batching, pool, had, b, ring, s);
    } else {
      if batching { OutermostNext(c, keys, cuts, b, ring); }
      StreamStep(c, keys, env, batching, pool, had, cuts[b], b, ring, s);
    }
  }

  /** When all jobs are answered and the connection stays open, a stream that ends after n batches has sent
      exactly the chunks of those batches that the client lacked, in their order. */
  lemma SentExactly(c: Chunk, keys: seq<Chunk>, env: nat -> Outcome, batching: bool, pool: nat, had: set<Chunk>,
                    open: bool, n: nat)
    requires pool > 0 && Distinct(keys) && forall i :: Answered(env(i))
    requires var cuts := Cuts(c, keys, 0, pool);
             && n < |cuts| && EndsAfter(c, keys, cuts, env, batching, n)
             && Stream(c, keys, env, batching, pool, had, 0, 0, 0, Streamed([], open)).open
    ensures var cuts := Cuts(c, keys, 0, pool);
            var sent := Stream(c, keys, env, batching, pool, had, 0, 0, 0, Streamed([], open)).sent;
            cuts[n] <= |keys| && sent == Pending(keys[..cuts[n]], had)
  {
    hide Stream, Distinct, Answered, EndOf;
    assert keys[..0] == [];
    SentFrom(c, keys, env, batching, pool, had, 0, 0, Streamed([], open), n);
  }

  // ---- One pass

  /** What happens during a pass: the recenter that starts it when none is pending, whether a dimension
      switch comes before it, whether its cache generates in batches, whether the centre packet goes
      through and which forget packet does not, and its batches. */
  datatype Pass = Pass(request: Chunk, switchFirst: bool, batching: bool, centreSent: bool, forgetFailAt: Option<nat>,
                       view: nat -> Outcome, ring: nat -> Outcome) {
    /** The connection after the centre and so many forget packets. */
    function OpenAfter(open: bool, stale: nat): bool { open && centreSent && StaysOpen(stale, forgetFailAt, true) }

    /** The newer recenter that the pass around c finds. */
    function Next(c: Chunk, radius: nat, pool: nat): Option<Chunk>
      requires pool > 0
    {
      var next := Polled(c, Order(c, radius), true, view, batching, pool);
      if next.Some? then next else Polled(c, Ring(c, radius + 1), false, ring, batching, pool)
    }

    /** All the pass sends, without a dimension switch, to a client that has the chunks `had`. */
    function Sends(c: Chunk, radius: nat, pool: nat, had: set<Chunk>, open: bool): Streamed
      requires pool > 0
    {
      var square := Square(c, radius);
      Stream(c, Order(c, radius), view, batching, pool, had * square, 0, 0, 0,
             Streamed([], OpenAfter(open, |had - square|)))
    }

    ghost predicate Working() { centreSent && forgetFailAt.None? && forall b :: view(b).failAt.None? }
  }

  /** x is the newer recenter of a pass: found while the view is sent, or else while the ring around it is
      preloaded. */
  ghost predicate PassFinds(env: Pass, c: Chunk, radius: nat, pool: nat, x: Option<Chunk>)
    requires pool > 0
  {
    exists first ::
      && IsFound(c, Order(c, radius), true, env.view, env.batching, pool, first)
      && if first.Some? then x == first else IsFound(c, Ring(c, radius + 1), false, env.ring, env.batching, pool, x)
  }

  lemma NextExactly(env: Pass, c: Chunk, radius: nat, pool: nat)
    requires pool > 0
    ensures PassFinds(env, c, radius, pool, env.Next(c, radius, pool))
  {
    hide IsFound, Polled, Order, Ring;
    FoundExactly(c, Order(c, radius), true, env.view, env.batching, pool);
    FoundExactly(c, Ring(c, radius + 1), false, env.ring, env.batching, pool);
  }

  /** Every job is answered, every send works, and this newer recenter is found after the batch. */
  function Finding(x: Option<Chunk>): Outcome {
    Outcome(jobs => seq(|jobs|, i requires 0 <= i < |jobs| => FrameResult(jobs[i], true)), None, None, None, x, false)
  }

  /** A pass that finds x, if it is anything, after its first batch, and meets no trouble. */
  function PassFinding(x: Option<Chunk>): Pass {
    Pass(Chunk(0, 0), false, false, true, None,
         (b: nat) => Finding(if b == 0 then x else None), (b: nat) => Finding(None))
  }

  lemma FindingAnswers(x: Option<Chunk>)
    ensures Answered(Finding(x))
  {
    var o := Finding(x);
    forall jobs, k | k in jobs ensures FrameResult(k, true) in o.answers(jobs) {
      var i :| 0 <= i < |jobs| && jobs[i] == k;
      assert o.answers(jobs)[i] == FrameResult(k, true);
    }
  }

  lemma PassFindingFinds(x: Option<Chunk>, c: Chunk, radius: nat, pool: nat)
    requires pool > 0
    ensures PassFinding(x).Next(c, radius, pool) == x && PassFinding(x).Working() && Calm(PassFinding(x).view)
  {
    hide Order, Ring, Found;
    var env := PassFinding(x);
    OrderLength(c, radius);
    if x.None? {
      NothingFound(c, Order(c, radius), true, env.view, pool, 0, 0);
      NothingFound(c, Ring(c, radius + 1), false, env.ring, pool, 0, 0);
    } else {
      var first := env.view(0);
      assert first == Finding(x);
      FoundFirst(c, Order(c, radius), true, env.view, pool);
    }
    PassFindingCalm(x);
  }

  lemma FoundFirst(c: Chunk, keys: seq<Chunk>, send: bool, env: nat -> Outcome, pool: nat)
    requires keys != [] && pool > 0 && env(0).next.Some?
    ensures Found(c, keys, send, env, false, pool, 0, 0, 0) == env(0).next
  {
  }

  lemma PassFindingCalm(x: Option<Chunk>)
    ensures PassFinding(x).Working() && Calm(PassFinding(x).view)
  {
    hide Answered;
    var view := PassFinding(x).view;
    forall b: nat
      ensures Answered(view(b)) && view(b).failAt.None? && view(b).switchAt.None? && !view(b).cancelled
    {
      FindingAnswers(if b == 0 then x else None);
    }
  }

  lemma {:induction false} NothingFound(c: Chunk, keys: seq<Chunk>, send: bool, env: nat -> Outcome, pool: nat,
                                        start: nat, b: nat)
    requires start <= |keys| && pool > 0 && forall i :: env(i).next.None?
    ensures Found(c, keys, send, env, false, pool, start, b, 0).None?
    decreases |keys| - start
  {
    hide EndOf, Distance;
    if start < |keys| {
      EndLater(c, keys, start, pool);
      NothingFound(c, keys, send, env, pool, EndOf(c, keys, start, start, pool), b + 1);
    }
  }

  /** What a pass sends is part of the view and new to the client, each chunk once and nearest first. */
  lemma SendsInPlace(env: Pass, c: Chunk, radius: nat, pool: nat, had: set<Chunk>, open: bool)
    requires pool > 0
    ensures var sent := env.Sends(c, radius, pool, had, open).sent;
            && Near(c, sent) && Distinct(sent)
            && forall k :: k in sent ==> k in Square(c, radius) && k !in had
  {
    hide Distance, Order, Stream;
    OrderCovers(c, radius);
    OrderNear(c, radius);
    var view := Order(c, radius);
    assert InPlace(c, view, 0, had * Square(c, radius), []);
    StreamInPlace(c, view, env.view, env.batching, pool, had * Square(c, radius), 0, 0, 0,
                  Streamed([], env.OpenAfter(open, |had - Square(c, radius)|)));
    assert view[..|view|] == view;
  }

  /** A calm pass that no newer recenter cuts short, and after which the connection is open, leaves the
      client with exactly the view. */
  lemma PassCompletes(env: Pass, c: Chunk, radius: nat, pool: nat, had: set<Chunk>, open: bool)
    requires pool > 0 && Calm(env.view) && env.Next(c, radius, pool).None?
    requires env.Sends(c, radius, pool, had, open).open
    ensures had * Square(c, radius) + Members(env.Sends(c, radius, pool, had, open).sent) == Square(c, radius)
  {
    hide Distance, Order, Stream, Found, Calm, Members;
    var view := Order(c, radius);
    MembersIn([], {});
    assert view[..0] == [];
    StreamCompletes(c, view, env.view, env.batching, pool, had * Square(c, radius), 0, 0, 0,
                    Streamed([], env.OpenAfter(open, |had - Square(c, radius)|)));
  }

  /** A pass all of whose sends work leaves the connection as it was. */
  lemma PassStaysOpen(env: Pass, c: Chunk, radius: nat, pool: nat, had: set<Chunk>, open: bool)
    requires pool > 0 && env.Working()
    ensures env.Sends(c, radius, pool, had, open).open == open
  {
    hide Order, Stream;
    StreamOpen(c, Order(c, radius), env.view, env.batching, pool, had * Square(c, radius), 0, 0, 0,
               Streamed([], env.OpenAfter(open, |had - Square(c, radius)|)));
  }

  /** The centre of the i-th of some passes: the newer recenter found by the one before, or a request. */
  function CentreOf(passes: seq<Pass>, i: nat, radius: nat, pool: nat): Chunk
    requires i < |passes| && pool > 0
  {
    if i == 0 then passes[0].request
    else
      var next := passes[i - 1].Next(CentreOf(passes, i - 1, radius, pool), radius, pool);
      if next.Some? then next.value else passes[i].request
  }

  // ---- The view and the ring around it

  /** The chunks of an order within a radius, or those outside it. */
  function Within(c: Chunk, order: seq<Chunk>, radius: nat, inside: bool): seq<Chunk> {
    if order == [] then []
    else
      var rest := Within(c, order[1..], radius, inside);
      if (Distance(c, order[0]) <= radius) == inside then [order[0]] + rest else rest
  }

  lemma {:induction false} WithinAll(c: Chunk, a: seq<Chunk>, b: seq<Chunk>, radius: nat)
    requires forall k :: k in a ==> Distance(c, k) <= radius
    requires forall k :: k in b ==> Distance(c, k) > radius
    ensures Within(c, a + b, radius, true) == a && Within(c, a + b, radius, false) == b
  {
    if a != [] {
      assert (a + b)[1..] == a[1..] + b;
      WithinAll(c, a[1..], b, radius);
    } else if b != [] {
      assert a + b == b && [] + b[1..] == b[1..];
      WithinAll(c, [], b[1..], radius);
    }
  }

  /** The chunks to send are the view square in spiral order; the rest is the ring around it. */
  lemma SplitIs(c: Chunk, v: nat)
    ensures var toSend := Within(c, Order(c, v + 1), v, true);
            var toPreGen := Within(c, Order(c, v + 1), v, false);
            && toSend == Order(c, v) && toPreGen == Ring(c, v + 1)
            && Distinct(toSend) && Near(c, toSend) && Distinct(toPreGen) && Near(c, toPreGen)
  {
    OrderCovers(c, v);
    RingOnce(c, v + 1);
    WithinAll(c, Order(c, v), Ring(c, v + 1), v);
    OrderNear(c, v);
  }

  lemma OrderNear(c: Chunk, v: nat)
    ensures Near(c, Order(c, v))
  {
    forall i, j | 0 <= i < j < |Order(c, v)| ensures Distance(c, Order(c, v)[i]) <= Distance(c, Order(c, v)[j]) {
      NearFirst(c, v, i, j);
    }
  }

  /** The view and the rest of an order, kept in that order. */
  method Split(c: Chunk, order: seq<Chunk>, radius: nat) returns (toSend: seq<Chunk>, toPreGen: seq<Chunk>)
    ensures toSend == Within(c, order, radius, true) && toPreGen == Within(c, order, radius, false)
  {
    toSend, toPreGen := [], [];
    for i := 0 to |order|
      invariant toSend + Within(c, order[i..], radius, true) == Within(c, order, radius, true)
      invariant toPreGen + Within(c, order[i..], radius, false) == Within(c, order, radius, false)
    {
      var key := order[i];
      assert order[i..][1..] == order[i + 1..];
      if Distance(c, key) <= radius {
        toSend := toSend + [key];
      } else {
        toPreGen := toPreGen + [key];
      }
    }
  }
}
