/** The near-first chunk order of internal/network/streamer.go: Chebyshev rings around a centre,
    each walked as one continuous perimeter. Coordinates are unbounded integers. */
module Spiral {
  datatype Chunk = Chunk(x: int, z: int)

  function Abs(n: int): nat { if n < 0 then -n else n }

  /** `chunkDistanceFrom` */
  function Distance(c: Chunk, k: Chunk): nat {
    var dx, dz := Abs(k.x - c.x), Abs(k.z - c.z);
    if dz > dx then dz else dx
  }

  /** The j-th chunk of ring r: along the top, down the right, back along the bottom, up the left. */
  function RingCell(c: Chunk, r: nat, j: int): Chunk {
    if j <= 2 * r then Chunk(c.x - r + j, c.z - r)
    else if j <= 4 * r then Chunk(c.x + r, c.z - 3 * r + j)
    else if j <= 6 * r then Chunk(c.x + 5 * r - j, c.z + r)
    else Chunk(c.x - r, c.z + 7 * r - j)
  }

  function Ring(c: Chunk, r: nat): (s: seq<Chunk>)
    ensures |s| == 8 * r
  {
    seq(8 * r, j => RingCell(c, r, j))
  }

  /** The rings 0 to r, one after the other. */
  function Order(c: Chunk, r: nat): seq<Chunk> {
    if r == 0 then [c] else Order(c, r - 1) + Ring(c, r)
  }

  method SpiralOrder(cx: int, cz: int, radius: int) returns (out: seq<Chunk>)
    ensures out == Order(Chunk(cx, cz), if radius < 0 then 0 else radius)
  {
    var c := Chunk(cx, cz);
    var top := if radius < 0 then 0 else radius;
    out := [c];
    for r := 1 to top + 1
      invariant out == Order(c, r - 1)
    {
      out := AppendRing(c, r, out);
    }
  }

  /** The four walks of one ring. */
  method AppendRing(c: Chunk, r: nat, before: seq<Chunk>) returns (out: seq<Chunk>)
    requires r > 0
    ensures out == before + Ring(c, r)
  {
    out := before;
    for x: int := 0 - r to r + 1
      invariant out == before + Ring(c, r)[..x + r]
    {
      out := out + [Chunk(c.x + x, c.z - r)];
    }
    for z: int := 1 - r to r + 1
      invariant out == before + Ring(c, r)[..z + 3 * r]
    {
      out := out + [Chunk(c.x + r, c.z + z)];
    }
    var x: int := r - 1;
    while x + r >= 0
      invariant -1 <= x + r
      invariant out == before + Ring(c, r)[..5 * r - x]
    {
      out := out + [Chunk(c.x + x, c.z + r)];
      x := x - 1;
    }
    var z: int := r - 1;
    while z + r >= 1
      invariant 0 <= z + r
      invariant out == before + Ring(c, r)[..7 * r - z]
    {
      out := out + [Chunk(c.x - r, c.z + z)];
      z := z - 1;
    }
    assert Ring(c, r)[..8 * r] == Ring(c, r);
  }

  // ---- Each chunk of the square once

  ghost predicate Distinct(s: seq<Chunk>) {
    forall i, j :: 0 <= i < j < |s| ==> s[i] != s[j]
  }

  lemma RingDistance(c: Chunk, r: nat, j: int)
    requires 0 <= j < 8 * r
    ensures Distance(c, RingCell(c, r, j)) == r
  {
  }

  lemma RingDistinct(c: Chunk, r: nat, i: int, j: int)
    requires 0 <= i < j < 8 * r
    ensures RingCell(c, r, i) != RingCell(c, r, j)
  {
  }

  /** Every chunk at distance r is on the ring. */
  lemma RingComplete(c: Chunk, r: nat, k: Chunk)
    requires r > 0 && Distance(c, k) == r
    ensures k in Ring(c, r)
  {
    var dx, dz := k.x - c.x, k.z - c.z;
    var j := if dz + r == 0 then dx + r
             else if dx == r then dz + 3 * r
             else if dz == r then 5 * r - dx
             else 7 * r - dz;
    assert Ring(c, r)[j] == k;
  }

  lemma {:induction false} OrderLength(c: Chunk, r: nat)
    ensures |Order(c, r)| == (2 * r + 1) * (2 * r + 1)
  {
    if r > 0 {
      OrderLength(c, r - 1);
      assert (2 * r - 1) * (2 * r - 1) + 8 * r == (2 * r + 1) * (2 * r + 1);
    }
  }

  /** The chunks listed are exactly those within distance r, and none is listed twice. */
  lemma {:induction false} OrderCovers(c: Chunk, r: nat)
    ensures forall k :: k in Order(c, r) <==> Distance(c, k) <= r
    ensures Distinct(Order(c, r))
  {
    if r > 0 {
      OrderCovers(c, r - 1);
      forall k ensures k in Order(c, r) <==> Distance(c, k) <= r {
        RingMembers(c, r, k);
      }
      RingOnce(c, r);
      DistinctAppend(Order(c, r - 1), Ring(c, r));
    }
  }

  lemma RingMembers(c: Chunk, r: nat, k: Chunk)
    requires r > 0
    ensures k in Ring(c, r) <==> Distance(c, k) == r
  {
    if k in Ring(c, r) {
      var j :| 0 <= j < 8 * r && Ring(c, r)[j] == k;
      RingDistance(c, r, j);
    } else if Distance(c, k) == r {
      RingComplete(c, r, k);
    }
  }

  lemma RingOnce(c: Chunk, r: nat)
    requires r > 0
    ensures Distinct(Ring(c, r))
    ensures forall k :: k in Ring(c, r) ==> Distance(c, k) == r
  {
    forall i, j | 0 <= i < j < 8 * r ensures Ring(c, r)[i] != Ring(c, r)[j] {
      RingDistinct(c, r, i, j);
    }
    forall k | k in Ring(c, r) ensures Distance(c, k) == r { RingMembers(c, r, k); }
  }

  lemma DistinctAppend(a: seq<Chunk>, b: seq<Chunk>)
    requires Distinct(a) && Distinct(b) && forall k :: k in a ==> k !in b
    ensures Distinct(a + b)
  {
    var s := a + b;
    forall i, j | 0 <= i < j < |s| ensures s[i] != s[j] {
      if i < |a| <= j { assert s[i] in a && s[j] in b; }
    }
  }

  // ---- Near first, and in one walk a ring

  /** Where ring r starts, and the chunk found at each place of it. */
  lemma {:induction false} OrderAt(c: Chunk, r: nat, k: nat, j: nat)
    requires 0 < k <= r && j < 8 * k
    ensures var i := (2 * k - 1) * (2 * k - 1) + j;
            i < |Order(c, r)| && Order(c, r)[i] == RingCell(c, k, j)
  {
    OrderLength(c, r - 1);
    if k < r {
      OrderAt(c, r - 1, k, j);
    } else {
      OrderLength(c, r);
      assert 2 * (r - 1) + 1 == 2 * k - 1;
      assert Order(c, r)[|Order(c, r - 1)| + j] == Ring(c, r)[j];
    }
  }

  lemma DistanceSelf(c: Chunk)
    ensures Distance(c, c) == 0
  {
  }

  lemma {:induction false} NearFirst(c: Chunk, r: nat, i: nat, j: nat)
    requires i <= j < |Order(c, r)|
    ensures Distance(c, Order(c, r)[i]) <= Distance(c, Order(c, r)[j]) <= r
  {
    hide Distance, RingCell;
    if r == 0 {
      DistanceSelf(c);
    } else {
      var inner := Order(c, r - 1);
      if j < |inner| {
        NearFirst(c, r - 1, i, j);
      } else {
        RingDistance(c, r, j - |inner|);
        if i < |inner| { NearFirst(c, r - 1, i, i); } else { RingDistance(c, r, i - |inner|); }
      }
    }
  }

  /** Neighbours within a ring share an edge, its two ends too. */
  lemma RingContinuous(c: Chunk, r: nat, j: nat)
    requires j < 8 * r
    ensures var a, b := RingCell(c, r, j), RingCell(c, r, if j + 1 < 8 * r then j + 1 else 0);
            Abs(a.x - b.x) + Abs(a.z - b.z) == 1
  {
  }

  /** A ring starts at its corner of least x and z and turns at the other three; between them every step of the
      walk is to a neighbour, so the corners and the length leave no choice. */
  lemma RingTurns(c: Chunk, r: nat)
    requires r > 0
    ensures |Ring(c, r)| == 8 * r
    ensures Ring(c, r)[0] == Chunk(c.x - r, c.z - r) && Ring(c, r)[2 * r] == Chunk(c.x + r, c.z - r)
    ensures Ring(c, r)[4 * r] == Chunk(c.x + r, c.z + r) && Ring(c, r)[6 * r] == Chunk(c.x - r, c.z + r)
  {
  }

  /** A smaller square is listed first: the view is the beginning of the order. */
  lemma {:induction false} ViewFirst(c: Chunk, v: nat, r: nat)
    requires v <= r
    ensures |Order(c, v)| == (2 * v + 1) * (2 * v + 1) <= |Order(c, r)|
    ensures Order(c, r)[..(2 * v + 1) * (2 * v + 1)] == Order(c, v)
    ensures forall i :: |Order(c, v)| <= i < |Order(c, r)| ==> Distance(c, Order(c, r)[i]) > v
  {
    hide Distance, RingCell;
    OrderLength(c, v);
    if v < r {
      ViewFirst(c, v, r - 1);
      var inner := Order(c, r - 1);
      forall i | |Order(c, v)| <= i < |Order(c, r)| ensures Distance(c, Order(c, r)[i]) > v {
        if i >= |inner| { RingDistance(c, r, i - |inner|); }
      }
    }
  }
}
