/** VarInt and VarLong (unsigned LEB128, section 7.6 of DWARF 5), as internal/protocol/types.go
    writes and reads them, and the cursor of internal/protocol/buffer.go they are read with. */
module Varint {
  import opened Bytes
  import opened Wrappers

  datatype Error = EndOfInput | VarIntTooBig | PacketTooLarge | BadCompression | BadZlib

  type Result<T> = ResultOf<T, Error>
  type Parse<T> = ParseOf<T, Error>

  const MAX_VARINT_LEN := 5
  const MAX_VARLONG_LEN := 10
  const TWO32 := 0x1_0000_0000
  const TWO64 := 0x1_0000_0000_0000_0000

  /** Seven bits a byte, low bits first, the high bit saying that more follow. */
  function Leb(u: nat): (s: seq<byte>)
    ensures |s| > 0
  {
    if u < 0x80 then [u] else [u % 0x80 + 0x80] + Leb(u / 0x80)
  }

  function VarIntBytes(v: i32): seq<byte> { Leb(U32Of(v)) }
  function VarLongBytes(v: i64): seq<byte> { Leb(U64Of(v)) }

  /** What bit position the i-th byte starts at. */
  function Weight(i: nat): nat {
    if i == 0 then 1 else 0x80 * Weight(i - 1)
  }

  /** What a byte adds at the i-th place: its seven bits shifted there, cut to the width. */
  function Digit(c: byte, i: nat, modulus: nat): nat
    requires modulus > 0
  {
    (c as int % 0x80 * Weight(i)) % modulus
  }

  /** The reading loop with `i` bytes read into `acc`. The bits already read are all below the
      weight of the next byte, so adding is the `|=` of the Go code. */
  function LebFrom(b: seq<byte>, pos: nat, i: nat, acc: nat, max: nat, modulus: nat): Parse<nat>
    requires modulus > 0 && i <= max
    decreases max - i
  {
    if i == max then Fail(VarIntTooBig)
    else if pos + i >= |b| then Fail(EndOfInput)
    else
      var c := b[pos + i];
      var sum := acc + Digit(c, i, modulus);
      if c < 0x80 then Ok(sum, pos + i + 1) else LebFrom(b, pos, i + 1, sum, max, modulus)
  }

  function RawIntAt(b: seq<byte>, pos: nat): Parse<nat> { LebFrom(b, pos, 0, 0, MAX_VARINT_LEN, TWO32) }
  function RawLongAt(b: seq<byte>, pos: nat): Parse<nat> { LebFrom(b, pos, 0, 0, MAX_VARLONG_LEN, TWO64) }

  lemma WeightValues()
    ensures Weight(0) == 1 && Weight(1) == 0x80 && Weight(2) == 0x4000 && Weight(3) == 0x20_0000
    ensures Weight(4) == 0x1000_0000 && Weight(5) == 0x8_0000_0000 && Weight(6) == 0x400_0000_0000
    ensures Weight(7) == 0x2_0000_0000_0000 && Weight(8) == 0x100_0000_0000_0000
    ensures Weight(9) == 0x8000_0000_0000_0000 && Weight(10) == 0x40_0000_0000_0000_0000
  {
    assert Weight(2) == 0x80 * Weight(1);
    assert Weight(4) == 0x80 * Weight(3);
    assert Weight(6) == 0x80 * Weight(5);
    assert Weight(8) == 0x80 * Weight(7);
  }

  lemma {:induction false} WeightMonotone(i: nat, j: nat)
    requires i <= j
    ensures 0 < Weight(i) <= Weight(j)
    decreases j
  {
    if j > 0 {
      if i == j { WeightMonotone(i - 1, j - 1); } else { WeightMonotone(i, j - 1); }
    }
  }

  /** A value read is within its type, whatever the bytes. */
  lemma {:induction false} LebFromBound(b: seq<byte>, pos: nat, i: nat, acc: nat, max: nat, modulus: nat)
    requires (max == MAX_VARINT_LEN && modulus == TWO32) || (max == MAX_VARLONG_LEN && modulus == TWO64)
    requires i <= max && (i < max ==> acc < Weight(i))
    ensures var r := LebFrom(b, pos, i, acc, max, modulus);
            r.Ok? ==>
              && pos + i < r.next <= |b| && r.next <= pos + max
              && r.value < modulus && r.value < Weight(r.next - pos)
    decreases max - i
  {
    hide Digit, Weight;
    if i < max && pos + i < |b| {
      DigitBound(b[pos + i], i, acc, max, modulus);
      LebFromBound(b, pos, i + 1, acc + Digit(b[pos + i], i, modulus), max, modulus);
    }
  }

  lemma LebValueBound(b: seq<byte>, pos: nat, max: nat, modulus: nat)
    requires (max == MAX_VARINT_LEN && modulus == TWO32) || (max == MAX_VARLONG_LEN && modulus == TWO64)
    ensures var r := LebFrom(b, pos, 0, 0, max, modulus); r.Ok? ==> r.value < modulus
  {
    LebFromBound(b, pos, 0, 0, max, modulus);
  }

  /** With the bits below its place, a digit stays below the next place and below the modulus. */
  lemma DigitBound(c: byte, i: nat, acc: nat, max: nat, modulus: nat)
    requires (max == MAX_VARINT_LEN && modulus == TWO32) || (max == MAX_VARLONG_LEN && modulus == TWO64)
    requires i < max && acc < Weight(i)
    ensures acc + Digit(c, i, modulus) < modulus && acc + Digit(c, i, modulus) < Weight(i + 1)
  {
    WeightValues();
    if i + 1 == max {
      LastDigit(c, max, modulus);
    } else {
      var digit, w := c as int % 0x80, Weight(i);
      assert (0x7F - digit) * w >= 0;
      WeightMonotone(i + 1, max - 1);
    }
  }

  lemma LastDigit(c: byte, max: nat, modulus: nat)
    requires (max == MAX_VARINT_LEN && modulus == TWO32) || (max == MAX_VARLONG_LEN && modulus == TWO64)
    ensures Digit(c, max - 1, modulus) <= modulus - Weight(max - 1)
  {
    WeightValues();
    if max == MAX_VARINT_LEN {
      assert Digit(c, 4, TWO32) == (c as int % 0x80 * 0x1000_0000) % TWO32;
    } else {
      assert Digit(c, 9, TWO64) == (c as int % 0x80 * 0x8000_0000_0000_0000) % TWO64;
    }
  }

  function IntAt(b: seq<byte>, pos: nat): (r: Parse<i32>)
    ensures r.Ok? ==> pos < r.next <= |b| && r.next <= pos + MAX_VARINT_LEN
  {
    LebFromBound(b, pos, 0, 0, MAX_VARINT_LEN, TWO32);
    var (u, p) :- RawIntAt(b, pos);
    Ok(I32Of(u), p)
  }

  function LongAt(b: seq<byte>, pos: nat): (r: Parse<i64>)
    ensures r.Ok? ==> pos < r.next <= |b| && r.next <= pos + MAX_VARLONG_LEN
  {
    LebFromBound(b, pos, 0, 0, MAX_VARLONG_LEN, TWO64);
    var (u, p) :- RawLongAt(b, pos);
    Ok(I64Of(u), p)
  }

  // ---- Writing

  method AppendVarInt(dst: seq<byte>, v: i32) returns (out: seq<byte>)
    ensures out == dst + VarIntBytes(v)
  {
    out := AppendLeb(dst, U32Of(v));
  }

  method AppendVarLong(dst: seq<byte>, v: i64) returns (out: seq<byte>)
    ensures out == dst + VarLongBytes(v)
  {
    out := AppendLeb(dst, U64Of(v));
  }

  /** The loop both writers share. */
  method AppendLeb(dst: seq<byte>, value: nat) returns (out: seq<byte>)
    ensures out == dst + Leb(value)
  {
    out := dst;
    var u := value;
    while u >= 0x80
      invariant out + Leb(u) == dst + Leb(value)
    {
      out := out + [u % 0x80 + 0x80];
      u := u / 0x80;
    }
    out := out + [u];
  }

  method VarIntLen(v: i32) returns (n: nat)
    ensures n == |VarIntBytes(v)|
  {
    var u: nat := U32Of(v);
    n := 1;
    while u >= 0x80
      invariant n + |Leb(u)| == 1 + |VarIntBytes(v)|
    {
      u := u / 0x80;
      n := n + 1;
    }
  }

  // ---- Reading

  class Reader {
    const buf: seq<byte>
    var pos: nat

    constructor (buf: seq<byte>)
      ensures this.buf == buf && pos == 0
    {
      this.buf := buf;
      pos := 0;
    }

    ghost predicate Valid()
      reads this
    {
      pos <= |buf|
    }

    method ReadByte() returns (r: Result<byte>)
      requires Valid()
      modifies this
      ensures Valid()
      ensures old(pos) < |buf| ==> r == Success(buf[old(pos)]) && pos == old(pos) + 1
      ensures old(pos) == |buf| ==> r == Failure(EndOfInput) && pos == old(pos)
    {
      if pos >= |buf| { return Failure(EndOfInput); }
      r := Success(buf[pos]);
      pos := pos + 1;
    }

    method ReadN(n: int) returns (r: Result<seq<byte>>)
      requires Valid()
      modifies this
      ensures Valid()
      ensures 0 <= n <= |buf| - old(pos) ==> r == Success(buf[old(pos)..old(pos) + n]) && pos == old(pos) + n
      ensures !(0 <= n <= |buf| - old(pos)) ==> r == Failure(EndOfInput) && pos == old(pos)
    {
      if n < 0 || |buf| - pos < n { return Failure(EndOfInput); }
      r := Success(buf[pos..pos + n]);
      pos := pos + n;
    }

    method VarInt() returns (r: Result<i32>)
      requires Valid()
      modifies this
      ensures Valid()
      ensures Agrees(IntAt(buf, old(pos)), r, pos)
    {
      var u :- LebValue(MAX_VARINT_LEN, TWO32);
      r := Success(I32Of(u));
    }

    method VarLong() returns (r: Result<i64>)
      requires Valid()
      modifies this
      ensures Valid()
      ensures Agrees(LongAt(buf, old(pos)), r, pos)
    {
      var u :- LebValue(MAX_VARLONG_LEN, TWO64);
      r := Success(I64Of(u));
    }

    /** The loop both readers share. */
    method LebValue(max: nat, modulus: nat) returns (r: Result<nat>)
      requires Valid()
      requires (max == MAX_VARINT_LEN && modulus == TWO32) || (max == MAX_VARLONG_LEN && modulus == TWO64)
      modifies this
      ensures Valid()
      ensures Agrees(LebFrom(buf, old(pos), 0, 0, max, modulus), r, pos)
      ensures r.Success? ==> r.value < modulus
    {
      hide Digit, Weight;
      ghost var start := pos;
      LebValueBound(buf, start, max, modulus);
      var result: nat := 0;
      for i := 0 to max
        invariant Valid() && pos == start + i
        invariant LebFrom(buf, start, i, result, max, modulus) == LebFrom(buf, start, 0, 0, max, modulus)
      {
        var c :- ReadByte();
        result := result + Digit(c, i, modulus);
        if c < 0x80 { return Success(result); }
      }
      return Failure(VarIntTooBig);
    }
  }

  // ---- Round trip

  lemma {:induction false} LebBack(b: seq<byte>, pos: nat, i: nat, acc: nat, u: nat, max: nat, modulus: nat)
    requires (max == MAX_VARINT_LEN && modulus == TWO32) || (max == MAX_VARLONG_LEN && modulus == TWO64)
    requires i < max && (i == 0 || u > 0) && u * Weight(i) < modulus
    requires Holds(b, pos + i, Leb(u))
    ensures LebFrom(b, pos, i, acc, max, modulus) == Ok(acc + u * Weight(i), pos + i + |Leb(u)|)
    decreases u
  {
    hide Digit, Weight, Leb, Holds;
    LebHead(b, pos + i, u);
    if u >= 0x80 {
      var low, high := u % 0x80, u / 0x80;
      LebSplit(u, i, modulus);
      LebRoom(high, i, max, modulus);
      LebBack(b, pos, i + 1, acc + low * Weight(i), high, max, modulus);
    } else {
      LebSplit(u, i, modulus);
    }
  }

  /** The first byte of a value that stands at p, and the rest behind it. */
  lemma LebHead(b: seq<byte>, p: nat, u: nat)
    requires Holds(b, p, Leb(u))
    ensures p < |b| && b[p] == if u < 0x80 then u else u % 0x80 + 0x80
    ensures |Leb(u)| == if u < 0x80 then 1 else 1 + |Leb(u / 0x80)|
    ensures u >= 0x80 ==> Holds(b, p + 1, Leb(u / 0x80))
  {
    HoldsAt(b, p, Leb(u), 0);
    if u >= 0x80 { HoldsSplit(b, p, [u % 0x80 + 0x80], Leb(u / 0x80)); }
  }

  lemma SmallMod(x: nat, m: nat)
    requires x < m
    ensures x % m == x
  {
  }

  lemma Spread(high: nat, low: nat, w: nat)
    ensures (high * 0x80 + low) * w == low * w + high * (0x80 * w)
  {
  }

  /** A value in place is its low digit in place and the rest in the next one. */
  lemma LebSplit(u: nat, i: nat, modulus: nat)
    requires u * Weight(i) < modulus
    ensures var low, high := u % 0x80, u / 0x80;
            && u * Weight(i) == low * Weight(i) + high * Weight(i + 1)
            && high * Weight(i + 1) < modulus
            && Digit(low, i, modulus) == Digit(low + 0x80, i, modulus) == low * Weight(i)
  {
    var low, high := u % 0x80, u / 0x80;
    WeightStep(i);
    hide Weight;
    assert u == high * 0x80 + low;
    Spread(high, low, Weight(i));
    assert low * Weight(i) >= 0 && high * Weight(i + 1) >= 0;
    SmallMod(low * Weight(i), modulus);
    assert (low + 0x80) % 0x80 == low % 0x80 == low;
  }

  lemma WeightStep(i: nat)
    ensures Weight(i + 1) == 0x80 * Weight(i)
  {
  }

  lemma LebRoom(high: nat, i: nat, max: nat, modulus: nat)
    requires (max == MAX_VARINT_LEN && modulus == TWO32) || (max == MAX_VARLONG_LEN && modulus == TWO64)
    requires i < max && high > 0 && high * Weight(i + 1) < modulus
    ensures i + 1 < max
  {
    WeightValues();
    assert (high - 1) * Weight(i + 1) >= 0;
  }

  /** Reading a written VarInt, whatever follows, gives the value and stops at its end. */
  lemma IntBack(b: seq<byte>, pos: nat, v: i32)
    requires Holds(b, pos, VarIntBytes(v))
    ensures IntAt(b, pos) == Ok(v, pos + |VarIntBytes(v)|)
  {
    assert pos + 0 == pos && U32Of(v) * Weight(0) == U32Of(v);
    LebBack(b, pos, 0, 0, U32Of(v), MAX_VARINT_LEN, TWO32);
  }

  lemma LongBack(b: seq<byte>, pos: nat, v: i64)
    requires Holds(b, pos, VarLongBytes(v))
    ensures LongAt(b, pos) == Ok(v, pos + |VarLongBytes(v)|)
  {
    assert pos + 0 == pos && U64Of(v) * Weight(0) == U64Of(v);
    LebBack(b, pos, 0, 0, U64Of(v), MAX_VARLONG_LEN, TWO64);
  }

  /** Input that ends within a written value. */
  lemma {:induction false} LebCut(b: seq<byte>, pos: nat, i: nat, acc: nat, u: nat, max: nat, modulus: nat)
    requires (max == MAX_VARINT_LEN && modulus == TWO32) || (max == MAX_VARLONG_LEN && modulus == TWO64)
    requires i < max && (i == 0 || u > 0) && u * Weight(i) < modulus
    requires pos + i <= |b| && b[pos + i..] < Leb(u)
    ensures LebFrom(b, pos, i, acc, max, modulus) == Fail(EndOfInput)
    decreases u
  {
    hide Digit, Weight;
    if pos + i < |b| {
      assert b[pos + i..][0] == Leb(u)[0] && b[pos + i..][1..] == b[pos + (i + 1)..];
      assert u >= 0x80;
      LebSplit(u, i, modulus);
      LebRoom(u / 0x80, i, max, modulus);
      LebCut(b, pos, i + 1, acc + Digit(b[pos + i], i, modulus), u / 0x80, max, modulus);
    }
  }

  lemma IntCut(b: seq<byte>, pos: nat, v: i32)
    requires pos <= |b| && b[pos..] < VarIntBytes(v)
    ensures IntAt(b, pos) == Fail(EndOfInput)
  {
    assert pos + 0 == pos && U32Of(v) * Weight(0) == U32Of(v);
    LebCut(b, pos, 0, 0, U32Of(v), MAX_VARINT_LEN, TWO32);
  }

  // ---- What the bytes mean

  /** Seven bits a byte, low bits first. */
  function Sevens(b: seq<byte>): nat {
    if b == [] then 0 else b[0] as nat % 128 + 128 * Sevens(b[1..])
  }

  /** All but the last byte say that more follow. */
  ghost predicate Terminated(b: seq<byte>) {
    b != [] && b[|b| - 1] < 128 && forall i :: 0 <= i < |b| - 1 ==> b[i] >= 128
  }

  ghost predicate Going(b: seq<byte>) { forall i :: 0 <= i < |b| ==> b[i] >= 128 }

  /** A value is written as its seven-bit digits, without a leading zero digit. */
  lemma {:induction false} LebMeans(u: nat)
    ensures Terminated(Leb(u)) && Sevens(Leb(u)) == u
    ensures |Leb(u)| > 1 ==> Leb(u)[|Leb(u)| - 1] != 0
    decreases u
  {
    if u >= 0x80 {
      LebMeans(u / 0x80);
      var rest := Leb(u / 0x80);
      assert Leb(u)[1..] == rest;
      assert forall i :: 0 < i < |Leb(u)| ==> Leb(u)[i] == rest[i - 1];
    } else {
      assert Leb(u)[1..] == [];
    }
  }

  /** The signed types are written as their two's complement. */
  lemma WrittenMeans(v: i32, w: i64)
    ensures Terminated(VarIntBytes(v)) && Sevens(VarIntBytes(v)) == v as int % 0x1_0000_0000
    ensures Terminated(VarLongBytes(w)) && Sevens(VarLongBytes(w)) == w as int % 0x1_0000_0000_0000_0000
  {
    LebMeans(U32Of(v));
    LebMeans(U64Of(w));
  }

  /** What is read differs from what the bytes mean by a multiple of the modulus. */
  lemma {:induction false} LebSum(b: seq<byte>, pos: nat, i: nat, n: nat, acc: nat, max: nat, modulus: nat)
    returns (k: int)
    requires modulus > 0 && i < n <= max && pos + n <= |b| && Terminated(b[pos + i..pos + n])
    ensures var r := LebFrom(b, pos, i, acc, max, modulus);
            r.Ok? && r.next == pos + n && r.value + k * modulus == acc + Weight(i) * Sevens(b[pos + i..pos + n])
    decreases n - i
  {
    hide Weight;
    var bytes := b[pos + i..pos + n];
    var c := b[pos + i];
    assert c == bytes[0] && bytes[|bytes| - 1] == b[pos + n - 1];
    var d, w := c as int % 0x80, Weight(i);
    var q := d * w / modulus;
    assert Digit(c, i, modulus) == d * w - q * modulus;
    if i == n - 1 {
      assert bytes[1..] == [];
      assert Sevens(bytes) == d;
      Commutes(d, w);
      k := q;
    } else {
      var rest := b[pos + (i + 1)..pos + n];
      assert bytes[1..] == rest && rest[|rest| - 1] == bytes[|bytes| - 1];
      assert forall j :: 0 <= j < |rest| - 1 ==> rest[j] == bytes[j + 1];
      assert bytes[0] >= 128;
      var more := LebSum(b, pos, i + 1, n, acc + Digit(c, i, modulus), max, modulus);
      WeightStep(i);
      Sum(d, w, Sevens(rest));
      Gather(q, more, modulus);
      k := q + more;
    }
  }

  lemma Commutes(a: int, b: int)
    ensures a * b == b * a
  {
  }

  lemma Sum(d: int, w: int, rest: int)
    ensures w * (d + 128 * rest) == d * w + 0x80 * w * rest
  {
  }

  lemma Gather(a: int, b: int, m: int)
    ensures (a + b) * m == a * m + b * m
  {
  }

  lemma Remainder(value: nat, k: int, modulus: nat, total: nat)
    requires value < modulus && value + k * modulus == total
    ensures value == total % modulus
  {
    var q, r := total / modulus, total % modulus;
    assert total == q * modulus + r;
    if k < q { Gather(k, q - k, modulus); Grows(q - k, modulus); }
    if k > q { Gather(q, k - q, modulus); Grows(k - q, modulus); }
  }

  lemma Grows(a: int, m: nat)
    requires a >= 1
    ensures a * m >= m
  {
    Gather(1, a - 1, m);
    assert (a - 1) * m >= 0;
  }

  /** Whatever the bytes: a value of at most `max` bytes is read as what they mean, cut to the width; after `max`
      bytes that all say that more follow the value is too big, and before that the input has ended. */
  lemma LebExact(b: seq<byte>, pos: nat, max: nat, modulus: nat, n: nat)
    requires (max == 5 && modulus == TWO32) || (max == 10 && modulus == TWO64)
    requires pos + n <= |b| && n <= max
    ensures var r := LebFrom(b, pos, 0, 0, max, modulus);
            && (Terminated(b[pos..pos + n]) ==> r == Ok(Sevens(b[pos..pos + n]) % modulus, pos + n))
            && (Going(b[pos..pos + n]) ==>
                  (n == max ==> r == Fail(VarIntTooBig)) && (n < max && pos + n == |b| ==> r == Fail(EndOfInput)))
  {
    hide LebFrom, Terminated, Sevens, Going;
    assert b[pos + 0..pos + n] == b[pos..pos + n];
    if Terminated(b[pos..pos + n]) { LebValueExact(b, pos, max, modulus, n); }
    if Going(b[pos..pos + n]) { LebMore(b, pos, 0, 0, max, modulus, n); }
  }

  lemma LebValueExact(b: seq<byte>, pos: nat, max: nat, modulus: nat, n: nat)
    requires (max == 5 && modulus == TWO32) || (max == 10 && modulus == TWO64)
    requires pos + n <= |b| && n <= max && Terminated(b[pos..pos + n])
    ensures LebFrom(b, pos, 0, 0, max, modulus) == Ok(Sevens(b[pos..pos + n]) % modulus, pos + n)
  {
    hide LebFrom, Sevens;
    assert b[pos + 0..pos + n] == b[pos..pos + n];
    var k := LebSum(b, pos, 0, n, 0, max, modulus);
    LebFromBound(b, pos, 0, 0, max, modulus);
    Remainder(LebFrom(b, pos, 0, 0, max, modulus).value, k, modulus, Sevens(b[pos..pos + n]));
  }

  lemma {:induction false} LebMore(b: seq<byte>, pos: nat, i: nat, acc: nat, max: nat, modulus: nat, n: nat)
    requires modulus > 0 && i <= n <= max && pos + n <= |b| && Going(b[pos + i..pos + n])
    ensures var r := LebFrom(b, pos, i, acc, max, modulus);
            && (n == max ==> r == Fail(VarIntTooBig)) && (n < max && pos + n == |b| ==> r == Fail(EndOfInput))
    decreases n - i
  {
    hide Digit;
    if i < n {
      assert b[pos + i] == b[pos + i..pos + n][0];
      assert b[pos + i..pos + n][1..] == b[pos + (i + 1)..pos + n];
      LebMore(b, pos, i + 1, acc + Digit(b[pos + i], i, modulus), max, modulus, n);
    }
  }

  /** For a VarInt and a VarLong, with the signed value the two's complement one. */
  lemma IntExact(b: seq<byte>, pos: nat, n: nat)
    requires pos + n <= |b|
    ensures n <= 5 && Terminated(b[pos..pos + n]) ==>
              IntAt(b, pos).Ok? && IntAt(b, pos).next == pos + n
              && IntAt(b, pos).value as int % 0x1_0000_0000 == Sevens(b[pos..pos + n]) % 0x1_0000_0000
    ensures n <= 10 && Terminated(b[pos..pos + n]) ==>
              var modulus := 0x1_0000_0000_0000_0000;
              LongAt(b, pos).Ok? && LongAt(b, pos).next == pos + n
              && LongAt(b, pos).value as int % modulus == Sevens(b[pos..pos + n]) % modulus
    ensures Going(b[pos..pos + n]) ==>
              && (n == 5 ==> IntAt(b, pos) == Fail(VarIntTooBig)) && (n == 10 ==> LongAt(b, pos) == Fail(VarIntTooBig))
              && (pos + n == |b| && n < 5 ==> IntAt(b, pos) == Fail(EndOfInput))
              && (pos + n == |b| && n < 10 ==> LongAt(b, pos) == Fail(EndOfInput))
  {
    hide LebFrom, Terminated, Sevens, Going;
    if n <= 5 { LebExact(b, pos, 5, TWO32, n); }
    if n <= 10 { LebExact(b, pos, 10, TWO64, n); }
    var sum := Sevens(b[pos..pos + n]);
    TwosComplement(sum % 0x1_0000_0000, sum % 0x1_0000_0000_0000_0000);
  }

  lemma TwosComplement(u: u32, w: u64)
    ensures I32Of(u) as int % 0x1_0000_0000 == u && I64Of(w) as int % 0x1_0000_0000_0000_0000 == w
  {
  }

  // ---- Shortest form

  lemma {:induction false} LebLength(u: nat, n: nat)
    requires n > 0 && u < Weight(n)
    ensures |Leb(u)| <= n
    decreases u
  {
    if u >= 0x80 {
      WeightValues();
      assert Weight(n) == 0x80 * Weight(n - 1);
      LebLength(u / 0x80, n - 1);
    }
  }

  /** No byte string the reader accepts for a value is shorter than the one written for it. */
  lemma IntShortest(b: seq<byte>, pos: nat)
    requires IntAt(b, pos).Ok?
    ensures |VarIntBytes(IntAt(b, pos).value)| <= IntAt(b, pos).next - pos
  {
    LebFromBound(b, pos, 0, 0, MAX_VARINT_LEN, TWO32);
    var r := RawIntAt(b, pos);
    LebLength(r.value, r.next - pos);
  }

  lemma LongShortest(b: seq<byte>, pos: nat)
    requires LongAt(b, pos).Ok?
    ensures |VarLongBytes(LongAt(b, pos).value)| <= LongAt(b, pos).next - pos
  {
    hide LebFrom, Leb, Digit;
    LebFromBound(b, pos, 0, 0, MAX_VARLONG_LEN, TWO64);
    var r := RawLongAt(b, pos);
    LebLength(r.value, r.next - pos);
  }

  /** Five bytes are enough for any VarInt and ten for any VarLong. */
  lemma LengthLimits(v: i32, w: i64)
    ensures |VarIntBytes(v)| <= MAX_VARINT_LEN
    ensures |VarLongBytes(w)| <= MAX_VARLONG_LEN
  {
    WeightValues();
    LebLength(U32Of(v), 5);
    LebLength(U64Of(w), 10);
  }
}
