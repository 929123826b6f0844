/** Machine integers, big-endian fields and positions inside byte strings.
    Shifts and masks of the Go code are written as the quotients and remainders they compute. */
module Bytes {

  type byte = x: int | 0 <= x < 0x100
  type u16 = x: int | 0 <= x < 0x1_0000
  type u32 = x: int | 0 <= x < 0x1_0000_0000
  type u64 = x: int | 0 <= x < 0x1_0000_0000_0000_0000
  type i8 = x: int | -0x80 <= x < 0x80
  type i16 = x: int | -0x8000 <= x < 0x8000
  type i32 = x: int | -0x8000_0000 <= x < 0x8000_0000
  type i64 = x: int | -0x8000_0000_0000_0000 <= x < 0x8000_0000_0000_0000

  const MAX_I32 := 0x7FFF_FFFF

  // Go's conversions between a signed integer and the unsigned one of the same width.

  function U8Of(v: i8): byte { if v < 0 then v + 0x100 else v }
  function I8Of(u: byte): i8 { if u >= 0x80 then u - 0x100 else u }
  function U16Of(v: i16): u16 { if v < 0 then v + 0x1_0000 else v }
  function I16Of(u: u16): i16 { if u >= 0x8000 then u - 0x1_0000 else u }
  function U32Of(v: i32): u32 { if v < 0 then v + 0x1_0000_0000 else v }
  function I32Of(u: u32): i32 { if u >= 0x8000_0000 then u - 0x1_0000_0000 else u }
  function U64Of(v: i64): u64 { if v < 0 then v + 0x1_0000_0000_0000_0000 else v }
  function I64Of(u: u64): i64 { if u >= 0x8000_0000_0000_0000 then u - 0x1_0000_0000_0000_0000 else u }

  /** Go's `uint32(n)` and `uint16(n)` of a length. */
  function Low32(n: nat): u32 { n % 0x1_0000_0000 }
  function Low16(n: nat): u16 { n % 0x1_0000 }

  // Big-endian writing

  function Be16(v: u16): (s: seq<byte>)
    ensures |s| == 2
  {
    [v / 0x100, v % 0x100]
  }

  function Be32(v: u32): (s: seq<byte>)
    ensures |s| == 4
  {
    Be16(v / 0x1_0000) + Be16(v % 0x1_0000)
  }

  function Be64(v: u64): (s: seq<byte>)
    ensures |s| == 8
  {
    Be32(v / 0x1_0000_0000) + Be32(v % 0x1_0000_0000)
  }

  // Big-endian reading

  function At16(b: seq<byte>, pos: nat): u16
    requires pos + 2 <= |b|
  {
    b[pos] as int * 0x100 + b[pos + 1]
  }

  function At32(b: seq<byte>, pos: nat): u32
    requires pos + 4 <= |b|
  {
    At16(b, pos) as int * 0x1_0000 + At16(b, pos + 2)
  }

  function At64(b: seq<byte>, pos: nat): u64
    requires pos + 8 <= |b|
  {
    At32(b, pos) as int * 0x1_0000_0000 + At32(b, pos + 4)
  }

  /** The bytes `s` stand in `b` from position `pos` on. */
  ghost predicate Holds(b: seq<byte>, pos: nat, s: seq<byte>) {
    pos + |s| <= |b| && b[pos..pos + |s|] == s
  }

  lemma HoldsSplit(b: seq<byte>, pos: nat, s: seq<byte>, t: seq<byte>)
    requires Holds(b, pos, s + t)
    ensures Holds(b, pos, s) && Holds(b, pos + |s|, t)
  {
    assert b[pos..pos + |s|] == b[pos..pos + |s + t|][..|s|];
    assert b[pos + |s|..pos + |s| + |t|] == b[pos..pos + |s + t|][|s|..];
  }

  lemma HoldsAt(b: seq<byte>, pos: nat, s: seq<byte>, i: nat)
    requires Holds(b, pos, s) && i < |s|
    ensures b[pos + i] == s[i]
  {
    assert b[pos..pos + |s|][i] == b[pos + i];
  }

  lemma HoldsBe16(b: seq<byte>, pos: nat, v: u16)
    requires Holds(b, pos, Be16(v))
    ensures At16(b, pos) == v
  {
    HoldsAt(b, pos, Be16(v), 0);
    HoldsAt(b, pos, Be16(v), 1);
  }

  lemma HoldsBe32(b: seq<byte>, pos: nat, v: u32)
    requires Holds(b, pos, Be32(v))
    ensures At32(b, pos) == v
  {
    HoldsSplit(b, pos, Be16(v / 0x1_0000), Be16(v % 0x1_0000));
    HoldsBe16(b, pos, v / 0x1_0000);
    HoldsBe16(b, pos + 2, v % 0x1_0000);
  }

  lemma HoldsBe64(b: seq<byte>, pos: nat, v: u64)
    requires Holds(b, pos, Be64(v))
    ensures At64(b, pos) == v
  {
    HoldsSplit(b, pos, Be32(v / 0x1_0000_0000), Be32(v % 0x1_0000_0000));
    HoldsBe32(b, pos, v / 0x1_0000_0000);
    HoldsBe32(b, pos + 4, v % 0x1_0000_0000);
  }
}
