/** The low-precision vector encoding of internal/protocol/lpvec3.go, with its arithmetic over
    the reals: the rounding of float64 is not modelled, its special values are. */
module LpVec3 {
  import opened Bytes
  import opened Varint
  import opened Wrappers

  const MAX_VALUE := 17179869183.0
  const STEPS := 32766
  const MIN_VALUE := 1.0 / 32766.0
  const FIELD := 0x8000

  datatype Double = NaN | PosInf | NegInf | Finite(r: real)

  datatype Vec = Vec(x: real, y: real, z: real)

  function Sanitize(v: Double): (r: real)
    ensures -MAX_VALUE <= r <= MAX_VALUE
  {
    match v
    case NaN => 0.0
    case PosInf => MAX_VALUE
    case NegInf => -MAX_VALUE
    case Finite(r) => if r > MAX_VALUE then MAX_VALUE else if r < -MAX_VALUE then -MAX_VALUE else r
  }

  function Clamped(x: Double, y: Double, z: Double): Vec { Vec(Sanitize(x), Sanitize(y), Sanitize(z)) }

  function Abs(r: real): real { if r < 0.0 then -r else r }
  function Larger(a: real, b: real): real { if a > b then a else b }
  function MaxAbs(v: Vec): real { Larger(Abs(v.x), Larger(Abs(v.y), Abs(v.z))) }
  function Ceil(r: real): int { -(-r).Floor }

  // ---- Writing

  function Scale(v: Vec): int { Ceil(MaxAbs(v)) }

  function Header(scale: int): int { if scale > 3 then scale % 4 + 4 else scale }

  function Pack(value: real, scale: int): int
    requires scale > 0
  {
    ((value / scale as real * 0.5 + 0.5) * 32766.0 + 0.5).Floor
  }

  /** Three bits of header and three fields of fifteen, by `|` in the Go code. */
  function Join(header: int, a: int, b: int, c: int): int {
    header + a * 0x8 + b * 0x4_0000 + c * 0x2_0000_0000
  }

  function Packed(v: Vec): int
    requires Scale(v) > 0
  {
    var s := Scale(v);
    Join(Header(s), Pack(v.x, s), Pack(v.y, s), Pack(v.z, s))
  }

  /** The six bytes of 48 packed bits: the low two, then the high four as a big-endian int. */
  function SixBytes(packed: int): (s: seq<byte>)
    ensures |s| == 6
  {
    [packed % 0x100, (packed / 0x100) % 0x100] + Be32((packed / 0x1_0000) % 0x1_0000_0000)
  }

  function Continuation(scale: int): i32
    requires scale >= 0
  {
    I32Of(Low32(scale / 4))
  }

  function VecBytes(v: Vec): seq<byte> {
    if MaxAbs(v) < MIN_VALUE then [0]
    else
      ScaleBounds(v);
      SixBytes(Packed(v)) + (if Scale(v) > 3 then VarIntBytes(Continuation(Scale(v))) else [])
  }

  lemma ScaleBounds(v: Vec)
    requires MaxAbs(v) >= MIN_VALUE
    ensures Scale(v) >= 1 && MaxAbs(v) <= Scale(v) as real < MaxAbs(v) + 1.0
  {
  }

  class Writer {
    var buf: seq<byte>

    constructor ()
      ensures buf == []
    {
      buf := [];
    }

    method Byte(v: byte)
      modifies this
      ensures buf == old(buf) + [v]
    {
      buf := buf + [v];
    }

    method Int32(v: i32)
      modifies this
      ensures buf == old(buf) + Be32(U32Of(v))
    {
      buf := buf + Be32(U32Of(v));
    }

    method VarInt(v: i32)
      modifies this
      ensures buf == old(buf) + VarIntBytes(v)
    {
      buf := AppendVarInt(buf, v);
    }

    /** The fixed part of a vector. */
    method SixBytes48(packed: int)
      modifies this
      ensures buf == old(buf) + SixBytes(packed)
    {
      Byte(packed % 0x100);
      Byte((packed / 0x100) % 0x100);
      Int32(I32Of((packed / 0x1_0000) % 0x1_0000_0000));
    }

    method LPVec3(x: Double, y: Double, z: Double)
      modifies this
      ensures buf == old(buf) + VecBytes(Clamped(x, y, z))
    {
      hide Pack, Sanitize, Clamped, SixBytes, VarIntBytes, Larger, Abs;
      var v := Clamped(x, y, z);
      var maxAbs := MaxAbs(v);
      if maxAbs < MIN_VALUE {
        Byte(0);
        return;
      }
      ScaleBounds(v);
      var scale := Ceil(maxAbs);
      var header := scale;
      var continuation := scale > 3;
      if continuation {
        header := scale % 4 + 4;
      }
      var packed := Join(header, Pack(v.x, scale), Pack(v.y, scale), Pack(v.z, scale));
      SixBytes48(packed);
      if continuation {
        VarInt(I32Of(Low32(scale / 4)));
      }
      assert buf == old(buf) + VecBytes(v);
    }
  }

  // ---- Reading

  function Unpack(packed: int, shift: int, scale: nat): real
    requires shift > 0
  {
    var field := (packed / shift) % FIELD;
    var value := if field > STEPS then STEPS else field;
    (value as real * 2.0 / 32766.0 - 1.0) * scale as real
  }

  /** The packed bits of a vector that is not the zero form, and the scale. */
  function BitsAt(b: seq<byte>, pos: nat): Parse<(nat, nat)> {
    if pos + 6 > |b| then Fail(EndOfInput)
    else
      var first := b[pos] as int;
      var packed := At32(b, pos + 2) as int * 0x1_0000 + b[pos + 1] as int * 0x100 + first;
      if (first / 4) % 2 == 1 then
        var (c, next) :- IntAt(b, pos + 6);
        Ok((packed, first % 4 + U32Of(c) * 4), next)
      else Ok((packed, first % 4), pos + 6)
  }

  function VecAt(b: seq<byte>, pos: nat): Parse<Vec> {
    if pos >= |b| then Fail(EndOfInput)
    else if b[pos] == 0 then Ok(Vec(0.0, 0.0, 0.0), pos + 1)
    else
      var (bits, next) :- BitsAt(b, pos);
      var (p, scale) := bits;
      Ok(Vec(Unpack(p, 0x8, scale), Unpack(p, 0x4_0000, scale), Unpack(p, 0x2_0000_0000, scale)), next)
  }

  method ReadLPVec3(r: Reader) returns (v: Result<Vec>)
    requires r.Valid()
    modifies r
    ensures r.Valid()
    ensures Agrees(VecAt(r.buf, old(r.pos)), v, r.pos)
  {
    ghost var start := r.pos;
    var first :- r.ReadByte();
    if first == 0 { return Success(Vec(0.0, 0.0, 0.0)); }
    var second :- r.ReadByte();
    var upper :- r.ReadN(4);
    var packed := At32(upper, 0) as int * 0x1_0000 + second as int * 0x100 + first as int;
    assert At32(upper, 0) == At32(r.buf, start + 2);
    var scale: nat := first as int % 4;
    if (first as int / 4) % 2 == 1 {
      var continuation :- r.VarInt();
      scale := scale + U32Of(continuation) * 4;
    }
    var x, y := Unpack(packed, 0x8, scale), Unpack(packed, 0x4_0000, scale);
    return Success(Vec(x, y, Unpack(packed, 0x2_0000_0000, scale)));
  }

  // ---- Bits

  lemma Positive(a: real, b: real)
    requires a > 0.0 && b > 0.0
    ensures a * b > 0.0
  {
  }

  lemma Quotient(value: real, s: real)
    requires s > 0.0 && Abs(value) <= s
    ensures value / s * s == value && -1.0 <= value / s <= 1.0
  {
    var n := value / s;
    assert n * s == value;
    if n > 1.0 { Positive(n - 1.0, s); }
    if n < -1.0 { Positive(-1.0 - n, s); }
  }

  /** Rounding to the nearest of the steps from -1 to 1. */
  lemma NearestStep(n: real)
    requires -1.0 <= n <= 1.0
    ensures var q := ((n * 0.5 + 0.5) * 32766.0 + 0.5).Floor;
            && 0 <= q <= STEPS
            && -MIN_VALUE <= q as real * 2.0 / 32766.0 - 1.0 - n <= MIN_VALUE
            && (n == 0.0 ==> q as real * 2.0 / 32766.0 - 1.0 == 0.0)
  {
  }

  /** Each field keeps to its fifteen bits, so the fields do not overlap. */
  lemma PackRange(value: real, scale: int)
    requires scale > 0 && Abs(value) <= scale as real
    ensures 0 <= Pack(value, scale) <= STEPS
  {
    Quotient(value, scale as real);
    NearestStep(value / scale as real);
  }

  lemma JoinFields(h: int, a: int, b: int, c: int)
    requires 0 <= h < 8 && 0 <= a < FIELD && 0 <= b < FIELD && 0 <= c < FIELD
    ensures var p := Join(h, a, b, c);
            && 0 <= p < 0x1_0000_0000_0000 && p % 8 == h
            && (p / 0x8) % FIELD == a && (p / 0x4_0000) % FIELD == b && (p / 0x2_0000_0000) % FIELD == c
  {
    var p := Join(h, a, b, c);
    assert p / 0x8 == a + b * 0x8000 + c * 0x4000_0000;
    assert p / 0x4_0000 == b + c * 0x8000;
    assert p / 0x2_0000_0000 == c;
  }

  lemma SixBytesBack(b: seq<byte>, pos: nat, packed: int)
    requires 0 <= packed < 0x1_0000_0000_0000 && Holds(b, pos, SixBytes(packed))
    ensures b[pos] == packed % 0x100
    ensures At32(b, pos + 2) as int * 0x1_0000 + b[pos + 1] as int * 0x100 + b[pos] as int == packed
  {
    hide Be32, At32, Holds;
    var low: seq<byte> := [packed % 0x100, (packed / 0x100) % 0x100];
    var high := (packed / 0x1_0000) % 0x1_0000_0000;
    HoldsSplit(b, pos, low, Be32(high));
    HoldsAt(b, pos, low, 0);
    HoldsAt(b, pos, low, 1);
    HoldsBe32(b, pos + 2, high);
    Recombine(packed);
  }

  lemma Recombine(packed: int)
    requires 0 <= packed < 0x1_0000_0000_0000
    ensures (packed / 0x1_0000) % 0x1_0000_0000 * 0x1_0000 + (packed / 0x100) % 0x100 * 0x100 + packed % 0x100 == packed
  {
    var m := packed / 0x100;
    assert packed == m * 0x100 + packed % 0x100;
    assert m == m / 0x100 * 0x100 + m % 0x100;
    assert m / 0x100 == packed / 0x1_0000;
  }

  lemma ScaleSplit(scale: int)
    requires 1 <= scale < 0x4_0000_0000
    ensures var h := Header(scale);
            && 0 < h < 8
            && (scale > 3 <==> (h / 4) % 2 == 1)
            && (scale <= 3 ==> h % 4 == scale)
            && (scale > 3 ==> h % 4 + U32Of(Continuation(scale)) * 4 == scale)
  {
  }

  /** The scale comes back exactly, up to 2^34 - 1, with the bits of the three fields. */
  lemma BitsBack(b: seq<byte>, pos: nat, v: Vec)
    requires MIN_VALUE <= MaxAbs(v) <= MAX_VALUE && Holds(b, pos, VecBytes(v))
    ensures Scale(v) > 0 && Packed(v) >= 0
    ensures BitsAt(b, pos) == Ok((Packed(v), Scale(v)), pos + |VecBytes(v)|)
    ensures b[pos] != 0
  {
    hide Pack, SixBytes, Header, Continuation, Join, VarIntBytes, U32Of, IntAt;
    ScaleBounds(v);
    var s := Scale(v);
    PackRange(v.x, s);
    PackRange(v.y, s);
    PackRange(v.z, s);
    ScaleSplit(s);
    JoinFields(Header(s), Pack(v.x, s), Pack(v.y, s), Pack(v.z, s));
    var packed := Packed(v);
    FirstByte(packed);
    var more := if s > 3 then VarIntBytes(Continuation(s)) else [];
    HoldsSplit(b, pos, SixBytes(packed), more);
    SixBytesBack(b, pos, packed);
    if s > 3 { IntBack(b, pos + 6, Continuation(s)); }
  }

  lemma FirstByte(packed: int)
    requires packed >= 0
    ensures (packed % 0x100) % 8 == packed % 8
    ensures (packed % 0x100) % 4 == packed % 8 % 4
    ensures (packed % 0x100 / 4) % 2 == packed % 8 / 4
  {
    var q, r, l := packed / 8, packed % 8, packed % 0x100;
    assert packed == 8 * q + r;
    assert l / 8 == q % 0x20 && l == 8 * (q % 0x20) + r;
    LowBits(q, r);
    LowBits(q % 0x20, r);
  }

  lemma LowBits(q: nat, r: nat)
    requires r < 8
    ensures (8 * q + r) % 8 == r && (8 * q + r) % 4 == r % 4 && ((8 * q + r) / 4) % 2 == r / 4
  {
    assert (8 * q + r) / 4 == 2 * q + r / 4;
  }

  // ---- Error bounds

  /** A field is the nearest step, so it comes back within half a step of a width of 2*scale. */
  lemma UnpackError(packed: int, shift: int, value: real, scale: nat)
    requires shift > 0 && scale > 0 && Abs(value) <= scale as real
    requires (packed / shift) % FIELD == Pack(value, scale)
    ensures Abs(Unpack(packed, shift, scale) - value) <= scale as real / 32766.0
    ensures Abs(Unpack(packed, shift, scale)) <= scale as real
    ensures value == 0.0 ==> Unpack(packed, shift, scale) == 0.0
  {
    hide Pack, Unpack, Step;
    var s := scale as real;
    PackRange(value, scale);
    var u := Step(Pack(value, scale));
    UnpackField(packed, shift, scale, Pack(value, scale));
    PackNear(value, scale);
    Quotient(value, s);
    StepError(u, value / s, s, value);
  }

  /** The number from -1 to 1 that a field stands for. */
  function Step(field: int): real { field as real * 2.0 / 32766.0 - 1.0 }

  lemma PackNear(value: real, scale: int)
    requires scale > 0 && Abs(value) <= scale as real
    ensures -MIN_VALUE <= Step(Pack(value, scale)) - value / scale as real <= MIN_VALUE
    ensures value == 0.0 ==> Step(Pack(value, scale)) == 0.0
  {
    Quotient(value, scale as real);
    NearestStep(value / scale as real);
  }

  lemma StepError(u: real, n: real, s: real, value: real)
    requires s > 0.0 && n * s == value && -1.0 <= u <= 1.0 && -MIN_VALUE <= u - n <= MIN_VALUE
    ensures Abs(u * s - value) <= s / 32766.0 && Abs(u * s) <= s
  {
    hide Abs;
    Distribute(u, n, s);
    Scaled(u - n, s, MIN_VALUE);
    Scaled(u, s, 1.0);
    Within(u * s, value, (u - n) * s, MIN_VALUE * s, 1.0 * s, s);
  }

  lemma Within(p: real, value: real, d: real, limit: real, top: real, s: real)
    requires d == p - value && limit == s / 32766.0 && top == s
    requires -limit <= d <= limit && -top <= p <= top
    ensures Abs(p - value) <= s / 32766.0 && Abs(p) <= s
  {
  }

  lemma Distribute(a: real, b: real, c: real)
    ensures (a - b) * c == a * c - b * c
  {
  }

  lemma UnpackField(packed: int, shift: int, scale: nat, field: int)
    requires shift > 0 && 0 <= field <= STEPS && (packed / shift) % FIELD == field
    ensures Unpack(packed, shift, scale) == Step(field) * scale as real
    ensures -1.0 <= Step(field) <= 1.0
  {
  }

  lemma Scaled(e: real, s: real, bound: real)
    requires s >= 0.0 && -bound <= e <= bound
    ensures -(bound * s) <= e * s <= bound * s
  {
    NonNegative(bound - e, s);
    NonNegative(bound + e, s);
    Distribute(bound, e, s);
    Distribute(bound, -e, s);
    Distribute(0.0, e, s);
  }

  lemma NonNegative(a: real, b: real)
    requires a >= 0.0 && b >= 0.0
    ensures a * b >= 0.0
  {
  }

  ghost predicate Near(a: real, b: real, err: real) { Abs(a - b) <= err && (b == 0.0 ==> a == 0.0) }

  /** r is the value v kept within the limit, give or take the error. */
  ghost predicate Comes(v: Double, r: real, err: real) {
    match v
    case NaN => r == 0.0
    case PosInf => 17179869183.0 - err <= r <= 17179869183.0 + err
    case NegInf => -17179869183.0 - err <= r <= -17179869183.0 + err
    case Finite(f) =>
      if f > 17179869183.0 then 17179869183.0 - err <= r <= 17179869183.0 + err
      else if f < -17179869183.0 then -17179869183.0 - err <= r <= -17179869183.0 + err
      else f - err <= r <= f + err
  }

  /** The value, kept within the limit, is at most n away from zero. */
  ghost predicate AtMost(v: Double, n: real) {
    match v
    case NaN => true
    case Finite(f) => -n <= f <= n || n >= 17179869183.0
    case _ => n >= 17179869183.0
  }

  ghost predicate Tiny(v: Double) { v.NaN? || (v.Finite? && -1.0 < v.r * 32766.0 < 1.0) }

  lemma ClampedRange(x: Double, y: Double, z: Double)
    ensures MaxAbs(Clamped(x, y, z)) <= MAX_VALUE
  {
  }

  lemma SanitizeMeans(v: Double, n: real, r: real, err: real)
    requires n >= 0.0
    ensures AtMost(v, n) <==> Abs(Sanitize(v)) <= n
    ensures Tiny(v) <==> Abs(Sanitize(v)) < MIN_VALUE
    ensures Near(r, Sanitize(v), err) ==> Comes(v, r, err)
  {
  }

  /** The three components of an input together. */
  lemma ClampedMeans(x: Double, y: Double, z: Double, n: real)
    requires n >= 0.0
    ensures AtMost(x, n) && AtMost(y, n) && AtMost(z, n) <==> MaxAbs(Clamped(x, y, z)) <= n
    ensures Tiny(x) && Tiny(y) && Tiny(z) <==> MaxAbs(Clamped(x, y, z)) < MIN_VALUE
  {
    hide Sanitize, AtMost, Tiny, Comes;
    SanitizeMeans(x, n, 0.0, 0.0);
    SanitizeMeans(y, n, 0.0, 0.0);
    SanitizeMeans(z, n, 0.0, 0.0);
  }

  lemma ClampedBack(v: Vec, after: seq<byte>, n: nat)
    requires n >= 1 && MaxAbs(v) <= n as real && MaxAbs(v) <= MAX_VALUE
    ensures var r, err := VecAt(VecBytes(v) + after, 0), n as real / 32766.0;
            && (VecBytes(v)[0] == 0 <==> MaxAbs(v) < MIN_VALUE)
            && r.Ok? && r.next == |VecBytes(v)| && MaxAbs(r.value) <= n as real
            && Near(r.value.x, v.x, err) && Near(r.value.y, v.y, err) && Near(r.value.z, v.z, err)
            && (VecBytes(v)[0] == 0 ==> r.value == Vec(0.0, 0.0, 0.0))
  {
    hide SixBytes, BitsAt, Packed, Unpack, Ceil;
    var b := VecBytes(v) + after;
    if MaxAbs(v) >= MIN_VALUE {
      assert b[0..|VecBytes(v)|] == VecBytes(v);
      BitsBack(b, 0, v);
      ComponentsBack(v);
      ScaleLeast(v, n);
    }
  }

  /** What is read back, whatever follows it, when no component is more than n away from zero: every
      component, kept within the limit, to n/32766, and zero exactly. The first byte is zero exactly when
      all are below 1/32766, and then all that is read is zero. */
  lemma VecRoundTrip(x: Double, y: Double, z: Double, after: seq<byte>, n: nat)
    requires n >= 1 && AtMost(x, n as real) && AtMost(y, n as real) && AtMost(z, n as real)
    ensures var frame := VecBytes(Clamped(x, y, z));
            var r, err := VecAt(frame + after, 0), n as real / 32766.0;
            && (frame[0] == 0 <==> Tiny(x) && Tiny(y) && Tiny(z))
            && r.Ok? && r.next == |frame|
            && Comes(x, r.value.x, err) && Comes(y, r.value.y, err) && Comes(z, r.value.z, err)
            && (frame[0] == 0 ==> r.value == Vec(0.0, 0.0, 0.0))
  {
    hide Sanitize, VecBytes, VecAt, Comes, AtMost, Tiny, MaxAbs, Abs;
    var v := Clamped(x, y, z);
    ClampedRange(x, y, z);
    ClampedMeans(x, y, z, n as real);
    ClampedBack(v, after, n);
    var r, err := VecAt(VecBytes(v) + after, 0).value, n as real / 32766.0;
    SanitizeMeans(x, n as real, r.x, err);
    SanitizeMeans(y, n as real, r.y, err);
    SanitizeMeans(z, n as real, r.z, err);
  }

  /** The scale is the least whole number not below any component. */
  lemma ScaleLeast(v: Vec, n: nat)
    requires MIN_VALUE <= MaxAbs(v) <= n as real
    ensures 1 <= Scale(v) <= n
  {
    ScaleBounds(v);
  }

  lemma ComponentsBack(v: Vec)
    requires MIN_VALUE <= MaxAbs(v) <= MAX_VALUE
    ensures Scale(v) > 0
    ensures var s, p, err := Scale(v), Packed(v), Scale(v) as real / 32766.0;
            && Abs(Unpack(p, 0x8, s) - v.x) <= err && Abs(Unpack(p, 0x8, s)) <= s as real
            && Abs(Unpack(p, 0x4_0000, s) - v.y) <= err && Abs(Unpack(p, 0x4_0000, s)) <= s as real
            && Abs(Unpack(p, 0x2_0000_0000, s) - v.z) <= err && Abs(Unpack(p, 0x2_0000_0000, s)) <= s as real
            && (v.x == 0.0 ==> Unpack(p, 0x8, s) == 0.0) && (v.y == 0.0 ==> Unpack(p, 0x4_0000, s) == 0.0)
            && (v.z == 0.0 ==> Unpack(p, 0x2_0000_0000, s) == 0.0)
  {
    ScaleBounds(v);
    var s := Scale(v);
    PackRange(v.x, s);
    PackRange(v.y, s);
    PackRange(v.z, s);
    ScaleSplit(s);
    JoinFields(Header(s), Pack(v.x, s), Pack(v.y, s), Pack(v.z, s));
    UnpackError(Packed(v), 0x8, v.x, s);
    UnpackError(Packed(v), 0x4_0000, v.y, s);
    UnpackError(Packed(v), 0x2_0000_0000, v.z, s);
  }

  // ---- Where everything stands

  /** Six bytes as one number: the first two, low byte first, and above them four, high byte first. */
  function Number(b: seq<byte>): nat
    requires |b| >= 6
  {
    b[0] as nat + b[1] as nat * 0x100
    + (b[2] as nat * 0x100_0000 + b[3] as nat * 0x1_0000 + b[4] as nat * 0x100 + b[5] as nat) * 0x1_0000
  }

  lemma NumberIs(b: seq<byte>)
    requires |b| >= 6
    ensures Number(b) == At32(b, 2) as int * 0x1_0000 + b[1] as int * 0x100 + b[0] as int
    ensures Number(b) % 8 == b[0] as int % 8
  {
    var first, rest: int := b[0] as int, At32(b, 2) as int * 0x100 + b[1] as int;
    assert Number(b) == rest * 0x100 + first;
    assert rest * 0x100 + first == 8 * (rest * 0x20) + first;
  }

  /** The number from -scale to scale that a field of fifteen bits stands for. */
  function Value(n: nat, shift: nat, scale: nat): real
    requires shift > 0
  {
    (((n / shift) % 32768) as real * 2.0 / 32766.0 - 1.0) * scale as real
  }

  /** The scale stands in the low three bits and what follows, the components in the fields above. */
  ghost predicate Laid(b: seq<byte>, scale: nat, x: Double, y: Double, z: Double) {
    && |b| >= 6 && scale < 0x4_0000_0000
    && Number(b) % 8 == (if scale > 3 then 4 + scale % 4 else scale)
    && b[6..] == (if scale > 3 then VarIntBytes(I32Of(scale / 4)) else [])
    && Comes(x, Value(Number(b), 0x8, scale), scale as real / 32766.0)
    && Comes(y, Value(Number(b), 0x4_0000, scale), scale as real / 32766.0)
    && Comes(z, Value(Number(b), 0x2_0000_0000, scale), scale as real / 32766.0)
  }

  /** The layout of a vector that is not all tiny, with the least whole number not below any component as
      its scale. */
  lemma WrittenLayout(x: Double, y: Double, z: Double, n: nat)
    requires !(Tiny(x) && Tiny(y) && Tiny(z)) && n >= 1
    requires AtMost(x, n as real) && AtMost(y, n as real) && AtMost(z, n as real)
    requires !(AtMost(x, (n - 1) as real) && AtMost(y, (n - 1) as real) && AtMost(z, (n - 1) as real))
    ensures Laid(VecBytes(Clamped(x, y, z)), n, x, y, z)
  {
    hide Sanitize, Comes, AtMost, Tiny, MaxAbs, Abs, Packed, Value, SixBytes, VarIntBytes, Scale, Unpack;
    var v := Clamped(x, y, z);
    ClampedRange(x, y, z);
    ClampedMeans(x, y, z, n as real);
    ClampedMeans(x, y, z, (n - 1) as real);
    LeastScale(v, n);
    PackedBits(v);
    var b := VecBytes(v);
    ComponentsBack(v);
    UnpackedIs(v, 0x8);
    UnpackedIs(v, 0x4_0000);
    UnpackedIs(v, 0x2_0000_0000);
    var err := n as real / 32766.0;
    SanitizeMeans(x, n as real, Value(Number(b), 0x8, n), err);
    SanitizeMeans(y, n as real, Value(Number(b), 0x4_0000, n), err);
    SanitizeMeans(z, n as real, Value(Number(b), 0x2_0000_0000, n), err);
  }

  lemma LeastScale(v: Vec, n: nat)
    requires n >= 1 && (n - 1) as real < MaxAbs(v) <= n as real && MIN_VALUE <= MaxAbs(v) <= MAX_VALUE
    ensures Scale(v) == n < 0x4_0000_0000
  {
    ScaleBounds(v);
  }

  lemma SixNumber(packed: int, more: seq<byte>)
    requires 0 <= packed < 0x1_0000_0000_0000
    ensures var b := SixBytes(packed) + more;
            Number(b) == packed && b[6..] == more
  {
    hide SixBytes, Number, At32;
    var b := SixBytes(packed) + more;
    assert b[0..6] == SixBytes(packed);
    SixBytesBack(b, 0, packed);
    NumberIs(b);
  }

  lemma PackedFields(v: Vec)
    requires MIN_VALUE <= MaxAbs(v) <= MAX_VALUE
    ensures var s, p := Scale(v), Packed(v);
            && s >= 1 && 0 <= p < 0x1_0000_0000_0000 && p % 8 == Header(s)
            && 0 <= (p / 0x8) % FIELD <= STEPS && 0 <= (p / 0x4_0000) % FIELD <= STEPS
            && 0 <= (p / 0x2_0000_0000) % FIELD <= STEPS
  {
    hide Pack, Join;
    ScaleBounds(v);
    var s := Scale(v);
    PackRange(v.x, s);
    PackRange(v.y, s);
    PackRange(v.z, s);
    ScaleSplit(s);
    JoinFields(Header(s), Pack(v.x, s), Pack(v.y, s), Pack(v.z, s));
  }

  lemma PackedBits(v: Vec)
    requires MIN_VALUE <= MaxAbs(v) <= MAX_VALUE && Scale(v) < 0x4_0000_0000
    ensures var s, b := Scale(v), VecBytes(v);
            && s >= 1 && |b| >= 6 && Packed(v) == Number(b)
            && Number(b) % 8 == (if s > 3 then 4 + s % 4 else s)
            && b[6..] == (if s > 3 then VarIntBytes(I32Of(s / 4)) else [])
  {
    hide SixBytes, VarIntBytes, Scale, Pack, MaxAbs, Packed, Number;
    PackedFields(v);
    var s := Scale(v);
    SixNumber(Packed(v), if s > 3 then VarIntBytes(Continuation(s)) else []);
  }

  /** A written field is at most 32766, so reading never has to cut it. */
  lemma UnpackedIs(v: Vec, shift: nat)
    requires MIN_VALUE <= MaxAbs(v) <= MAX_VALUE && (shift == 0x8 || shift == 0x4_0000 || shift == 0x2_0000_0000)
    ensures Scale(v) >= 1 && Packed(v) >= 0 && Unpack(Packed(v), shift, Scale(v)) == Value(Packed(v), shift, Scale(v))
  {
    hide Scale, Packed, MaxAbs;
    PackedFields(v);
  }

  /** A field of all ones stands for the scale itself. */
  function Component(n: nat, shift: nat, scale: nat): real
    requires shift > 0
  {
    if (n / shift) % 32768 == 32767 then scale as real else Value(n, shift, scale)
  }

  function Components(n: nat, scale: nat): Vec {
    Vec(Component(n, 0x8, scale), Component(n, 0x4_0000, scale), Component(n, 0x2_0000_0000, scale))
  }

  /** Whatever the bytes, the reader takes the same bits for the same fields. */
  lemma ReadLayout(b: seq<byte>)
    requires b != [] && b[0] != 0
    ensures |b| < 6 ==> VecAt(b, 0) == Fail(EndOfInput)
    ensures |b| >= 6 && Number(b) % 8 < 4 ==> VecAt(b, 0) == Ok(Components(Number(b), Number(b) % 4), 6)
    ensures |b| >= 6 && Number(b) % 8 >= 4 && IntAt(b, 6).Fail? ==> VecAt(b, 0) == Fail(IntAt(b, 6).error)
    ensures |b| >= 6 && Number(b) % 8 >= 4 && IntAt(b, 6).Ok? ==>
              var more := IntAt(b, 6).value as int % 0x1_0000_0000;
              VecAt(b, 0) == Ok(Components(Number(b), Number(b) % 4 + 4 * more), IntAt(b, 6).next)
  {
    hide Number, At32, Components, IntAt, Unpack, U32Of;
    if |b| >= 6 {
      NumberIs(b);
      HeaderBits(b);
      if IntAt(b, 6).Ok? {
        Unsigned(IntAt(b, 6).value);
        ComponentsRead(Number(b), Number(b) % 4 + 4 * U32Of(IntAt(b, 6).value));
      }
      ComponentsRead(Number(b), Number(b) % 4);
    }
  }

  lemma Unsigned(v: i32)
    ensures U32Of(v) == v as int % 0x1_0000_0000
  {
  }

  lemma HeaderBits(b: seq<byte>)
    requires |b| >= 6
    ensures b[0] as int % 4 == Number(b) % 4 && ((b[0] as int / 4) % 2 == 1 <==> Number(b) % 8 >= 4)
  {
    hide Number, At32;
    NumberIs(b);
    EighthBits(b[0] as int);
    EighthBits(Number(b));
  }

  lemma EighthBits(n: nat)
    ensures n % 4 == n % 8 % 4 && (n / 4) % 2 == n % 8 / 4
  {
    LowBits(n / 8, n % 8);
  }

  lemma ComponentsRead(n: nat, scale: nat)
    ensures Vec(Unpack(n, 0x8, scale), Unpack(n, 0x4_0000, scale), Unpack(n, 0x2_0000_0000, scale))
         == Components(n, scale)
  {
    ComponentRead(n, 0x8, scale);
    ComponentRead(n, 0x4_0000, scale);
    ComponentRead(n, 0x2_0000_0000, scale);
  }

  lemma ComponentRead(n: nat, shift: nat, scale: nat)
    requires shift > 0
    ensures Unpack(n, shift, scale) == Component(n, shift, scale)
  {
  }
}
