/** Java's Modified UTF-8 (section 4.4.7 of the JVM Specification), as written and read by
    internal/nbt/mutf8.go. A Go string is taken as the Unicode scalar values it holds. */
module Mutf8 {
  import opened Bytes

  type Rune = x: int | 0 <= x < 0xD800 || 0xE000 <= x < 0x11_0000
  type Str = seq<Rune>

  const REPLACEMENT: Rune := 0xFFFD

  datatype Units = Decoded(units: seq<u16>) | Malformed

  // ---- UTF-16 (sections 2.1 and 2.2 of RFC 2781), as the Go library does it

  function RuneUnits(r: Rune): (us: seq<u16>)
    ensures |us| == 1 || |us| == 2
  {
    if r < 0x1_0000 then [r]
    else [0xD800 + (r - 0x1_0000) / 0x400, 0xDC00 + (r - 0x1_0000) % 0x400]
  }

  function Utf16Encode(s: Str): seq<u16> {
    if s == [] then [] else RuneUnits(s[0]) + Utf16Encode(s[1..])
  }

  predicate IsHigh(u: u16) { 0xD800 <= u < 0xDC00 }
  predicate IsLow(u: u16) { 0xDC00 <= u < 0xE000 }

  function Utf16Decode(us: seq<u16>): Str {
    if us == [] then []
    else if !IsHigh(us[0]) && !IsLow(us[0]) then [us[0]] + Utf16Decode(us[1..])
    else if IsHigh(us[0]) && |us| > 1 && IsLow(us[1]) then
      [(us[0] - 0xD800) * 0x400 + (us[1] - 0xDC00) + 0x1_0000] + Utf16Decode(us[2..])
    else [REPLACEMENT] + Utf16Decode(us[1..])
  }

  lemma {:induction false} Utf16RoundTrip(s: Str)
    ensures Utf16Decode(Utf16Encode(s)) == s
  {
    if s != [] {
      var us := Utf16Encode(s);
      Utf16RoundTrip(s[1..]);
      if s[0] < 0x1_0000 {
        assert us[1..] == Utf16Encode(s[1..]);
      } else {
        assert us[2..] == Utf16Encode(s[1..]);
      }
    }
  }

  /** A text of fewer units never decodes to the same scalar values. */
  lemma {:induction false} ShorterDiffers(s: Str, us: seq<u16>)
    requires us < Utf16Encode(s)
    ensures Utf16Decode(us) != s
  {
    if s != [] && us != [] {
      var full := Utf16Encode(s);
      assert us[0] == full[0];
      if s[0] < 0x1_0000 {
        assert full[1..] == Utf16Encode(s[1..]);
        assert us[1..] < full[1..];
        ShorterDiffers(s[1..], us[1..]);
      } else if |us| > 1 {
        assert us[1] == full[1];
        assert full[2..] == Utf16Encode(s[1..]);
        assert us[2..] < full[2..];
        ShorterDiffers(s[1..], us[2..]);
      }
    }
  }

  // ---- Units and bytes

  function UnitBytes(u: u16): (s: seq<byte>)
    ensures 1 <= |s| <= 3
  {
    if 1 <= u <= 0x7F then [u]
    else if u <= 0x7FF then [0xC0 + u / 0x40, 0x80 + u % 0x40]
    else [0xE0 + u / 0x1000, 0x80 + (u / 0x40) % 0x40, 0x80 + u % 0x40]
  }

  function UnitsBytes(us: seq<u16>): seq<byte> {
    if us == [] then [] else UnitBytes(us[0]) + UnitsBytes(us[1..])
  }

  /** What `encodeModifiedUTF8` appends for a string. */
  function Encoded(s: Str): seq<byte> { UnitsBytes(Utf16Encode(s)) }

  // The units read from a two-byte and a three-byte sequence.

  function Join2(c: byte, d: byte): u16 {
    (c as int % 0x20) * 0x40 + d as int % 0x40
  }

  function Join3(c: byte, d: byte, e: byte): u16 {
    (c as int % 0x10) * 0x1000 + (d as int % 0x40) * 0x40 + e as int % 0x40
  }

  lemma JoinUnit(u: u16)
    ensures 0x80 <= u <= 0x7FF || u == 0 ==> Join2(0xC0 + u / 0x40, 0x80 + u % 0x40) == u
    ensures 0x7FF < u ==> Join3(0xE0 + u / 0x1000, 0x80 + (u / 0x40) % 0x40, 0x80 + u % 0x40) == u
  {
    var high, low := u / 0x40, u % 0x40;
    assert u == high * 0x40 + low && (0x80 + low) % 0x40 == low;
    if 0x7FF < u {
      assert high == (high / 0x40) * 0x40 + high % 0x40 && high / 0x40 == u / 0x1000;
      assert (0xE0 + high / 0x40) % 0x10 == high / 0x40 && (0x80 + high % 0x40) % 0x40 == high % 0x40;
    } else {
      assert high < 0x20;
    }
  }

  predicate IsTail(b: seq<byte>, i: nat) { i < |b| && 0x80 <= b[i] < 0xC0 }

  /** The parser of `decodeModifiedUTF8` from index `i` on, with `units` already read. */
  function DecodeFrom(b: seq<byte>, i: nat, units: seq<u16>): Units
    requires i <= |b|
    decreases |b| - i
  {
    if i == |b| then Decoded(units)
    else
      var c := b[i];
      if c < 0x80 then
        DecodeFrom(b, i + 1, units + [c])
      else if 0xC0 <= c < 0xE0 then
        if !IsTail(b, i + 1) then Malformed
        else DecodeFrom(b, i + 2, units + [Join2(c, b[i + 1])])
      else if 0xE0 <= c < 0xF0 then
        if !IsTail(b, i + 1) || !IsTail(b, i + 2) then Malformed
        else DecodeFrom(b, i + 3, units + [Join3(c, b[i + 1], b[i + 2])])
      else Malformed
  }

  method EncodeModifiedUTF8(dst: seq<byte>, s: Str) returns (out: seq<byte>)
    ensures out == dst + Encoded(s)
  {
    hide UnitsBytes, Utf16Encode;
    var us := Utf16Encode(s);
    out := dst;
    assert us[0..] == us;
    for i := 0 to |us|
      invariant out + UnitsBytes(us[i..]) == dst + UnitsBytes(us)
    {
      var u := us[i];
      UnitNext(out, us[i..]);
      assert us[i..][1..] == us[i + 1..];
      if 1 <= u <= 0x7F {
        out := out + [u];
      } else if u <= 0x7FF {
        out := out + [0xC0 + u / 0x40, 0x80 + u % 0x40];
      } else {
        out := out + [0xE0 + u / 0x1000, 0x80 + (u / 0x40) % 0x40, 0x80 + u % 0x40];
      }
    }
    NoUnits(out, us);
  }

  lemma NoUnits(out: seq<byte>, us: seq<u16>)
    ensures out + UnitsBytes(us[|us|..]) == out
  {
  }

  lemma UnitNext(before: seq<byte>, us: seq<u16>)
    requires us != []
    ensures before + UnitsBytes(us) == before + UnitBytes(us[0]) + UnitsBytes(us[1..])
  {
    hide UnitBytes;
    assert before + (UnitBytes(us[0]) + UnitsBytes(us[1..])) == before + UnitBytes(us[0]) + UnitsBytes(us[1..]);
  }

  method DecodeModifiedUTF8(b: seq<byte>) returns (ok: bool, s: Str)
    ensures ok == DecodeFrom(b, 0, []).Decoded?
    ensures ok ==> s == Utf16Decode(DecodeFrom(b, 0, []).units)
  {
    var units: seq<u16> := [];
    var i := 0;
    while i < |b|
      invariant i <= |b|
      invariant DecodeFrom(b, i, units) == DecodeFrom(b, 0, [])
    {
      var c := b[i];
      if c < 0x80 {
        units := units + [c];
        i := i + 1;
      } else if 0xC0 <= c < 0xE0 {
        if i + 1 >= |b| || !(0x80 <= b[i + 1] < 0xC0) { return false, []; }
        units := units + [Join2(c, b[i + 1])];
        i := i + 2;
      } else if 0xE0 <= c < 0xF0 {
        if i + 2 >= |b| || !(0x80 <= b[i + 1] < 0xC0) || !(0x80 <= b[i + 2] < 0xC0) { return false, []; }
        units := units + [Join3(c, b[i + 1], b[i + 2])];
        i := i + 3;
      } else {
        return false, [];
      }
    }
    return true, Utf16Decode(units);
  }

  // ---- The byte parser inverts the printer, for any units (unpaired surrogates too)

  lemma OneUnit(b: seq<byte>, i: nat, u: u16, acc: seq<u16>)
    requires Holds(b, i, UnitBytes(u))
    ensures DecodeFrom(b, i, acc) == DecodeFrom(b, i + |UnitBytes(u)|, acc + [u])
  {
    var head := UnitBytes(u);
    HoldsAt(b, i, head, 0);
    if |head| > 1 { HoldsAt(b, i, head, 1); }
    if |head| > 2 { HoldsAt(b, i, head, 2); }
    JoinUnit(u);
  }

  lemma {:induction false} UnitsRoundTripFrom(b: seq<byte>, i: nat, us: seq<u16>, acc: seq<u16>)
    requires i <= |b| && b[i..] == UnitsBytes(us)
    ensures DecodeFrom(b, i, acc) == Decoded(acc + us)
    decreases |us|
  {
    hide UnitBytes;
    if us == [] {
      assert acc + us == acc;
    } else {
      var head := UnitBytes(us[0]);
      assert b[i..i + |head|] == b[i..][..|head|] == head;
      OneUnit(b, i, us[0], acc);
      assert b[i + |head|..] == b[i..][|head|..] == UnitsBytes(us[1..]);
      UnitsRoundTripFrom(b, i + |head|, us[1..], acc + [us[0]]);
      assert acc + [us[0]] + us[1..] == acc + us;
    }
  }

  lemma UnitsRoundTrip(us: seq<u16>)
    ensures DecodeFrom(UnitsBytes(us), 0, []) == Decoded(us)
  {
    UnitsRoundTripFrom(UnitsBytes(us), 0, us, []);
    assert [] + us == us;
  }

  lemma TextRoundTrip(s: Str)
    ensures DecodeFrom(Encoded(s), 0, []).Decoded?
    ensures Utf16Decode(DecodeFrom(Encoded(s), 0, []).units) == s
  {
    UnitsRoundTrip(Utf16Encode(s));
    Utf16RoundTrip(s);
  }

  /** No literal NUL and no lead byte of a four-byte sequence is ever written. */
  lemma {:induction false} EncodedBytes(us: seq<u16>, k: nat)
    requires k < |UnitsBytes(us)|
    ensures 0 < UnitsBytes(us)[k] < 0xF0
  {
    var n := |UnitBytes(us[0])|;
    if k >= n {
      assert UnitsBytes(us)[k] == UnitsBytes(us[1..])[k - n];
      EncodedBytes(us[1..], k - n);
    }
  }

  /** A unit cut inside its bytes is malformed. */
  lemma CutUnit(b: seq<byte>, i: nat, u: u16, acc: seq<u16>)
    requires i < |b| < i + |UnitBytes(u)| && b[i..] == UnitBytes(u)[..|b| - i]
    ensures DecodeFrom(b, i, acc).Malformed?
  {
    assert b[i] == b[i..][0];
    if i + 1 < |b| { assert b[i + 1] == b[i..][1]; }
  }

  /** The outcome `r` is `acc` followed by some of `us`, not all, if it is a text at all. */
  predicate ReadsFewer(r: Units, acc: seq<u16>, us: seq<u16>) {
    r.Decoded? ==> exists n | 0 <= n < |us| :: r.units == acc + us[..n]
  }

  lemma ReadsFewerStep(r: Units, acc: seq<u16>, us: seq<u16>)
    requires us != [] && ReadsFewer(r, acc + [us[0]], us[1..])
    ensures ReadsFewer(r, acc, us)
  {
    if r.Decoded? {
      var n :| 0 <= n < |us[1..]| && r.units == acc + [us[0]] + us[1..][..n];
      assert r.units == acc + us[..n + 1];
    }
  }

  /** A text cut short is malformed, or it decodes to fewer units. */
  lemma {:induction false} CutUnits(b: seq<byte>, i: nat, us: seq<u16>, acc: seq<u16>)
    requires i <= |b| && b[i..] < UnitsBytes(us)
    ensures ReadsFewer(DecodeFrom(b, i, acc), acc, us)
    decreases |us|
  {
    var head, all := UnitBytes(us[0]), UnitsBytes(us);
    if i == |b| {
      assert acc == acc + us[..0];
    } else if i + |head| > |b| {
      assert b[i..] == all[..|b| - i] == head[..|b| - i];
      CutUnit(b, i, us[0], acc);
    } else {
      assert b[i..i + |head|] == b[i..][..|head|] == all[..|head|] == head;
      OneUnit(b, i, us[0], acc);
      assert all[|head|..] == UnitsBytes(us[1..]);
      assert b[i + |head|..] == b[i..][|head|..] < all[|head|..];
      CutUnits(b, i + |head|, us[1..], acc + [us[0]]);
      ReadsFewerStep(DecodeFrom(b, i, acc), acc, us);
    }
  }

  /** Cutting an encoded string short never yields the string itself. */
  lemma CutText(p: seq<byte>, s: Str)
    requires p < Encoded(s)
    ensures DecodeFrom(p, 0, []).Decoded? ==> Utf16Decode(DecodeFrom(p, 0, []).units) != s
  {
    assert p[0..] == p;
    CutUnits(p, 0, Utf16Encode(s), []);
    if DecodeFrom(p, 0, []).Decoded? {
      var us := DecodeFrom(p, 0, []).units;
      var n :| 0 <= n < |Utf16Encode(s)| && us == [] + Utf16Encode(s)[..n];
      assert us == Utf16Encode(s)[..n];
      ShorterDiffers(s, us);
    }
  }

  // ---- What is written for a character, and exactly what is read

  /** The bytes of one character (section 4.4.7 of the JVM Specification): two for NUL, one to three up to
      U+FFFF, and three for either half above. */
  function RuneBytes(r: Rune): seq<byte> {
    if r == 0 then [0xC0, 0x80]
    else if r < 0x80 then [r]
    else if r < 0x800 then [192 + r / 64, 128 + r % 64]
    else if r < 0x1_0000 then [224 + r / 4096, 128 + r / 64 % 64, 128 + r % 64]
    else
      var v := r - 0x1_0000;
      [237, 160 + v / 65536, 128 + v / 1024 % 64, 237, 176 + v / 64 % 16, 128 + v % 64]
  }

  function RunesBytes(s: Str): seq<byte> {
    if s == [] then [] else RuneBytes(s[0]) + RunesBytes(s[1..])
  }

  lemma RuneEncoded(r: Rune)
    ensures UnitsBytes(RuneUnits(r)) == RuneBytes(r)
  {
    hide UnitsBytes;
    var us := RuneUnits(r);
    if r < 0x1_0000 {
      OneUnitBytes(us);
    } else {
      var v: u32 := r - 0x1_0000;
      HighBytes(v);
      LowBytes(v);
      assert us == [us[0]] + [us[1]];
      UnitsBytesJoin([us[0]], [us[1]]);
      OneUnitBytes([us[0]]);
      OneUnitBytes([us[1]]);
    }
  }

  lemma OneUnitBytes(us: seq<u16>)
    requires |us| == 1
    ensures UnitsBytes(us) == UnitBytes(us[0])
  {
    assert us[1..] == [];
  }

  lemma HighBytes(v: u32)
    requires v < 0x10_0000
    ensures UnitBytes(0xD800 + v / 0x400) == [237, 160 + v / 65536, 128 + v / 1024 % 64]
  {
    var high := v / 0x400;
    assert high / 64 == v / 65536;
    assert (0xD800 + high) / 0x40 == 0x360 + high / 64 && (0xD800 + high) % 0x40 == high % 64;
  }

  lemma LowBytes(v: u32)
    ensures UnitBytes(0xDC00 + v % 0x400) == [237, 176 + v / 64 % 16, 128 + v % 64]
  {
    LowPart(v);
    LowUnit(v % 0x400);
  }

  lemma LowPart(v: u32)
    ensures v % 0x400 / 64 == v / 64 % 16 && v % 0x400 % 64 == v % 64
  {
    var rest := v % 0x400;
    Parts(v / 0x400, rest / 64, rest % 64);
  }

  lemma Parts(a: nat, b: nat, c: nat)
    requires b < 16 && c < 64
    ensures var v := a * 1024 + (b * 64 + c); v / 64 == a * 16 + b && v % 64 == c && v / 64 % 16 == b
  {
    assert a * 1024 + (b * 64 + c) == 64 * (a * 16 + b) + c;
  }

  lemma LowUnit(low: u16)
    requires low < 0x400
    ensures UnitBytes(0xDC00 + low) == [237, 176 + low / 64, 128 + low % 64]
  {
    assert (0xDC00 + low) / 0x40 == 0x370 + low / 64 && (0xDC00 + low) % 0x40 == low % 64;
  }

  lemma {:induction false} UnitsBytesJoin(a: seq<u16>, b: seq<u16>)
    ensures UnitsBytes(a + b) == UnitsBytes(a) + UnitsBytes(b)
  {
    hide UnitBytes;
    if a == [] {
      assert a + b == b;
    } else {
      assert (a + b)[1..] == a[1..] + b;
      UnitsBytesJoin(a[1..], b);
    }
  }

  /** A string is written character by character. */
  lemma {:induction false} EncodedIs(s: Str)
    ensures Encoded(s) == RunesBytes(s)
  {
    hide UnitsBytes, RuneUnits, RuneBytes;
    if s == [] {
      NoUnits([], []);
    } else {
      UnitsBytesJoin(RuneUnits(s[0]), Utf16Encode(s[1..]));
      RuneEncoded(s[0]);
      EncodedIs(s[1..]);
    }
  }

  /** The bytes stand for one unit, in a form that may be longer than needed. */
  predicate UnitForm(b: seq<byte>, u: u16) {
    if |b| == 1 then b[0] < 128 && u == b[0]
    else if |b| == 2 then
      192 <= b[0] < 224 && 128 <= b[1] < 192 && u as int == (b[0] as int - 192) * 64 + (b[1] as int - 128)
    else
      && |b| == 3 && 224 <= b[0] < 240 && 128 <= b[1] < 192 && 128 <= b[2] < 192
      && u as int == (b[0] as int - 224) * 4096 + (b[1] as int - 128) * 64 + (b[2] as int - 128)
  }

  ghost predicate UnitForms(b: seq<byte>, us: seq<u16>)
    decreases |us|
  {
    if us == [] then b == []
    else exists n :: 1 <= n <= |b| && UnitForm(b[..n], us[0]) && UnitForms(b[n..], us[1..])
  }

  lemma FormRead(b: seq<byte>, i: nat, n: nat, u: u16, acc: seq<u16>)
    requires i + n <= |b| && UnitForm(b[i..][..n], u)
    ensures n > 0 && DecodeFrom(b, i, acc) == DecodeFrom(b, i + n, acc + [u])
  {
    var form := b[i..][..n];
    assert forall k :: 0 <= k < n ==> b[i + k] == form[k];
    assert b[i] == form[0] && (n > 1 ==> b[i + 1] == form[1]) && (n > 2 ==> b[i + 2] == form[2]);
  }

  lemma ReadForm(b: seq<byte>, i: nat, acc: seq<u16>) returns (n: nat, u: u16)
    requires i < |b| && DecodeFrom(b, i, acc).Decoded?
    ensures 1 <= n <= |b| - i && UnitForm(b[i..][..n], u)
    ensures DecodeFrom(b, i, acc) == DecodeFrom(b, i + n, acc + [u])
  {
    var c := b[i];
    if c < 0x80 {
      n, u := 1, c;
    } else if c < 0xE0 {
      n, u := 2, Join2(c, b[i + 1]);
    } else {
      n, u := 3, Join3(c, b[i + 1], b[i + 2]);
    }
  }

  lemma {:induction false} DecodedExtends(b: seq<byte>, i: nat, acc: seq<u16>)
    requires i <= |b| && DecodeFrom(b, i, acc).Decoded?
    ensures acc <= DecodeFrom(b, i, acc).units
    decreases |b| - i
  {
    if i < |b| {
      var n, u := ReadForm(b, i, acc);
      DecodedExtends(b, i + n, acc + [u]);
    }
  }

  lemma {:induction false} DecodedForms(b: seq<byte>, i: nat, us: seq<u16>, acc: seq<u16>)
    requires i <= |b| && DecodeFrom(b, i, acc) == Decoded(acc + us)
    ensures UnitForms(b[i..], us)
    decreases |b| - i
  {
    hide UnitForm;
    if i == |b| {
      assert acc + us == acc;
      assert |us| == 0;
    } else {
      var n, u := ReadForm(b, i, acc);
      DecodedExtends(b, i + n, acc + [u]);
      assert us[0] == (acc + us)[|acc|] == (acc + [u])[|acc|] == u;
      assert acc + [u] + us[1..] == acc + us;
      DecodedForms(b, i + n, us[1..], acc + [u]);
      assert b[i..][n..] == b[i + n..];
    }
  }

  lemma {:induction false} FormsDecoded(b: seq<byte>, i: nat, us: seq<u16>, acc: seq<u16>)
    requires i <= |b| && UnitForms(b[i..], us)
    ensures DecodeFrom(b, i, acc) == Decoded(acc + us)
    decreases |us|
  {
    hide UnitForm;
    if us == [] {
      assert acc + us == acc;
    } else {
      var n :| 1 <= n <= |b[i..]| && UnitForm(b[i..][..n], us[0]) && UnitForms(b[i..][n..], us[1..]);
      FormRead(b, i, n, us[0], acc);
      assert b[i..][n..] == b[i + n..];
      FormsDecoded(b, i + n, us[1..], acc + [us[0]]);
      assert acc + [us[0]] + us[1..] == acc + us;
    }
  }

  /** Bytes are read as some units exactly when they are those units' forms one after the other; all other
      bytes are malformed. */
  lemma DecodeExact(b: seq<byte>, us: seq<u16>)
    ensures DecodeFrom(b, 0, []) == Decoded(us) <==> UnitForms(b, us)
  {
    assert b[0..] == b && [] + us == us;
    if UnitForms(b, us) { FormsDecoded(b, 0, us, []); }
    if DecodeFrom(b, 0, []) == Decoded(us) { DecodedForms(b, 0, us, []); }
  }

  /** A surrogate that is not the first or second of a pair is read as U+FFFD. */
  lemma Unpaired(us: seq<u16>)
    requires us != [] && 0xD800 <= us[0] < 0xE000
    ensures us[0] >= 0xDC00 || |us| == 1 || !(0xDC00 <= us[1] < 0xE000) ==>
              Utf16Decode(us) == [0xFFFD] + Utf16Decode(us[1..])
  {
  }
}
