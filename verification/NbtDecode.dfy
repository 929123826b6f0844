/** The tag parser of internal/nbt/decode.go: a cursor with a depth limit, and the
    functions of the input that say what each of its calls returns. */
module NbtDecode {
  import opened Bytes
  import opened Mutf8
  import opened Nbt
  import opened Wrappers

  const MAX_DEPTH := 512

  datatype Error = Truncated | BadTag | NegativeLen | TooDeep | BadText

  type Result<T> = ResultOf<T, Error>
  type Parse<T> = ParseOf<T, Error>

  // ---- What stands at a position

  function ByteAt(b: seq<byte>, pos: nat): Parse<byte> {
    if pos + 1 > |b| then Fail(Truncated) else Ok(b[pos], pos + 1)
  }

  function U16At(b: seq<byte>, pos: nat): Parse<u16> {
    if pos + 2 > |b| then Fail(Truncated) else Ok(At16(b, pos), pos + 2)
  }

  function U32At(b: seq<byte>, pos: nat): Parse<u32> {
    if pos + 4 > |b| then Fail(Truncated) else Ok(At32(b, pos), pos + 4)
  }

  function U64At(b: seq<byte>, pos: nat): Parse<u64> {
    if pos + 8 > |b| then Fail(Truncated) else Ok(At64(b, pos), pos + 8)
  }

  function TextAt(b: seq<byte>, pos: nat): Parse<Str> {
    var (n, p) :- U16At(b, pos);
    if p + n > |b| then Fail(Truncated)
    else
      match DecodeFrom(b[p..p + n], 0, [])
      case Malformed => Fail(BadText)
      case Decoded(units) => Ok(Utf16Decode(units), p + n)
  }

  /** A length field of `width`-byte elements; it leaves the position after the field. */
  function CountAt(b: seq<byte>, pos: nat, width: nat): (r: Parse<nat>)
    ensures r.Ok? ==> r.next == pos + 4 && r.next + r.value * width <= |b| && r.value <= MAX_I32
  {
    var (n, p) :- U32At(b, pos);
    var count := I32Of(n);
    if count < 0 then Fail(NegativeLen)
    else if count * width > |b| - p then Fail(Truncated)
    else Ok(count, p)
  }

  function IntsAt(b: seq<byte>, pos: nat, n: nat): (r: seq<i32>)
    requires pos + 4 * n <= |b|
    ensures |r| == n
    decreases n
  {
    if n == 0 then [] else [I32Of(At32(b, pos))] + IntsAt(b, pos + 4, n - 1)
  }

  function LongsAt(b: seq<byte>, pos: nat, n: nat): (r: seq<i64>)
    requires pos + 8 * n <= |b|
    ensures |r| == n
    decreases n
  {
    if n == 0 then [] else [I64Of(At64(b, pos))] + LongsAt(b, pos + 8, n - 1)
  }

  function IntArrayAt(b: seq<byte>, pos: nat): (r: Parse<Tag>)
    ensures r.Ok? ==> pos < r.next <= |b|
  {
    var (n, p) :- CountAt(b, pos, 4);
    Ok(IntArrayTag(IntsAt(b, p, n)), p + 4 * n)
  }

  function LongArrayAt(b: seq<byte>, pos: nat): (r: Parse<Tag>)
    ensures r.Ok? ==> pos < r.next <= |b|
  {
    var (n, p) :- CountAt(b, pos, 8);
    Ok(LongArrayTag(LongsAt(b, p, n)), p + 8 * n)
  }

  /** The payload of a tag that holds no other tags, or the error of an unknown kind. */
  function PlainAt(b: seq<byte>, pos: nat, id: byte): (r: Parse<Tag>)
    ensures r.Ok? ==> pos < r.next <= |b|
  {
    if id == TAG_BYTE then
      var (v, p) :- ByteAt(b, pos); Ok(ByteTag(I8Of(v)), p)
    else if id == TAG_SHORT then
      var (v, p) :- U16At(b, pos); Ok(ShortTag(I16Of(v)), p)
    else if id == TAG_INT then
      var (v, p) :- U32At(b, pos); Ok(IntTag(I32Of(v)), p)
    else if id == TAG_LONG then
      var (v, p) :- U64At(b, pos); Ok(LongTag(I64Of(v)), p)
    else if id == TAG_FLOAT then
      var (v, p) :- U32At(b, pos); Ok(FloatTag(v), p)
    else if id == TAG_DOUBLE then
      var (v, p) :- U64At(b, pos); Ok(DoubleTag(v), p)
    else if id == TAG_BYTE_ARRAY then
      var (n, p) :- CountAt(b, pos, 1); Ok(ByteArrayTag(b[p..p + n]), p + n)
    else if id == TAG_STRING then
      var (s, p) :- TextAt(b, pos); Ok(StringTag(s), p)
    else if id == TAG_INT_ARRAY then
      IntArrayAt(b, pos)
    else if id == TAG_LONG_ARRAY then
      LongArrayAt(b, pos)
    else Fail(BadTag)
  }

  function PayloadAt(b: seq<byte>, pos: nat, depth: nat, id: byte): (r: Parse<Tag>)
    requires depth <= MAX_DEPTH
    ensures r.Ok? ==> pos < r.next <= |b|
    decreases MAX_DEPTH - depth, 0, 0
  {
    if id == TAG_LIST then
      if depth >= MAX_DEPTH then Fail(TooDeep) else ListAt(b, pos, depth + 1)
    else if id == TAG_COMPOUND then
      if depth >= MAX_DEPTH then Fail(TooDeep) else CompoundAt(b, pos, depth + 1)
    else PlainAt(b, pos, id)
  }

  function ListAt(b: seq<byte>, pos: nat, depth: nat): (r: Parse<Tag>)
    requires depth <= MAX_DEPTH
    ensures r.Ok? ==> pos < r.next <= |b|
    decreases MAX_DEPTH - depth, 2, 0
  {
    var (id, p) :- ByteAt(b, pos);
    var (n, q) :- CountAt(b, p, 1);
    if id == TAG_END && n != 0 then Fail(BadTag)
    else
      var (elems, next) :- ElemsAt(b, q, depth, id, n, []);
      Ok(ListTag(id, elems), next)
  }

  /** The `n` elements left to read, after those of `acc`. */
  function ElemsAt(b: seq<byte>, pos: nat, depth: nat, id: byte, n: nat, acc: seq<Tag>): (r: Parse<seq<Tag>>)
    requires depth <= MAX_DEPTH && pos <= |b|
    ensures r.Ok? ==> pos <= r.next <= |b|
    decreases MAX_DEPTH - depth, 1, n
  {
    if n == 0 then Ok(acc, pos)
    else
      var (t, p) :- PayloadAt(b, pos, depth, id);
      ElemsAt(b, p, depth, id, n - 1, acc + [t])
  }

  function CompoundAt(b: seq<byte>, pos: nat, depth: nat): (r: Parse<Tag>)
    requires depth <= MAX_DEPTH
    ensures r.Ok? ==> pos < r.next <= |b|
    decreases MAX_DEPTH - depth, 2, 0
  {
    var (es, next) :- EntriesAt(b, pos, depth, []);
    Ok(CompoundTag(es), next)
  }

  /** The entries left to read up to the end tag, set one by one over those of `acc`. */
  function EntriesAt(b: seq<byte>, pos: nat, depth: nat, acc: seq<Entry>): (r: Parse<seq<Entry>>)
    requires depth <= MAX_DEPTH
    ensures r.Ok? ==> pos < r.next <= |b|
    decreases MAX_DEPTH - depth, 1, |b| - pos
  {
    var (id, p) :- ByteAt(b, pos);
    if id == TAG_END then Ok(acc, p)
    else
      var (name, q) :- TextAt(b, p);
      var (t, next) :- PayloadAt(b, q, depth, id);
      EntriesAt(b, next, depth, SetEntry(acc, name, t))
  }

  /** `Unmarshal`: an unnamed root, absent when the first byte is the end tag. */
  function RootAt(b: seq<byte>): Parse<Option<Tag>> {
    var (id, p) :- ByteAt(b, 0);
    if id == TAG_END then Ok(None, p)
    else
      var (t, next) :- PayloadAt(b, p, 0, id);
      Ok(Some(t), next)
  }

  datatype Named = Named(name: Str, root: Option<Tag>)

  /** `UnmarshalNamed`: a root name before the root. */
  function NamedRootAt(b: seq<byte>): Parse<Named> {
    var (id, p) :- ByteAt(b, 0);
    if id == TAG_END then Ok(Named([], None), p)
    else
      var (name, q) :- TextAt(b, p);
      var (t, next) :- PayloadAt(b, q, 0, id);
      Ok(Named(name, Some(t)), next)
  }

  // ---- The cursor

  class Decoder {
    const b: seq<byte>
    var pos: nat
    var depth: nat

    constructor (b: seq<byte>)
      ensures this.b == b && pos == 0 && depth == 0
      ensures Valid()
    {
      this.b := b;
      pos := 0;
      depth := 0;
    }

    ghost predicate Valid()
      reads this
    {
      pos <= |b| && depth <= MAX_DEPTH
    }

    method U8() returns (r: Result<byte>)
      requires Valid()
      modifies this
      ensures Valid() && depth == old(depth) && pos >= old(pos)
      ensures Agrees(ByteAt(b, old(pos)), r, pos)
    {
      if pos + 1 > |b| { return Failure(Truncated); }
      r := Success(b[pos]);
      pos := pos + 1;
    }

    method U16() returns (r: Result<u16>)
      requires Valid()
      modifies this
      ensures Valid() && depth == old(depth) && pos >= old(pos)
      ensures Agrees(U16At(b, old(pos)), r, pos)
    {
      if pos + 2 > |b| { return Failure(Truncated); }
      r := Success(At16(b, pos));
      pos := pos + 2;
    }

    method U32() returns (r: Result<u32>)
      requires Valid()
      modifies this
      ensures Valid() && depth == old(depth) && pos >= old(pos)
      ensures Agrees(U32At(b, old(pos)), r, pos)
    {
      if pos + 4 > |b| { return Failure(Truncated); }
      r := Success(At32(b, pos));
      pos := pos + 4;
    }

    method U64() returns (r: Result<u64>)
      requires Valid()
      modifies this
      ensures Valid() && depth == old(depth) && pos >= old(pos)
      ensures Agrees(U64At(b, old(pos)), r, pos)
    {
      if pos + 8 > |b| { return Failure(Truncated); }
      r := Success(At64(b, pos));
      pos := pos + 8;
    }

    method Text() returns (r: Result<Str>)
      requires Valid()
      modifies this
      ensures Valid() && depth == old(depth) && pos >= old(pos)
      ensures Agrees(TextAt(b, old(pos)), r, pos)
    {
      var n :- U16();
      if pos + n > |b| { return Failure(Truncated); }
      var ok, s := DecodeModifiedUTF8(b[pos..pos + n]);
      pos := pos + n;
      r := if ok then Success(s) else Failure(BadText);
    }

    method Count(width: nat) returns (r: Result<nat>)
      requires Valid()
      modifies this
      ensures Valid() && depth == old(depth) && pos >= old(pos)
      ensures Agrees(CountAt(b, old(pos), width), r, pos)
    {
      var n :- U32();
      var count := I32Of(n);
      if count < 0 { return Failure(NegativeLen); }
      if count * width > |b| - pos { return Failure(Truncated); }
      return Success(count);
    }

    method Payload(id: byte) returns (r: Result<Tag>)
      requires Valid()
      modifies this
      ensures Valid() && depth == old(depth) && pos >= old(pos)
      ensures Agrees(PayloadAt(b, old(pos), depth, id), r, pos)
      decreases MAX_DEPTH - depth, 1
    {
      if id == TAG_BYTE {
        var v :- U8();
        r := Success(ByteTag(I8Of(v)));
      } else if id == TAG_SHORT {
        var v :- U16();
        r := Success(ShortTag(I16Of(v)));
      } else if id == TAG_INT {
        var v :- U32();
        r := Success(IntTag(I32Of(v)));
      } else if id == TAG_LONG {
        var v :- U64();
        r := Success(LongTag(I64Of(v)));
      } else if id == TAG_FLOAT {
        var v :- U32();
        r := Success(FloatTag(v));
      } else if id == TAG_DOUBLE {
        var v :- U64();
        r := Success(DoubleTag(v));
      } else if id == TAG_BYTE_ARRAY {
        var n :- Count(1);
        r := Success(ByteArrayTag(b[pos..pos + n]));
        pos := pos + n;
      } else if id == TAG_STRING {
        var s :- Text();
        r := Success(StringTag(s));
      } else if id == TAG_INT_ARRAY {
        r := IntArray();
      } else if id == TAG_LONG_ARRAY {
        r := LongArray();
      } else if id == TAG_LIST || id == TAG_COMPOUND {
        r := Container(id);
      } else {
        r := Failure(BadTag);
      }
    }

    method IntArray() returns (r: Result<Tag>)
      requires Valid()
      modifies this
      ensures Valid() && depth == old(depth) && pos >= old(pos)
      ensures Agrees(IntArrayAt(b, old(pos)), r, pos)
    {
      hide At32;
      var n :- Count(4);
      ghost var start := pos;
      var out: seq<i32> := [];
      for i := 0 to n
        invariant Valid() && depth == old(depth)
        invariant pos == start + 4 * i && start + 4 * n <= |b|
        invariant out + IntsAt(b, pos, n - i) == IntsAt(b, start, n)
      {
        var v := U32();
        if v.Failure? { assert false; } // the count was checked against the bytes left
        out := out + [I32Of(v.value)];
      }
      assert out == out + IntsAt(b, pos, 0);
      r := Success(IntArrayTag(out));
    }

    method LongArray() returns (r: Result<Tag>)
      requires Valid()
      modifies this
      ensures Valid() && depth == old(depth) && pos >= old(pos)
      ensures Agrees(LongArrayAt(b, old(pos)), r, pos)
    {
      hide At32, At64;
      var n :- Count(8);
      ghost var start := pos;
      var out: seq<i64> := [];
      for i := 0 to n
        invariant Valid() && depth == old(depth)
        invariant pos == start + 8 * i && start + 8 * n <= |b|
        invariant out + LongsAt(b, pos, n - i) == LongsAt(b, start, n)
      {
        var v := U64();
        if v.Failure? { assert false; }
        out := out + [I64Of(v.value)];
      }
      assert out == out + LongsAt(b, pos, 0);
      r := Success(LongArrayTag(out));
    }

    method Container(id: byte) returns (r: Result<Tag>)
      requires Valid() && (id == TAG_LIST || id == TAG_COMPOUND)
      modifies this
      ensures Valid() && depth == old(depth) && pos >= old(pos)
      ensures Agrees(PayloadAt(b, old(pos), depth, id), r, pos)
      decreases MAX_DEPTH - depth, 0
    {
      if depth >= MAX_DEPTH { return Failure(TooDeep); }
      depth := depth + 1;
      if id == TAG_LIST {
        r := List();
      } else {
        r := CompoundPayload();
      }
      depth := depth - 1;
    }

    method List() returns (r: Result<Tag>)
      requires Valid()
      modifies this
      ensures Valid() && depth == old(depth) && pos >= old(pos)
      ensures Agrees(ListAt(b, old(pos), depth), r, pos)
      decreases MAX_DEPTH - depth, 2
    {
      hide PayloadAt, CountAt, ByteAt;
      var id :- U8();
      var n :- Count(1);
      if id == TAG_END && n != 0 { return Failure(BadTag); }
      var elems: seq<Tag> := [];
      ghost var start := pos;
      for i := 0 to n
        invariant Valid() && depth == old(depth) && pos >= start
        invariant ElemsAt(b, pos, depth, id, n - i, elems) == ElemsAt(b, start, depth, id, n, [])
      {
        var t :- Payload(id);
        elems := elems + [t];
      }
      r := Success(ListTag(id, elems));
    }

    method CompoundPayload() returns (r: Result<Tag>)
      requires Valid()
      modifies this
      ensures Valid() && depth == old(depth) && pos >= old(pos)
      ensures Agrees(CompoundAt(b, old(pos), depth), r, pos)
      decreases MAX_DEPTH - depth, 2
    {
      var c := new Compound();
      ghost var start := pos;
      while true
        invariant Valid() && depth == old(depth) && pos >= start
        invariant c.Valid() && fresh(c)
        invariant EntriesAt(b, pos, depth, c.Entries()) == EntriesAt(b, start, depth, [])
        decreases |b| - pos
      {
        var id :- U8();
        if id == TAG_END { return Success(CompoundTag(c.Entries())); }
        var name :- Text();
        var t :- Payload(id);
        c.Set(name, t);
      }
    }
  }

  method Unmarshal(b: seq<byte>) returns (r: Result<Option<Tag>>)
    ensures match RootAt(b)
            case Ok(t, _) => r == Success(t)
            case Fail(e) => r == Failure(e)
  {
    var d := new Decoder(b);
    var id :- d.U8();
    if id == TAG_END { return Success(None); }
    var t :- d.Payload(id);
    return Success(Some(t));
  }

  method UnmarshalNamed(b: seq<byte>) returns (r: Result<Named>)
    ensures match NamedRootAt(b)
            case Ok(t, _) => r == Success(t)
            case Fail(e) => r == Failure(e)
  {
    var d := new Decoder(b);
    var id :- d.U8();
    if id == TAG_END { return Success(Named([], None)); }
    var name :- d.Text();
    var t :- d.Payload(id);
    return Success(Named(name, Some(t)));
  }
}
