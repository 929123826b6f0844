/** Named Binary Tags: the tags (internal/nbt/nbt.go) and their printer (internal/nbt/encode.go). */
module Nbt {
  import opened Bytes
  import opened Mutf8

  const TAG_END: byte := 0
  const TAG_BYTE: byte := 1
  const TAG_SHORT: byte := 2
  const TAG_INT: byte := 3
  const TAG_LONG: byte := 4
  const TAG_FLOAT: byte := 5
  const TAG_DOUBLE: byte := 6
  const TAG_BYTE_ARRAY: byte := 7
  const TAG_STRING: byte := 8
  const TAG_LIST: byte := 9
  const TAG_COMPOUND: byte := 10
  const TAG_INT_ARRAY: byte := 11
  const TAG_LONG_ARRAY: byte := 12

  const MAX_STRING := 0xFFFF

  /** A compound is its entries in insertion order; floats and doubles are their bit patterns. */
  datatype Tag =
    | ByteTag(b: i8)
    | ShortTag(s: i16)
    | IntTag(i: i32)
    | LongTag(l: i64)
    | FloatTag(floatBits: u32)
    | DoubleTag(doubleBits: u64)
    | ByteArrayTag(raw: seq<byte>)
    | StringTag(text: Str)
    | ListTag(elemId: byte, elems: seq<Tag>)
    | CompoundTag(entries: seq<Entry>)
    | IntArrayTag(ints: seq<i32>)
    | LongArrayTag(longs: seq<i64>)
  {
    function Id(): (id: byte)
      ensures 1 <= id <= 12
    {
      match this
      case ByteTag(_) => TAG_BYTE
      case ShortTag(_) => TAG_SHORT
      case IntTag(_) => TAG_INT
      case LongTag(_) => TAG_LONG
      case FloatTag(_) => TAG_FLOAT
      case DoubleTag(_) => TAG_DOUBLE
      case ByteArrayTag(_) => TAG_BYTE_ARRAY
      case StringTag(_) => TAG_STRING
      case ListTag(_, _) => TAG_LIST
      case CompoundTag(_) => TAG_COMPOUND
      case IntArrayTag(_) => TAG_INT_ARRAY
      case LongArrayTag(_) => TAG_LONG_ARRAY
    }
  }

  datatype Entry = Entry(name: Str, tag: Tag)

  // ---- Compounds

  ghost predicate Distinct(es: seq<Entry>) {
    forall i, j :: 0 <= i < j < |es| ==> es[i].name != es[j].name
  }

  /** Where `name` stands among the entries, or |es| when it does not. */
  function Find(es: seq<Entry>, name: Str): (k: nat)
    ensures k <= |es|
    ensures k < |es| ==> es[k].name == name
    ensures forall i :: 0 <= i < k ==> es[i].name != name
  {
    if es == [] then 0
    else if es[0].name == name then 0
    else 1 + Find(es[1..], name)
  }

  /** Replace the tag of a name in place, or add the name at the end. */
  function SetEntry(es: seq<Entry>, name: Str, tag: Tag): seq<Entry> {
    var k := Find(es, name);
    if k < |es| then es[k := Entry(name, tag)] else es + [Entry(name, tag)]
  }

  /** The entry is set: in place of one of its name, or else last; every other entry is as it was. */
  ghost predicate IsSet(was: seq<Entry>, name: Str, tag: Tag, now: seq<Entry>) {
    && |was| <= |now| <= |was| + 1 && Entry(name, tag) in now
    && (|now| > |was| <==> forall e :: e in was ==> e.name != name)
    && (|now| > |was| ==> now[|was|] == Entry(name, tag))
    && forall i :: 0 <= i < |was| ==>
         now[i].name == was[i].name && (was[i].name != name ==> now[i] == was[i])
  }

  lemma SetEntryMeans(es: seq<Entry>, name: Str, tag: Tag)
    ensures IsSet(es, name, tag, SetEntry(es, name, tag))
  {
    var k, now := Find(es, name), SetEntry(es, name, tag);
    assert now[k] == Entry(name, tag);
    if k < |es| { assert es[k] in es; }
    forall e | e in es && k == |es| ensures e.name != name {
      var i :| 0 <= i < |es| && es[i] == e;
    }
  }

  lemma SetEntryDistinct(es: seq<Entry>, name: Str, tag: Tag)
    requires Distinct(es)
    ensures Distinct(SetEntry(es, name, tag))
  {
  }

  /** The Go compound: an ordered key list beside a map. */
  class Compound {
    var keys: seq<Str>
    var m: map<Str, Tag>

    ghost predicate Valid()
      reads this
    {
      && (forall i, j :: 0 <= i < j < |keys| ==> keys[i] != keys[j])
      && (forall k :: k in m <==> k in keys)
    }

    function Entries(): (es: seq<Entry>)
      requires Valid()
      reads this
      ensures |es| == |keys|
      ensures forall i :: 0 <= i < |keys| ==> es[i] == Entry(keys[i], m[keys[i]])
    {
      seq(|keys|, i requires 0 <= i < |keys| && Valid() reads this => Entry(keys[i], m[keys[i]]))
    }

    constructor ()
      ensures Valid() && Entries() == []
    {
      keys := [];
      m := map[];
    }

    method Set(name: Str, tag: Tag)
      requires Valid()
      modifies this
      ensures Valid() && Entries() == SetEntry(old(Entries()), name, tag)
      ensures IsSet(old(Entries()), name, tag, Entries())
    {
      ghost var before := Entries();
      SetEntryMeans(before, name, tag);
      ghost var k := Find(before, name);
      if name !in m {
        keys := keys + [name];
      }
      m := m[name := tag];
      assert Entries() == SetEntry(before, name, tag);
    }

    method Get(name: Str) returns (present: bool, tag: Tag)
      requires Valid()
      ensures present <==> exists i :: 0 <= i < |Entries()| && Entries()[i].name == name
      ensures present ==> Entry(name, tag) in Entries() && forall e :: e in Entries() && e.name == name ==> e.tag == tag
    {
      present := name in m;
      if present {
        tag := m[name];
        ghost var i :| 0 <= i < |keys| && keys[i] == name;
        assert Entries()[i] == Entry(name, tag);
        forall e | e in Entries() && e.name == name ensures e.tag == tag {
          var j :| 0 <= j < |keys| && Entries()[j] == e;
        }
      } else {
        tag := ByteTag(0);
        forall i | 0 <= i < |Entries()| ensures Entries()[i].name != name {
          assert keys[i] in m;
        }
      }
    }
  }

  // ---- What a tag is worth writing

  /** Lists hold tags of their declared kind, compounds name each entry once. */
  ghost predicate WellFormed(t: Tag) {
    match t
    case ListTag(id, elems) => forall i :: 0 <= i < |elems| ==> elems[i].Id() == id && WellFormed(elems[i])
    case CompoundTag(es) => Distinct(es) && forall i :: 0 <= i < |es| ==> WellFormed(es[i].tag)
    case _ => true
  }

  predicate TextFits(s: Str) { |Encoded(s)| <= MAX_STRING }

  /** Names and string tags fit a 16-bit length. */
  predicate StringsFit(t: Tag) {
    match t
    case StringTag(s) => TextFits(s)
    case ListTag(_, elems) => forall i :: 0 <= i < |elems| ==> StringsFit(elems[i])
    case CompoundTag(es) => forall i :: 0 <= i < |es| ==> TextFits(es[i].name) && StringsFit(es[i].tag)
    case _ => true
  }

  /** Arrays and lists fit a signed 32-bit length. */
  predicate SizesFit(t: Tag) {
    match t
    case ByteArrayTag(v) => |v| <= MAX_I32
    case IntArrayTag(v) => |v| <= MAX_I32
    case LongArrayTag(v) => |v| <= MAX_I32
    case ListTag(_, elems) => |elems| <= MAX_I32 && forall i :: 0 <= i < |elems| ==> SizesFit(elems[i])
    case CompoundTag(es) => forall i :: 0 <= i < |es| ==> SizesFit(es[i].tag)
    case _ => true
  }

  ghost predicate Writable(t: Tag) { WellFormed(t) && StringsFit(t) && SizesFit(t) }

  function Max(a: nat, b: nat): nat { if a > b then a else b }

  /** How many lists and compounds stand inside one another. */
  function Height(t: Tag): nat {
    match t
    case ListTag(_, elems) => 1 + AllHeight(elems)
    case CompoundTag(entries) => 1 + EntriesHeight(entries)
    case _ => 0
  }

  function AllHeight(ts: seq<Tag>): nat {
    if ts == [] then 0 else Max(Height(ts[0]), AllHeight(ts[1..]))
  }

  function EntriesHeight(es: seq<Entry>): nat {
    if es == [] then 0 else Max(Height(es[0].tag), EntriesHeight(es[1..]))
  }

  /** How many tags a tag is made of, itself included. */
  function Nodes(t: Tag): nat {
    match t
    case ListTag(_, elems) => 1 + AllNodes(elems)
    case CompoundTag(entries) => 1 + EntriesNodes(entries)
    case _ => 1
  }

  function AllNodes(ts: seq<Tag>): nat {
    if ts == [] then 0 else Nodes(ts[0]) + AllNodes(ts[1..])
  }

  function EntriesNodes(es: seq<Entry>): nat {
    if es == [] then 0 else Nodes(es[0].tag) + EntriesNodes(es[1..])
  }

  /** The tag with the declared kind of every empty list forgotten, as Java writes it. */
  function Normal(t: Tag): (n: Tag)
    ensures n.Id() == t.Id()
  {
    match t
    case ListTag(id, elems) => ListTag(if elems == [] then TAG_END else id, AllNormal(elems))
    case CompoundTag(entries) => CompoundTag(EntriesNormal(entries))
    case _ => t
  }

  function AllNormal(ts: seq<Tag>): (ns: seq<Tag>)
    ensures |ns| == |ts|
  {
    if ts == [] then [] else [Normal(ts[0])] + AllNormal(ts[1..])
  }

  function EntriesNormal(es: seq<Entry>): (ns: seq<Entry>)
    ensures |ns| == |es|
    ensures forall i :: 0 <= i < |es| ==> ns[i].name == es[i].name
  {
    if es == [] then [] else [Entry(es[0].name, Normal(es[0].tag))] + EntriesNormal(es[1..])
  }

  // ---- The bytes of a tag

  function TextBytes(s: Str): seq<byte> {
    Be16(Low16(|Encoded(s)|)) + Encoded(s)
  }

  function IntsBytes(v: seq<i32>): (r: seq<byte>)
    ensures |r| == 4 * |v|
  {
    if v == [] then [] else Be32(U32Of(v[0])) + IntsBytes(v[1..])
  }

  function LongsBytes(v: seq<i64>): (r: seq<byte>)
    ensures |r| == 8 * |v|
  {
    if v == [] then [] else Be64(U64Of(v[0])) + LongsBytes(v[1..])
  }

  function PayloadBytes(t: Tag): seq<byte> {
    match t
    case ByteTag(v) => [U8Of(v)]
    case ShortTag(v) => Be16(U16Of(v))
    case IntTag(v) => Be32(U32Of(v))
    case LongTag(v) => Be64(U64Of(v))
    case FloatTag(v) => Be32(v)
    case DoubleTag(v) => Be64(v)
    case ByteArrayTag(v) => Be32(Low32(|v|)) + v
    case StringTag(v) => TextBytes(v)
    case IntArrayTag(v) => Be32(Low32(|v|)) + IntsBytes(v)
    case LongArrayTag(v) => Be32(Low32(|v|)) + LongsBytes(v)
    case ListTag(id, elems) =>
      [if elems == [] then TAG_END else id] + (Be32(Low32(|elems|)) + AllBytes(elems))
    case CompoundTag(entries) => EntriesBytes(entries) + [TAG_END]
  }

  function AllBytes(ts: seq<Tag>): seq<byte> {
    if ts == [] then [] else PayloadBytes(ts[0]) + AllBytes(ts[1..])
  }

  function EntryBytes(e: Entry): seq<byte> {
    [e.tag.Id()] + (TextBytes(e.name) + PayloadBytes(e.tag))
  }

  function EntriesBytes(es: seq<Entry>): seq<byte> {
    if es == [] then [] else EntryBytes(es[0]) + EntriesBytes(es[1..])
  }

  // ---- The printer

  method AppendString(dst: seq<byte>, s: Str) returns (out: seq<byte>)
    ensures out == dst + TextBytes(s)
  {
    var start := |dst|;
    out := EncodeModifiedUTF8(dst + [0, 0], s);
    var len := Be16(Low16(|out| - start - 2));
    out := out[start := len[0]];
    out := out[start + 1 := len[1]];
    assert out == dst + TextBytes(s);
  }

  method AppendPayload(dst: seq<byte>, t: Tag) returns (out: seq<byte>)
    ensures out == dst + PayloadBytes(t)
    decreases t, 1
  {
    match t
    case ByteTag(v) => out := dst + [U8Of(v)];
    case ShortTag(v) => out := dst + Be16(U16Of(v));
    case IntTag(v) => out := dst + Be32(U32Of(v));
    case LongTag(v) => out := dst + Be64(U64Of(v));
    case FloatTag(v) => out := dst + Be32(v);
    case DoubleTag(v) => out := dst + Be64(v);
    case ByteArrayTag(v) => out := dst + Be32(Low32(|v|)) + v;
    case StringTag(v) => out := AppendString(dst, v);
    case IntArrayTag(v) =>
      out := dst + Be32(Low32(|v|));
      for i := 0 to |v|
        invariant out + IntsBytes(v[i..]) == dst + PayloadBytes(t)
      {
        assert v[i..][1..] == v[i + 1..];
        out := out + Be32(U32Of(v[i]));
      }
    case LongArrayTag(v) =>
      out := dst + Be32(Low32(|v|));
      for i := 0 to |v|
        invariant out + LongsBytes(v[i..]) == dst + PayloadBytes(t)
      {
        assert v[i..][1..] == v[i + 1..];
        out := out + Be64(U64Of(v[i]));
      }
    case ListTag(_, _) => out := AppendList(dst, t);
    case CompoundTag(_) => out := AppendCompound(dst, t);
  }

  method AppendList(dst: seq<byte>, t: Tag) returns (out: seq<byte>)
    requires t.ListTag?
    ensures out == dst + PayloadBytes(t)
    decreases t, 0
  {
    var elems := t.elems;
    var elemId := t.elemId;
    if |elems| == 0 {
      elemId := TAG_END;
    }
    out := dst + [elemId] + Be32(Low32(|elems|));
    assert elems[0..] == elems;
    assert out + AllBytes(elems) == dst + PayloadBytes(t);
    for i := 0 to |elems|
      invariant out + AllBytes(elems[i..]) == dst + PayloadBytes(t)
    {
      ghost var before, rest := out, elems[i + 1..];
      assert elems[i..][1..] == rest;
      out := AppendPayload(out, elems[i]);
      assert out + AllBytes(rest) == before + (PayloadBytes(elems[i]) + AllBytes(rest));
    }
  }

  method AppendCompound(dst: seq<byte>, t: Tag) returns (out: seq<byte>)
    requires t.CompoundTag?
    ensures out == dst + PayloadBytes(t)
    decreases t, 0
  {
    var es := t.entries;
    out := dst;
    assert es[0..] == es;
    for i := 0 to |es|
      invariant out + EntriesBytes(es[i..]) == dst + EntriesBytes(es)
    {
      ghost var before, rest := out, es[i + 1..];
      assert es[i..][1..] == rest;
      out := AppendEntry(out, es[i]);
      assert out + EntriesBytes(rest) == before + (EntryBytes(es[i]) + EntriesBytes(rest));
    }
    assert out == dst + EntriesBytes(es);
    out := out + [TAG_END];
    assert out == dst + (EntriesBytes(es) + [TAG_END]);
  }

  /** The body of the loop above: one named tag. */
  method AppendEntry(dst: seq<byte>, e: Entry) returns (out: seq<byte>)
    ensures out == dst + EntryBytes(e)
    decreases e, 2
  {
    hide PayloadBytes, TextBytes;
    out := dst + [e.tag.Id()];
    out := AppendString(out, e.name);
    out := AppendPayload(out, e.tag);
    assert out == dst + ([e.tag.Id()] + (TextBytes(e.name) + PayloadBytes(e.tag)));
  }

  function NetworkBytes(root: Tag): seq<byte> { [root.Id()] + PayloadBytes(root) }

  function NamedBytes(name: Str, root: Tag): seq<byte> {
    [root.Id()] + (TextBytes(name) + PayloadBytes(root))
  }

  method Marshal(root: Tag) returns (out: seq<byte>)
    ensures out == NetworkBytes(root)
  {
    out := AppendPayload([root.Id()], root);
  }

  method MarshalNamed(name: Str, root: Tag) returns (out: seq<byte>)
    ensures out == NamedBytes(name, root)
  {
    out := AppendString([root.Id()], name);
    out := AppendPayload(out, root);
  }
}
