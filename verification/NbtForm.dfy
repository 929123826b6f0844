/** The bytes of a tag, and what the parser makes of bytes that no printer writes, stated without the
    functions of either: numbers as base-256 digits, kinds by their numbers. */
module NbtForm {
  import opened Bytes
  import opened Mutf8
  import opened Nbt
  import opened NbtDecode
  import opened NbtProofs
  import opened Wrappers

  // ---- Numbers

  /** A big-endian number. */
  function Num(b: seq<byte>): nat {
    if b == [] then 0 else Num(b[..|b| - 1]) * 256 + b[|b| - 1] as nat
  }

  lemma {:induction false} NumJoin(a: seq<byte>, b: seq<byte>)
    ensures Num(a + b) == Num(a) * Scale(|b|) + Num(b)
  {
    if b == [] {
      assert a + b == a;
    } else {
      var m := |b| - 1;
      assert (a + b)[..|a + b| - 1] == a + b[..m];
      NumJoin(a, b[..m]);
    }
  }

  function Scale(n: nat): nat { if n == 0 then 1 else 256 * Scale(n - 1) }

  lemma NumBe16(v: u16)
    ensures Num(Be16(v)) == v
  {
    var b := Be16(v);
    NumOne(b[0]);
    assert b[..1] == [b[0]];
  }

  lemma NumOne(x: byte)
    ensures Num([x]) == x
  {
    assert [x][..0] == [];
  }

  lemma NumBe32(v: u32)
    ensures Num(Be32(v)) == v
  {
    NumJoin(Be16(v / 0x1_0000), Be16(v % 0x1_0000));
    NumBe16(v / 0x1_0000);
    NumBe16(v % 0x1_0000);
    assert Scale(2) == 256 * Scale(1);
  }

  lemma NumBe64(v: u64)
    ensures Num(Be64(v)) == v
  {
    NumJoin(Be32(v / 0x1_0000_0000), Be32(v % 0x1_0000_0000));
    NumBe32(v / 0x1_0000_0000);
    NumBe32(v % 0x1_0000_0000);
    assert Scale(4) == 256 * Scale(3) && Scale(3) == 256 * Scale(2) && Scale(2) == 256 * Scale(1);
  }

  /** Digits of one length are determined by their number. */
  lemma {:induction false} NumOnce(a: seq<byte>, b: seq<byte>)
    requires |a| == |b| && Num(a) == Num(b)
    ensures a == b
  {
    if a != [] {
      var m := |a| - 1;
      NumOnce(a[..m], b[..m]);
      assert a == a[..m] + [a[m]] && b == b[..m] + [b[m]];
    }
  }

  // ---- The form of a tag

  function Kind(t: Tag): byte {
    match t
    case ByteTag(_) => 1
    case ShortTag(_) => 2
    case IntTag(_) => 3
    case LongTag(_) => 4
    case FloatTag(_) => 5
    case DoubleTag(_) => 6
    case ByteArrayTag(_) => 7
    case StringTag(_) => 8
    case ListTag(_, _) => 9
    case CompoundTag(_) => 10
    case IntArrayTag(_) => 11
    case LongArrayTag(_) => 12
  }

  /** A length in two bytes, and the characters. */
  predicate TextForm(s: Str, b: seq<byte>) {
    |b| >= 2 && Num(b[..2]) == |b| - 2 && b[2..] == RunesBytes(s)
  }

  /** Signed values are their two's complement. */
  ghost predicate Form(t: Tag, b: seq<byte>)
    decreases t, 1
  {
    match t
    case ByteTag(v) => |b| == 1 && Num(b) == v as int % 0x100
    case ShortTag(v) => |b| == 2 && Num(b) == v as int % 0x1_0000
    case IntTag(v) => |b| == 4 && Num(b) == v as int % 0x1_0000_0000
    case LongTag(v) => |b| == 8 && Num(b) == v as int % 0x1_0000_0000_0000_0000
    case FloatTag(v) => |b| == 4 && Num(b) == v
    case DoubleTag(v) => |b| == 8 && Num(b) == v
    case ByteArrayTag(v) => Counted(|v|, b) && b[4..] == v
    case StringTag(s) => TextForm(s, b)
    case IntArrayTag(v) =>
      && Counted(|v|, b) && |b| == 4 + 4 * |v|
      && forall i :: 0 <= i < |v| ==> Num(b[4..][4 * i..4 * i + 4]) == v[i] as int % 0x1_0000_0000
    case LongArrayTag(v) =>
      && Counted(|v|, b) && |b| == 4 + 8 * |v|
      && forall i :: 0 <= i < |v| ==> Num(b[4..][8 * i..8 * i + 8]) == v[i] as int % 0x1_0000_0000_0000_0000
    case ListTag(_, elems) =>
      && |b| >= 1 && b[0] == (if elems == [] then 0 else Kind(elems[0]))
      && Counted(|elems|, b[1..]) && AllForm(elems, b[5..])
    case CompoundTag(es) => |b| >= 1 && b[|b| - 1] == 0 && EntriesForm(es, b[..|b| - 1])
  }

  predicate Counted(n: nat, b: seq<byte>) { |b| >= 4 && Num(b[..4]) == n }

  ghost predicate AllForm(ts: seq<Tag>, b: seq<byte>)
    decreases ts, 0
  {
    if ts == [] then b == []
    else exists n :: 0 <= n <= |b| && Form(ts[0], b[..n]) && AllForm(ts[1..], b[n..])
  }

  /** The kind, the name and the payload of each entry. */
  ghost predicate EntriesForm(es: seq<Entry>, b: seq<byte>)
    decreases es, 0
  {
    if es == [] then b == []
    else
      exists m, n :: 1 <= m <= n <= |b| && b[0] == Kind(es[0].tag) && TextForm(es[0].name, b[1..m])
                     && Form(es[0].tag, b[m..n]) && EntriesForm(es[1..], b[n..])
  }

  // ---- The printed bytes are that form

  lemma KindIs(t: Tag)
    ensures t.Id() == Kind(t)
  {
  }

  lemma TextPrinted(s: Str)
    requires TextFits(s)
    ensures TextForm(s, TextBytes(s))
  {
    hide Be16, Encoded, Num, RunesBytes;
    NumBe16(|Encoded(s)|);
    EncodedIs(s);
    var b := TextBytes(s);
    assert b[..2] == Be16(|Encoded(s)|) && b[2..] == Encoded(s);
  }

  /** Any string, however long: its length is cut to sixteen bits, and its characters all follow. */
  lemma LongTextPrinted(s: Str)
    ensures var b := TextBytes(s);
            |b| >= 2 && Num(b[..2]) == |RunesBytes(s)| % 0x1_0000 && b[2..] == RunesBytes(s)
  {
    hide Be16, Encoded, Num, RunesBytes;
    NumBe16(|Encoded(s)| % 0x1_0000);
    EncodedIs(s);
    var b := TextBytes(s);
    assert b[..2] == Be16(Low16(|Encoded(s)|)) && b[2..] == Encoded(s);
  }

  lemma ScalarPrinted(t: Tag)
    requires 1 <= t.Id() <= 6
    ensures Form(t, PayloadBytes(t))
  {
    hide Num, Be16, Be32, Be64;
    match t
    case ByteTag(v) => NumOne(U8Of(v));
    case ShortTag(v) => NumBe16(U16Of(v));
    case IntTag(v) => NumBe32(U32Of(v));
    case LongTag(v) => NumBe64(U64Of(v));
    case FloatTag(v) => NumBe32(v);
    case DoubleTag(v) => NumBe64(v);
  }

  lemma CountPrinted(n: nat, rest: seq<byte>)
    requires n <= MAX_I32
    ensures var b := Be32(Low32(n)) + rest; Counted(n, b) && b[4..] == rest
  {
    hide Be32;
    NumBe32(n);
    assert (Be32(Low32(n)) + rest)[..4] == Be32(n);
  }

  lemma {:induction false} IntAtPlace(v: seq<i32>, i: nat)
    requires i < |v|
    ensures IntsBytes(v)[4 * i..4 * i + 4] == Be32(U32Of(v[i]))
  {
    hide Be32, U32Of;
    if i > 0 {
      IntAtPlace(v[1..], i - 1);
      assert IntsBytes(v)[4..] == IntsBytes(v[1..]);
      assert IntsBytes(v)[4 * i..4 * i + 4] == IntsBytes(v)[4..][4 * (i - 1)..4 * (i - 1) + 4];
    }
  }

  lemma {:induction false} LongAtPlace(v: seq<i64>, i: nat)
    requires i < |v|
    ensures LongsBytes(v)[8 * i..8 * i + 8] == Be64(U64Of(v[i]))
  {
    hide Be64, U64Of;
    if i > 0 {
      LongAtPlace(v[1..], i - 1);
      assert LongsBytes(v)[8..] == LongsBytes(v[1..]);
      assert LongsBytes(v)[8 * i..8 * i + 8] == LongsBytes(v)[8..][8 * (i - 1)..8 * (i - 1) + 8];
    }
  }

  lemma ArrayPrinted(t: Tag)
    requires (t.ByteArrayTag? || t.IntArrayTag? || t.LongArrayTag?) && SizesFit(t)
    ensures Form(t, PayloadBytes(t))
  {
    hide Num, Be32, Be64, IntsBytes, LongsBytes;
    match t
    case ByteArrayTag(v) => CountPrinted(|v|, v);
    case IntArrayTag(v) =>
      CountPrinted(|v|, IntsBytes(v));
      forall i | 0 <= i < |v| ensures Num(IntsBytes(v)[4 * i..4 * i + 4]) == v[i] as int % 0x1_0000_0000 {
        IntAtPlace(v, i);
        NumBe32(U32Of(v[i]));
      }
    case LongArrayTag(v) =>
      CountPrinted(|v|, LongsBytes(v));
      forall i | 0 <= i < |v| ensures Num(LongsBytes(v)[8 * i..8 * i + 8]) == v[i] as int % 0x1_0000_0000_0000_0000 {
        LongAtPlace(v, i);
        NumBe64(U64Of(v[i]));
      }
  }

  lemma {:induction false} Printed(t: Tag)
    requires Writable(t)
    ensures Form(t, PayloadBytes(t))
    decreases t, 1
  {
    match t
    case StringTag(s) => TextPrinted(s);
    case ListTag(id, elems) =>
      AllPrinted(elems);
      ListPrinted(t);
    case CompoundTag(es) => EntriesPrinted(es);
    case _ => if t.Id() <= 6 { ScalarPrinted(t); } else { ArrayPrinted(t); }
  }

  lemma ListPrinted(t: Tag)
    requires t.ListTag? && Writable(t) && AllForm(t.elems, AllBytes(t.elems))
    ensures Form(t, PayloadBytes(t))
  {
    hide Num, Be32, AllForm, AllBytes;
    CountPrinted(|t.elems|, AllBytes(t.elems));
    var b := PayloadBytes(t);
    assert b[1..] == Be32(Low32(|t.elems|)) + AllBytes(t.elems);
    assert b[5..] == b[1..][4..];
    if t.elems != [] { KindIs(t.elems[0]); }
  }

  lemma {:induction false} AllPrinted(ts: seq<Tag>)
    requires forall i :: 0 <= i < |ts| ==> Writable(ts[i])
    ensures AllForm(ts, AllBytes(ts))
    decreases ts, 0
  {
    hide PayloadBytes, Writable;
    if ts != [] {
      Printed(ts[0]);
      AllPrinted(ts[1..]);
      var n := |PayloadBytes(ts[0])|;
      assert AllBytes(ts)[..n] == PayloadBytes(ts[0]) && AllBytes(ts)[n..] == AllBytes(ts[1..]);
    }
  }

  lemma EntrySplit(kind: seq<byte>, name: seq<byte>, payload: seq<byte>, rest: seq<byte>)
    requires |kind| == 1
    ensures var b, m := kind + (name + payload) + rest, 1 + |name|;
            && b[0] == kind[0] && b[1..m] == name && b[m..m + |payload|] == payload && b[m + |payload|..] == rest
  {
  }

  lemma {:induction false} EntriesPrinted(es: seq<Entry>)
    requires forall i :: 0 <= i < |es| ==> TextFits(es[i].name) && Writable(es[i].tag)
    ensures EntriesForm(es, EntriesBytes(es))
    decreases es, 0
  {
    hide PayloadBytes, Writable, TextBytes, TextForm, TextFits;
    if es != [] {
      var e, b := es[0], EntriesBytes(es);
      KindIs(e.tag);
      TextPrinted(e.name);
      Printed(e.tag);
      EntriesPrinted(es[1..]);
      EntrySplit([e.tag.Id()], TextBytes(e.name), PayloadBytes(e.tag), EntriesBytes(es[1..]));
      assert b == EntryBytes(e) + EntriesBytes(es[1..]);
      assert b == [e.tag.Id()] + (TextBytes(e.name) + PayloadBytes(e.tag)) + EntriesBytes(es[1..]);
    }
  }

  /** A root is printed as its kind, its name unless it has none, and its payload. */
  lemma RootPrinted(name: Str, t: Tag)
    requires Writable(t) && TextFits(name)
    ensures var b := NamedBytes(name, t);
            exists m :: 1 <= m <= |b| && b[0] == Kind(t) && TextForm(name, b[1..m]) && Form(t, b[m..])
    ensures var b := NetworkBytes(t); |b| >= 1 && b[0] == Kind(t) && Form(t, b[1..])
  {
    hide PayloadBytes, TextBytes, Writable, TextFits, TextForm;
    KindIs(t);
    TextPrinted(name);
    Printed(t);
    var b, m := NamedBytes(name, t), 1 + |TextBytes(name)|;
    EntrySplit([t.Id()], TextBytes(name), PayloadBytes(t), []);
    assert b == [t.Id()] + (TextBytes(name) + PayloadBytes(t)) + [];
    assert b[m..] == b[m..m + |PayloadBytes(t)|];
    assert NetworkBytes(t)[1..] == PayloadBytes(t);
  }

  // ---- Repeated names

  /** What is kept of the entries `es`: each name once, in the order they first come, with its last tag. */
  ghost predicate KeepsLast(es: seq<Entry>, kept: seq<Entry>) {
    && (forall j, k :: 0 <= j < k < |kept| ==> Find(es, kept[j].name) < Find(es, kept[k].name))
    && (forall i :: 0 <= i < |es| ==> Names(kept, es[i].name))
    && (forall e :: e in kept ==> IsLast(es, e))
  }

  ghost predicate Names(es: seq<Entry>, name: Str) { exists e :: e in es && e.name == name }

  ghost predicate IsLast(es: seq<Entry>, e: Entry) {
    exists i :: 0 <= i < |es| && es[i] == e && forall j :: i < j < |es| ==> es[j].name != e.name
  }

  lemma FindIs(es: seq<Entry>, name: Str, k: nat)
    requires k <= |es| && (k < |es| ==> es[k].name == name) && forall i :: 0 <= i < k ==> es[i].name != name
    ensures Find(es, name) == k
  {
    hide Find;
  }

  lemma FindAppend(es: seq<Entry>, e: Entry, name: Str)
    ensures Find(es + [e], name) == if Find(es, name) < |es| then Find(es, name)
                                    else if e.name == name then |es| else |es| + 1
  {
    hide Find;
    var k := Find(es, name);
    FindIs(es + [e], name, if k < |es| then k else if e.name == name then |es| else |es| + 1);
  }

  lemma LastAppend(es: seq<Entry>, e: Entry, o: Entry)
    ensures IsLast(es + [e], e)
    ensures IsLast(es, o) && o.name != e.name ==> IsLast(es + [e], o)
  {
    var more := es + [e];
    assert more[|es|] == e;
    if IsLast(es, o) && o.name != e.name {
      var i :| 0 <= i < |es| && es[i] == o && forall j :: i < j < |es| ==> es[j].name != o.name;
      assert more[i] == o;
    }
  }

  lemma FoundHere(es: seq<Entry>, e: Entry)
    requires IsLast(es, e)
    ensures Find(es, e.name) < |es|
  {
  }

  lemma SetKeepsTags(es: seq<Entry>, kept: seq<Entry>, e: Entry, o: Entry)
    requires KeepsLast(es, kept) && o in SetEntry(kept, e.name, e.tag)
    ensures IsLast(es + [e], o)
  {
    hide IsLast;
    var now, k := SetEntry(kept, e.name, e.tag), Find(kept, e.name);
    LastAppend(es, e, o);
    var i :| 0 <= i < |now| && now[i] == o;
    if i != k {
      assert kept[i] == o && o in kept;
    }
  }

  lemma SetKeepsNames(es: seq<Entry>, kept: seq<Entry>, e: Entry, i: nat)
    requires KeepsLast(es, kept) && i <= |es|
    ensures Names(SetEntry(kept, e.name, e.tag), (es + [e])[i].name)
  {
    hide IsLast;
    var now, k := SetEntry(kept, e.name, e.tag), Find(kept, e.name);
    if i < |es| {
      assert Names(kept, es[i].name);
      var o :| o in kept && o.name == es[i].name;
      var j :| 0 <= j < |kept| && kept[j] == o;
      assert now[j].name == o.name && now[j] in now;
    } else {
      assert now[k] == e && now[k] in now;
    }
  }

  lemma SetKeepsOrder(es: seq<Entry>, kept: seq<Entry>, e: Entry, i: nat, j: nat)
    requires KeepsLast(es, kept) && i < j < |SetEntry(kept, e.name, e.tag)|
    ensures var now := SetEntry(kept, e.name, e.tag); Find(es + [e], now[i].name) < Find(es + [e], now[j].name)
  {
    hide IsLast;
    var now := SetEntry(kept, e.name, e.tag);
    FindAppend(es, e, now[i].name);
    FindAppend(es, e, now[j].name);
    assert now[i].name == kept[i].name && kept[i] in kept;
    FoundHere(es, kept[i]);
    if j < |kept| {
      assert now[j].name == kept[j].name && kept[j] in kept;
      FoundHere(es, kept[j]);
    } else {
      NotFound(es, kept, e.name);
    }
  }

  /** A name that is not kept was not among the entries. */
  lemma NotFound(es: seq<Entry>, kept: seq<Entry>, name: Str)
    requires KeepsLast(es, kept) && Find(kept, name) == |kept|
    ensures Find(es, name) == |es|
  {
    hide IsLast;
    forall i | 0 <= i < |es| ensures es[i].name != name {
      assert Names(kept, es[i].name);
      var o :| o in kept && o.name == es[i].name;
      var j :| 0 <= j < |kept| && kept[j] == o;
      assert kept[j].name != name;
    }
  }

  lemma SetKeepsLast(es: seq<Entry>, kept: seq<Entry>, e: Entry)
    requires KeepsLast(es, kept)
    ensures KeepsLast(es + [e], SetEntry(kept, e.name, e.tag))
  {
    var more, now := es + [e], SetEntry(kept, e.name, e.tag);
    hide IsLast, SetEntry, Find, Names;
    forall o | o in now ensures IsLast(more, o) { SetKeepsTags(es, kept, e, o); }
    forall i | 0 <= i < |more| ensures Names(now, more[i].name) {
      SetKeepsNames(es, kept, e, i);
    }
    forall i, j | 0 <= i < j < |now| ensures Find(more, now[i].name) < Find(more, now[j].name) {
      SetKeepsOrder(es, kept, e, i, j);
    }
  }

  /** Entries read one after the other, repeated names or not. */
  lemma {:induction false} RepeatedBack(b: seq<byte>, pos: nat, depth: nat, es: seq<Entry>, done: seq<Entry>,
                                        acc: seq<Entry>)
    requires depth <= MAX_DEPTH && Holds(b, pos, EntriesBytes(es) + [TAG_END]) && KeepsLast(done, acc)
    requires forall i :: 0 <= i < |es| ==>
               TextFits(es[i].name) && Writable(es[i].tag) && depth + Height(es[i].tag) <= MAX_DEPTH
    ensures var r := EntriesAt(b, pos, depth, acc);
            r.Ok? && r.next == pos + |EntriesBytes(es)| + 1 && KeepsLast(done + EntriesNormal(es), r.value)
    decreases |es|
  {
    hide Writable, EntryBytes, Normal, SetEntry, Height, EntriesAt, KeepsLast, TextFits, Holds;
    if es == [] {
      NoMoreEntries(b, pos, depth, done, acc);
    } else {
      var e, rest := es[0], EntriesBytes(es[1..]) + [TAG_END];
      assert EntriesBytes(es) + [TAG_END] == EntryBytes(e) + rest;
      HoldsSplit(b, pos, EntryBytes(e), rest);
      EntryBack(b, pos, depth, e, acc);
      var n := Entry(e.name, Normal(e.tag));
      SetKeepsLast(done, acc, n);
      RepeatedBack(b, pos + |EntryBytes(e)|, depth, es[1..], done + [n], SetEntry(acc, n.name, n.tag));
      assert done + [n] + EntriesNormal(es[1..]) == done + EntriesNormal(es);
    }
  }

  lemma NoMoreEntries(b: seq<byte>, pos: nat, depth: nat, done: seq<Entry>, acc: seq<Entry>)
    requires depth <= MAX_DEPTH && Holds(b, pos, EntriesBytes([]) + [TAG_END])
    ensures EntriesAt(b, pos, depth, acc) == Ok(acc, pos + |EntriesBytes([])| + 1) && done + EntriesNormal([]) == done
  {
    hide EntriesAt;
    EntriesEndBack(b, pos, depth, acc);
    assert acc + EntriesNormal([]) == acc;
  }

  /** A compound printed with any entries, repeated names or not, parses to each name once, at the place where
      it came first, with the tag written last. */
  lemma RepeatedNames(es: seq<Entry>, after: seq<byte>) returns (kept: seq<Entry>)
    requires forall i :: 0 <= i < |es| ==>
               TextFits(es[i].name) && Writable(es[i].tag) && 1 + Height(es[i].tag) <= 512
    ensures var b := NetworkBytes(CompoundTag(es));
            RootAt(b + after) == Ok(Some(CompoundTag(kept)), |b|) && KeepsLast(EntriesNormal(es), kept)
  {
    hide EntriesBytes, EntriesAt, Writable, TextFits, Normal, Height, KeepsLast;
    var t := CompoundTag(es);
    var b := NetworkBytes(t) + after;
    assert b[0..|NetworkBytes(t)|] == [t.Id()] + PayloadBytes(t);
    HoldsSplit(b, 0, [t.Id()], PayloadBytes(t));
    HoldsAt(b, 0, [t.Id()], 0);
    NothingKept();
    RepeatedBack(b, 1, 1, es, [], []);
    assert [] + EntriesNormal(es) == EntriesNormal(es);
    kept := EntriesAt(b, 1, 1, []).value;
  }

  lemma NothingKept()
    ensures KeepsLast([], [])
  {
  }

  // ---- What is refused, and what else is accepted

  /** Kinds that do not exist, and containers past the depth limit. */
  lemma KindRefused(b: seq<byte>, pos: nat, depth: nat, id: byte)
    requires depth <= 512
    ensures id == 0 || id > 12 ==> PayloadAt(b, pos, depth, id) == Fail(BadTag)
    ensures (id == 9 || id == 10) && depth == 512 ==> PayloadAt(b, pos, depth, id) == Fail(TooDeep)
  {
  }

  /** Lists and arrays of a negative count or of more elements than bytes left, and lists of end tags. */
  lemma CountRefused(b: seq<byte>, pos: nat, depth: nat, id: byte)
    requires depth < 512 && pos + 5 <= |b| && id in {7, 9, 11, 12}
    ensures var p := if id == 9 then pos + 1 else pos;
            var n, r := Num(b[p..p + 4]), PayloadAt(b, pos, depth, id);
            && (n >= 0x8000_0000 ==> r == Fail(NegativeLen))
            && (n < 0x8000_0000 && n * (if id == 11 then 4 else if id == 12 then 8 else 1) > |b| - p - 4 ==>
                  r == Fail(Truncated))
            && (id == 9 && b[pos] == 0 && 0 < n <= |b| - p - 4 && n < 0x8000_0000 ==> r == Fail(BadTag))
            && (id == 9 && n == 0 ==> r == Ok(ListTag(b[pos], []), pos + 5))
  {
    hide Num;
    var p := if id == 9 then pos + 1 else pos;
    NumAt(b, p);
    if id == 9 {
      assert ElemsAt(b, pos + 5, depth + 1, b[pos], 0, []) == Ok([], pos + 5);
      assert PayloadAt(b, pos, depth, id) == ListAt(b, pos, depth + 1);
    }
  }

  lemma NumAt(b: seq<byte>, p: nat)
    requires p + 4 <= |b|
    ensures At32(b, p) == Num(b[p..p + 4])
  {
    var d := b[p..p + 4];
    assert d[..3][..2][..1][..0] == [];
    assert d[..3][..2] == d[..2] && d[..2][..1] == d[..1];
    NumOne(d[0]);
    assert d[..1] == [d[0]];
    assert Num(d[..2]) == Num(d[..1]) * 256 + d[1] as int;
    assert Num(d[..3]) == Num(d[..2]) * 256 + d[2] as int;
  }

  /** A string that ends after the input, or whose bytes are no characters; every other one is read. */
  lemma TextRefused(b: seq<byte>, pos: nat)
    requires pos + 2 <= |b|
    ensures var n, r := Num(b[pos..pos + 2]), TextAt(b, pos);
            && (pos + 2 + n > |b| ==> r == Fail(Truncated))
            && (pos + 2 + n <= |b| ==>
                  var body := b[pos + 2..pos + 2 + n];
                  && (r == Fail(BadText) <==> forall us: seq<u16> :: !UnitForms(body, us))
                  && (forall us: seq<u16> :: UnitForms(body, us) ==> r == Ok(Utf16Decode(us), pos + 2 + n)))
  {
    hide UnitForms, DecodeFrom, Utf16Decode;
    var d := b[pos..pos + 2];
    NumOne(d[0]);
    assert d[..1] == [d[0]];
    var n := Num(d);
    if pos + 2 + n <= |b| {
      var body := b[pos + 2..pos + 2 + n];
      forall us: seq<u16> ensures DecodeFrom(body, 0, []) == Decoded(us) <==> UnitForms(body, us) {
        DecodeExact(body, us);
      }
      if DecodeFrom(body, 0, []).Decoded? { assert UnitForms(body, DecodeFrom(body, 0, []).units); }
    }
  }

  /** An end tag in place of a root is no tag, and nothing more is read. */
  lemma EndIsNone(after: seq<byte>)
    ensures RootAt([0] + after) == Ok(None, 1) && NamedRootAt([0] + after) == Ok(Named([], None), 1)
    ensures RootAt([]) == Fail(Truncated) && NamedRootAt([]) == Fail(Truncated)
  {
  }
}
