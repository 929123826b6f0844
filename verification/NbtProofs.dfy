/** What printing and parsing tags do to one another, for every tag and every byte string. */
module NbtProofs {
  import opened Bytes
  import opened Mutf8
  import opened Nbt
  import opened NbtDecode
  import opened Wrappers

  // ---- Stability: bytes after what was parsed never change the outcome

  /** An outcome other than running out of bytes. */
  ghost predicate Settled<T>(p: Parse<T>) { p != Fail(Truncated) }

  lemma TextStable(b: seq<byte>, x: seq<byte>, pos: nat)
    requires Settled(TextAt(b, pos))
    ensures TextAt(b + x, pos) == TextAt(b, pos)
  {
    var n := At16(b, pos);
    assert At16(b + x, pos) == n;
    assert (b + x)[pos + 2..pos + 2 + n] == b[pos + 2..pos + 2 + n];
  }

  lemma CountStable(b: seq<byte>, x: seq<byte>, pos: nat, width: nat)
    requires Settled(CountAt(b, pos, width))
    ensures CountAt(b + x, pos, width) == CountAt(b, pos, width)
  {
    assert At32(b + x, pos) == At32(b, pos);
  }

  lemma {:induction false} IntsStable(b: seq<byte>, x: seq<byte>, pos: nat, n: nat)
    requires pos + 4 * n <= |b|
    ensures IntsAt(b + x, pos, n) == IntsAt(b, pos, n)
    decreases n
  {
    if n > 0 {
      assert At32(b + x, pos) == At32(b, pos);
      IntsStable(b, x, pos + 4, n - 1);
    }
  }

  lemma {:induction false} LongsStable(b: seq<byte>, x: seq<byte>, pos: nat, n: nat)
    requires pos + 8 * n <= |b|
    ensures LongsAt(b + x, pos, n) == LongsAt(b, pos, n)
    decreases n
  {
    if n > 0 {
      assert At64(b + x, pos) == At64(b, pos);
      LongsStable(b, x, pos + 8, n - 1);
    }
  }

  lemma PlainStable(b: seq<byte>, x: seq<byte>, pos: nat, id: byte)
    requires Settled(PlainAt(b, pos, id))
    ensures PlainAt(b + x, pos, id) == PlainAt(b, pos, id)
  {
    if id == TAG_BYTE_ARRAY {
      CountStable(b, x, pos, 1);
      var c := CountAt(b, pos, 1);
      if c.Ok? { assert (b + x)[c.next..c.next + c.value] == b[c.next..c.next + c.value]; }
    } else if id == TAG_STRING {
      TextStable(b, x, pos);
    } else if id == TAG_INT_ARRAY {
      CountStable(b, x, pos, 4);
      var c := CountAt(b, pos, 4);
      if c.Ok? { IntsStable(b, x, c.next, c.value); }
    } else if id == TAG_LONG_ARRAY {
      CountStable(b, x, pos, 8);
      var c := CountAt(b, pos, 8);
      if c.Ok? { LongsStable(b, x, c.next, c.value); }
    }
  }

  lemma {:induction false} PayloadStable(b: seq<byte>, x: seq<byte>, pos: nat, depth: nat, id: byte)
    requires depth <= MAX_DEPTH
    requires Settled(PayloadAt(b, pos, depth, id))
    ensures PayloadAt(b + x, pos, depth, id) == PayloadAt(b, pos, depth, id)
    decreases MAX_DEPTH - depth, 0, 0
  {
    if id == TAG_LIST {
      if depth < MAX_DEPTH { ListStable(b, x, pos, depth + 1); }
    } else if id == TAG_COMPOUND {
      if depth < MAX_DEPTH { CompoundStable(b, x, pos, depth + 1); }
    } else {
      PlainStable(b, x, pos, id);
    }
  }

  lemma {:induction false} CompoundStable(b: seq<byte>, x: seq<byte>, pos: nat, depth: nat)
    requires depth <= MAX_DEPTH
    requires Settled(CompoundAt(b, pos, depth))
    ensures CompoundAt(b + x, pos, depth) == CompoundAt(b, pos, depth)
    decreases MAX_DEPTH - depth, 2, 0
  {
    EntriesStable(b, x, pos, depth, []);
  }

  lemma {:induction false} ListStable(b: seq<byte>, x: seq<byte>, pos: nat, depth: nat)
    requires depth <= MAX_DEPTH
    requires Settled(ListAt(b, pos, depth))
    ensures ListAt(b + x, pos, depth) == ListAt(b, pos, depth)
    decreases MAX_DEPTH - depth, 2, 0
  {
    var c := CountAt(b, pos + 1, 1);
    CountStable(b, x, pos + 1, 1);
    if c.Ok? && (b[pos] != TAG_END || c.value == 0) {
      ElemsStable(b, x, c.next, depth, b[pos], c.value, []);
    }
  }

  lemma {:induction false} ElemsStable(b: seq<byte>, x: seq<byte>, pos: nat, depth: nat, id: byte, n: nat,
                                       acc: seq<Tag>)
    requires depth <= MAX_DEPTH && pos <= |b|
    requires Settled(ElemsAt(b, pos, depth, id, n, acc))
    ensures ElemsAt(b + x, pos, depth, id, n, acc) == ElemsAt(b, pos, depth, id, n, acc)
    decreases MAX_DEPTH - depth, 1, n
  {
    if n > 0 {
      PayloadStable(b, x, pos, depth, id);
      var p := PayloadAt(b, pos, depth, id);
      if p.Ok? { ElemsStable(b, x, p.next, depth, id, n - 1, acc + [p.value]); }
    }
  }

  lemma {:induction false} EntriesStable(b: seq<byte>, x: seq<byte>, pos: nat, depth: nat, acc: seq<Entry>)
    requires depth <= MAX_DEPTH
    requires Settled(EntriesAt(b, pos, depth, acc))
    ensures EntriesAt(b + x, pos, depth, acc) == EntriesAt(b, pos, depth, acc)
    decreases MAX_DEPTH - depth, 1, |b| - pos
  {
    if b[pos] != TAG_END {
      TextStable(b, x, pos + 1);
      var name := TextAt(b, pos + 1);
      if name.Ok? {
        PayloadStable(b, x, name.next, depth, b[pos]);
        var p := PayloadAt(b, name.next, depth, b[pos]);
        if p.Ok? { EntriesStable(b, x, p.next, depth, SetEntry(acc, name.value, p.value)); }
      }
    }
  }

  /** Appending bytes changes no outcome but running out of bytes. */
  lemma NamedRootStable(b: seq<byte>, x: seq<byte>)
    requires Settled(NamedRootAt(b))
    ensures NamedRootAt(b + x) == NamedRootAt(b)
  {
    if b[0] != TAG_END {
      TextStable(b, x, 1);
      var name := TextAt(b, 1);
      if name.Ok? { PayloadStable(b, x, name.next, 0, b[0]); }
    }
  }

  lemma RootStable(b: seq<byte>, x: seq<byte>)
    requires Settled(RootAt(b))
    ensures RootAt(b + x) == RootAt(b)
  {
    if b[0] != TAG_END { PayloadStable(b, x, 1, 0, b[0]); }
  }

  // ---- Every successful parse is a well-formed tree, no larger than its bytes

  lemma {:induction false} AllHeightBound(ts: seq<Tag>, h: nat)
    requires forall i :: 0 <= i < |ts| ==> Height(ts[i]) <= h
    ensures AllHeight(ts) <= h
  {
    if ts != [] { AllHeightBound(ts[1..], h); }
  }

  lemma {:induction false} EntriesHeightBound(es: seq<Entry>, h: nat)
    requires forall i :: 0 <= i < |es| ==> Height(es[i].tag) <= h
    ensures EntriesHeight(es) <= h
  {
    if es != [] { EntriesHeightBound(es[1..], h); }
  }

  lemma {:induction false} AllNodesAppend(ts: seq<Tag>, t: Tag)
    ensures AllNodes(ts + [t]) == AllNodes(ts) + Nodes(t)
  {
    if ts == [] {
      assert ts + [t] == [t];
    } else {
      assert (ts + [t])[1..] == ts[1..] + [t];
      AllNodesAppend(ts[1..], t);
    }
  }

  lemma {:induction false} EntriesNodesSet(es: seq<Entry>, name: Str, tag: Tag)
    ensures EntriesNodes(SetEntry(es, name, tag)) <= EntriesNodes(es) + Nodes(tag)
  {
    var e := Entry(name, tag);
    if es == [] {
      assert SetEntry(es, name, tag) == [e];
    } else if es[0].name == name {
      assert SetEntry(es, name, tag) == [e] + es[1..];
    } else {
      EntriesNodesSet(es[1..], name, tag);
      assert SetEntry(es, name, tag) == [es[0]] + SetEntry(es[1..], name, tag);
    }
  }

  /** What the depth limit leaves room for below a container at this depth. */
  ghost predicate Sound(t: Tag, depth: nat) {
    WellFormed(t) && SizesFit(t) && depth + Height(t) <= MAX_DEPTH
  }

  lemma {:induction false} PayloadSound(b: seq<byte>, pos: nat, depth: nat, id: byte)
    requires depth <= MAX_DEPTH && PayloadAt(b, pos, depth, id).Ok?
    ensures var p := PayloadAt(b, pos, depth, id);
            p.value.Id() == id && Sound(p.value, depth) && Nodes(p.value) <= p.next - pos
    decreases MAX_DEPTH - depth, 0, 0
  {
    if id == TAG_LIST {
      ListSound(b, pos, depth + 1);
    } else if id == TAG_COMPOUND {
      CompoundSound(b, pos, depth + 1);
    } else {
      PlainSound(b, pos, depth, id);
    }
  }

  lemma PlainSound(b: seq<byte>, pos: nat, depth: nat, id: byte)
    requires depth <= MAX_DEPTH && PlainAt(b, pos, id).Ok?
    ensures var p := PlainAt(b, pos, id);
            p.value.Id() == id && Sound(p.value, depth) && Nodes(p.value) <= p.next - pos
  {
  }

  lemma SoundList(id: byte, elems: seq<Tag>, depth: nat)
    requires 1 <= depth <= MAX_DEPTH && |elems| <= MAX_I32
    requires forall i :: 0 <= i < |elems| ==> elems[i].Id() == id && Sound(elems[i], depth)
    ensures Sound(ListTag(id, elems), depth - 1)
  {
    AllHeightBound(elems, MAX_DEPTH - depth);
  }

  lemma SoundCompound(es: seq<Entry>, depth: nat)
    requires 1 <= depth <= MAX_DEPTH && Distinct(es)
    requires forall i :: 0 <= i < |es| ==> Sound(es[i].tag, depth)
    ensures Sound(CompoundTag(es), depth - 1)
  {
    EntriesHeightBound(es, MAX_DEPTH - depth);
  }

  lemma {:induction false} ListSound(b: seq<byte>, pos: nat, depth: nat)
    requires 1 <= depth <= MAX_DEPTH && ListAt(b, pos, depth).Ok?
    ensures var p := ListAt(b, pos, depth);
            p.value.Id() == TAG_LIST && Sound(p.value, depth - 1) && Nodes(p.value) <= p.next - pos
    decreases MAX_DEPTH - depth, 2, 0
  {
    hide Sound, ElemsAt, PayloadAt;
    var c := CountAt(b, pos + 1, 1);
    ElemsSound(b, c.next, depth, b[pos], c.value, []);
    SoundList(b[pos], ElemsAt(b, c.next, depth, b[pos], c.value, []).value, depth);
  }

  lemma {:induction false} CompoundSound(b: seq<byte>, pos: nat, depth: nat)
    requires 1 <= depth <= MAX_DEPTH && CompoundAt(b, pos, depth).Ok?
    ensures var p := CompoundAt(b, pos, depth);
            p.value.Id() == TAG_COMPOUND && Sound(p.value, depth - 1) && Nodes(p.value) <= p.next - pos
    decreases MAX_DEPTH - depth, 2, 0
  {
    hide Sound, EntriesAt, PayloadAt;
    EntriesSound(b, pos, depth, []);
    SoundCompound(EntriesAt(b, pos, depth, []).value, depth);
  }

  lemma {:induction false} ElemsSound(b: seq<byte>, pos: nat, depth: nat, id: byte, n: nat, acc: seq<Tag>)
    requires depth <= MAX_DEPTH && pos <= |b|
    requires ElemsAt(b, pos, depth, id, n, acc).Ok?
    requires forall i :: 0 <= i < |acc| ==> acc[i].Id() == id && Sound(acc[i], depth)
    ensures var p := ElemsAt(b, pos, depth, id, n, acc);
            && |p.value| == |acc| + n
            && (forall i :: 0 <= i < |p.value| ==> p.value[i].Id() == id && Sound(p.value[i], depth))
            && AllNodes(p.value) <= AllNodes(acc) + (p.next - pos)
    decreases MAX_DEPTH - depth, 1, n
  {
    if n > 0 {
      PayloadSound(b, pos, depth, id);
      var p := PayloadAt(b, pos, depth, id);
      AllNodesAppend(acc, p.value);
      ElemsSound(b, p.next, depth, id, n - 1, acc + [p.value]);
    }
  }

  lemma {:induction false} EntriesSound(b: seq<byte>, pos: nat, depth: nat, acc: seq<Entry>)
    requires depth <= MAX_DEPTH && EntriesAt(b, pos, depth, acc).Ok?
    requires Distinct(acc) && forall i :: 0 <= i < |acc| ==> Sound(acc[i].tag, depth)
    ensures var p := EntriesAt(b, pos, depth, acc);
            && Distinct(p.value)
            && (forall i :: 0 <= i < |p.value| ==> Sound(p.value[i].tag, depth))
            && EntriesNodes(p.value) < EntriesNodes(acc) + (p.next - pos)
    decreases MAX_DEPTH - depth, 1, |b| - pos
  {
    if b[pos] != TAG_END {
      var name := TextAt(b, pos + 1);
      PayloadSound(b, name.next, depth, b[pos]);
      var p := PayloadAt(b, name.next, depth, b[pos]);
      SetEntryDistinct(acc, name.value, p.value);
      EntriesNodesSet(acc, name.value, p.value);
      EntriesSound(b, p.next, depth, SetEntry(acc, name.value, p.value));
    }
  }

  /** Parsing any bytes whatever yields an error or a well-formed tree within the depth
      limit, with no more tags than bytes consumed. */
  lemma NamedRootSound(b: seq<byte>)
    requires NamedRootAt(b).Ok? && NamedRootAt(b).value.root.Some?
    ensures var p := NamedRootAt(b);
            var t := p.value.root.value;
            && t.Id() == b[0] && WellFormed(t) && SizesFit(t)
            && Height(t) <= MAX_DEPTH && Nodes(t) < p.next <= |b|
  {
    PayloadSound(b, TextAt(b, 1).next, 0, b[0]);
  }

  // ---- Round trip

  lemma TextBack(b: seq<byte>, pos: nat, s: Str)
    requires TextFits(s) && Holds(b, pos, TextBytes(s))
    ensures TextAt(b, pos) == Ok(s, pos + |TextBytes(s)|)
  {
    HoldsSplit(b, pos, Be16(Low16(|Encoded(s)|)), Encoded(s));
    HoldsBe16(b, pos, Low16(|Encoded(s)|));
    TextRoundTrip(s);
  }

  lemma CountBack(b: seq<byte>, pos: nat, n: nat, width: nat)
    requires n <= MAX_I32 && Holds(b, pos, Be32(Low32(n)))
    requires n * width <= |b| - pos - 4
    ensures CountAt(b, pos, width) == Ok(n, pos + 4)
  {
    HoldsBe32(b, pos, Low32(n));
  }

  lemma {:induction false} IntsBack(b: seq<byte>, pos: nat, v: seq<i32>)
    requires Holds(b, pos, IntsBytes(v))
    ensures IntsAt(b, pos, |v|) == v
    decreases |v|
  {
    if v != [] {
      HoldsSplit(b, pos, Be32(U32Of(v[0])), IntsBytes(v[1..]));
      HoldsBe32(b, pos, U32Of(v[0]));
      IntsBack(b, pos + 4, v[1..]);
    }
  }

  lemma {:induction false} LongsBack(b: seq<byte>, pos: nat, v: seq<i64>)
    requires Holds(b, pos, LongsBytes(v))
    ensures LongsAt(b, pos, |v|) == v
    decreases |v|
  {
    if v != [] {
      HoldsSplit(b, pos, Be64(U64Of(v[0])), LongsBytes(v[1..]));
      HoldsBe64(b, pos, U64Of(v[0]));
      LongsBack(b, pos + 8, v[1..]);
    }
  }

  lemma {:induction false} PayloadNonEmpty(t: Tag)
    ensures |PayloadBytes(t)| > 0
  {
  }

  lemma {:induction false} AllBytesLength(ts: seq<Tag>)
    ensures |AllBytes(ts)| >= |ts|
  {
    if ts != [] {
      PayloadNonEmpty(ts[0]);
      AllBytesLength(ts[1..]);
    }
  }

  /** What the parser makes of a printed tag found at some depth: the tag itself, empty lists
      forgetting their kind, or the depth error exactly when its nesting passes the limit. */
  ghost function Expected(t: Tag, pos: nat, depth: nat): Parse<Tag> {
    if depth + Height(t) <= MAX_DEPTH then Ok(Normal(t), pos + |PayloadBytes(t)|) else Fail(TooDeep)
  }

  lemma {:induction false} PayloadBack(b: seq<byte>, pos: nat, depth: nat, t: Tag)
    requires depth <= MAX_DEPTH && Writable(t) && Holds(b, pos, PayloadBytes(t))
    ensures PayloadAt(b, pos, depth, t.Id()) == Expected(t, pos, depth)
    decreases t, 0
  {
    if t.ListTag? {
      if depth < MAX_DEPTH { ListBack(b, pos, depth + 1, t); }
    } else if t.CompoundTag? {
      if depth < MAX_DEPTH { CompoundBack(b, pos, depth + 1, t); }
    } else if t.ByteArrayTag? || t.IntArrayTag? || t.LongArrayTag? {
      ArrayBack(b, pos, t);
    } else {
      ScalarBack(b, pos, t);
    }
  }

  lemma ScalarBack(b: seq<byte>, pos: nat, t: Tag)
    requires Writable(t) && Holds(b, pos, PayloadBytes(t))
    requires 1 <= t.Id() <= 6 || t.StringTag?
    ensures PlainAt(b, pos, t.Id()) == Ok(t, pos + |PayloadBytes(t)|)
  {
    hide Be16, Be32, Be64, At16, At32, At64, TextAt, TextBytes;
    match t
    case ByteTag(v) => HoldsAt(b, pos, PayloadBytes(t), 0);
    case ShortTag(v) => HoldsBe16(b, pos, U16Of(v));
    case IntTag(v) => HoldsBe32(b, pos, U32Of(v));
    case LongTag(v) => HoldsBe64(b, pos, U64Of(v));
    case FloatTag(v) => HoldsBe32(b, pos, v);
    case DoubleTag(v) => HoldsBe64(b, pos, v);
    case StringTag(s) => TextBack(b, pos, s);
  }

  lemma LengthBack(b: seq<byte>, pos: nat, n: nat, width: nat, body: seq<byte>)
    requires n <= MAX_I32 && |body| == n * width && Holds(b, pos, Be32(Low32(n)) + body)
    ensures CountAt(b, pos, width) == Ok(n, pos + 4) && Holds(b, pos + 4, body)
  {
    HoldsSplit(b, pos, Be32(Low32(n)), body);
    CountBack(b, pos, n, width);
  }

  lemma BytesBack(b: seq<byte>, pos: nat, v: seq<byte>)
    requires |v| <= MAX_I32 && Holds(b, pos, Be32(Low32(|v|)) + v)
    ensures PlainAt(b, pos, TAG_BYTE_ARRAY) == Ok(ByteArrayTag(v), pos + 4 + |v|)
  {
    LengthBack(b, pos, |v|, 1, v);
  }

  lemma IntArrayBack(b: seq<byte>, pos: nat, v: seq<i32>)
    requires |v| <= MAX_I32 && Holds(b, pos, Be32(Low32(|v|)) + IntsBytes(v))
    ensures PlainAt(b, pos, TAG_INT_ARRAY) == Ok(IntArrayTag(v), pos + 4 + 4 * |v|)
  {
    hide IntsBytes, IntsAt, CountAt, Holds, Be32, Low32;
    LengthBack(b, pos, |v|, 4, IntsBytes(v));
    IntsBack(b, pos + 4, v);
  }

  lemma LongArrayBack(b: seq<byte>, pos: nat, v: seq<i64>)
    requires |v| <= MAX_I32 && Holds(b, pos, Be32(Low32(|v|)) + LongsBytes(v))
    ensures PlainAt(b, pos, TAG_LONG_ARRAY) == Ok(LongArrayTag(v), pos + 4 + 8 * |v|)
  {
    hide LongsBytes, LongsAt, CountAt, Holds, Be32, Low32;
    LengthBack(b, pos, |v|, 8, LongsBytes(v));
    LongsBack(b, pos + 4, v);
  }

  lemma ArrayBack(b: seq<byte>, pos: nat, t: Tag)
    requires Writable(t) && Holds(b, pos, PayloadBytes(t))
    requires t.ByteArrayTag? || t.IntArrayTag? || t.LongArrayTag?
    ensures PlainAt(b, pos, t.Id()) == Ok(t, pos + |PayloadBytes(t)|)
  {
    hide PlainAt;
    match t
    case ByteArrayTag(v) => BytesBack(b, pos, v);
    case IntArrayTag(v) => IntArrayBack(b, pos, v);
    case LongArrayTag(v) => LongArrayBack(b, pos, v);
  }

  lemma {:induction false} CompoundBack(b: seq<byte>, pos: nat, depth: nat, t: Tag)
    requires 1 <= depth <= MAX_DEPTH && t.CompoundTag? && Writable(t) && Holds(b, pos, PayloadBytes(t))
    ensures CompoundAt(b, pos, depth) == Expected(t, pos, depth - 1)
    decreases t, 0, 0
  {
    hide EntriesAt, EntriesBytes, Holds, Fresh, Writable, Expected, ExpectedEntries, PayloadBytes;
    CompoundParts(t);
    CompoundExpected(t, pos, depth);
    EntriesBack(b, pos, depth, t.entries, []);
  }

  lemma CompoundExpected(t: Tag, pos: nat, depth: nat)
    requires 1 <= depth && t.CompoundTag?
    ensures var r := ExpectedEntries(t.entries, pos, depth, []);
            Expected(t, pos, depth - 1) == if r.Ok? then Ok(CompoundTag(r.value), r.next) else Fail(r.error)
  {
    assert [] + EntriesNormal(t.entries) == EntriesNormal(t.entries);
  }

  lemma CompoundParts(t: Tag)
    requires t.CompoundTag? && Writable(t)
    ensures Fresh(t.entries, []) && PayloadBytes(t) == EntriesBytes(t.entries) + [TAG_END]
    ensures forall i :: 0 <= i < |t.entries| ==> TextFits(t.entries[i].name) && Writable(t.entries[i].tag)
  {
  }

  lemma {:induction false} ListBack(b: seq<byte>, pos: nat, depth: nat, t: Tag)
    requires 1 <= depth <= MAX_DEPTH && t.ListTag? && Writable(t) && Holds(b, pos, PayloadBytes(t))
    ensures ListAt(b, pos, depth) == Expected(t, pos, depth - 1)
    decreases t, 0, 0
  {
    var elems := t.elems;
    var id := if elems == [] then TAG_END else t.elemId;
    assert elems != [] ==> elems[0].Id() == id;
    var n := Be32(Low32(|elems|));
    HoldsSplit(b, pos, [id], n + AllBytes(elems));
    HoldsAt(b, pos, [id], 0);
    HoldsSplit(b, pos + 1, n, AllBytes(elems));
    AllBytesLength(elems);
    CountBack(b, pos + 1, |elems|, 1);
    ElemsBack(b, pos + 5, depth, id, elems, []);
    assert [] + AllNormal(elems) == AllNormal(elems);
  }

  ghost function ExpectedElems(ts: seq<Tag>, pos: nat, depth: nat, acc: seq<Tag>): Parse<seq<Tag>> {
    if depth + AllHeight(ts) <= MAX_DEPTH then Ok(acc + AllNormal(ts), pos + |AllBytes(ts)|) else Fail(TooDeep)
  }

  lemma ExpectedElemsStep(ts: seq<Tag>, pos: nat, depth: nat, acc: seq<Tag>)
    requires ts != []
    ensures ExpectedElems(ts, pos, depth, acc)
         == if depth + Height(ts[0]) <= MAX_DEPTH
            then ExpectedElems(ts[1..], pos + |PayloadBytes(ts[0])|, depth, acc + [Normal(ts[0])]) else Fail(TooDeep)
  {
    assert acc + [Normal(ts[0])] + AllNormal(ts[1..]) == acc + AllNormal(ts);
  }

  lemma ElemsUnfold(b: seq<byte>, pos: nat, depth: nat, id: byte, n: nat, acc: seq<Tag>)
    requires depth <= MAX_DEPTH && pos <= |b| && n > 0
    ensures var p := PayloadAt(b, pos, depth, id);
            ElemsAt(b, pos, depth, id, n, acc) ==
              if p.Ok? then ElemsAt(b, p.next, depth, id, n - 1, acc + [p.value]) else Fail(p.error)
  {
  }

  lemma ElemsEndBack(b: seq<byte>, pos: nat, depth: nat, id: byte, acc: seq<Tag>)
    requires depth <= MAX_DEPTH && pos <= |b|
    ensures ElemsAt(b, pos, depth, id, 0, acc) == ExpectedElems([], pos, depth, acc)
  {
    assert acc + AllNormal([]) == acc;
  }

  lemma {:induction false} ElemsBack(b: seq<byte>, pos: nat, depth: nat, id: byte, ts: seq<Tag>, acc: seq<Tag>)
    requires depth <= MAX_DEPTH && Holds(b, pos, AllBytes(ts))
    requires forall i :: 0 <= i < |ts| ==> Writable(ts[i]) && ts[i].Id() == id
    ensures ElemsAt(b, pos, depth, id, |ts|, acc) == ExpectedElems(ts, pos, depth, acc)
    decreases ts, 1
  {
    hide Writable, PayloadBytes, Normal, Height, PayloadAt, ElemsAt, ExpectedElems;
    if ts == [] {
      ElemsEndBack(b, pos, depth, id, acc);
    } else {
      var t := ts[0];
      HoldsSplit(b, pos, PayloadBytes(t), AllBytes(ts[1..]));
      PayloadBack(b, pos, depth, t);
      ElemsUnfold(b, pos, depth, id, |ts|, acc);
      ExpectedElemsStep(ts, pos, depth, acc);
      if depth + Height(t) <= MAX_DEPTH {
        ElemsBack(b, pos + |PayloadBytes(t)|, depth, id, ts[1..], acc + [Normal(t)]);
      }
    }
  }

  /** The entries `es` come after those of `acc` without naming one again. */
  ghost predicate Fresh(es: seq<Entry>, acc: seq<Entry>) {
    && Distinct(es)
    && forall i, j :: 0 <= i < |es| && 0 <= j < |acc| ==> es[i].name != acc[j].name
  }

  /** What is left of a compound parses to, when the entries `es` are left after `acc`. */
  ghost function ExpectedEntries(es: seq<Entry>, pos: nat, depth: nat, acc: seq<Entry>): Parse<seq<Entry>> {
    if depth + EntriesHeight(es) <= MAX_DEPTH
    then Ok(acc + EntriesNormal(es), pos + |EntriesBytes(es)| + 1) else Fail(TooDeep)
  }

  lemma ExpectedEntriesStep(es: seq<Entry>, pos: nat, depth: nat, acc: seq<Entry>)
    requires es != []
    ensures ExpectedEntries(es, pos, depth, acc)
         == if depth + Height(es[0].tag) <= MAX_DEPTH
            then ExpectedEntries(es[1..], pos + |EntryBytes(es[0])|, depth,
                                 acc + [Entry(es[0].name, Normal(es[0].tag))])
            else Fail(TooDeep)
  {
    assert acc + [Entry(es[0].name, Normal(es[0].tag))] + EntriesNormal(es[1..]) == acc + EntriesNormal(es);
  }

  lemma EntriesUnfold(b: seq<byte>, pos: nat, depth: nat, acc: seq<Entry>, id: byte, name: Str, q: nat)
    requires depth <= MAX_DEPTH && id != TAG_END
    requires ByteAt(b, pos) == Ok(id, pos + 1) && TextAt(b, pos + 1) == Ok(name, q)
    ensures var p := PayloadAt(b, q, depth, id);
            EntriesAt(b, pos, depth, acc) ==
              if p.Ok? then EntriesAt(b, p.next, depth, SetEntry(acc, name, p.value)) else Fail(p.error)
  {
  }

  /** One printed entry read: what is left is read after it, or it nests too deep. */
  lemma {:induction false} EntryBack(b: seq<byte>, pos: nat, depth: nat, e: Entry, acc: seq<Entry>)
    requires depth <= MAX_DEPTH && TextFits(e.name) && Writable(e.tag) && Holds(b, pos, EntryBytes(e))
    ensures EntriesAt(b, pos, depth, acc)
         == if depth + Height(e.tag) <= MAX_DEPTH
            then EntriesAt(b, pos + |EntryBytes(e)|, depth, SetEntry(acc, e.name, Normal(e.tag))) else Fail(TooDeep)
    decreases e
  {
    hide EntriesAt, PayloadAt, PayloadBytes, SetEntry, Normal, Height;
    var q := pos + 1 + |TextBytes(e.name)|;
    EntryHeadBack(b, pos, e);
    EntriesUnfold(b, pos, depth, acc, e.tag.Id(), e.name, q);
    PayloadBack(b, q, depth, e.tag);
  }

  lemma EntriesEndBack(b: seq<byte>, pos: nat, depth: nat, acc: seq<Entry>)
    requires depth <= MAX_DEPTH && Holds(b, pos, EntriesBytes([]) + [TAG_END])
    ensures EntriesAt(b, pos, depth, acc) == ExpectedEntries([], pos, depth, acc)
  {
    HoldsSplit(b, pos, EntriesBytes([]), [TAG_END]);
    HoldsAt(b, pos, [TAG_END], 0);
    assert acc + EntriesNormal([]) == acc;
  }

  lemma {:induction false} EntriesBack(b: seq<byte>, pos: nat, depth: nat, es: seq<Entry>, acc: seq<Entry>)
    requires depth <= MAX_DEPTH && Holds(b, pos, EntriesBytes(es) + [TAG_END])
    requires Fresh(es, acc)
    requires forall i :: 0 <= i < |es| ==> TextFits(es[i].name) && Writable(es[i].tag)
    ensures EntriesAt(b, pos, depth, acc) == ExpectedEntries(es, pos, depth, acc)
    decreases es, 1
  {
    hide Writable, EntryBytes, Normal, SetEntry, Height, EntriesAt, ExpectedEntries, Fresh, TextFits;
    if es == [] {
      EntriesEndBack(b, pos, depth, acc);
    } else {
      var e, rest := es[0], EntriesBytes(es[1..]) + [TAG_END];
      assert EntriesBytes(es) + [TAG_END] == EntryBytes(e) + rest;
      HoldsSplit(b, pos, EntryBytes(e), rest);
      EntryBack(b, pos, depth, e, acc);
      ExpectedEntriesStep(es, pos, depth, acc);
      SetFresh(es, acc, Normal(e.tag));
      if depth + Height(e.tag) <= MAX_DEPTH {
        EntriesBack(b, pos + |EntryBytes(e)|, depth, es[1..], acc + [Entry(e.name, Normal(e.tag))]);
      }
    }
  }

  lemma SetFresh(es: seq<Entry>, acc: seq<Entry>, tag: Tag)
    requires es != [] && Fresh(es, acc)
    ensures SetEntry(acc, es[0].name, tag) == acc + [Entry(es[0].name, tag)]
    ensures Fresh(es[1..], acc + [Entry(es[0].name, tag)])
  {
  }

  lemma EntryHeadBack(b: seq<byte>, pos: nat, e: Entry)
    requires TextFits(e.name) && Holds(b, pos, EntryBytes(e))
    ensures b[pos] == e.tag.Id()
    ensures TextAt(b, pos + 1) == Ok(e.name, pos + 1 + |TextBytes(e.name)|)
    ensures Holds(b, pos + 1 + |TextBytes(e.name)|, PayloadBytes(e.tag))
  {
    HoldsSplit(b, pos, [e.tag.Id()], TextBytes(e.name) + PayloadBytes(e.tag));
    HoldsAt(b, pos, [e.tag.Id()], 0);
    HoldsSplit(b, pos + 1, TextBytes(e.name), PayloadBytes(e.tag));
    TextBack(b, pos + 1, e.name);
  }

  /** Parsing a printed root, whatever follows it, gives back the name and the tag and stops
      where the printed bytes end: exactly when its nesting is within the limit. */
  lemma NamedRoundTrip(name: Str, t: Tag, after: seq<byte>)
    requires Writable(t) && TextFits(name)
    ensures NamedRootAt(NamedBytes(name, t) + after)
         == if Height(t) <= MAX_DEPTH
            then Ok(Named(name, Some(Normal(t))), |NamedBytes(name, t)|) else Fail(TooDeep)
  {
    hide PayloadBytes, TextBytes, Normal, Height, Writable, PayloadAt, TextAt;
    var b := NamedBytes(name, t) + after;
    assert b[0..|NamedBytes(name, t)|] == NamedBytes(name, t);
    assert Holds(b, 0, EntryBytes(Entry(name, t)));
    EntryHeadBack(b, 0, Entry(name, t));
    PayloadBack(b, 1 + |TextBytes(name)|, 0, t);
  }

  lemma NetworkRoundTrip(t: Tag, after: seq<byte>)
    requires Writable(t)
    ensures RootAt(NetworkBytes(t) + after)
         == if Height(t) <= MAX_DEPTH then Ok(Some(Normal(t)), |NetworkBytes(t)|) else Fail(TooDeep)
  {
    var b := NetworkBytes(t) + after;
    assert b[0..|NetworkBytes(t)|] == [t.Id()] + PayloadBytes(t);
    HoldsSplit(b, 0, [t.Id()], PayloadBytes(t));
    HoldsAt(b, 0, [t.Id()], 0);
    PayloadBack(b, 1, 0, t);
  }

  // ---- Truncation

  /** A printed root cut short anywhere fails, and always for want of bytes. */
  lemma CutNamed(name: Str, t: Tag, cut: seq<byte>)
    requires Writable(t) && TextFits(name) && Height(t) <= MAX_DEPTH
    requires cut < NamedBytes(name, t)
    ensures NamedRootAt(cut) == Fail(Truncated)
  {
    hide PayloadAt, TextAt, PayloadBytes, TextBytes, Normal, Height, Writable;
    var full := NamedBytes(name, t);
    NamedRoundTrip(name, t, []);
    assert full + [] == full && cut + full[|cut|..] == full;
    assert NamedRootAt(cut).Ok? ==> NamedRootAt(cut).next <= |cut|;
    if Settled(NamedRootAt(cut)) {
      NamedRootStable(cut, full[|cut|..]);
    }
  }

  lemma CutNetwork(t: Tag, cut: seq<byte>)
    requires Writable(t) && Height(t) <= MAX_DEPTH
    requires cut < NetworkBytes(t)
    ensures RootAt(cut) == Fail(Truncated)
  {
    hide PayloadAt, PayloadBytes, Normal, Height, Writable;
    var full := NetworkBytes(t);
    NetworkRoundTrip(t, []);
    assert full + [] == full && cut + full[|cut|..] == full;
    assert RootAt(cut).Ok? ==> RootAt(cut).next <= |cut|;
    if Settled(RootAt(cut)) {
      RootStable(cut, full[|cut|..]);
    }
  }

  // ---- Parsing, printing and parsing again

  /** Whatever was parsed prints to bytes that parse to the same tree, its empty lists now
      of the end kind, if its strings still fit their length fields. */
  lemma ReparseNamed(b: seq<byte>, after: seq<byte>)
    requires NamedRootAt(b).Ok? && NamedRootAt(b).value.root.Some?
    requires TextFits(NamedRootAt(b).value.name) && StringsFit(NamedRootAt(b).value.root.value)
    ensures var n := NamedRootAt(b).value;
            var again := NamedBytes(n.name, n.root.value);
            NamedRootAt(again + after) == Ok(Named(n.name, Some(Normal(n.root.value))), |again|)
  {
    NamedRootSound(b);
    var n := NamedRootAt(b).value;
    NamedRoundTrip(n.name, n.root.value, after);
  }

  /** Printed trees are a fixed point: parsing one and printing it again gives the same bytes. */
  lemma {:induction false} NormalBytes(t: Tag)
    ensures PayloadBytes(Normal(t)) == PayloadBytes(t)
    decreases t, 0
  {
    match t
    case ListTag(_, elems) => AllNormalBytes(elems);
    case CompoundTag(es) => EntriesNormalBytes(es);
    case _ =>
  }

  lemma {:induction false} AllNormalBytes(ts: seq<Tag>)
    ensures AllBytes(AllNormal(ts)) == AllBytes(ts)
    decreases ts, 1
  {
    if ts != [] {
      NormalBytes(ts[0]);
      AllNormalBytes(ts[1..]);
    }
  }

  lemma {:induction false} EntriesNormalBytes(es: seq<Entry>)
    ensures EntriesBytes(EntriesNormal(es)) == EntriesBytes(es)
    decreases es, 1
  {
    if es != [] {
      NormalBytes(es[0].tag);
      EntriesNormalBytes(es[1..]);
    }
  }

  // ---- Exactly when a string survives its 16-bit length field

  lemma {:induction false} LongTextLost(b: seq<byte>, pos: nat, s: Str)
    requires !TextFits(s) && Holds(b, pos, TextBytes(s))
    ensures TextAt(b, pos).Ok? ==> TextAt(b, pos).value != s
  {
    var enc := Encoded(s);
    var n := Low16(|enc|);
    HoldsSplit(b, pos, Be16(n), enc);
    HoldsBe16(b, pos, n);
    assert b[pos + 2..pos + 2 + |enc|] == enc && n < |enc|;
    assert b[pos + 2..pos + 2 + |enc|][..n] == b[pos + 2..pos + 2 + n];
    CutText(enc[..n], s);
  }

  /** A string tag comes back from its printed bytes exactly when those bytes fit 16 bits. */
  lemma StringSurvives(s: Str, after: seq<byte>)
    ensures TextFits(s) <==>
            RootAt(NetworkBytes(StringTag(s)) + after) == Ok(Some(StringTag(s)), |NetworkBytes(StringTag(s))|)
  {
    var t := StringTag(s);
    var b := NetworkBytes(t) + after;
    if TextFits(s) {
      NetworkRoundTrip(t, after);
    } else {
      assert b[0..|NetworkBytes(t)|] == [t.Id()] + TextBytes(s);
      HoldsSplit(b, 0, [t.Id()], TextBytes(s));
      LongTextLost(b, 1, s);
    }
  }

  // ---- A parsed string whose printed form no longer fits

  type Zero = x: int | x == 0

  function Zeros(n: nat): (z: seq<Zero>)
    ensures |z| == n
  {
    if n == 0 then [] else [0] + Zeros(n - 1)
  }

  lemma {:induction false} ZerosUnits(n: nat)
    ensures Utf16Encode(Zeros(n)) == Zeros(n) && Utf16Decode(Zeros(n)) == Zeros(n)
    ensures |Encoded(Zeros(n))| == 2 * n
  {
    if n > 0 {
      assert Zeros(n)[1..] == Zeros(n - 1);
      ZerosUnits(n - 1);
    }
  }

  lemma {:induction false} ZerosRead(b: seq<byte>, i: nat, n: nat, acc: seq<u16>)
    requires i <= |b| && b[i..] == Zeros(n)
    ensures DecodeFrom(b, i, acc) == Decoded(acc + Zeros(n))
    decreases n
  {
    if n == 0 {
      assert acc + Zeros(n) == acc;
    } else {
      assert b[i] == b[i..][0];
      assert b[i + 1..] == b[i..][1..] == Zeros(n - 1);
      ZerosRead(b, i + 1, n - 1, acc + [0]);
      assert acc + [0] + Zeros(n - 1) == acc + Zeros(n);
    }
  }

  lemma ZerosText(b: seq<byte>, n: nat)
    requires n <= MAX_STRING && n + 3 <= |b| && At16(b, 1) == n && b[3..3 + n] == Zeros(n)
    ensures TextAt(b, 1) == Ok(Zeros(n), n + 3)
  {
    hide At16, DecodeFrom, Utf16Decode;
    ZerosUnits(n);
    assert b[3..3 + n][0..] == Zeros(n) && [] + Zeros(n) == Zeros(n);
    ZerosRead(b[3..3 + n], 0, n, []);
  }

  lemma RawZerosAccepted(n: nat)
    requires n <= MAX_STRING
    ensures RootAt([TAG_STRING] + (Be16(n) + Zeros(n))) == Ok(Some(StringTag(Zeros(n))), n + 3)
  {
    hide Be16, At16, TextAt, Zeros;
    var b: seq<byte> := [TAG_STRING] + (Be16(n) + Zeros(n));
    assert b[0..|b|] == b;
    HoldsSplit(b, 0, [TAG_STRING], Be16(n) + Zeros(n));
    HoldsSplit(b, 1, Be16(n), Zeros(n));
    HoldsBe16(b, 1, n);
    ZerosText(b, n);
  }

  /** A root string of n raw zero bytes is accepted, and it survives printing and parsing again
      exactly when 2n fits 16 bits: each zero is printed as two bytes. */
  lemma RawZeros(n: nat)
    requires n <= MAX_STRING
    ensures var t := StringTag(Zeros(n));
            && RootAt([TAG_STRING] + (Be16(n) + Zeros(n))) == Ok(Some(t), n + 3)
            && (RootAt(NetworkBytes(t)) == Ok(Some(t), |NetworkBytes(t)|) <==> 2 * n <= MAX_STRING)
  {
    RawZerosAccepted(n);
    ZerosUnits(n);
    StringSurvives(Zeros(n), []);
    assert NetworkBytes(StringTag(Zeros(n))) + [] == NetworkBytes(StringTag(Zeros(n)));
  }
}
