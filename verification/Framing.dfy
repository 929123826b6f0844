/** Packet frames with an optional compression threshold, as internal/protocol/frame.go writes
    and reads them. zlib is any pair of functions with the one law the code relies on. */
module Framing {
  import opened Bytes
  import opened Varint
  import opened Wrappers

  const MAX_PACKET := 2 * 1024 * 1024

  datatype Packet = Packet(id: i32, body: seq<byte>)

  /** The outcome of inflating a whole payload: `trailing` bytes follow the end of its stream. */
  datatype Inflated = Corrupt | Stream(data: seq<byte>, trailing: nat)

  datatype Zlib = Zlib(deflate: seq<byte> -> seq<byte>, inflate: seq<byte> -> Inflated) {
    ghost predicate Lawful() {
      forall x :: inflate(deflate(x)) == Stream(x, 0)
    }
  }

  /** Packet id and body, the unit that compression applies to. */
  function Raw(p: Packet): seq<byte> { VarIntBytes(p.id) + p.body }

  /** Go's `int32(len)` written as a VarInt. */
  function LengthBytes(n: nat): seq<byte> { VarIntBytes(I32Of(Low32(n))) }

  /** What the length prefix of the frame counts. */
  function Content(z: Zlib, threshold: i32, p: Packet): seq<byte> {
    var raw := Raw(p);
    if threshold < 0 then raw
    else if |raw| >= threshold then LengthBytes(|raw|) + z.deflate(raw)
    else LengthBytes(0) + raw
  }

  function FrameBytes(z: Zlib, threshold: i32, p: Packet): seq<byte> {
    var content := Content(z, threshold, p);
    LengthBytes(|content|) + content
  }

  function IdBody(buf: seq<byte>): Parse<Packet> {
    var (id, p) :- IntAt(buf, 0);
    Ok(Packet(id, buf[p..]), |buf|)
  }

  function CompressedIn(z: Zlib, frame: seq<byte>, threshold: i32): Parse<Packet> {
    var (dataLen, p) :- IntAt(frame, 0);
    var payload := frame[p..];
    if dataLen == 0 then
      if |payload| >= threshold then Fail(BadCompression) else IdBody(payload)
    else if dataLen < 0 || dataLen > MAX_PACKET then Fail(PacketTooLarge)
    else if dataLen < threshold then Fail(BadCompression)
    else
      match z.inflate(payload)
      case Corrupt => Fail(BadZlib)
      case Stream(data, trailing) =>
        if |data| < dataLen then Fail(EndOfInput)
        else if |data| > dataLen || trailing > 0 then Fail(BadCompression)
        else IdBody(data)
  }

  function PacketAt(z: Zlib, b: seq<byte>, pos: nat, threshold: i32): Parse<Packet> {
    var (length, p) :- IntAt(b, pos);
    if length < 0 || length > MAX_PACKET then Fail(PacketTooLarge)
    else if p + length > |b| then Fail(EndOfInput)
    else
      var frame := b[p..p + length];
      var (packet, _) :- if threshold < 0 then IdBody(frame) else CompressedIn(z, frame, threshold);
      Ok(packet, p + length)
  }

  // ---- Reading

  method ReadPacket(z: Zlib, br: Reader, threshold: i32) returns (r: Result<Packet>)
    requires br.Valid()
    modifies br
    ensures br.Valid()
    ensures Agrees(PacketAt(z, br.buf, old(br.pos), threshold), r, br.pos)
  {
    var length :- br.VarInt();
    if length < 0 || length > MAX_PACKET { return Failure(PacketTooLarge); }
    var frame :- br.ReadN(length);
    if threshold < 0 {
      r := ParseIdBody(frame);
    } else {
      r := ParseCompressed(z, frame, threshold);
    }
  }

  method ParseIdBody(buf: seq<byte>) returns (r: Result<Packet>)
    ensures Agrees(IdBody(buf), r, |buf|)
  {
    var reader := new Reader(buf);
    var id :- reader.VarInt();
    r := Success(Packet(id, buf[reader.pos..]));
  }

  method ParseCompressed(z: Zlib, frame: seq<byte>, threshold: i32) returns (r: Result<Packet>)
    ensures match CompressedIn(z, frame, threshold)
            case Ok(p, _) => r == Success(p)
            case Fail(e) => r == Failure(e)
  {
    var reader := new Reader(frame);
    var dataLen :- reader.VarInt();
    var payload := frame[reader.pos..];
    if dataLen == 0 {
      if |payload| >= threshold { return Failure(BadCompression); }
      r := ParseIdBody(payload);
      return;
    }
    if dataLen < 0 || dataLen > MAX_PACKET { return Failure(PacketTooLarge); }
    if dataLen < threshold { return Failure(BadCompression); }
    match z.inflate(payload)
    case Corrupt => return Failure(BadZlib);
    case Stream(data, trailing) =>
      if |data| < dataLen { return Failure(EndOfInput); }
      if |data| > dataLen || trailing > 0 { return Failure(BadCompression); }
      r := ParseIdBody(data);
  }

  // ---- Writing

  method AppendPacket(z: Zlib, dst: seq<byte>, threshold: i32, p: Packet) returns (out: seq<byte>)
    ensures out == dst + FrameBytes(z, threshold, p)
  {
    if threshold < 0 {
      var idLen := Varint.VarIntLen(p.id);
      out := AppendVarInt(dst, I32Of(Low32(idLen + |p.body|)));
      out := AppendVarInt(out, p.id);
      out := out + p.body;
      assert out == dst + (LengthBytes(|Raw(p)|) + Raw(p));
    } else {
      var raw := AppendVarInt([], p.id);
      raw := raw + p.body;
      assert raw == Raw(p);
      SmallLength(0);
      var payload;
      if |raw| >= threshold {
        payload := AppendVarInt([], I32Of(Low32(|raw|)));
        payload := payload + z.deflate(raw);
      } else {
        payload := AppendVarInt([], 0);
        payload := payload + raw;
      }
      out := AppendVarInt(dst, I32Of(Low32(|payload|)));
      out := out + payload;
      assert payload == Content(z, threshold, p);
      assert out == dst + (LengthBytes(|payload|) + payload);
    }
  }

  // ---- Round trip

  /** The size limits a reader of the same threshold applies. */
  predicate Readable(z: Zlib, threshold: i32, p: Packet) {
    && |Content(z, threshold, p)| <= MAX_PACKET
    && (0 <= threshold <= |Raw(p)| ==> |Raw(p)| <= MAX_PACKET)
  }

  lemma RawBack(p: Packet)
    ensures IdBody(Raw(p)) == Ok(p, |Raw(p)|)
  {
    var raw := Raw(p);
    assert raw[0..|VarIntBytes(p.id)|] == VarIntBytes(p.id);
    IntBack(raw, 0, p.id);
  }

  lemma LengthBack(b: seq<byte>, pos: nat, n: nat, rest: seq<byte>)
    requires Holds(b, pos, LengthBytes(n) + rest)
    ensures IntAt(b, pos) == Ok(I32Of(Low32(n)), pos + |LengthBytes(n)|)
    ensures Holds(b, pos + |LengthBytes(n)|, rest)
  {
    HoldsSplit(b, pos, LengthBytes(n), rest);
    IntBack(b, pos, I32Of(Low32(n)));
  }

  /** The stored or compressed form that the writer chose passes every check of the reader. */
  lemma ContentBack(z: Zlib, threshold: i32, p: Packet)
    requires z.Lawful() && threshold >= 0 && Readable(z, threshold, p)
    ensures CompressedIn(z, Content(z, threshold, p), threshold) == Ok(p, |Raw(p)|)
  {
    hide IdBody, LengthBytes, IntAt, Low32, I32Of;
    var raw := Raw(p);
    RawBack(p);
    if |raw| >= threshold {
      PrefixedContent(|raw|, z.deflate(raw));
      SmallLength(|raw|);
      assert z.inflate(z.deflate(raw)) == Stream(raw, 0);
    } else {
      PrefixedContent(0, raw);
      SmallLength(0);
    }
  }

  lemma PrefixedContent(n: nat, payload: seq<byte>)
    ensures var content := LengthBytes(n) + payload;
            IntAt(content, 0) == Ok(I32Of(Low32(n)), |LengthBytes(n)|) && content[|LengthBytes(n)|..] == payload
  {
    var content := LengthBytes(n) + payload;
    assert content[0..|content|] == content;
    LengthBack(content, 0, n, payload);
  }

  lemma FrameBack(z: Zlib, b: seq<byte>, pos: nat, threshold: i32, p: Packet)
    requires z.Lawful() && Readable(z, threshold, p) && Holds(b, pos, FrameBytes(z, threshold, p))
    ensures PacketAt(z, b, pos, threshold) == Ok(p, pos + |FrameBytes(z, threshold, p)|)
  {
    hide VarIntBytes, IdBody, CompressedIn, Low32, I32Of;
    var content := Content(z, threshold, p);
    LengthBack(b, pos, |content|, content);
    SmallLength(|content|);
    var start := pos + |LengthBytes(|content|)|;
    assert b[start..start + |content|] == content;
    if threshold < 0 {
      RawBack(p);
    } else {
      ContentBack(z, threshold, p);
    }
  }

  lemma SmallLength(n: nat)
    ensures I32Of(Low32(n)) == n <==> n <= MAX_I32
  {
  }

  /** A frame, whatever follows it, reads back as its packet exactly when the packet is within
      the reader's size limits. */
  lemma FrameRoundTrip(z: Zlib, threshold: i32, p: Packet, after: seq<byte>)
    requires z.Lawful()
    ensures var frame := FrameBytes(z, threshold, p);
            PacketAt(z, frame + after, 0, threshold) == Ok(p, |frame|) <==> Readable(z, threshold, p)
  {
    hide VarIntBytes, CompressedIn, IdBody, Content;
    var frame := FrameBytes(z, threshold, p);
    var content := Content(z, threshold, p);
    var b := frame + after;
    assert b[0..|frame|] == frame;
    if Readable(z, threshold, p) {
      FrameBack(z, b, 0, threshold, p);
    } else if |content| > MAX_PACKET {
      LengthBack(b, 0, |content|, content);
    } else {
      LengthBack(b, 0, |content|, content);
      SmallLength(|content|);
      var start := |LengthBytes(|content|)|;
      assert b[start..start + |content|] == content;
      LargeRefused(z, threshold, p);
    }
  }

  lemma LargeRefused(z: Zlib, threshold: i32, p: Packet)
    requires 0 <= threshold <= |Raw(p)| && |Raw(p)| > MAX_PACKET
    ensures var r := CompressedIn(z, Content(z, threshold, p), threshold);
            r.Ok? ==> r.value != p
  {
    hide LengthBytes, IntAt;
    var raw := Raw(p);
    PrefixedContent(|raw|, z.deflate(raw));
    LengthLimits(p.id, 0);
    WrappedLength(|raw|);
  }

  /** A length past the limit is refused as it is, or it wraps around to a small one. */
  lemma WrappedLength(n: nat)
    requires MAX_PACKET < n
    ensures var v := I32Of(Low32(n)); v < 0 || v > MAX_PACKET || n >= 0x1_0000_0000
  {
  }

  /** Input that ends within a frame the reader accepts whole. */
  lemma CutFrame(z: Zlib, b: seq<byte>, pos: nat, threshold: i32, p: Packet)
    requires Readable(z, threshold, p) && pos <= |b| && b[pos..] < FrameBytes(z, threshold, p)
    ensures PacketAt(z, b, pos, threshold) == Fail(EndOfInput)
  {
    hide Content, VarIntBytes, Low32, I32Of, CompressedIn, IdBody;
    var content := Content(z, threshold, p);
    var length := LengthBytes(|content|);
    SmallLength(|content|);
    if |b| - pos < |length| {
      assert (length + content)[..|b| - pos] == length[..|b| - pos];
      IntCut(b, pos, I32Of(Low32(|content|)));
    } else {
      assert b[pos..][..|length|] == b[pos..pos + |length|];
      assert (length + content)[..|b| - pos][..|length|] == length;
      IntBack(b, pos, I32Of(Low32(|content|)));
    }
  }

  /** A length is written modulo two to the 32. */
  lemma LengthMeans(n: nat)
    ensures Terminated(LengthBytes(n)) && Sevens(LengthBytes(n)) == n % 0x1_0000_0000
  {
    hide VarIntBytes, Sevens, Terminated;
    WrittenMeans(I32Of(Low32(n)), 0);
    TwosComplement(Low32(n), 0);
  }

  // ---- Exactly what is accepted

  /** The bytes are an id and whatever follows it. */
  predicate Carries(raw: seq<byte>, p: Packet) {
    IntAt(raw, 0).Ok? && IntAt(raw, 0).value == p.id && raw[IntAt(raw, 0).next..] == p.body
  }

  /** Under compression a frame is a packet exactly when it holds it as it is, below the threshold, or deflated,
      from the threshold up to 2 MiB, with its true length before it and nothing behind. */
  lemma CompressedExactly(z: Zlib, frame: seq<byte>, threshold: i32, p: Packet)
    ensures CompressedIn(z, frame, threshold).Ok? && CompressedIn(z, frame, threshold).value == p <==>
              && IntAt(frame, 0).Ok?
              && var n, payload := IntAt(frame, 0).value, frame[IntAt(frame, 0).next..];
              if n == 0 then |payload| < threshold && Carries(payload, p)
              else
                && 0 < n <= 2 * 1024 * 1024 && threshold <= n
                && z.inflate(payload).Stream? && z.inflate(payload).trailing == 0
                && |z.inflate(payload).data| == n && Carries(z.inflate(payload).data, p)
  {
    hide IntAt;
  }

  /** How the frames that are not accepted for their compression are refused; one whose declared length is out
      of bounds is refused before it is inflated. */
  lemma CompressedRefused(z: Zlib, frame: seq<byte>, threshold: i32)
    requires IntAt(frame, 0).Ok?
    ensures var n, payload := IntAt(frame, 0).value, frame[IntAt(frame, 0).next..];
            var r := CompressedIn(z, frame, threshold);
            && (n < 0 || n > 2 * 1024 * 1024 ==> r == Fail(PacketTooLarge))
            && (n == 0 && |payload| >= threshold ==> r == Fail(BadCompression))
            && (0 < n <= 2 * 1024 * 1024 ==>
                  && (n < threshold ==> r == Fail(BadCompression))
                  && (n >= threshold ==>
                        match z.inflate(payload)
                        case Corrupt => r == Fail(BadZlib)
                        case Stream(data, trailing) =>
                          && (|data| < n ==> r == Fail(EndOfInput))
                          && (|data| > n || (|data| == n && trailing > 0) ==> r == Fail(BadCompression))))
  {
    hide IntAt;
  }

  /** A frame is a packet exactly when its declared length is at most 2 MiB, its bytes are all there, and they
      are the packet; the cursor then stands behind them. */
  lemma FrameExactly(z: Zlib, b: seq<byte>, pos: nat, threshold: i32, p: Packet, next: nat)
    ensures PacketAt(z, b, pos, threshold) == Ok(p, next) <==>
              && IntAt(b, pos).Ok? && 0 <= IntAt(b, pos).value <= 2 * 1024 * 1024
              && next == IntAt(b, pos).next + IntAt(b, pos).value && next <= |b|
              && var frame := b[IntAt(b, pos).next..next];
              if threshold < 0 then Carries(frame, p)
              else CompressedIn(z, frame, threshold).Ok? && CompressedIn(z, frame, threshold).value == p
    ensures IntAt(b, pos).Ok? && !(0 <= IntAt(b, pos).value <= 2 * 1024 * 1024) ==>
              PacketAt(z, b, pos, threshold) == Fail(PacketTooLarge)
  {
    hide IntAt, CompressedIn;
  }

  // ---- Streams of packets

  datatype Sent = Sent(threshold: i32, packet: Packet)

  function StreamBytes(z: Zlib, sent: seq<Sent>): seq<byte> {
    if sent == [] then [] else FrameBytes(z, sent[0].threshold, sent[0].packet) + StreamBytes(z, sent[1..])
  }

  /** Reading one packet after another under the given thresholds. */
  function PacketsAt(z: Zlib, b: seq<byte>, pos: nat, thresholds: seq<i32>): Parse<seq<Packet>>
    decreases |thresholds|
  {
    if thresholds == [] then Ok([], pos)
    else
      var (p, next) :- PacketAt(z, b, pos, thresholds[0]);
      var (rest, end) :- PacketsAt(z, b, next, thresholds[1..]);
      Ok([p] + rest, end)
  }

  function Packets(sent: seq<Sent>): seq<Packet> { seq(|sent|, i requires 0 <= i < |sent| => sent[i].packet) }
  function Thresholds(sent: seq<Sent>): seq<i32> { seq(|sent|, i requires 0 <= i < |sent| => sent[i].threshold) }

  /** The concatenation of frames, each written under its own threshold, reads back as exactly
      the packets, under the same thresholds. */
  lemma {:induction false} StreamRoundTrip(z: Zlib, b: seq<byte>, pos: nat, sent: seq<Sent>)
    requires z.Lawful() && Holds(b, pos, StreamBytes(z, sent))
    requires forall s :: s in sent ==> Readable(z, s.threshold, s.packet)
    ensures PacketsAt(z, b, pos, Thresholds(sent)) == Ok(Packets(sent), pos + |StreamBytes(z, sent)|)
    decreases |sent|
  {
    hide FrameBytes, PacketAt, Readable;
    if sent != [] {
      var s := sent[0];
      var frame := FrameBytes(z, s.threshold, s.packet);
      HoldsSplit(b, pos, frame, StreamBytes(z, sent[1..]));
      FrameBack(z, b, pos, s.threshold, s.packet);
      StreamRoundTrip(z, b, pos + |frame|, sent[1..]);
      assert Thresholds(sent)[1..] == Thresholds(sent[1..]);
      assert Packets(sent) == [s.packet] + Packets(sent[1..]);
    }
  }
}
