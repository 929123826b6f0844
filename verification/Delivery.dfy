/** From `Send` to the peer: the outbound queue, the packet frames and the link encryption of
    internal/network/conn.go composed. */
module Delivery {
  import opened Bytes
  import opened Framing
  import opened Varint
  import opened Wrappers
  import Cfb8
  import Outbound

  // ---- Bytes as the cipher sees them

  function BitsOf(x: byte): bv8 { x as bv8 }
  function ByteOf(v: bv8): byte { v as int }

  function Bits(s: seq<byte>): Cfb8.Text { seq(|s|, i requires 0 <= i < |s| => BitsOf(s[i])) }
  function Plain(t: Cfb8.Text): seq<byte> { seq(|t|, i requires 0 <= i < |t| => ByteOf(t[i])) }

  lemma Ends()
    ensures ByteOf(0) == 0 && ByteOf(255) == 255
  {
  }

  lemma NextBits(v: bv8)
    requires v != 255
    ensures ByteOf(v + 1) == ByteOf(v) + 1
  {
  }

  lemma BitsBack(v: bv8)
    ensures BitsOf(ByteOf(v)) == v
  {
  }

  lemma {:induction false} SomeBits(x: byte)
    ensures exists v: bv8 :: ByteOf(v) == x
  {
    hide ByteOf;
    Ends();
    if x > 0 {
      SomeBits(x - 1);
      var v: bv8 :| ByteOf(v) == x - 1;
      NextBits(v);
    }
  }

  lemma ByteBack(x: byte)
    ensures ByteOf(BitsOf(x)) == x
  {
    hide ByteOf, BitsOf;
    SomeBits(x);
    var v: bv8 :| ByteOf(v) == x;
    BitsBack(v);
  }

  lemma PlainBack(s: seq<byte>)
    ensures Plain(Bits(s)) == s
  {
    hide ByteOf, BitsOf;
    forall i | 0 <= i < |s| ensures Plain(Bits(s))[i] == s[i] { ByteBack(s[i]); }
  }

  lemma BitsJoin(a: seq<byte>, b: seq<byte>)
    ensures Bits(a + b) == Bits(a) + Bits(b)
  {
    hide BitsOf;
  }

  // ---- What the peer reads

  /** The packets read until the input ends or is refused, or all that were expected are there. */
  datatype Reading = Reading(packets: seq<Packet>, error: Option<Error>)

  function ReadAll(z: Zlib, b: seq<byte>, pos: nat, thresholds: seq<i32>): Reading
    decreases |thresholds|
  {
    if thresholds == [] then Reading([], None)
    else
      match PacketAt(z, b, pos, thresholds[0])
      case Fail(e) => Reading([], Some(e))
      case Ok(p, next) =>
        var rest := ReadAll(z, b, next, thresholds[1..]);
        rest.(packets := [p] + rest.packets)
  }

  /** How many of the frames are whole within the first n bytes. */
  function Whole(z: Zlib, sent: seq<Sent>, n: nat): (k: nat)
    ensures k <= |sent|
  {
    if sent == [] then 0
    else
      var size := |FrameBytes(z, sent[0].threshold, sent[0].packet)|;
      if n < size then 0 else 1 + Whole(z, sent[1..], n - size)
  }

  predicate AllReadable(z: Zlib, sent: seq<Sent>) {
    forall k :: 0 <= k < |sent| ==> Readable(z, sent[k].threshold, sent[k].packet)
  }

  /** Any part of a stream of frames reads back as the packets whose frames are whole, and then the end
      of the input, unless that was all. */
  lemma {:induction false} PartRead(z: Zlib, b: seq<byte>, pos: nat, sent: seq<Sent>)
    requires z.Lawful() && AllReadable(z, sent) && pos <= |b| && b[pos..] <= StreamBytes(z, sent)
    ensures var k := Whole(z, sent, |b| - pos);
            ReadAll(z, b, pos, Thresholds(sent))
            == Reading(Packets(sent[..k]), if k == |sent| then None else Some(EndOfInput))
    decreases |sent|
  {
    hide FrameBytes, PacketAt, Readable;
    if sent != [] {
      var s, rest := sent[0], sent[1..];
      var frame := FrameBytes(z, s.threshold, s.packet);
      assert Thresholds(sent)[1..] == Thresholds(rest);
      if |b| - pos < |frame| {
        assert b[pos..] == (frame + StreamBytes(z, rest))[..|b| - pos] == frame[..|b| - pos];
        CutFrame(z, b, pos, s.threshold, s.packet);
      } else {
        assert b[pos..pos + |frame|] == b[pos..][..|frame|] == frame;
        assert b[pos + |frame|..] == b[pos..][|frame|..];
        FrameBack(z, b, pos, s.threshold, s.packet);
        PartRead(z, b, pos + |frame|, rest);
        var k := Whole(z, rest, |b| - pos - |frame|);
        assert sent[..k + 1] == [s] + rest[..k];
        assert Packets(sent[..k + 1]) == [s.packet] + Packets(rest[..k]);
      }
    }
  }

  // ---- What is queued

  /** Each accepted frame was made from a packet that its reader accepts, under some threshold. */
  ghost predicate Framed(z: Zlib, accepted: seq<Outbound.Packet>, sent: seq<Sent>) {
    && |sent| == |accepted| && AllReadable(z, sent)
    && forall k :: 0 <= k < |sent| ==> accepted[k].frame == FrameBytes(z, sent[k].threshold, sent[k].packet)
  }

  lemma {:induction false} StreamAppend(z: Zlib, sent: seq<Sent>, s: Sent)
    ensures StreamBytes(z, sent + [s]) == StreamBytes(z, sent) + FrameBytes(z, s.threshold, s.packet)
  {
    hide FrameBytes;
    if sent == [] {
      assert sent + [s] == [s];
    } else {
      assert (sent + [s])[1..] == sent[1..] + [s];
      StreamAppend(z, sent[1..], s);
    }
  }

  lemma {:induction false} QueuedIsStream(z: Zlib, accepted: seq<Outbound.Packet>, sent: seq<Sent>)
    requires Framed(z, accepted, sent)
    ensures Outbound.Bytes(accepted) == StreamBytes(z, sent)
  {
    hide FrameBytes, Readable;
    if accepted != [] {
      var n := |accepted| - 1;
      QueuedIsStream(z, accepted[..n], sent[..n]);
      StreamAppend(z, sent[..n], sent[n]);
      assert sent[..n] + [sent[n]] == sent;
    }
  }

  // ---- What is on the socket

  /** The writer encrypts frame by frame, each whole before any of it is written. */
  function FrameTexts(ps: seq<Outbound.Packet>): seq<Cfb8.Text> {
    seq(|ps|, i requires 0 <= i < |ps| => Bits(ps[i].frame))
  }

  /** The socket after n bytes: the first `plain` packets go out as they are, those after encrypted. */
  function Socket(cipher: Cfb8.Cipher, iv: Cfb8.Text, ps: seq<Outbound.Packet>, plain: nat, n: nat): Cfb8.Text
    requires |iv| == Cfb8.BLOCK && plain <= |ps|
  {
    var all := Bits(Outbound.Bytes(ps[..plain])) + Cfb8.Outputs(cipher, iv, FrameTexts(ps[plain..]), false);
    if n < |all| then all[..n] else all
  }

  lemma {:induction false} JoinedAppend(texts: seq<Cfb8.Text>, t: Cfb8.Text)
    ensures Cfb8.Joined(texts + [t]) == Cfb8.Joined(texts) + t
  {
    if texts == [] {
      assert texts + [t] == [t];
    } else {
      assert (texts + [t])[1..] == texts[1..] + [t];
      JoinedAppend(texts[1..], t);
    }
  }

  lemma {:induction false} TextsJoined(ps: seq<Outbound.Packet>)
    ensures Cfb8.Joined(FrameTexts(ps)) == Bits(Outbound.Bytes(ps))
  {
    hide BitsOf;
    if ps != [] {
      var n := |ps| - 1;
      TextsJoined(ps[..n]);
      JoinedAppend(FrameTexts(ps[..n]), Bits(ps[n].frame));
      assert FrameTexts(ps) == FrameTexts(ps[..n]) + [Bits(ps[n].frame)];
      BitsJoin(Outbound.Bytes(ps[..n]), ps[n].frame);
    }
  }

  lemma {:induction false} BytesSplit(ps: seq<Outbound.Packet>, k: nat)
    requires k <= |ps|
    ensures Outbound.Bytes(ps) == Outbound.Bytes(ps[..k]) + Outbound.Bytes(ps[k..])
  {
    var n := |ps| - 1;
    if k == |ps| {
      assert ps[..k] == ps;
    } else {
      BytesSplit(ps[..n], k);
      assert ps[..n][..k] == ps[..k] && ps[k..][..n - k] == ps[..n][k..];
    }
  }

  /** The socket is what all frames together encrypt to. */
  lemma SocketLength(cipher: Cfb8.Cipher, iv: Cfb8.Text, ps: seq<Outbound.Packet>, plain: nat)
    requires |iv| == Cfb8.BLOCK && plain <= |ps|
    ensures Cfb8.Outputs(cipher, iv, FrameTexts(ps[plain..]), false)
         == Cfb8.Output(cipher, iv, Bits(Outbound.Bytes(ps[plain..])), false)
    ensures |Outbound.Bytes(ps)|
         == |Bits(Outbound.Bytes(ps[..plain]))| + |Cfb8.Outputs(cipher, iv, FrameTexts(ps[plain..]), false)|
  {
    hide Cfb8.Outputs, Cfb8.Output, Cfb8.Joined, BitsOf;
    Cfb8.OutputsJoined(cipher, iv, FrameTexts(ps[plain..]), false);
    TextsJoined(ps[plain..]);
    BytesSplit(ps, plain);
  }

  /** The first n bytes of an encrypted text decrypt to the first n bytes of the plain one. */
  lemma CutDecrypts(cipher: Cfb8.Cipher, iv: Cfb8.Text, text: Cfb8.Text, n: nat)
    requires |iv| == Cfb8.BLOCK && n <= |text|
    ensures Cfb8.Output(cipher, iv, Cfb8.Output(cipher, iv, text, false)[..n], true) == text[..n]
  {
    hide Cfb8.Output;
    assert text[..n] + text[n..] == text;
    Cfb8.OutputSplit(cipher, iv, text[..n], text[n..], false);
    Cfb8.Inverse(cipher, iv, text[..n]);
  }

  /** What the peer makes of a socket with so many plain bytes: it takes the rest in any portions and
      decrypts each where the last one ended. */
  function Received(cipher: Cfb8.Cipher, iv: Cfb8.Text, start: Cfb8.Text, portions: seq<Cfb8.Text>): seq<byte>
    requires |iv| == Cfb8.BLOCK
  {
    Plain(start + Cfb8.Outputs(cipher, iv, portions, true))
  }

  /** The portions are the socket behind its plain bytes. */
  ghost predicate Portioned(socket: Cfb8.Text, plainBytes: nat, start: Cfb8.Text, portions: seq<Cfb8.Text>) {
    start + Cfb8.Joined(portions) == socket && |start| == if plainBytes < |socket| then plainBytes else |socket|
  }

  lemma ReceivedIs(cipher: Cfb8.Cipher, iv: Cfb8.Text, ps: seq<Outbound.Packet>, plain: nat, n: nat,
                   start: Cfb8.Text, portions: seq<Cfb8.Text>)
    requires |iv| == Cfb8.BLOCK && plain <= |ps| && n <= |Outbound.Bytes(ps)|
    requires Portioned(Socket(cipher, iv, ps, plain, n), |Outbound.Bytes(ps[..plain])|, start, portions)
    ensures Received(cipher, iv, start, portions) == Outbound.Bytes(ps)[..n]
  {
    hide Cfb8.Outputs, Cfb8.Output, Cfb8.Joined, BitsOf, ByteOf, Outbound.Bytes;
    SocketLength(cipher, iv, ps, plain);
    BytesSplit(ps, plain);
    Cfb8.OutputsJoined(cipher, iv, portions, true);
    var a, b := Bits(Outbound.Bytes(ps[..plain])), Bits(Outbound.Bytes(ps[plain..]));
    var socket := Socket(cipher, iv, ps, plain, n);
    BitsJoin(Outbound.Bytes(ps[..plain]), Outbound.Bytes(ps[plain..]));
    var m, secret := n - |start|, Cfb8.Output(cipher, iv, b, false);
    assert socket == (a + secret)[..n];
    assert start == socket[..|start|];
    assert (a + secret)[..n][..|start|] == a[..|start|];
    assert Cfb8.Joined(portions) == socket[|start|..] == secret[..m];
    CutDecrypts(cipher, iv, b, m);
    assert start + b[..m] == (a + b)[..n];
    PlainBack(Outbound.Bytes(ps)[..n]);
    assert Bits(Outbound.Bytes(ps)[..n]) == Bits(Outbound.Bytes(ps))[..n];
  }

  // ---- The whole way

  /** In every run of the queue, whatever fails or closes: the peer reads exactly the packets whose frames
      are whole on the wire, the first of those accepted and in their order, and then the end of the input. */
  lemma Delivered(run: seq<Outbound.Action>, z: Zlib, sent: seq<Sent>, cipher: Cfb8.Cipher, iv: Cfb8.Text, plain: nat,
                  start: Cfb8.Text, portions: seq<Cfb8.Text>)
    requires Outbound.IsRun(Outbound.START, run) && z.Lawful() && |iv| == Cfb8.BLOCK
    requires var t := Outbound.After(Outbound.START, run);
             && Framed(z, t.accepted, sent) && plain <= |t.accepted|
             && Portioned(Socket(cipher, iv, t.accepted, plain, |t.wire|), |Outbound.Bytes(t.accepted[..plain])|,
                          start, portions)
    ensures var t := Outbound.After(Outbound.START, run);
            var k := Whole(z, sent, |t.wire|);
            ReadAll(z, Received(cipher, iv, start, portions), 0, Thresholds(sent))
            == Reading(Packets(sent[..k]), if k == |sent| then None else Some(EndOfInput))
  {
    hide Framed, AllReadable, Portioned, Socket, Received, ReadAll, Whole, Outbound.Bytes, StreamBytes;
    Outbound.SafeRun(run);
    var t := Outbound.After(Outbound.START, run);
    ReceivedIs(cipher, iv, t.accepted, plain, |t.wire|, start, portions);
    QueuedIsStream(z, t.accepted, sent);
    FramedReadable(z, t.accepted, sent);
    assert t.wire == Outbound.Bytes(t.accepted)[..|t.wire|] && t.wire == t.wire[0..];
    PartRead(z, t.wire, 0, sent);
  }

  lemma FramedReadable(z: Zlib, accepted: seq<Outbound.Packet>, sent: seq<Sent>)
    requires Framed(z, accepted, sent)
    ensures AllReadable(z, sent)
  {
  }

  lemma {:induction false} WholeFrames(z: Zlib, sent: seq<Sent>, n: nat, j: nat)
    requires j <= |sent| && |StreamBytes(z, sent[..j])| <= n
    ensures j <= Whole(z, sent, n)
  {
    hide FrameBytes;
    if j > 0 {
      assert sent[..j][1..] == sent[1..][..j - 1];
      WholeFrames(z, sent[1..], n - |FrameBytes(z, sent[0].threshold, sent[0].packet)|, j - 1);
    }
  }

  /** And a waiting send that returned without error has its packet among those the peer reads. */
  lemma SentIsRead(run: seq<Outbound.Action>, c: nat, z: Zlib, sent: seq<Sent>)
    requires Outbound.IsRun(Outbound.START, run)
    requires var t := Outbound.After(Outbound.START, run);
             && Framed(z, t.accepted, sent)
             && c < |t.calls| && t.calls[c].Returned? && t.calls[c].o.Sent? && t.calls[c].p.waits
    ensures var t := Outbound.After(Outbound.START, run);
            exists k: nat :: k < Whole(z, sent, |t.wire|) && t.accepted[k] == t.calls[c].p
  {
    hide AllReadable, Whole, Outbound.Bytes, StreamBytes, FrameBytes;
    Outbound.SentIsOnWire(run, c);
    var t := Outbound.After(Outbound.START, run);
    var k: nat :| k < |t.accepted| && t.accepted[k] == t.calls[c].p && Outbound.Bytes(t.accepted[..k + 1]) <= t.wire;
    PrefixReadable(z, sent, k + 1);
    QueuedIsStream(z, t.accepted[..k + 1], sent[..k + 1]);
    WholeFrames(z, sent, |t.wire|, k + 1);
  }

  lemma PrefixReadable(z: Zlib, sent: seq<Sent>, k: nat)
    requires k <= |sent| && AllReadable(z, sent)
    ensures AllReadable(z, sent[..k])
  {
  }
}
