/**
  Ethernet frames in RNDIS packet messages (section 2.2.14 of MS-RNDIS): a host may put several
  messages into one transfer, and the device takes the frames out of them.
 */
module Rndis {
  import opened Bytes

  const HOST_HEADER := 24
  const DEVICE_HEADER := 44
  const PACKET_MESSAGE: u32 := 1
  const MIN_FRAME := 14
  const MAX_PACKET := 64

  function Le32(x: u32): (r: seq<byte>)
    ensures |r| == 4
  {
    [x % 256, x / 256 % 256, x / 0x1_0000 % 256, x / 0x100_0000]
  }

  /** The little-endian word at a byte offset. */
  function Word(s: seq<byte>, at: nat): u32
    requires at + 4 <= |s|
  {
    s[at] as int + s[at + 1] as int * 256 + s[at + 2] as int * 0x1_0000 + s[at + 3] as int * 0x100_0000
  }

  lemma WordAt(a: seq<byte>, x: u32, b: seq<byte>)
    ensures Word(a + Le32(x) + b, |a|) == x
  {
    var s, n := a + Le32(x) + b, |a|;
    assert s[n] == Le32(x)[0] && s[n + 1] == Le32(x)[1] && s[n + 2] == Le32(x)[2] && s[n + 3] == Le32(x)[3];
    var y := x / 256;
    var z := y / 256;
    assert x / 0x1_0000 == z && x / 0x100_0000 == z / 256;
  }

  // ---- device to host ----

  function Wrap(frame: seq<byte>): seq<byte>
    requires DEVICE_HEADER + |frame| < 0x1_0000_0000
  {
    Message(frame) + if (DEVICE_HEADER + |frame|) % MAX_PACKET == 0 then [0] else []
  }

  function Message(frame: seq<byte>): (r: seq<byte>)
    requires DEVICE_HEADER + |frame| < 0x1_0000_0000
    ensures |r| == DEVICE_HEADER + |frame|
  {
    Le32(PACKET_MESSAGE) + Le32(DEVICE_HEADER + |frame|) + Le32(36) + Le32(|frame|) + Zeros(28) + frame
  }

  // ---- host to device ----

  /** At this position is a packet message that lies, like its frame, inside the transfer. */
  predicate SoundAt(data: seq<byte>, pos: nat) {
    && pos + HOST_HEADER <= |data|
    && HOST_HEADER <= Word(data, pos + 4)
    && pos + Word(data, pos + 4) <= |data|
    && Word(data, pos) == PACKET_MESSAGE
    && pos + 8 + Word(data, pos + 8) + Word(data, pos + 12) <= |data|
  }

  function FrameAt(data: seq<byte>, pos: nat): (r: seq<byte>)
    requires SoundAt(data, pos)
    ensures |r| == Word(data, pos + 12)
  {
    data[pos + 8 + Word(data, pos + 8)..pos + 8 + Word(data, pos + 8) + Word(data, pos + 12)]
  }

  /** A frame shorter than an Ethernet header is dropped. */
  function Accepted(frame: seq<byte>): seq<seq<byte>> { if |frame| >= MIN_FRAME then [frame] else [] }

  function UnwrapFrom(data: seq<byte>, pos: nat): seq<seq<byte>>
    decreases |data| - pos
  {
    if !SoundAt(data, pos) then []
    else
      var rest := UnwrapFrom(data, pos + Word(data, pos + 4));
      if Word(data, pos + 12) >= MIN_FRAME then [FrameAt(data, pos)] + rest else rest
  }

  function Unwrap(data: seq<byte>): seq<seq<byte>> { UnwrapFrom(data, 0) }

  /** The parser's loop; it stops on every input. */
  method UnwrapPackets(data: seq<byte>) returns (frames: seq<seq<byte>>)
    ensures frames == Unwrap(data)
  {
    frames := [];
    var pos := 0;
    while pos + HOST_HEADER <= |data|
      invariant 0 <= pos && Unwrap(data) == frames + UnwrapFrom(data, pos)
      decreases |data| - pos
    {
      var sound, length, frame := NextMessage(data, pos);
      if !sound {
        break;
      }
      if |frame| >= MIN_FRAME {
        Reassociate(frames, [frame], UnwrapFrom(data, pos + length));
        frames := frames + [frame];
      }
      pos := pos + length;
    }
    assert frames + [] == frames;
  }

  /** One round of the parser: the message's length and frame, if it passes the checks. */
  method NextMessage(data: seq<byte>, pos: nat) returns (sound: bool, length: nat, frame: seq<byte>)
    requires pos + HOST_HEADER <= |data|
    ensures sound == SoundAt(data, pos)
    ensures sound ==> length == Word(data, pos + 4) && frame == FrameAt(data, pos)
  {
    sound, frame := false, [];
    length := Word(data, pos + 4);
    if length < HOST_HEADER || pos + length > |data| {
      return;
    }
    if Word(data, pos) != PACKET_MESSAGE {
      return;
    }
    var frameOffset, frameLength := pos + 8 + Word(data, pos + 8), Word(data, pos + 12);
    if frameOffset + frameLength > |data| {
      return;
    }
    sound, frame := true, data[frameOffset..frameOffset + frameLength];
  }

  /** A stretch of the transfer at least as long as an Ethernet header. */
  predicate Slice(data: seq<byte>, frame: seq<byte>, at: nat) {
    |frame| >= MIN_FRAME && at + |frame| <= |data| && data[at..at + |frame|] == frame
  }

  lemma {:induction false} SlicesFrom(data: seq<byte>, pos: nat, k: nat)
    requires k < |UnwrapFrom(data, pos)|
    ensures exists at :: Slice(data, UnwrapFrom(data, pos)[k], at)
    decreases |data| - pos
  {
    var n := if Word(data, pos + 12) >= MIN_FRAME then 1 else 0;
    if k < n {
      assert UnwrapFrom(data, pos)[k] == FrameAt(data, pos);
      assert Slice(data, UnwrapFrom(data, pos)[k], pos + 8 + Word(data, pos + 8));
    } else {
      SlicesFrom(data, pos + Word(data, pos + 4), k - n);
    }
  }

  /** Only slices of the transfer come out, each at least an Ethernet header long. */
  lemma {:induction false} UnwrapSlices(data: seq<byte>, k: nat)
    requires k < |Unwrap(data)|
    ensures exists at :: Slice(data, Unwrap(data)[k], at)
  {
    SlicesFrom(data, 0, k);
  }

  // ---- streams of messages ----

  /** One unpadded packet message that contains its frame, wherever in the message and whatever else
      the message holds. */
  predicate IsPacket(m: seq<byte>) { SoundAt(m, 0) && Word(m, 4) == |m| }

  function FrameOf(m: seq<byte>): seq<byte>
    requires IsPacket(m)
  {
    FrameAt(m, 0)
  }

  lemma {:induction false} WordShift(m: seq<byte>, tail: seq<byte>, at: nat)
    requires at + 4 <= |tail|
    ensures Word(m + tail, |m| + at) == Word(tail, at)
  {
  }

  lemma {:induction false} WordPrefix(m: seq<byte>, tail: seq<byte>, at: nat)
    requires at + 4 <= |m|
    ensures Word(m + tail, at) == Word(m, at)
  {
  }

  lemma {:induction false} SliceShift(m: seq<byte>, tail: seq<byte>, lo: nat, hi: nat)
    requires lo <= hi <= |tail|
    ensures (m + tail)[|m| + lo..|m| + hi] == tail[lo..hi]
  {
  }

  lemma {:induction false} SoundShift(m: seq<byte>, tail: seq<byte>, p: nat)
    ensures SoundAt(m + tail, |m| + p) <==> SoundAt(tail, p)
    ensures SoundAt(tail, p) ==>
              Word(m + tail, |m| + p + 4) == Word(tail, p + 4) && FrameAt(m + tail, |m| + p) == FrameAt(tail, p)
  {
    if p + HOST_HEADER <= |tail| {
      WordShift(m, tail, p);
      WordShift(m, tail, p + 4);
      WordShift(m, tail, p + 8);
      WordShift(m, tail, p + 12);
      if SoundAt(tail, p) {
        SliceShift(m, tail, p + 8 + Word(tail, p + 8), p + 8 + Word(tail, p + 8) + Word(tail, p + 12));
      }
    }
  }

  /** The parser only looks ahead. */
  lemma {:induction false} UnwrapShift(m: seq<byte>, tail: seq<byte>, p: nat)
    ensures UnwrapFrom(m + tail, |m| + p) == UnwrapFrom(tail, p)
    decreases |tail| - p
  {
    SoundShift(m, tail, p);
    if SoundAt(tail, p) {
      UnwrapShift(m, tail, p + Word(tail, p + 4));
    }
  }

  lemma {:induction false} UnwrapMessage(m: seq<byte>, tail: seq<byte>)
    requires IsPacket(m)
    ensures Unwrap(m + tail) == Accepted(FrameOf(m)) + Unwrap(tail)
  {
    var s := m + tail;
    WordPrefix(m, tail, 0);
    WordPrefix(m, tail, 4);
    WordPrefix(m, tail, 8);
    WordPrefix(m, tail, 12);
    assert FrameAt(s, 0) == FrameOf(m);
    UnwrapShift(m, tail, 0);
    assert [] + Unwrap(tail) == Unwrap(tail);
  }

  ghost predicate AllPackets(ms: seq<seq<byte>>) { forall i :: 0 <= i < |ms| ==> IsPacket(ms[i]) }

  function Joined(ms: seq<seq<byte>>): seq<byte> { if ms == [] then [] else ms[0] + Joined(ms[1..]) }

  function AcceptedFrames(ms: seq<seq<byte>>): seq<seq<byte>>
    requires AllPackets(ms)
  {
    if ms == [] then []
    else
      assert IsPacket(ms[0]);
      Accepted(FrameOf(ms[0])) + AcceptedFrames(ms[1..])
  }

  /** Messages back to back give their frames in order, and whatever follows them cannot take any away:
      it only adds the frames it would give on its own. */
  lemma {:induction false} UnwrapStream(ms: seq<seq<byte>>, tail: seq<byte>)
    requires AllPackets(ms)
    ensures Unwrap(Joined(ms) + tail) == AcceptedFrames(ms) + Unwrap(tail)
  {
    if ms == [] {
      assert Joined(ms) + tail == tail && AcceptedFrames(ms) + Unwrap(tail) == Unwrap(tail);
    } else {
      assert IsPacket(ms[0]);
      UnwrapStream(ms[1..], tail);
      UnwrapMessage(ms[0], Joined(ms[1..]) + tail);
      Reassociate(ms[0], Joined(ms[1..]), tail);
      Reassociate(Accepted(FrameOf(ms[0])), AcceptedFrames(ms[1..]), Unwrap(tail));
    }
  }

  /** With frames of at least 14 bytes and malformed data or a short rest behind the messages, exactly
      the frames come out, one per message. */
  lemma {:induction false} UnwrapExactly(ms: seq<seq<byte>>, tail: seq<byte>)
    requires AllPackets(ms) && !SoundAt(tail, 0)
    requires forall i :: 0 <= i < |ms| ==> IsPacket(ms[i]) && |FrameOf(ms[i])| >= MIN_FRAME
    ensures |Unwrap(Joined(ms) + tail)| == |ms|
    ensures forall i :: 0 <= i < |ms| ==> IsPacket(ms[i]) && Unwrap(Joined(ms) + tail)[i] == FrameOf(ms[i])
  {
    UnwrapStream(ms, tail);
    AllAccepted(ms);
    assert AcceptedFrames(ms) + [] == AcceptedFrames(ms);
  }

  lemma {:induction false} AllAccepted(ms: seq<seq<byte>>)
    requires AllPackets(ms) && forall i :: 0 <= i < |ms| ==> IsPacket(ms[i]) && |FrameOf(ms[i])| >= MIN_FRAME
    ensures |AcceptedFrames(ms)| == |ms|
    ensures forall i :: 0 <= i < |ms| ==> IsPacket(ms[i]) && AcceptedFrames(ms)[i] == FrameOf(ms[i])
  {
    if ms != [] {
      AllAccepted(ms[1..]);
      forall i | 0 <= i < |ms| ensures AcceptedFrames(ms)[i] == FrameOf(ms[i]) {
        if i > 0 { assert ms[i] == ms[1..][i - 1]; }
      }
    }
  }

  // ---- round trip ----

  lemma {:induction false} MessageFields(frame: seq<byte>)
    requires DEVICE_HEADER + |frame| < 0x1_0000_0000
    ensures var m := Message(frame);
            && Word(m, 0) == PACKET_MESSAGE && Word(m, 4) == |m| && Word(m, 8) == 36 && Word(m, 12) == |frame|
            && m[44..] == frame
  {
    var a, b, c, d := Le32(PACKET_MESSAGE), Le32(DEVICE_HEADER + |frame|), Le32(36), Le32(|frame|);
    var e := Zeros(28) + frame;
    var m := Message(frame);
    assert m == [] + a + (b + c + d + e) && m == a + b + (c + d + e);
    assert m == a + b + c + (d + e) && m == a + b + c + d + e;
    WordAt([], PACKET_MESSAGE, b + c + d + e);
    WordAt(a, DEVICE_HEADER + |frame|, c + d + e);
    WordAt(a + b, 36, d + e);
    WordAt(a + b + c, |frame|, e);
  }

  lemma {:induction false} MessageIsPacket(frame: seq<byte>)
    requires DEVICE_HEADER + |frame| < 0x1_0000_0000
    ensures IsPacket(Message(frame)) && FrameOf(Message(frame)) == frame
  {
    MessageFields(frame);
    var m := Message(frame);
    assert m[44..44 + |frame|] == m[44..];
  }

  /** What a device wraps, its own parser unwraps, pad byte or not, exactly if the frame has at least
      the 14 bytes of an Ethernet header; shorter frames vanish. */
  lemma {:induction false} UnwrapWrap(frame: seq<byte>)
    requires DEVICE_HEADER + |frame| < 0x1_0000_0000
    ensures Unwrap(Wrap(frame)) == Accepted(frame)
    ensures Unwrap(Wrap(frame)) == [frame] <==> |frame| >= 14
  {
    MessageIsPacket(frame);
    var pad: seq<byte> := if (DEVICE_HEADER + |frame|) % MAX_PACKET == 0 then [0] else [];
    UnwrapMessage(Message(frame), pad);
    assert Unwrap(pad) == [];
  }

  lemma PadMod(n: nat)
    ensures n % 64 == 0 ==> (n + 1) % 64 == 1
  {
  }

  /** A wrapped frame never ends on a packet boundary, so no zero-length packet is needed. */
  lemma WrapNeverNeedsZlp(frame: seq<byte>)
    requires DEVICE_HEADER + |frame| < 0x1_0000_0000
    ensures |Wrap(frame)| % 64 != 0
  {
    PadMod(DEVICE_HEADER + |frame|);
  }

  lemma {:induction false} PaddedNotSound(b: seq<byte>)
    requires DEVICE_HEADER + |b| < 0x1_0000_0000
    ensures !SoundAt([0] + Wrap(b), 0)
  {
    var w := Wrap(b);
    assert w[0] == 1 && w[1] == 0 && w[2] == 0 by { assert w[..4] == Le32(PACKET_MESSAGE); }
    assert Word([0] + w, 0) == 256;
  }

  /** The pad byte is not part of the message: two wrapped frames in one transfer are both found exactly
      if the first carries no pad byte. */
  lemma {:induction false} PadHidesNextMessage(a: seq<byte>, b: seq<byte>)
    requires DEVICE_HEADER + |a| < 0x1_0000_0000 && DEVICE_HEADER + |b| < 0x1_0000_0000 && |a| >= MIN_FRAME
    requires |b| >= MIN_FRAME
    ensures Unwrap(Wrap(a) + Wrap(b)) == [a, b] <==> (DEVICE_HEADER + |a|) % MAX_PACKET != 0
  {
    MessageIsPacket(a);
    UnwrapWrap(b);
    if (DEVICE_HEADER + |a|) % MAX_PACKET == 0 {
      assert Wrap(a) + Wrap(b) == Message(a) + ([0] + Wrap(b));
      UnwrapMessage(Message(a), [0] + Wrap(b));
      PaddedNotSound(b);
    } else {
      assert Wrap(a) + Wrap(b) == Message(a) + Wrap(b);
      UnwrapMessage(Message(a), Wrap(b));
    }
  }

  // ---- by the fields ----

  /** The little-endian word of four bytes. */
  function U32(s: seq<byte>, at: nat): int
    requires at + 4 <= |s|
  {
    s[at] as int + s[at + 1] as int * 256 + s[at + 2] as int * 65536 + s[at + 3] as int * 16777216
  }

  /** The words at 0, 4, 8 and 12 are the type, the message's length, the frame's place counted from byte 8,
      and the frame's length: a message of type 1 that is at least 24 bytes long and, like its frame, inside
      the transfer. */
  predicate BeginsSound(data: seq<byte>) {
    && |data| >= 24 && U32(data, 0) == 1 && 24 <= U32(data, 4) <= |data|
    && 8 + U32(data, 8) + U32(data, 12) <= |data|
  }

  lemma {:induction false} WordFields(data: seq<byte>)
    requires |data| >= 24
    ensures Word(data, 0) == U32(data, 0) && Word(data, 4) == U32(data, 4)
    ensures Word(data, 8) == U32(data, 8) && Word(data, 12) == U32(data, 12)
  {
  }

  lemma {:induction false} FieldsSound(data: seq<byte>)
    ensures BeginsSound(data) <==> SoundAt(data, 0)
    ensures BeginsSound(data) ==>
              && Word(data, 4) == U32(data, 4) && Word(data, 12) == U32(data, 12)
              && FrameAt(data, 0) == data[8 + U32(data, 8)..8 + U32(data, 8) + U32(data, 12)]
  {
    if |data| >= 24 { WordFields(data); }
  }

  /** What the parser makes of any byte string: if it begins with such a message, its frame if that has at
      least 14 bytes, and then whatever the rest yields on its own; nothing otherwise. */
  lemma {:induction false} UnwrapByFields(data: seq<byte>)
    ensures !BeginsSound(data) ==> Unwrap(data) == []
    ensures BeginsSound(data) ==>
              var at, size := 8 + U32(data, 8), U32(data, 12);
              Unwrap(data) == (if size >= 14 then [data[at..at + size]] else []) + Unwrap(data[U32(data, 4)..])
  {
    FieldsSound(data);
    if BeginsSound(data) {
      UnwrapFirst(data);
    }
  }

  lemma {:induction false} UnwrapFirst(data: seq<byte>)
    requires SoundAt(data, 0)
    ensures Unwrap(data) == Accepted(FrameAt(data, 0)) + Unwrap(data[Word(data, 4)..])
  {
    var n := Word(data, 4);
    assert data[..n] + data[n..] == data;
    UnwrapShift(data[..n], data[n..], 0);
    assert [] + Unwrap(data[n..]) == Unwrap(data[n..]);
  }

  /** A message of exactly this frame, wherever it lies in it. */
  predicate Carries(m: seq<byte>, frame: seq<byte>) {
    && BeginsSound(m) && U32(m, 4) == |m| && U32(m, 12) == |frame|
    && m[8 + U32(m, 8)..8 + U32(m, 8) + |frame|] == frame
  }

  function LongEnough(frames: seq<seq<byte>>): seq<seq<byte>> {
    if frames == [] then []
    else (if |frames[0]| >= 14 then [frames[0]] else []) + LongEnough(frames[1..])
  }

  /** Any messages back to back, described by their fields, give their frames of at least 14 bytes in order,
      and then whatever follows them. */
  lemma {:induction false} UnwrapMessages(ms: seq<seq<byte>>, frames: seq<seq<byte>>, tail: seq<byte>)
    requires |ms| == |frames| && forall i :: 0 <= i < |ms| ==> Carries(ms[i], frames[i])
    ensures Unwrap(Joined(ms) + tail) == LongEnough(frames) + Unwrap(tail)
  {
    if ms == [] {
      assert Joined(ms) + tail == tail && LongEnough(frames) + Unwrap(tail) == Unwrap(tail);
    } else {
      assert Carries(ms[0], frames[0]);
      UnwrapMessages(ms[1..], frames[1..], tail);
      FieldsSound(ms[0]);
      UnwrapMessage(ms[0], Joined(ms[1..]) + tail);
      Reassociate(ms[0], Joined(ms[1..]), tail);
      Reassociate(Accepted(frames[0]), LongEnough(frames[1..]), Unwrap(tail));
    }
  }

  /** Every byte of a wrapped frame: the four words, 28 zeros, the frame, and a pad byte exactly if the message
      would end on a 64-byte boundary. */
  lemma {:induction false} WrapLayout(frame: seq<byte>)
    requires 44 + |frame| < 0x1_0000_0000
    ensures var s, n := Wrap(frame), 44 + |frame|;
            && |s| == n + (if n % 64 == 0 then 1 else 0) && s[44..n] == frame
            && U32(s, 0) == 1 && U32(s, 4) == n && U32(s, 8) == 36 && U32(s, 12) == |frame|
            && (forall i :: 16 <= i < 44 ==> s[i] == 0) && (n % 64 == 0 ==> s[n] == 0)
  {
    MessageFields(frame);
    var s, m := Wrap(frame), Message(frame);
    assert forall i :: 0 <= i < |m| ==> s[i] == m[i];
    assert m[16..44] == Zeros(28);
    forall i | 16 <= i < 44 ensures s[i] == 0 { assert m[i] == m[16..44][i - 16]; }
  }
}
