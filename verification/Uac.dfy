/**
  The microphone: packet sizes follow the sample rate exactly by carrying a remainder, and the PCM
  bytes come from the source's chunks without loss or repetition.
 */
module Uac {
  import opened UsbIp
  import opened Bytes
  import opened Transfer
  import opened IsoReply
  import opened IsoFill

  const PACKETS_PER_SECOND := 1000

  // ---- packet sizes ----

  /** Bytes of one sample frame, base packet size, remainder added per packet. */
  datatype Pace = Pace(frameSize: nat, base: nat, step: nat)

  function PaceFor(frameSize: nat, rate: nat): Pace {
    Pace(frameSize, frameSize * (rate / PACKETS_PER_SECOND), frameSize * (rate % PACKETS_PER_SECOND))
  }

  predicate ExtraFrame(p: Pace, acc: nat) { acc + p.step >= p.frameSize * PACKETS_PER_SECOND }

  /** The size of the next packet. */
  function PacketSize(p: Pace, acc: nat): nat { if ExtraFrame(p, acc) then p.base + p.frameSize else p.base }

  function NextAcc(p: Pace, acc: nat): nat {
    if ExtraFrame(p, acc) then acc + p.step - p.frameSize * PACKETS_PER_SECOND else acc + p.step
  }

  /** The remainder and the bytes after n packets from a cleared remainder. */
  function AccAfter(p: Pace, n: nat): nat { if n == 0 then 0 else NextAcc(p, AccAfter(p, n - 1)) }

  function BytesAfter(p: Pace, n: nat): nat {
    if n == 0 then 0 else BytesAfter(p, n - 1) + PacketSize(p, AccAfter(p, n - 1))
  }

  lemma DivStep(x: nat, d: nat, q: nat, m: nat)
    requires d == q * 1000 + m && m < 1000
    ensures (x + d) / 1000 == x / 1000 + q + (if x % 1000 + m >= 1000 then 1 else 0)
    ensures (x + d) % 1000 == x % 1000 + m - (if x % 1000 + m >= 1000 then 1000 else 0)
  {
  }

  /** One packet further, in frames: f * k is the remainder, k < 1000. */
  lemma PaceStep(f: nat, rate: nat, k: nat)
    requires k < 1000
    ensures var p, m := PaceFor(f, rate), rate % 1000;
            && NextAcc(p, f * k) == f * (if k + m >= 1000 then k + m - 1000 else k + m)
            && PacketSize(p, f * k) == f * (rate / 1000 + if k + m >= 1000 then 1 else 0)
  {
    var m := rate % 1000;
    assert f * k + f * m == f * (k + m);
    if f > 0 {
      if k + m >= 1000 {
        MulLe(1000, k + m, f);
        assert f * (k + m) - f * 1000 == f * (k + m - 1000);
      } else {
        MulLt(k + m, 1000, f);
      }
      assert f * (rate / 1000) + f == f * (rate / 1000 + 1);
    }
  }

  lemma MulLe(a: nat, b: nat, f: nat)
    requires a <= b
    ensures f * a <= f * b
  {
    assert f * b - f * a == f * (b - a);
  }

  lemma MulLt(a: nat, b: nat, f: nat)
    requires a < b && f > 0
    ensures f * a < f * b
  {
    assert f * b - f * a == f * (b - a);
  }

  lemma Distribute(f: nat, a: nat, b: nat)
    ensures f * a + f * b == f * (a + b)
  {
  }

  /** If x thousandths of a frame have been due so far, one packet later x + rate have. */
  lemma {:induction false} ResidueStep(f: nat, rate: nat, x: nat)
    ensures f * (x / 1000) + PacketSize(PaceFor(f, rate), f * (x % 1000)) == f * ((x + rate) / 1000)
    ensures NextAcc(PaceFor(f, rate), f * (x % 1000)) == f * ((x + rate) % 1000)
  {
    var k := x % 1000;
    var q := rate / 1000 + if k + rate % 1000 >= 1000 then 1 else 0;
    PaceStep(f, rate, k);
    DivStep(x, rate, rate / 1000, rate % 1000);
    Distribute(f, x / 1000, q);
  }

  /** Thousandths of a frame due after n packets. */
  function Accrued(rate: nat, n: nat): nat { if n == 0 then 0 else Accrued(rate, n - 1) + rate }

  lemma {:induction false} AccruedProduct(rate: nat, n: nat)
    ensures Accrued(rate, n) == n * rate
  {
    if n > 0 {
      AccruedProduct(rate, n - 1);
      Distribute(rate, n - 1, 1);
    }
  }

  /** After x thousandths of a frame: the bytes sent and the remainder. */
  ghost predicate OnPace(f: nat, rate: nat, p: Pace, x: nat, bytes: nat, acc: nat) {
    p == PaceFor(f, rate) && bytes == f * (x / 1000) && acc == f * (x % 1000)
  }

  lemma {:induction false} PaceKept(f: nat, rate: nat, p: Pace, x: nat, bytes: nat, acc: nat)
    requires OnPace(f, rate, p, x, bytes, acc)
    ensures OnPace(f, rate, p, x + rate, bytes + PacketSize(p, acc), NextAcc(p, acc))
  {
    ResidueStep(f, rate, x);
  }

  lemma {:induction false} ResidueAt(f: nat, rate: nat, p: Pace, n: nat)
    requires p == PaceFor(f, rate)
    ensures OnPace(f, rate, p, Accrued(rate, n), BytesAfter(p, n), AccAfter(p, n))
  {
    if n > 0 {
      ResidueAt(f, rate, p, n - 1);
      PaceKept(f, rate, p, Accrued(rate, n - 1), BytesAfter(p, n - 1), AccAfter(p, n - 1));
    }
  }

  /** From a cleared remainder, n packets carry exactly the frames of n milliseconds: frame size times
      the integer part of n * rate / 1000, however the packets are spread over URBs. */
  lemma {:induction false} ResidueExact(f: nat, rate: nat, n: nat)
    ensures BytesAfter(PaceFor(f, rate), n) == f * (n * rate / 1000)
    ensures AccAfter(PaceFor(f, rate), n) == f * (n * rate % 1000)
  {
    ResidueAt(f, rate, PaceFor(f, rate), n);
    AccruedProduct(rate, n);
  }

  /** Every packet holds the integer part of rate / 1000 frames or that rounded up. */
  lemma PacketSizeFloorOrCeil(f: nat, rate: nat, n: nat)
    ensures var size := PacketSize(PaceFor(f, rate), AccAfter(PaceFor(f, rate), n));
            size == f * (rate / 1000) || (size == f * (rate / 1000 + 1) && rate % 1000 > 0)
  {
    ResidueExact(f, rate, n);
    PaceStep(f, rate, n * rate % 1000);
  }

  // ---- PCM ----

  /** The chunk being played and what get_chunk will answer, call by call. */
  datatype Feed = Feed(chunk: seq<byte>, offset: nat, answers: seq<Option<seq<byte>>>)

  /** The next n bytes; silence once the source has nothing. */
  function Pull(feed: Feed, n: nat): (r: (seq<byte>, Feed))
    requires feed.offset <= |feed.chunk|
    ensures |r.0| == n && r.1.offset <= |r.1.chunk|
    decreases |feed.answers|, n
  {
    if n == 0 then ([], feed)
    else if feed.offset == |feed.chunk| then
      if feed.answers == [] then (Zeros(n), feed)
      else if feed.answers[0].None? then (Zeros(n), feed.(answers := feed.answers[1..]))
      else Pull(Feed(feed.answers[0].value, 0, feed.answers[1..]), n)
    else
      var take := if n < |feed.chunk| - feed.offset then n else |feed.chunk| - feed.offset;
      var (bytes, feed') := Pull(feed.(offset := feed.offset + take), n - take);
      (feed.chunk[feed.offset..feed.offset + take] + bytes, feed')
  }

  /** One round of the copy loop. */
  lemma {:induction false} PullChunk(feed: Feed, n: nat, take: nat)
    requires feed.offset <= |feed.chunk| && take <= n && take <= |feed.chunk| - feed.offset
    requires (take == n || take == |feed.chunk| - feed.offset)
    ensures var next := feed.(offset := feed.offset + take);
            && Pull(feed, n).0 == feed.chunk[feed.offset..feed.offset + take] + Pull(next, n - take).0
            && Pull(feed, n).1 == Pull(next, n - take).1
  {
    if take == 0 {
      assert feed.(offset := feed.offset + take) == feed;
      assert feed.chunk[feed.offset..feed.offset] + Pull(feed, n).0 == Pull(feed, n).0;
    }
  }

  /** The bytes the source supplies before it first has nothing. */
  function Supply(answers: seq<Option<seq<byte>>>): seq<byte> {
    if answers == [] || answers[0].None? then [] else answers[0].value + Supply(answers[1..])
  }

  function Remaining(feed: Feed): seq<byte>
    requires feed.offset <= |feed.chunk|
  {
    feed.chunk[feed.offset..] + Supply(feed.answers)
  }

  lemma {:induction false} Advanced(feed: Feed, take: nat)
    requires feed.offset + take <= |feed.chunk|
    ensures Remaining(feed)
            == feed.chunk[feed.offset..feed.offset + take] + Remaining(feed.(offset := feed.offset + take))
  {
  }

  lemma {:induction false} SplitAt(head: seq<byte>, rest: seq<byte>, n: nat)
    requires |head| <= n <= |head| + |rest|
    ensures (head + rest)[..n] == head + rest[..n - |head|] && (head + rest)[n..] == rest[n - |head|..]
  {
  }

  lemma {:induction false} FetchKeepsRemaining(feed: Feed)
    requires feed.offset == |feed.chunk| && feed.answers != [] && feed.answers[0].Some?
    ensures Remaining(Feed(feed.answers[0].value, 0, feed.answers[1..])) == Remaining(feed)
  {
    var first, rest := feed.answers[0].value, Supply(feed.answers[1..]);
    assert first[0..] == first && feed.chunk[feed.offset..] == [];
    assert [] + (first + rest) == first + rest;
  }

  /** As long as the source keeps up, the bytes are the next ones of its chunks, and the rest remains. */
  lemma {:induction false} PullExact(feed: Feed, n: nat)
    requires feed.offset <= |feed.chunk| && n <= |Remaining(feed)|
    ensures Pull(feed, n).0 == Remaining(feed)[..n] && Remaining(Pull(feed, n).1) == Remaining(feed)[n..]
    decreases |feed.answers|, n, 1
  {
    if n == 0 {
      assert Remaining(feed)[0..] == Remaining(feed);
    } else if feed.offset == |feed.chunk| {
      assert feed.answers != [] && feed.answers[0].Some?;
      FetchKeepsRemaining(feed);
      PullExact(Feed(feed.answers[0].value, 0, feed.answers[1..]), n);
    } else {
      PullFromChunk(feed, n);
    }
  }

  lemma {:induction false} PullFromChunk(feed: Feed, n: nat)
    requires feed.offset < |feed.chunk| && 0 < n <= |Remaining(feed)|
    ensures Pull(feed, n).0 == Remaining(feed)[..n] && Remaining(Pull(feed, n).1) == Remaining(feed)[n..]
    decreases |feed.answers|, n, 0
  {
    var take := if n < |feed.chunk| - feed.offset then n else |feed.chunk| - feed.offset;
    var next := feed.(offset := feed.offset + take);
    Advanced(feed, take);
    PullExact(next, n - take);
    PullChunk(feed, n, take);
    SplitAt(feed.chunk[feed.offset..feed.offset + take], Remaining(next), n);
  }

  /** The answers behind the first call for which the source had nothing. */
  function AfterGap(answers: seq<Option<seq<byte>>>): seq<Option<seq<byte>>> {
    if answers == [] then [] else if answers[0].None? then answers[1..] else AfterGap(answers[1..])
  }

  lemma {:induction false} PadChunk(feed: Feed, n: nat)
    requires feed.offset < |feed.chunk| && n > |Remaining(feed)|
    requires var next, k := feed.(offset := |feed.chunk|), n - (|feed.chunk| - feed.offset);
             && k > |Remaining(next)| && Pull(next, k).0 == Remaining(next) + Zeros(k - |Remaining(next)|)
    ensures Pull(feed, n).0 == Remaining(feed) + Zeros(n - |Remaining(feed)|)
    ensures var next, k := feed.(offset := |feed.chunk|), n - (|feed.chunk| - feed.offset);
            Pull(feed, n).1 == Pull(next, k).1
  {
    var take, next := |feed.chunk| - feed.offset, feed.(offset := |feed.chunk|);
    Advanced(feed, take);
    PullChunk(feed, n, take);
    Reassociate(feed.chunk[feed.offset..], Remaining(next), Zeros(n - |Remaining(feed)|));
  }

  /** When the source runs dry within a packet, what it had comes first and the rest is silence; the next
      packet begins with what the source supplies after that. */
  lemma {:induction false} PullPadded(feed: Feed, n: nat)
    requires feed.offset <= |feed.chunk| && n > |Remaining(feed)|
    ensures Pull(feed, n).0 == Remaining(feed) + Zeros(n - |Remaining(feed)|)
    ensures Remaining(Pull(feed, n).1) == Supply(AfterGap(feed.answers))
    decreases |feed.answers|, n
  {
    if feed.offset < |feed.chunk| {
      var take := |feed.chunk| - feed.offset;
      Advanced(feed, take);
      PullPadded(feed.(offset := |feed.chunk|), n - take);
      PadChunk(feed, n);
    } else if feed.answers != [] && feed.answers[0].Some? {
      FetchKeepsRemaining(feed);
      PullPadded(Feed(feed.answers[0].value, 0, feed.answers[1..]), n);
    } else {
      assert Remaining(feed) == [];
      assert [] + Zeros(n) == Zeros(n);
    }
  }

  datatype Gain = Muted | Unity

  // ---- a URB ----

  datatype Mic = Mic(pace: Pace, acc: nat, feed: Feed, gain: Gain)

  predicate Valid(m: Mic) { m.feed.offset <= |m.feed.chunk| }

  function Sound(m: Mic, n: nat): (r: (seq<byte>, Feed))
    requires Valid(m)
    ensures |r.0| == n && r.1.offset <= |r.1.chunk|
  {
    if m.gain.Muted? then (Zeros(n), m.feed) else Pull(m.feed, n)
  }

  function Wanted(m: Mic, length: nat): nat {
    if length < PacketSize(m.pace, m.acc) then length else PacketSize(m.pace, m.acc)
  }

  /** One slot. */
  function OnePacket(m: Mic, length: nat): (r: (seq<byte>, Mic))
    requires Valid(m)
    ensures Valid(r.1) && |r.0| <= length
  {
    var (bytes, feed') := Sound(m, Wanted(m, length));
    (bytes, m.(acc := NextAcc(m.pace, m.acc), feed := feed'))
  }

  /** All slots of a URB. */
  function FillUrb(m: Mic, lengths: seq<nat>): (r: (seq<seq<byte>>, Mic))
    requires Valid(m)
    ensures Valid(r.1) && |r.0| == |lengths|
    ensures forall i :: 0 <= i < |lengths| ==> |r.0[i]| <= lengths[i]
  {
    if lengths == [] then ([], m)
    else
      var n := |lengths| - 1;
      var (cs, m1) := FillUrb(m, lengths[..n]);
      var (bytes, m2) := OnePacket(m1, lengths[n]);
      (cs + [bytes], m2)
  }

  lemma {:induction false} FillUrbSnoc(m: Mic, lengths: seq<nat>, i: nat)
    requires Valid(m) && i < |lengths|
    ensures var (cs, m1) := FillUrb(m, lengths[..i]);
            var (bytes, m2) := OnePacket(m1, lengths[i]);
            FillUrb(m, lengths[..i + 1]) == (cs + [bytes], m2)
  {
    assert lengths[..i + 1][..i] == lengths[..i];
  }

  /** Over several URBs; the concatenation of all their slots. */
  function Play(m: Mic, urbs: seq<seq<nat>>): (r: (seq<byte>, Mic))
    requires Valid(m)
    ensures Valid(r.1)
  {
    if urbs == [] then ([], m)
    else
      var n := |urbs| - 1;
      var (bytes, m1) := Play(m, urbs[..n]);
      var (cs, m2) := FillUrb(m1, urbs[n]);
      (bytes + Concat(cs), m2)
  }

  function PacketCount(urbs: seq<seq<nat>>): nat {
    if urbs == [] then 0 else PacketCount(urbs[..|urbs| - 1]) + |urbs[|urbs| - 1]|
  }

  /** Every slot takes the largest packet the rate can ask for. */
  ghost predicate LargeSlots(f: nat, rate: nat, lengths: seq<nat>) {
    forall i :: 0 <= i < |lengths| ==> lengths[i] >= f * (rate / 1000 + 1)
  }

  /** The microphone n packets after its remainder was cleared. */
  ghost predicate Paced(m: Mic, f: nat, rate: nat, n: nat) {
    Valid(m) && m.pace == PaceFor(f, rate) && m.acc == AccAfter(m.pace, n)
  }

  lemma {:induction false} SizeFits(f: nat, rate: nat, n: nat, length: nat)
    requires length >= f * (rate / 1000 + 1)
    ensures PacketSize(PaceFor(f, rate), AccAfter(PaceFor(f, rate), n)) <= length
  {
    PacketSizeFloorOrCeil(f, rate, n);
    MulLe(rate / 1000, rate / 1000 + 1, f);
  }

  lemma {:induction false} UrbPaced(m: Mic, f: nat, rate: nat, n: nat, lengths: seq<nat>)
    requires Paced(m, f, rate, n) && LargeSlots(f, rate, lengths)
    ensures var (cs, m') := FillUrb(m, lengths);
            && Paced(m', f, rate, n + |lengths|)
            && |Concat(cs)| == BytesAfter(m.pace, n + |lengths|) - BytesAfter(m.pace, n)
  {
    if lengths != [] {
      var k := |lengths| - 1;
      UrbPaced(m, f, rate, n, lengths[..k]);
      SizeFits(f, rate, n + k, lengths[k]);
      var (cs, m1) := FillUrb(m, lengths[..k]);
      var bytes := OnePacket(m1, lengths[k]).0;
      assert (cs + [bytes])[..k] == cs;
    }
  }

  lemma {:induction false} PlayPaced(m: Mic, f: nat, rate: nat, urbs: seq<seq<nat>>)
    requires Paced(m, f, rate, 0) && forall i :: 0 <= i < |urbs| ==> LargeSlots(f, rate, urbs[i])
    ensures var (bytes, m') := Play(m, urbs);
            Paced(m', f, rate, PacketCount(urbs)) && |bytes| == BytesAfter(m.pace, PacketCount(urbs))
  {
    if urbs != [] {
      var n := |urbs| - 1;
      PlayPaced(m, f, rate, urbs[..n]);
      UrbPaced(Play(m, urbs[..n]).1, f, rate, PacketCount(urbs[..n]), urbs[n]);
    }
  }

  /** The rate law: over any URBs with large enough slots the microphone sends exactly the frames of as
      many milliseconds as there were packets. */
  lemma {:induction false} MicrophoneRateExact(m: Mic, f: nat, rate: nat, urbs: seq<seq<nat>>)
    requires Valid(m) && m.pace == PaceFor(f, rate) && m.acc == 0
    requires forall i :: 0 <= i < |urbs| ==> LargeSlots(f, rate, urbs[i])
    ensures |Play(m, urbs).0| == f * (PacketCount(urbs) * rate / 1000)
  {
    PlayPaced(m, f, rate, urbs);
    ResidueExact(f, rate, PacketCount(urbs));
  }

  lemma {:induction false} UrbStream(m: Mic, lengths: seq<nat>)
    requires Valid(m) && m.gain.Unity? && |Concat(FillUrb(m, lengths).0)| <= |Remaining(m.feed)|
    ensures var (cs, m') := FillUrb(m, lengths);
            var n := |Concat(cs)|;
            m'.gain.Unity? && Concat(cs) == Remaining(m.feed)[..n] && Remaining(m'.feed) == Remaining(m.feed)[n..]
  {
    if lengths != [] {
      var k := |lengths| - 1;
      var (cs, m1) := FillUrb(m, lengths[..k]);
      var bytes := OnePacket(m1, lengths[k]).0;
      assert (cs + [bytes])[..k] == cs;
      UrbStream(m, lengths[..k]);
      var all, a := Remaining(m.feed), |Concat(cs)|;
      PullExact(m1.feed, |bytes|);
      assert all[..a] + all[a..][..|bytes|] == all[..a + |bytes|];
      assert all[a..][|bytes|..] == all[a + |bytes|..];
    }
  }

  /** The stream law: unmuted and with a source that keeps up, what is sent over any URBs is the source's
      chunk stream from where it stood, with nothing lost, repeated or reordered. */
  lemma {:induction false} MicrophoneStreamExact(m: Mic, urbs: seq<seq<nat>>)
    requires Valid(m) && m.gain.Unity? && |Play(m, urbs).0| <= |Remaining(m.feed)|
    ensures var (bytes, m') := Play(m, urbs);
            && m'.gain.Unity? && bytes == Remaining(m.feed)[..|bytes|]
            && Remaining(m'.feed) == Remaining(m.feed)[|bytes|..]
  {
    if urbs != [] {
      var n := |urbs| - 1;
      var (bytes, m1) := Play(m, urbs[..n]);
      var cs := FillUrb(m1, urbs[n]).0;
      MicrophoneStreamExact(m, urbs[..n]);
      UrbStream(m1, urbs[n]);
      var all, a, b := Remaining(m.feed), |bytes|, |Concat(cs)|;
      assert all[..a] + all[a..][..b] == all[..a + b];
      assert all[a..][b..] == all[a + b..];
    }
  }

  /** A muted microphone sends only zeros, in packets of the usual sizes, and leaves the source's chunks for
      later. */
  lemma {:induction false} MutedUrb(m: Mic, lengths: seq<nat>)
    requires Valid(m) && m.gain.Muted?
    ensures var (cs, m') := FillUrb(m, lengths);
            && m'.gain.Muted? && m'.feed == m.feed
            && forall i :: 0 <= i < |Concat(cs)| ==> Concat(cs)[i] == 0
  {
    if lengths != [] {
      var k := |lengths| - 1;
      MutedUrb(m, lengths[..k]);
      var (cs, m1) := FillUrb(m, lengths[..k]);
      var bytes := OnePacket(m1, lengths[k]).0;
      assert (cs + [bytes])[..k] == cs;
      assert bytes == Zeros(|bytes|);
    }
  }

  lemma {:induction false} MutedIsSilent(m: Mic, urbs: seq<seq<nat>>)
    requires Valid(m) && m.gain.Muted?
    ensures var (bytes, m') := Play(m, urbs);
            && m'.gain.Muted? && m'.feed == m.feed
            && forall i :: 0 <= i < |bytes| ==> bytes[i] == 0
  {
    if urbs != [] {
      var n := |urbs| - 1;
      MutedIsSilent(m, urbs[..n]);
      MutedUrb(Play(m, urbs[..n]).1, urbs[n]);
    }
  }

  /** Packet by packet, muted or not, whatever the slots: packet n + i takes the frames of its millisecond, as
      many as its slot holds; a slot that is too small loses the rest for good. */
  lemma {:induction false} PacketLengthExactly(m: Mic, f: nat, rate: nat, n: nat, lengths: seq<nat>, i: nat)
    requires Paced(m, f, rate, n) && i < |lengths|
    ensures var want := f * ((n + i + 1) * rate / 1000) - f * ((n + i) * rate / 1000);
            |FillUrb(m, lengths).0[i]| == if lengths[i] < want then lengths[i] else want
    ensures Paced(FillUrb(m, lengths).1, f, rate, n + |lengths|)
  {
    var k := |lengths| - 1;
    StaysPaced(m, f, rate, n, lengths[..k]);
    StaysPaced(m, f, rate, n, lengths);
    if i < k {
      PacketLengthExactly(m, f, rate, n, lengths[..k], i);
    } else {
      MillisecondBytes(f, rate, n + k);
    }
  }

  lemma {:induction false} MillisecondBytes(f: nat, rate: nat, n: nat)
    ensures PacketSize(PaceFor(f, rate), AccAfter(PaceFor(f, rate), n))
            == f * ((n + 1) * rate / 1000) - f * (n * rate / 1000)
  {
    ResidueExact(f, rate, n);
    ResidueExact(f, rate, n + 1);
  }

  lemma {:induction false} StaysPaced(m: Mic, f: nat, rate: nat, n: nat, lengths: seq<nat>)
    requires Paced(m, f, rate, n)
    ensures Paced(FillUrb(m, lengths).1, f, rate, n + |lengths|)
  {
    if lengths != [] {
      StaysPaced(m, f, rate, n, lengths[..|lengths| - 1]);
    }
  }

  // ---- the handler ----

  class Microphone {
    var pace: Pace
    var residueAcc: nat
    var chunk: seq<byte>
    var chunkOffset: nat
    var answers: seq<Option<seq<byte>>>
    var gain: Gain

    ghost function View(): Mic
      reads this
    {
      Mic(pace, residueAcc, Feed(chunk, chunkOffset, answers), gain)
    }

    constructor (frameSize: nat, rate: nat, source: seq<Option<seq<byte>>>)
      ensures View() == Mic(PaceFor(frameSize, rate), 0, Feed([], 0, source), Unity)
    {
      pace := PaceFor(frameSize, rate);
      residueAcc, chunk, chunkOffset, answers, gain := 0, [], 0, source, Unity;
    }

    /** update_packet_bytes after a change of format. */
    method UpdatePacketBytes(channels: nat, bitsPerSample: nat, rate: nat)
      modifies this`pace, this`residueAcc
      ensures View() == old(View()).(pace := PaceFor(channels * (bitsPerSample / 8), rate), acc := 0)
    {
      pace := PaceFor(channels * (bitsPerSample / 8), rate);
      residueAcc := 0;
    }

    /** fill_pcm: the bytes for one packet. */
    method FillPcm(count: nat) returns (out: seq<byte>)
      requires Valid(View())
      modifies this`chunk, this`chunkOffset, this`answers
      ensures Valid(View())
      ensures (out, View()) == (Sound(old(View()), count).0, old(View()).(feed := Sound(old(View()), count).1))
    {
      if gain.Muted? {
        return Zeros(count);
      }
      out := CopyChunks(count);
    }

    /** The loop of fill_pcm. */
    method CopyChunks(count: nat) returns (out: seq<byte>)
      requires chunkOffset <= |chunk|
      modifies this`chunk, this`chunkOffset, this`answers
      ensures chunkOffset <= |chunk|
      ensures (out, Feed(chunk, chunkOffset, answers)) == Pull(old(Feed(chunk, chunkOffset, answers)), count)
    {
      out := [];
      var n: nat := count;
      ghost var all := Pull(Feed(chunk, chunkOffset, answers), count);
      ghost var rest := all;
      while n > 0
        invariant chunkOffset <= |chunk| && rest == Pull(Feed(chunk, chunkOffset, answers), n)
        invariant all.0 == out + rest.0 && all.1 == rest.1
        decreases |answers|, n
      {
        var bytes, dry := CopyFromChunk(n);
        if dry {
          return out + bytes;
        }
        ghost var next := Pull(Feed(chunk, chunkOffset, answers), n - |bytes|);
        Reassociate(out, bytes, next.0);
        out, rest := out + bytes, next;
        n := n - |bytes|;
      }
      assert out + [] == out;
    }

    /** One round: fetch a chunk if the last one is used up, copy from it; silence if there is none. */
    method CopyFromChunk(n: nat) returns (bytes: seq<byte>, dry: bool)
      requires n > 0 && chunkOffset <= |chunk|
      modifies this`chunk, this`chunkOffset, this`answers
      ensures chunkOffset <= |chunk| && |bytes| <= n
      ensures dry ==> (bytes, Feed(chunk, chunkOffset, answers)) == Pull(old(Feed(chunk, chunkOffset, answers)), n)
      ensures !dry ==>
                var next, all := Feed(chunk, chunkOffset, answers), Pull(old(Feed(chunk, chunkOffset, answers)), n);
                all.0 == bytes + Pull(next, n - |bytes|).0 && all.1 == Pull(next, n - |bytes|).1
      ensures !dry ==> |answers| < |old(answers)| || (answers == old(answers) && bytes != [])
    {
      if chunkOffset >= |chunk| {
        if answers == [] {
          return Zeros(n), true;
        }
        var answer := answers[0];
        answers := answers[1..];
        if answer.None? {
          return Zeros(n), true;
        }
        chunk, chunkOffset := answer.value, 0;
      }
      var take := if n < |chunk| - chunkOffset then n else |chunk| - chunkOffset;
      assert Pull(Feed(chunk, chunkOffset, answers), n) == Pull(old(Feed(chunk, chunkOffset, answers)), n);
      PullChunk(Feed(chunk, chunkOffset, answers), n, take);
      bytes, dry := chunk[chunkOffset..chunkOffset + take], false;
      chunkOffset := chunkOffset + take;
    }

    /** Size, fill and remainder of one slot. */
    method NextPacket(length: nat) returns (bytes: seq<byte>)
      requires Valid(View())
      modifies this`chunk, this`chunkOffset, this`answers, this`residueAcc
      ensures (bytes, View()) == OnePacket(old(View()), length)
    {
      var size := pace.base;
      var acc := residueAcc + pace.step;
      if acc >= pace.frameSize * PACKETS_PER_SECOND {
        size := size + pace.frameSize;
        acc := acc - pace.frameSize * PACKETS_PER_SECOND;
      }
      bytes := FillPcm(if length < size then length else size);
      residueAcc := acc;
    }

    /** process_iso_in: every slot of the URB, in place. */
    method ProcessIsoIn(data: array<byte>, isos: seq<IsoDesc>) returns (r: UrbReply)
      requires Valid(View()) && Slots(isos, data.Length) && data.Length < 0x1_0000_0000
      modifies this`chunk, this`chunkOffset, this`answers, this`residueAcc, data
      ensures View() == FillUrb(old(View()), Lengths(isos)).1
      ensures Answers(r, isos, FillUrb(old(View()), Lengths(isos)).0, data[..])
    {
      var descs: seq<IsoDesc>, total: nat;
      ghost var contents: seq<seq<byte>>;
      descs, total, contents := FillPackets(data, isos);
      assert contents + Empties(0) == contents;
      r := Finish(data[..], isos, descs, contents, contents, total);
    }

    /** Its packet loop. */
    method FillPackets(data: array<byte>, isos: seq<IsoDesc>)
      returns (descs: seq<IsoDesc>, total: nat, ghost contents: seq<seq<byte>>)
      requires Valid(View()) && Slots(isos, data.Length)
      modifies this`chunk, this`chunkOffset, this`answers, this`residueAcc, data
      ensures contents == FillUrb(old(View()), Lengths(isos)).0 && View() == FillUrb(old(View()), Lengths(isos)).1
      ensures Progress(data[..], isos, descs, contents, total)
    {
      ghost var start, lengths := View(), Lengths(isos);
      descs := ClearStatus(isos);
      total, contents := 0, [];
      for i := 0 to |isos|
        invariant Valid(View()) && |contents| == i
        invariant contents == FillUrb(start, lengths[..i]).0 && View() == FillUrb(start, lengths[..i]).1
        invariant Progress(data[..], isos, descs, contents, total)
      {
        FillUrbSnoc(start, lengths, i);
        var bytes := NextPacket(isos[i].length);
        descs := PutPacket(data, isos, descs, contents, total, bytes, i);
        total := total + |bytes|;
        contents := contents + [bytes];
      }
      assert lengths[..|isos|] == lengths;
    }
  }
}
