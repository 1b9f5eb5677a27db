/**
  The video streaming interface: frames are cut into isochronous packets with a two-byte payload
  header whose FID bit flips with every frame and whose EOF bit marks a frame's last packet.
 */
module Uvc {
  import opened UsbIp
  import opened Bytes
  import opened Transfer
  import opened IsoReply
  import opened IsoFill

  const HEADER_SIZE := 2

  /** bit 0: frame id, bit 7: end of frame. */
  function HeaderInfo(fid: bool, eof: bool): byte { (if fid then 0x01 else 0) + if eof then 0x80 else 0 }

  datatype Stream = Stream(frame: seq<byte>, offset: nat, fid: bool, startedAt: int)

  predicate Valid(st: Stream) { st.offset == 0 || st.offset < |st.frame| }

  function Min(a: int, b: int): int { if a < b then a else b }

  /** Frame offset after one slot. */
  function Advance(size: nat, offset: nat, length: nat): (r: nat)
    requires offset <= size
    ensures offset <= r <= size
  {
    if length < HEADER_SIZE then offset else offset + Min(length - HEADER_SIZE, size - offset)
  }

  /** Contents of one slot; nothing is written once the frame is done or if the header does not fit. */
  function PacketFor(frame: seq<byte>, offset: nat, fid: bool, length: nat): (r: seq<byte>)
    requires offset <= |frame|
    ensures |r| <= length
  {
    if offset == |frame| || length < HEADER_SIZE then []
    else
      var next := Advance(|frame|, offset, length);
      [HEADER_SIZE, HeaderInfo(fid, next == |frame|)] + frame[offset..next]
  }

  /** The packet loop over all slots of a URB. */
  function Fill(frame: seq<byte>, offset: nat, fid: bool, lengths: seq<nat>): (r: (seq<seq<byte>>, nat))
    requires offset <= |frame|
    ensures offset <= r.1 <= |frame| && |r.0| == |lengths|
    ensures forall i :: 0 <= i < |lengths| ==> |r.0[i]| <= lengths[i]
  {
    if lengths == [] then ([], offset)
    else
      var n := |lengths| - 1;
      var (cs, o) := Fill(frame, offset, fid, lengths[..n]);
      (cs + [PacketFor(frame, o, fid, lengths[n])], Advance(|frame|, o, lengths[n]))
  }

  datatype Reply = NoFrame | Packets(contents: seq<seq<byte>>)

  function Emit(st: Stream, lengths: seq<nat>): (Reply, Stream)
    requires st.offset <= |st.frame|
  {
    var (cs, o) := Fill(st.frame, st.offset, st.fid, lengths);
    (Packets(cs), st.(offset := if o == |st.frame| then 0 else o))
  }

  predicate TooEarly(st: Stream, interval: int, now: int) {
    interval > 0 && st.offset == 0 && now < st.startedAt + interval
  }

  /** One URB while streaming; next is what the source would deliver. */
  function Handle(st: Stream, interval: int, now: int, lengths: seq<nat>, next: Option<seq<byte>>): (Reply, Stream)
    requires Valid(st)
  {
    if TooEarly(st, interval, now) then (Packets(Empties(|lengths|)), st)
    else if st.offset > 0 then Emit(st, lengths)
    else if next.None? then (NoFrame, st)
    else Emit(Stream(next.value, 0, !st.fid, now), lengths)
  }

  // ---- what the loop does to a frame ----

  /** Some slot has room for payload. */
  ghost predicate Usable(lengths: seq<nat>) { exists i :: 0 <= i < |lengths| && lengths[i] > HEADER_SIZE }

  lemma {:induction false} FillProgress(frame: seq<byte>, offset: nat, fid: bool, lengths: seq<nat>)
    requires offset < |frame|
    ensures Fill(frame, offset, fid, lengths).1 > offset <==> Usable(lengths)
  {
    if lengths != [] {
      var n := |lengths| - 1;
      var front := lengths[..n];
      FillProgress(frame, offset, fid, front);
      if Usable(front) {
        var i :| 0 <= i < |front| && front[i] > HEADER_SIZE;
        assert lengths[i] > HEADER_SIZE;
      }
      if Usable(lengths) && !(lengths[n] > HEADER_SIZE) {
        var i :| 0 <= i < |lengths| && lengths[i] > HEADER_SIZE;
        assert front[i] > HEADER_SIZE;
      }
    }
  }

  lemma {:induction false} EmptiesSnoc(cs: seq<seq<byte>>, n: nat)
    ensures cs + Empties(n) + [[]] == cs + Empties(n + 1) && cs + Empties(0) == cs
  {
    assert Empties(n + 1) == Empties(n) + [[]];
    Reassociate(cs, Empties(n), [[]]);
  }

  /** Slots behind a finished frame stay empty. */
  lemma {:induction false} FillRest(frame: seq<byte>, offset: nat, fid: bool, lengths: seq<nat>, i: nat)
    requires offset <= |frame| && i <= |lengths| && Fill(frame, offset, fid, lengths[..i]).1 == |frame|
    ensures Fill(frame, offset, fid, lengths)
            == (Fill(frame, offset, fid, lengths[..i]).0 + Empties(|lengths| - i), |frame|)
  {
    var cs := Fill(frame, offset, fid, lengths[..i]).0;
    if i == |lengths| {
      assert lengths[..i] == lengths;
      EmptiesSnoc(cs, 0);
    } else {
      var n := |lengths| - 1;
      assert lengths[..n][..i] == lengths[..i];
      FillRest(frame, offset, fid, lengths[..n], i);
      EmptiesSnoc(cs, n - i);
      FillSnoc(frame, offset, fid, lengths, n);
      assert lengths[..n + 1] == lengths;
    }
  }

  // ---- the receiving side ----

  function NonEmpty(contents: seq<seq<byte>>): seq<seq<byte>> {
    if contents == [] then []
    else
      var n := |contents| - 1;
      NonEmpty(contents[..n]) + if contents[n] == [] then [] else [contents[n]]
  }

  function Payload(p: seq<byte>): seq<byte> { if |p| < HEADER_SIZE then [] else p[HEADER_SIZE..] }

  predicate HasFid(p: seq<byte>) { |p| >= HEADER_SIZE && p[1] % 2 == 1 }

  predicate HasEof(p: seq<byte>) { |p| >= HEADER_SIZE && p[1] >= 0x80 }

  datatype Received = Received(frames: seq<seq<byte>>, partial: seq<byte>)

  /** Reassembly by the EOF bit. */
  function ByEof(sent: seq<seq<byte>>): Received {
    if sent == [] then Received([], [])
    else
      var p := sent[|sent| - 1];
      var r := ByEof(sent[..|sent| - 1]);
      if HasEof(p) then Received(r.frames + [r.partial + Payload(p)], []) else r.(partial := r.partial + Payload(p))
  }

  /** Reassembly by changes of the FID bit; the last element may still be growing. */
  function ByFid(sent: seq<seq<byte>>): (r: seq<seq<byte>>)
    ensures sent != [] ==> r != []
  {
    if sent == [] then []
    else
      var n := |sent| - 1;
      var r := ByFid(sent[..n]);
      if n == 0 || HasFid(sent[n - 1]) != HasFid(sent[n]) then r + [Payload(sent[n])]
      else r[..|r| - 1] + [r[|r| - 1] + Payload(sent[n])]
  }

  lemma {:induction false} PacketFields(frame: seq<byte>, offset: nat, fid: bool, length: nat)
    requires offset < |frame| && length >= HEADER_SIZE
    ensures var p, next := PacketFor(frame, offset, fid, length), Advance(|frame|, offset, length);
            p != [] && HasFid(p) == fid && (HasEof(p) <==> next == |frame|) && Payload(p) == frame[offset..next]
  {
  }

  /** What the receiver has of a frame of which offset bytes were sent. */
  ghost predicate EofState(sent: seq<seq<byte>>, done: seq<seq<byte>>, frame: seq<byte>, offset: nat)
    requires offset <= |frame|
  {
    ByEof(sent)
    == if frame != [] && offset == |frame| then Received(done + [frame], []) else Received(done, frame[..offset])
  }

  lemma {:induction false} EofOnePacket(sent: seq<seq<byte>>, done: seq<seq<byte>>, frame: seq<byte>, offset: nat,
                                        fid: bool, length: nat)
    requires offset < |frame| && length >= HEADER_SIZE && EofState(sent, done, frame, offset)
    ensures EofState(sent + [PacketFor(frame, offset, fid, length)], done, frame, Advance(|frame|, offset, length))
  {
    var p, next := PacketFor(frame, offset, fid, length), Advance(|frame|, offset, length);
    PacketFields(frame, offset, fid, length);
    assert (sent + [p])[..|sent|] == sent;
    assert frame[..offset] + frame[offset..next] == frame[..next];
    assert frame[..|frame|] == frame;
  }

  lemma {:induction false} EofFill(sent: seq<seq<byte>>, done: seq<seq<byte>>, frame: seq<byte>, offset: nat, fid: bool,
                                   lengths: seq<nat>)
    requires offset <= |frame| && EofState(sent, done, frame, offset)
    ensures EofState(sent + NonEmpty(Fill(frame, offset, fid, lengths).0), done, frame,
                     Fill(frame, offset, fid, lengths).1)
  {
    if lengths == [] {
      assert sent + NonEmpty([]) == sent;
    } else {
      var n := |lengths| - 1;
      var (cs, o) := Fill(frame, offset, fid, lengths[..n]);
      EofFill(sent, done, frame, offset, fid, lengths[..n]);
      NonEmptySnoc(sent, cs, PacketFor(frame, o, fid, lengths[n]));
      if o < |frame| && lengths[n] >= HEADER_SIZE {
        EofOnePacket(sent + NonEmpty(cs), done, frame, o, fid, lengths[n]);
      }
    }
  }

  lemma {:induction false} NonEmptySnoc(sent: seq<seq<byte>>, cs: seq<seq<byte>>, p: seq<byte>)
    ensures sent + NonEmpty(cs + [p]) == if p == [] then sent + NonEmpty(cs) else sent + NonEmpty(cs) + [p]
  {
    assert (cs + [p])[..|cs|] == cs;
  }

  /** The same for the FID bit; begun says whether the receiver has seen this frame's bit yet. */
  ghost predicate FidState(sent: seq<seq<byte>>, done: seq<seq<byte>>, fid: bool, current: seq<byte>, begun: bool) {
    if begun then sent != [] && HasFid(sent[|sent| - 1]) == fid && ByFid(sent) == done + [current]
    else current == [] && ByFid(sent) == done && (sent != [] ==> HasFid(sent[|sent| - 1]) != fid)
  }

  lemma {:induction false} ByFidSnoc(sent: seq<seq<byte>>, p: seq<byte>)
    ensures sent == [] || HasFid(sent[|sent| - 1]) != HasFid(p) ==> ByFid(sent + [p]) == ByFid(sent) + [Payload(p)]
    ensures sent != [] && HasFid(sent[|sent| - 1]) == HasFid(p) ==>
              var r := ByFid(sent); ByFid(sent + [p]) == r[..|r| - 1] + [r[|r| - 1] + Payload(p)]
  {
    assert (sent + [p])[..|sent|] == sent;
  }

  lemma {:induction false} FidOnePacket(sent: seq<seq<byte>>, done: seq<seq<byte>>, fid: bool, current: seq<byte>,
                                        begun: bool, p: seq<byte>)
    requires FidState(sent, done, fid, current, begun) && HasFid(p) == fid
    ensures FidState(sent + [p], done, fid, current + Payload(p), true)
  {
    ByFidSnoc(sent, p);
    if begun {
      assert (done + [current])[..|done|] == done;
    } else {
      assert [] + Payload(p) == Payload(p);
    }
  }

  /** A packet went out: some slot can hold a header. */
  ghost predicate Heard(frame: seq<byte>, offset: nat, fid: bool, lengths: seq<nat>)
    requires offset <= |frame|
  {
    NonEmpty(Fill(frame, offset, fid, lengths).0) != []
  }

  lemma {:induction false} FidStep(sent: seq<seq<byte>>, done: seq<seq<byte>>, frame: seq<byte>, o: nat, fid: bool,
                                   begun: bool, length: nat)
    requires o <= |frame| && FidState(sent, done, fid, frame[..o], begun)
    ensures var p := PacketFor(frame, o, fid, length);
            FidState(if p == [] then sent else sent + [p], done, fid, frame[..Advance(|frame|, o, length)],
                     begun || p != [])
  {
    if o < |frame| && length >= HEADER_SIZE {
      var p := PacketFor(frame, o, fid, length);
      PacketFields(frame, o, fid, length);
      FidOnePacket(sent, done, fid, frame[..o], begun, p);
      assert frame[..o] + Payload(p) == frame[..Advance(|frame|, o, length)];
    }
  }

  lemma {:induction false} FidFill(sent: seq<seq<byte>>, done: seq<seq<byte>>, frame: seq<byte>, offset: nat, fid: bool,
                                   begun: bool, lengths: seq<nat>)
    requires offset <= |frame| && FidState(sent, done, fid, frame[..offset], begun)
    ensures var (cs, o) := Fill(frame, offset, fid, lengths);
            FidState(sent + NonEmpty(cs), done, fid, frame[..o], begun || Heard(frame, offset, fid, lengths))
  {
    if lengths == [] {
      assert sent + NonEmpty([]) == sent;
    } else {
      var n := |lengths| - 1;
      var (cs, o) := Fill(frame, offset, fid, lengths[..n]);
      FidFill(sent, done, frame, offset, fid, begun, lengths[..n]);
      var p := PacketFor(frame, o, fid, lengths[n]);
      FidStep(sent + NonEmpty(cs), done, frame, o, fid, begun || NonEmpty(cs) != [], lengths[n]);
      NonEmptySnoc(sent, cs, p);
      NonEmptyGrows(cs, p);
    }
  }

  lemma {:induction false} NonEmptyGrows(cs: seq<seq<byte>>, p: seq<byte>)
    ensures NonEmpty(cs + [p]) != [] <==> NonEmpty(cs) != [] || p != []
  {
    assert (cs + [p])[..|cs|] == cs;
  }

  // ---- the interface ----

  class VideoStreaming {
    var committed: bool
    var streaming: bool
    var frameBuffer: seq<byte>
    var frameOffset: nat
    var currentFid: bool
    var frameStartedAt: int
    var frameInterval: int

    ghost function View(): Stream
      reads this
    {
      Stream(frameBuffer, frameOffset, currentFid, frameStartedAt)
    }

    /** A new connection. */
    constructor (interval: int)
      ensures !committed && !streaming && View() == Stream([], 0, false, 0) && frameInterval == interval
    {
      committed, streaming, frameInterval := false, false, interval;
      frameBuffer, frameOffset, currentFid, frameStartedAt := [], 0, false, 0;
    }

    /** SET_CUR of the commit control. */
    method Commit(interval: int)
      modifies this`committed, this`frameOffset, this`currentFid, this`frameStartedAt, this`frameInterval
      ensures committed && frameInterval == interval && View() == Stream(frameBuffer, 0, false, 0)
    {
      committed, frameOffset, currentFid, frameStartedAt, frameInterval := true, 0, false, 0, interval;
    }

    method SetInterface(alternate: nat) returns (ok: bool)
      modifies this`streaming, this`frameOffset, this`currentFid
      ensures ok == (alternate <= 1)
      ensures streaming == (if alternate == 0 then false else old(streaming) || (alternate == 1 && committed))
      ensures View() == if alternate == 1 && committed then old(View()).(offset := 0, fid := false) else old(View())
    {
      ok := alternate <= 1;
      if alternate == 0 {
        streaming := false;
      } else if alternate == 1 && committed {
        streaming, frameOffset, currentFid := true, 0, false;
      }
    }

    /** One isochronous IN URB: the slots of data are filled in place. */
    method HandleIsochronous(now: int, next: Option<seq<byte>>, data: array<byte>,
                             isos: seq<IsoDesc>) returns (r: UrbReply)
      requires Valid(View()) && Slots(isos, data.Length) && data.Length < 0x1_0000_0000
      modifies this`frameBuffer, this`frameOffset, this`currentFid, this`frameStartedAt, data
      ensures !(streaming && committed) ==> r == Epipe && View() == old(View())
      ensures streaming && committed ==>
                View() == Handle(old(View()), frameInterval, now, Lengths(isos), next).1 && Valid(View())
      ensures streaming && committed ==>
                Replies(r, isos, Handle(old(View()), frameInterval, now, Lengths(isos), next).0, data[..])
    {
      if !streaming || !committed {
        return Epipe;
      }
      r := StreamUrb(now, next, data, isos);
    }

    method StreamUrb(now: int, next: Option<seq<byte>>, data: array<byte>, isos: seq<IsoDesc>) returns (r: UrbReply)
      requires Valid(View()) && Slots(isos, data.Length) && data.Length < 0x1_0000_0000
      modifies this`frameBuffer, this`frameOffset, this`currentFid, this`frameStartedAt, data
      ensures View() == Handle(old(View()), frameInterval, now, Lengths(isos), next).1 && Valid(View())
      ensures Replies(r, isos, Handle(old(View()), frameInterval, now, Lengths(isos), next).0, data[..])
    {
      if frameInterval > 0 && frameOffset == 0 && now < frameStartedAt + frameInterval {
        NothingSent(isos, data[..]);
        return Success(0, Filled(isos, Empties(|isos|)));
      }
      if frameOffset == 0 {
        if next.None? {
          return Epipe;
        }
        frameBuffer, currentFid, frameStartedAt := next.value, !currentFid, now;
      }
      assert Handle(old(View()), frameInterval, now, Lengths(isos), next) == Emit(View(), Lengths(isos));
      r := SendFrame(data, isos);
    }

    method SendFrame(data: array<byte>, isos: seq<IsoDesc>) returns (r: UrbReply)
      requires frameOffset <= |frameBuffer| && Slots(isos, data.Length) && data.Length < 0x1_0000_0000
      modifies this`frameOffset, data
      ensures View() == Emit(old(View()), Lengths(isos)).1 && Valid(View())
      ensures Answers(r, isos, Emit(old(View()), Lengths(isos)).0.contents, data[..])
    {
      var offset;
      r, offset := FillSlots(frameBuffer, frameOffset, currentFid, data, isos);
      frameOffset := if offset >= |frameBuffer| then 0 else offset;
    }
  }

  /** A stall or the filled slots, as the handler decided. */
  ghost predicate Replies(r: UrbReply, isos: seq<IsoDesc>, reply: Reply, data: seq<byte>) {
    if reply.NoFrame? then r == Epipe else Answers(r, isos, reply.contents, data)
  }

  /** Fill the slots and sum up, with the frame offset passed in and out. */
  method FillSlots(frame: seq<byte>, start: nat, fid: bool, data: array<byte>, isos: seq<IsoDesc>)
    returns (r: UrbReply, offset: nat)
    requires start <= |frame| && Slots(isos, data.Length) && data.Length < 0x1_0000_0000
    modifies data
    ensures offset == Fill(frame, start, fid, Lengths(isos)).1
    ensures Answers(r, isos, Fill(frame, start, fid, Lengths(isos)).0, data[..])
  {
    var descs: seq<IsoDesc>, total: nat;
    ghost var contents: seq<seq<byte>>;
    descs, total, offset, contents := PacketLoop(frame, start, fid, data, isos);
    ghost var all := FillJoin(frame, start, fid, Lengths(isos), contents, offset);
    r := Finish(data[..], isos, descs, contents, all, total);
  }

  /** The packet loop: it stops with the last slot or when the frame is done. */
  method PacketLoop(frame: seq<byte>, start: nat, fid: bool, data: array<byte>, isos: seq<IsoDesc>)
    returns (descs: seq<IsoDesc>, total: nat, offset: nat, ghost contents: seq<seq<byte>>)
    requires start <= |frame| && Slots(isos, data.Length)
    modifies data
    ensures |contents| <= |isos| && (|contents| == |isos| || offset == |frame|)
    ensures (contents, offset) == Fill(frame, start, fid, Lengths(isos)[..|contents|])
    ensures Progress(data[..], isos, descs, contents, total)
  {
    ghost var lengths := Lengths(isos);
    descs := ClearStatus(isos);
    total, offset, contents := 0, start, [];
    var i := 0;
    while i < |isos| && offset < |frame|
      invariant 0 <= i <= |isos| && offset <= |frame| && |contents| == i
      invariant (contents, offset) == Fill(frame, start, fid, lengths[..i])
      invariant Progress(data[..], isos, descs, contents, total)
    {
      FillSnoc(frame, start, fid, lengths, i);
      var packet := NextPacket(frame, offset, fid, isos[i].length);
      descs := PutPacket(data, isos, descs, contents, total, packet, i);
      total := total + |packet|;
      offset := Advance(|frame|, offset, isos[i].length);
      contents := contents + [packet];
      i := i + 1;
    }
  }

  method NextPacket(frame: seq<byte>, offset: nat, fid: bool, length: nat) returns (packet: seq<byte>)
    requires offset < |frame|
    ensures packet == PacketFor(frame, offset, fid, length)
  {
    if length < HEADER_SIZE {
      return [];
    }
    var chunk := Min(length - HEADER_SIZE, |frame| - offset);
    packet := [HEADER_SIZE, HeaderInfo(fid, offset + chunk >= |frame|)] + frame[offset..offset + chunk];
  }

  lemma {:induction false} FillSnoc(frame: seq<byte>, offset: nat, fid: bool, lengths: seq<nat>, i: nat)
    requires offset <= |frame| && i < |lengths|
    ensures var (cs, o) := Fill(frame, offset, fid, lengths[..i]);
            Fill(frame, offset, fid, lengths[..i + 1])
            == (cs + [PacketFor(frame, o, fid, lengths[i])], Advance(|frame|, o, lengths[i]))
  {
    assert lengths[..i + 1][..i] == lengths[..i];
  }

  /** What the loop filled and the empty slots behind it are the contents of the URB. */
  lemma {:induction false} FillJoin(frame: seq<byte>, start: nat, fid: bool, lengths: seq<nat>,
                                    contents: seq<seq<byte>>, offset: nat)
    returns (all: seq<seq<byte>>)
    requires start <= |frame| && |contents| <= |lengths| && (|contents| == |lengths| || offset == |frame|)
    requires (contents, offset) == Fill(frame, start, fid, lengths[..|contents|])
    ensures all == contents + Empties(|lengths| - |contents|)
    ensures all == Fill(frame, start, fid, lengths).0 && offset == Fill(frame, start, fid, lengths).1
  {
    FillEnd(frame, start, fid, lengths, |contents|);
    all := contents + Empties(|lengths| - |contents|);
  }

  /** The loop stops early only when the frame is done. */
  lemma {:induction false} FillEnd(frame: seq<byte>, offset: nat, fid: bool, lengths: seq<nat>, i: nat)
    requires offset <= |frame| && i <= |lengths|
    requires i == |lengths| || Fill(frame, offset, fid, lengths[..i]).1 == |frame|
    ensures Fill(frame, offset, fid, lengths)
            == (Fill(frame, offset, fid, lengths[..i]).0 + Empties(|lengths| - i),
                Fill(frame, offset, fid, lengths[..i]).1)
  {
    if i == |lengths| {
      assert lengths[..i] == lengths;
      assert Fill(frame, offset, fid, lengths).0 + Empties(0) == Fill(frame, offset, fid, lengths).0;
    } else {
      FillRest(frame, offset, fid, lengths, i);
    }
  }
}
