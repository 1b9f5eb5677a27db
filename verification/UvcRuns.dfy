/**
  Video streaming over any sequence of URBs: what the receiver reassembles is what the source
  delivered, by either of the two bits of the payload header.
 */
module UvcRuns {
  import opened UsbIp
  import opened Bytes
  import opened IsoFill
  import opened Uvc

  /** One URB: when it is handled, its slot lengths, and what the source would deliver. */
  datatype Urb = Urb(now: int, lengths: seq<nat>, next: Option<seq<byte>>)

  /** A frame taken from the source, when, and the slots of the URB that took it. */
  datatype Fetched = Fetched(frame: seq<byte>, at: int, lengths: seq<nat>)

  datatype Run = Run(stream: Stream, sent: seq<seq<byte>>, fetched: seq<Fetched>)

  predicate Fetches(st: Stream, interval: int, u: Urb) {
    !TooEarly(st, interval, u.now) && st.offset == 0 && u.next.Some?
  }

  function Step(run: Run, interval: int, u: Urb): (r: Run)
    requires Valid(run.stream)
    ensures Valid(r.stream)
  {
    var (reply, st') := Handle(run.stream, interval, u.now, u.lengths, u.next);
    Run(st', if reply.Packets? then run.sent + NonEmpty(reply.contents) else run.sent,
        if Fetches(run.stream, interval, u) then run.fetched + [Fetched(u.next.value, u.now, u.lengths)]
        else run.fetched)
  }

  /** From the alternate setting that starts streaming; start only matters for the frame clock. */
  function Exec(interval: int, start: Stream, us: seq<Urb>): (r: Run)
    ensures Valid(r.stream)
  {
    if us == [] then Run(start.(offset := 0, fid := false), [], [])
    else Step(Exec(interval, start, us[..|us| - 1]), interval, us[|us| - 1])
  }

  /** The frame is not empty and the URB that took it can carry at least one byte of it. */
  ghost predicate Deliverable(f: Fetched) { f.frame != [] && Usable(f.lengths) }

  ghost function Delivered(fs: seq<Fetched>): seq<seq<byte>> {
    if fs == [] then []
    else
      var n := |fs| - 1;
      Delivered(fs[..n]) + if Deliverable(fs[n]) then [fs[n].frame] else []
  }

  lemma {:induction false} DeliveredSnoc(fs: seq<Fetched>, f: Fetched)
    ensures Delivered(fs + [f]) == Delivered(fs) + if Deliverable(f) then [f.frame] else []
  {
    assert (fs + [f])[..|fs|] == fs;
  }

  // ---- by the EOF bit ----

  /** The frames out, and the part of the current one. */
  ghost predicate EofInv(st: Stream, sent: seq<seq<byte>>, ds: seq<seq<byte>>) {
    if st.offset == 0 then ByEof(sent) == Received(ds, [])
    else
      && ds != [] && ds[|ds| - 1] == st.frame && st.offset < |st.frame|
      && EofState(sent, ds[..|ds| - 1], st.frame, st.offset)
  }

  lemma {:induction false} EofNewFrame(st: Stream, sent: seq<seq<byte>>, ds: seq<seq<byte>>, frame: seq<byte>, at: int,
                                       lengths: seq<nat>)
    requires st.offset == 0 && EofInv(st, sent, ds)
    ensures var (reply, st') := Emit(Stream(frame, 0, !st.fid, at), lengths);
            EofInv(st', sent + NonEmpty(reply.contents),
                   ds + if Deliverable(Fetched(frame, at, lengths)) then [frame] else [])
  {
    var o := Fill(frame, 0, !st.fid, lengths).1;
    assert frame[..0] == [];
    EofFill(sent, ds, frame, 0, !st.fid, lengths);
    if frame != [] {
      FillProgress(frame, 0, !st.fid, lengths);
      assert (ds + [frame])[..|ds|] == ds;
    }
    assert ds + [] == ds;
  }

  lemma {:induction false} EofSameFrame(st: Stream, sent: seq<seq<byte>>, ds: seq<seq<byte>>, lengths: seq<nat>)
    requires st.offset > 0 && EofInv(st, sent, ds)
    ensures var (reply, st') := Emit(st, lengths); EofInv(st', sent + NonEmpty(reply.contents), ds)
  {
    var done, sent' := ds[..|ds| - 1], sent + NonEmpty(Fill(st.frame, st.offset, st.fid, lengths).0);
    assert done + [st.frame] == ds;
    EofFill(sent, done, st.frame, st.offset, st.fid, lengths);
    if Fill(st.frame, st.offset, st.fid, lengths).1 == |st.frame| {
      assert ByEof(sent') == Received(ds, []);
    }
  }

  lemma {:induction false} NonEmptyEmpties(n: nat)
    ensures NonEmpty(Empties(n)) == []
  {
    if n > 0 {
      assert Empties(n)[..n - 1] == Empties(n - 1);
      NonEmptyEmpties(n - 1);
    }
  }

  lemma {:induction false} EofStep(run: Run, interval: int, u: Urb)
    requires Valid(run.stream) && EofInv(run.stream, run.sent, Delivered(run.fetched))
    ensures var r := Step(run, interval, u); EofInv(r.stream, r.sent, Delivered(r.fetched))
  {
    var st, ds := run.stream, Delivered(run.fetched);
    if TooEarly(st, interval, u.now) {
      NonEmptyEmpties(|u.lengths|);
      assert run.sent + [] == run.sent;
    } else if st.offset > 0 {
      EofSameFrame(st, run.sent, ds, u.lengths);
    } else if u.next.Some? {
      EofNewFrame(st, run.sent, ds, u.next.value, u.now, u.lengths);
      DeliveredSnoc(run.fetched, Fetched(u.next.value, u.now, u.lengths));
    }
  }

  lemma {:induction false} RunEof(interval: int, start: Stream, us: seq<Urb>)
    ensures var r := Exec(interval, start, us); EofInv(r.stream, r.sent, Delivered(r.fetched))
  {
    if us != [] {
      RunEof(interval, start, us[..|us| - 1]);
      EofStep(Exec(interval, start, us[..|us| - 1]), interval, us[|us| - 1]);
    }
  }

  /** Splitting the packets at the EOF bit gives back, in order and byte for byte, the frames taken
      from the source, except exactly those that were empty or whose first URB had no slot longer than
      the payload header; a frame still under way is the partial one. */
  lemma {:induction false} FramesByEof(interval: int, start: Stream, us: seq<Urb>)
    ensures var r := Exec(interval, start, us);
            var ds := Delivered(r.fetched);
            && (r.stream.offset == 0 ==> ByEof(r.sent) == Received(ds, []))
            && (r.stream.offset > 0 ==>
                  && ds != [] && r.stream.frame == ds[|ds| - 1]
                  && ByEof(r.sent) == Received(ds[..|ds| - 1], r.stream.frame[..r.stream.offset]))
  {
    RunEof(interval, start, us);
  }

  ghost predicate AllDeliverable(fs: seq<Fetched>) { forall i :: 0 <= i < |fs| ==> Deliverable(fs[i]) }

  function Frames(fs: seq<Fetched>): seq<seq<byte>> { seq(|fs|, i requires 0 <= i < |fs| => fs[i].frame) }

  lemma {:induction false} AllDelivered(fs: seq<Fetched>)
    requires AllDeliverable(fs)
    ensures Delivered(fs) == Frames(fs)
  {
    if fs != [] {
      var n := |fs| - 1;
      AllDelivered(fs[..n]);
      assert Frames(fs) == Frames(fs[..n]) + [fs[n].frame];
    }
  }

  lemma {:induction false} DeliveredCount(fs: seq<Fetched>)
    ensures |Delivered(fs)| <= |fs| && (|Delivered(fs)| == |fs| ==> AllDeliverable(fs))
  {
    if fs != [] {
      var n := |fs| - 1;
      DeliveredCount(fs[..n]);
      if |Delivered(fs)| == |fs| {
        forall i | 0 <= i < |fs| ensures Deliverable(fs[i]) {
          if i < n { assert fs[..n][i] == fs[i]; }
        }
      }
    }
  }

  /** Between frames, the receiver has exactly the frames taken from the source if and only if none of
      them was empty or began in a URB without a usable slot. */
  lemma {:induction false} EveryFrameExactly(interval: int, start: Stream, us: seq<Urb>)
    requires Exec(interval, start, us).stream.offset == 0
    ensures var r := Exec(interval, start, us); ByEof(r.sent).frames == Frames(r.fetched) <==> AllDeliverable(r.fetched)
  {
    var fs := Exec(interval, start, us).fetched;
    FramesByEof(interval, start, us);
    DeliveredCount(fs);
    assert |Frames(fs)| == |fs|;
    if AllDeliverable(fs) {
      AllDelivered(fs);
    }
  }

  // ---- by the FID bit ----

  ghost predicate FidInv(st: Stream, sent: seq<seq<byte>>, ds: seq<seq<byte>>) {
    if ds == [] then sent == [] && st.offset == 0
    else
      var n := |ds| - 1;
      if st.offset == 0 then FidState(sent, ds[..n], st.fid, ds[n], true)
      else st.frame == ds[n] && st.offset < |st.frame| && FidState(sent, ds[..n], st.fid, st.frame[..st.offset], true)
  }

  lemma {:induction false} ProgressHeard(frame: seq<byte>, offset: nat, fid: bool, lengths: seq<nat>)
    requires offset <= |frame|
    ensures Fill(frame, offset, fid, lengths).1 > offset ==> Heard(frame, offset, fid, lengths)
  {
    if lengths != [] {
      var n := |lengths| - 1;
      ProgressHeard(frame, offset, fid, lengths[..n]);
      var (cs, o) := Fill(frame, offset, fid, lengths[..n]);
      NonEmptyGrows(cs, PacketFor(frame, o, fid, lengths[n]));
    }
  }

  lemma {:induction false} FidNewFrame(st: Stream, sent: seq<seq<byte>>, ds: seq<seq<byte>>, frame: seq<byte>, at: int,
                                       lengths: seq<nat>)
    requires st.offset == 0 && FidInv(st, sent, ds) && Deliverable(Fetched(frame, at, lengths))
    ensures var (reply, st') := Emit(Stream(frame, 0, !st.fid, at), lengths);
            FidInv(st', sent + NonEmpty(reply.contents), ds + [frame])
  {
    var fid, sent' := !st.fid, sent + NonEmpty(Fill(frame, 0, !st.fid, lengths).0);
    var o := Fill(frame, 0, fid, lengths).1;
    assert FidState(sent', ds, fid, frame[..o], true) by {
      assert frame[..0] == [];
      FidFill(sent, ds, frame, 0, fid, false, lengths);
      FillProgress(frame, 0, fid, lengths);
      ProgressHeard(frame, 0, fid, lengths);
    }
    assert o > 0 by { FillProgress(frame, 0, fid, lengths); }
    assert frame[..|frame|] == frame;
    assert (ds + [frame])[..|ds|] == ds;
  }

  lemma {:induction false} FidSameFrame(st: Stream, sent: seq<seq<byte>>, ds: seq<seq<byte>>, lengths: seq<nat>)
    requires st.offset > 0 && FidInv(st, sent, ds)
    ensures var (reply, st') := Emit(st, lengths); FidInv(st', sent + NonEmpty(reply.contents), ds)
  {
    FidFill(sent, ds[..|ds| - 1], st.frame, st.offset, st.fid, true, lengths);
    assert st.frame[..|st.frame|] == st.frame;
  }

  lemma {:induction false} FidStepRun(run: Run, interval: int, u: Urb)
    requires Valid(run.stream) && FidInv(run.stream, run.sent, Delivered(run.fetched))
    requires AllDeliverable(Step(run, interval, u).fetched)
    ensures var r := Step(run, interval, u); FidInv(r.stream, r.sent, Delivered(r.fetched))
  {
    var st, ds := run.stream, Delivered(run.fetched);
    if TooEarly(st, interval, u.now) {
      NonEmptyEmpties(|u.lengths|);
      assert run.sent + [] == run.sent;
    } else if st.offset > 0 {
      FidSameFrame(st, run.sent, ds, u.lengths);
    } else if u.next.Some? {
      var f := Fetched(u.next.value, u.now, u.lengths);
      assert Step(run, interval, u).fetched[|run.fetched|] == f;
      FidNewFrame(st, run.sent, ds, u.next.value, u.now, u.lengths);
      DeliveredSnoc(run.fetched, f);
    }
  }

  lemma {:induction false} RunFid(interval: int, start: Stream, us: seq<Urb>)
    requires AllDeliverable(Exec(interval, start, us).fetched)
    ensures var r := Exec(interval, start, us); FidInv(r.stream, r.sent, Delivered(r.fetched))
  {
    if us != [] {
      var prev := Exec(interval, start, us[..|us| - 1]);
      var fs := Exec(interval, start, us).fetched;
      forall i | 0 <= i < |prev.fetched| ensures Deliverable(prev.fetched[i]) { assert fs[i] == prev.fetched[i]; }
      RunFid(interval, start, us[..|us| - 1]);
      FidStepRun(prev, interval, us[|us| - 1]);
    }
  }

  /** If no frame was empty or began in a URB without a usable slot, splitting at FID changes gives back
      every source frame too, the last one as far as it has been sent. */
  lemma {:induction false} FramesByFid(interval: int, start: Stream, us: seq<Urb>)
    requires AllDeliverable(Exec(interval, start, us).fetched)
    ensures var r := Exec(interval, start, us);
            && |ByFid(r.sent)| == |r.fetched|
            && (forall i :: 0 <= i < |r.fetched| - 1 ==> ByFid(r.sent)[i] == r.fetched[i].frame)
            && (r.fetched != [] ==>
                  var last := |r.fetched| - 1;
                  && (r.stream.offset == 0 ==> ByFid(r.sent)[last] == r.fetched[last].frame)
                  && (r.stream.offset > 0 ==>
                        && r.stream.frame == r.fetched[last].frame
                        && ByFid(r.sent)[last] == r.stream.frame[..r.stream.offset]))
  {
    RunFid(interval, start, us);
    AllDelivered(Exec(interval, start, us).fetched);
  }

  // ---- frame clock and EOF placement ----

  ghost predicate Clocked(run: Run, interval: int) {
    && (run.fetched != [] ==> run.fetched[|run.fetched| - 1].at == run.stream.startedAt)
    && forall i :: 0 < i < |run.fetched| ==> run.fetched[i].at >= run.fetched[i - 1].at + interval
  }

  lemma {:induction false} RunClock(interval: int, start: Stream, us: seq<Urb>)
    requires interval > 0
    ensures Clocked(Exec(interval, start, us), interval)
  {
    if us != [] {
      RunClock(interval, start, us[..|us| - 1]);
    }
  }

  /** Any two frame starts are at least their distance in frames times the frame interval apart. */
  lemma {:induction false} FrameStartsSpaced(interval: int, start: Stream, us: seq<Urb>, i: nat, j: nat)
    requires interval > 0 && i <= j < |Exec(interval, start, us).fetched|
    ensures var fs := Exec(interval, start, us).fetched; fs[j].at - fs[i].at >= (j - i) * interval
  {
    RunClock(interval, start, us);
    if i < j {
      FrameStartsSpaced(interval, start, us, i, j - 1);
      assert (j - i) * interval == (j - 1 - i) * interval + interval;
    }
  }

  /** The frame clock stands where the last frame was taken, and the FID bit counts the frames. */
  lemma {:induction false} RunStarted(interval: int, start: Stream, us: seq<Urb>)
    ensures var r := Exec(interval, start, us);
            && r.stream.startedAt == LastStart(start, r.fetched)
            && r.stream.fid == (|r.fetched| % 2 == 1)
  {
    if us != [] {
      RunStarted(interval, start, us[..|us| - 1]);
      StartedStep(Exec(interval, start, us[..|us| - 1]), interval, us[|us| - 1], start);
    }
  }

  lemma {:induction false} StartedStep(run: Run, interval: int, u: Urb, start: Stream)
    requires Valid(run.stream) && run.stream.startedAt == LastStart(start, run.fetched)
    requires run.stream.fid == (|run.fetched| % 2 == 1)
    ensures var r := Step(run, interval, u);
            r.stream.startedAt == LastStart(start, r.fetched) && r.stream.fid == (|r.fetched| % 2 == 1)
  {
  }

  function LastStart(start: Stream, fs: seq<Fetched>): int {
    if fs == [] then start.startedAt else fs[|fs| - 1].at
  }

  /** The URB carries the frame on from this offset as far as its slots go. */
  predicate Continues(r: Run, r': Run, frame: seq<byte>, offset: nat, lengths: seq<nat>)
    requires offset <= |frame|
  {
    var (cs, o) := Fill(frame, offset, r'.stream.fid, lengths);
    && r'.sent == r.sent + NonEmpty(cs)
    && r'.stream.frame == frame && r'.stream.offset == if o == |frame| then 0 else o
  }

  /** What becomes of a URB, in every run: the source is asked exactly between frames once the interval since
      the last frame start has passed, and what it has is taken; if it has nothing the URB is stalled; before
      that nothing is sent; within a frame the clock does not matter, and the URB carries the frame on. */
  lemma {:induction false} FrameTakenExactly(interval: int, start: Stream, us: seq<Urb>, u: Urb)
    ensures var r, r' := Exec(interval, start, us), Exec(interval, start, us + [u]);
            var due := interval <= 0 || u.now >= LastStart(start, r.fetched) + interval;
            var asks := r.stream.offset == 0 && due;
            && r'.fetched
               == r.fetched + (if asks && u.next.Some? then [Fetched(u.next.value, u.now, u.lengths)] else [])
            && (Handle(r.stream, interval, u.now, u.lengths, u.next).0.NoFrame? <==> asks && u.next.None?)
            && (r.stream.offset == 0 && !(due && u.next.Some?) ==> r'.sent == r.sent && r'.stream == r.stream)
            && (r.stream.offset > 0 ==> Continues(r, r', r.stream.frame, r.stream.offset, u.lengths))
            && (asks && u.next.Some? ==> Continues(r, r', u.next.value, 0, u.lengths))
            && r'.stream.fid == (|r'.fetched| % 2 == 1)
  {
    assert (us + [u])[..|us|] == us;
    RunStarted(interval, start, us);
    RunStarted(interval, start, us + [u]);
    NonEmptyEmpties(|u.lengths|);
  }

  lemma {:induction false} FillPrefix(frame: seq<byte>, offset: nat, fid: bool, lengths: seq<nat>, i: nat)
    requires offset <= |frame| && i <= |lengths|
    ensures Fill(frame, offset, fid, lengths).0[..i] == Fill(frame, offset, fid, lengths[..i]).0
    ensures Fill(frame, offset, fid, lengths[..i]).1 <= Fill(frame, offset, fid, lengths).1
  {
    if i == |lengths| {
      assert lengths[..i] == lengths;
    } else {
      var n := |lengths| - 1;
      assert lengths[..n][..i] == lengths[..i];
      FillPrefix(frame, offset, fid, lengths[..n], i);
    }
  }

  lemma {:induction false} SlotContents(frame: seq<byte>, offset: nat, fid: bool, lengths: seq<nat>, i: nat)
    requires offset <= |frame| && i < |lengths|
    ensures var o := Fill(frame, offset, fid, lengths[..i]).1;
            && Fill(frame, offset, fid, lengths).0[i] == PacketFor(frame, o, fid, lengths[i])
            && Fill(frame, offset, fid, lengths[..i + 1]).1 == Advance(|frame|, o, lengths[i])
  {
    var cs := Fill(frame, offset, fid, lengths).0;
    FillPrefix(frame, offset, fid, lengths, i + 1);
    FillSnoc(frame, offset, fid, lengths, i);
    assert cs[i] == cs[..i + 1][i];
  }

  /** Every packet on the wire: a slot is used exactly if the frame is not done and the two-byte header fits;
      the packet then fills it as far as the frame goes, with the header length, the two header bits and the
      next bytes of the frame. */
  lemma {:induction false} PacketExactly(frame: seq<byte>, offset: nat, fid: bool, lengths: seq<nat>, i: nat)
    requires offset <= |frame| && i < |lengths|
    ensures var p, o := Fill(frame, offset, fid, lengths).0[i], Fill(frame, offset, fid, lengths[..i]).1;
            && (p != [] <==> o < |frame| && lengths[i] >= 2)
            && (p != [] ==>
                  && |p| == Min(lengths[i], 2 + |frame| - o) && p[2..] == frame[o..o + |p| - 2]
                  && p[0] == 2 && p[1] == (if fid then 1 else 0) + (if o + |p| - 2 == |frame| then 128 else 0))
            && Fill(frame, offset, fid, lengths[..i + 1]).1 == o + (if p == [] then 0 else |p| - 2)
  {
    SlotContents(frame, offset, fid, lengths, i);
  }

  lemma {:induction false} NothingAfterEnd(frame: seq<byte>, offset: nat, fid: bool, lengths: seq<nat>, i: nat, j: nat)
    requires offset <= |frame| && i <= j < |lengths| && Fill(frame, offset, fid, lengths[..i]).1 == |frame|
    ensures Fill(frame, offset, fid, lengths).0[j] == []
  {
    SlotContents(frame, offset, fid, lengths, j);
    FillPrefix(frame, offset, fid, lengths[..j], i);
    assert lengths[..j][..i] == lengths[..i];
  }

  /** Within a URB a packet carries the EOF bit exactly if the frame's last byte is in it, and no packet
      follows it. */
  lemma {:induction false} EofOnLastPacket(frame: seq<byte>, offset: nat, fid: bool, lengths: seq<nat>, i: nat)
    requires offset <= |frame| && i < |lengths| && Fill(frame, offset, fid, lengths).0[i] != []
    ensures HasEof(Fill(frame, offset, fid, lengths).0[i]) <==> Fill(frame, offset, fid, lengths[..i + 1]).1 == |frame|
    ensures HasEof(Fill(frame, offset, fid, lengths).0[i]) ==> forall j :: i < j < |lengths| ==>
              Fill(frame, offset, fid, lengths).0[j] == []
  {
    SlotContents(frame, offset, fid, lengths, i);
    PacketFields(frame, Fill(frame, offset, fid, lengths[..i]).1, fid, lengths[i]);
    if HasEof(Fill(frame, offset, fid, lengths).0[i]) {
      forall j | i < j < |lengths| ensures Fill(frame, offset, fid, lengths).0[j] == [] {
        NothingAfterEnd(frame, offset, fid, lengths, i + 1, j);
      }
    }
  }

  /** After a URB whose only slot holds just the header. */
  const HEADER_ONLY := Run(Stream([7], 0, true, 1), [[2, 1]], [Fetched([7], 1, [2])])

  lemma {:induction false} OneSlot(frame: seq<byte>, fid: bool, length: nat)
    ensures Fill(frame, 0, fid, [length]) == ([PacketFor(frame, 0, fid, length)], Advance(|frame|, 0, length))
    ensures NonEmpty([PacketFor(frame, 0, fid, length)])
            == if PacketFor(frame, 0, fid, length) == [] then [] else [PacketFor(frame, 0, fid, length)]
  {
    var lengths := [length];
    FillSnoc(frame, 0, fid, lengths, 0);
    assert lengths[..0] == [] && lengths[..1] == lengths;
    NonEmptySnoc([], [], PacketFor(frame, 0, fid, length));
  }

  lemma HeaderOnlyStep()
    ensures Step(Run(Stream([], 0, false, 0), [], []), 0, Urb(1, [2], Some([7]))) == HEADER_ONLY
  {
    OneSlot([7], true, 2);
    assert PacketFor([7], 0, true, 2) == [2, 1];
  }

  lemma NextFrameStep()
    ensures Step(HEADER_ONLY, 0, Urb(2, [10], Some([8])))
            == Run(Stream([8], 0, false, 2), [[2, 1], [2, 128, 8]], [Fetched([7], 1, [2]), Fetched([8], 2, [10])])
  {
    OneSlot([8], false, 10);
    assert PacketFor([8], 0, false, 10) == [2, 128, 8];
  }

  lemma {:induction false} ExecSnoc(interval: int, start: Stream, us: seq<Urb>, u: Urb)
    ensures Exec(interval, start, us + [u]) == Step(Exec(interval, start, us), interval, u)
  {
    assert (us + [u])[..|us|] == us;
  }

  lemma {:induction false} EofSnoc(sent: seq<seq<byte>>, p: seq<byte>)
    ensures ByEof(sent + [p])
            == var r := ByEof(sent);
               if HasEof(p) then Received(r.frames + [r.partial + Payload(p)], [])
               else r.(partial := r.partial + Payload(p))
  {
    assert (sent + [p])[..|sent|] == sent;
  }

  /** A frame whose first URB only has header-sized slots is lost: the next URB takes another frame. */
  lemma HeaderOnlyUrbLosesFrame()
    ensures var r := Exec(0, Stream([], 0, false, 0), [Urb(1, [2], Some([7])), Urb(2, [10], Some([8]))]);
            && |r.fetched| == 2 && r.fetched[0].frame == [7] && r.stream.offset == 0
            && ByEof(r.sent) == Received([[8]], [])
  {
    var a, b, start := Urb(1, [2], Some([7])), Urb(2, [10], Some([8])), Stream([], 0, false, 0);
    ExecSnoc(0, start, [], a);
    HeaderOnlyStep();
    ExecSnoc(0, start, [] + [a], b);
    NextFrameStep();
    assert [] + [a] + [b] == [a, b];
    OneFrameReceived([2, 1], [2, 128, 8]);
  }

  lemma {:induction false} OneFrameReceived(p: seq<byte>, q: seq<byte>)
    requires !HasEof(p) && HasEof(q) && Payload(p) == []
    ensures ByEof([p, q]) == Received([Payload(q)], [])
  {
    EofSnoc([], p);
    EofSnoc([p], q);
    assert [] + [p] == [p] && [p] + [q] == [p, q];
    assert [] + Payload(p) == [] && [] + Payload(q) == Payload(q);
    assert ByEof([p]) == Received([], []);
  }
}
