/**
  Reassembly by the FID bit when frames may be lost: exactly when the receiver still gets every frame.
 */
module UvcFid {
  import opened Bytes
  import opened Uvc
  import opened UvcRuns

  /** The latest packet, if any, carries this bit. */
  predicate LastFid(sent: seq<seq<byte>>, fid: bool) { sent != [] && HasFid(sent[|sent| - 1]) == fid }

  lemma {:induction false} SameBit(sent: seq<seq<byte>>, p: seq<byte>, fid: bool)
    requires LastFid(sent, fid) && HasFid(p) == fid
    ensures |ByFid(sent + [p])| == |ByFid(sent)| && LastFid(sent + [p], fid)
  {
    ByFidSnoc(sent, p);
  }

  /** All packets of a URB carry one bit, so they only extend a segment that carries it already. */
  lemma {:induction false} FillKeepsCount(sent: seq<seq<byte>>, frame: seq<byte>, offset: nat, fid: bool,
                                          lengths: seq<nat>)
    requires offset <= |frame| && LastFid(sent, fid)
    ensures var sent' := sent + NonEmpty(Fill(frame, offset, fid, lengths).0);
            |ByFid(sent')| == |ByFid(sent)| && LastFid(sent', fid)
  {
    if lengths == [] {
      assert sent + NonEmpty([]) == sent;
    } else {
      var n := |lengths| - 1;
      var (cs, o) := Fill(frame, offset, fid, lengths[..n]);
      var p := PacketFor(frame, o, fid, lengths[n]);
      FillKeepsCount(sent, frame, offset, fid, lengths[..n]);
      NonEmptySnoc(sent, cs, p);
      if p != [] {
        PacketFields(frame, o, fid, lengths[n]);
        SameBit(sent + NonEmpty(cs), p, fid);
      }
    }
  }

  /** An empty frame sends nothing. */
  lemma {:induction false} HeardNotEmpty(frame: seq<byte>, offset: nat, fid: bool, lengths: seq<nat>)
    requires offset <= |frame| && Heard(frame, offset, fid, lengths)
    ensures frame != []
  {
    var n := |lengths| - 1;
    var (cs, o) := Fill(frame, offset, fid, lengths[..n]);
    NonEmptyGrows(cs, PacketFor(frame, o, fid, lengths[n]));
    if NonEmpty(cs) != [] {
      HeardNotEmpty(frame, offset, fid, lengths[..n]);
    }
  }

  /** What the receiver gets of a frame that has its own segment. */
  ghost function Segment(f: Fetched): seq<byte> { if Usable(f.lengths) then f.frame else [] }

  /** Frame i so far: the last one may be under way. */
  ghost function SegmentSoFar(st: Stream, fs: seq<Fetched>, i: nat): seq<byte>
    requires i < |fs|
  {
    if i == |fs| - 1 && 0 < st.offset <= |st.frame| then st.frame[..st.offset] else Segment(fs[i])
  }

  /** As many segments as frames: each frame has its own. */
  ghost predicate EachSegment(st: Stream, sent: seq<seq<byte>>, fs: seq<Fetched>) {
    && (fs != [] ==> LastFid(sent, st.fid))
    && |ByFid(sent)| == |fs|
    && forall i :: 0 <= i < |fs| ==> fs[i].frame != [] && ByFid(sent)[i] == SegmentSoFar(st, fs, i)
  }

  /** The frame under way is the latest, and its first URB was usable. */
  ghost predicate UnderWay(st: Stream, sent: seq<seq<byte>>, fs: seq<Fetched>) {
    st.offset > 0 ==>
      && LastFid(sent, st.fid) && st.offset < |st.frame|
      && fs != [] && fs[|fs| - 1].frame == st.frame && Usable(fs[|fs| - 1].lengths)
  }

  /** Never more segments than frames. */
  ghost predicate Segments(st: Stream, sent: seq<seq<byte>>, fs: seq<Fetched>) {
    && UnderWay(st, sent, fs)
    && |ByFid(sent)| <= |fs|
    && (|ByFid(sent)| == |fs| ==> EachSegment(st, sent, fs))
  }

  // ---- a new frame ----

  /** The bit is new to the receiver: the frame opens a segment as soon as it is heard. */
  lemma {:induction false} NewSegment(sent: seq<seq<byte>>, frame: seq<byte>, fid: bool, lengths: seq<nat>)
    requires !LastFid(sent, fid)
    ensures var (cs, o) := Fill(frame, 0, fid, lengths);
            var sent' := sent + NonEmpty(cs);
            && ByFid(sent') == ByFid(sent) + (if Heard(frame, 0, fid, lengths) then [frame[..o]] else [])
            && (Heard(frame, 0, fid, lengths) ==> LastFid(sent', fid))
  {
    assert frame[..0] == [];
    FidFill(sent, ByFid(sent), frame, 0, fid, false, lengths);
    assert ByFid(sent) + [] == ByFid(sent);
  }

  /** The frame's own segment, from the URB that took it. */
  lemma {:induction false} FirstSegment(frame: seq<byte>, at: int, fid: bool, lengths: seq<nat>)
    requires frame != []
    ensures var o := Fill(frame, 0, fid, lengths).1;
            && (o == |frame| || o == 0 ==> frame[..o] == Segment(Fetched(frame, at, lengths)))
            && (o > 0 ==> Usable(lengths))
  {
    FillProgress(frame, 0, fid, lengths);
    assert frame[..|frame|] == frame;
  }

  lemma {:induction false} NewFrameUnderWay(st: Stream, sent: seq<seq<byte>>, fs: seq<Fetched>, frame: seq<byte>,
                                            at: int, lengths: seq<nat>)
    ensures var (reply, st') := Emit(Stream(frame, 0, !st.fid, at), lengths);
            UnderWay(st', sent + NonEmpty(reply.contents), fs + [Fetched(frame, at, lengths)])
  {
    var fid := !st.fid;
    var o := Fill(frame, 0, fid, lengths).1;
    if 0 < o < |frame| {
      FirstSegment(frame, at, fid, lengths);
      ProgressHeard(frame, 0, fid, lengths);
      if LastFid(sent, fid) {
        FillKeepsCount(sent, frame, 0, fid, lengths);
      } else {
        NewSegment(sent, frame, fid, lengths);
      }
    }
  }

  lemma {:induction false} OneMoreSegment(st: Stream, st': Stream, sent: seq<seq<byte>>, sent': seq<seq<byte>>,
                                          fs: seq<Fetched>, f: Fetched, segment: seq<byte>)
    requires st.offset == 0 && EachSegment(st, sent, fs) && f.frame != []
    requires ByFid(sent') == ByFid(sent) + [segment] && LastFid(sent', st'.fid)
    requires segment == if 0 < st'.offset <= |st'.frame| then st'.frame[..st'.offset] else Segment(f)
    ensures EachSegment(st', sent', fs + [f])
  {
    var n := |fs|;
    forall i | 0 <= i < n + 1
      ensures (fs + [f])[i].frame != [] && ByFid(sent')[i] == SegmentSoFar(st', fs + [f], i)
    {
      if i < n {
        assert ByFid(sent')[i] == ByFid(sent)[i] == SegmentSoFar(st, fs, i) && (fs + [f])[i] == fs[i];
      }
    }
  }

  /** With a segment for every frame so far, a new frame that is heard gets one too. */
  lemma {:induction false} NewFrameSegment(st: Stream, sent: seq<seq<byte>>, fs: seq<Fetched>, frame: seq<byte>,
                                           at: int, lengths: seq<nat>)
    requires st.offset == 0 && EachSegment(st, sent, fs) && !LastFid(sent, !st.fid) && Heard(frame, 0, !st.fid, lengths)
    ensures var (reply, st') := Emit(Stream(frame, 0, !st.fid, at), lengths);
            EachSegment(st', sent + NonEmpty(reply.contents), fs + [Fetched(frame, at, lengths)])
  {
    var (cs, o) := Fill(frame, 0, !st.fid, lengths);
    var st' := Emit(Stream(frame, 0, !st.fid, at), lengths).1;
    HeardNotEmpty(frame, 0, !st.fid, lengths);
    FirstSegment(frame, at, !st.fid, lengths);
    NewSegment(sent, frame, !st.fid, lengths);
    OneMoreSegment(st, st', sent, sent + NonEmpty(cs), fs, Fetched(frame, at, lengths), frame[..o]);
  }

  lemma {:induction false} NewFrameSegments(st: Stream, sent: seq<seq<byte>>, fs: seq<Fetched>, frame: seq<byte>,
                                            at: int, lengths: seq<nat>)
    requires st.offset == 0 && Segments(st, sent, fs)
    ensures var (reply, st') := Emit(Stream(frame, 0, !st.fid, at), lengths);
            Segments(st', sent + NonEmpty(reply.contents), fs + [Fetched(frame, at, lengths)])
  {
    NewFrameUnderWay(st, sent, fs, frame, at, lengths);
    if LastFid(sent, !st.fid) {
      FillKeepsCount(sent, frame, 0, !st.fid, lengths);
    } else {
      NewSegment(sent, frame, !st.fid, lengths);
      if |ByFid(sent)| == |fs| && Heard(frame, 0, !st.fid, lengths) {
        NewFrameSegment(st, sent, fs, frame, at, lengths);
      }
    }
  }

  // ---- the frame under way ----

  /** The packets of the frame under way extend its segment and no other. */
  lemma {:induction false} SegmentGrows(st: Stream, sent: seq<seq<byte>>, lengths: seq<nat>)
    requires LastFid(sent, st.fid) && 0 < st.offset < |st.frame|
    requires ByFid(sent)[|ByFid(sent)| - 1] == st.frame[..st.offset]
    ensures var (cs, o) := Fill(st.frame, st.offset, st.fid, lengths);
            var all, n := ByFid(sent), |ByFid(sent)| - 1;
            ByFid(sent + NonEmpty(cs)) == all[..n] + [st.frame[..o]] && LastFid(sent + NonEmpty(cs), st.fid)
  {
    var all, n := ByFid(sent), |ByFid(sent)| - 1;
    assert all[..n] + [all[n]] == all;
    FidFill(sent, all[..n], st.frame, st.offset, st.fid, true, lengths);
  }

  lemma {:induction false} LastSegmentGrown(st: Stream, st': Stream, sent: seq<seq<byte>>, sent': seq<seq<byte>>,
                                            fs: seq<Fetched>, segment: seq<byte>)
    requires fs != [] && EachSegment(st, sent, fs) && LastFid(sent', st'.fid)
    requires ByFid(sent') == ByFid(sent)[..|fs| - 1] + [segment] && segment == SegmentSoFar(st', fs, |fs| - 1)
    ensures EachSegment(st', sent', fs)
  {
    forall i | 0 <= i < |fs|
      ensures fs[i].frame != [] && ByFid(sent')[i] == SegmentSoFar(st', fs, i)
    {
      if i < |fs| - 1 {
        assert ByFid(sent')[i] == ByFid(sent)[i] == SegmentSoFar(st, fs, i);
      }
    }
  }

  lemma {:induction false} SameFrameSegment(st: Stream, sent: seq<seq<byte>>, fs: seq<Fetched>, lengths: seq<nat>)
    requires st.offset > 0 && UnderWay(st, sent, fs) && EachSegment(st, sent, fs)
    ensures var (reply, st') := Emit(st, lengths); EachSegment(st', sent + NonEmpty(reply.contents), fs)
  {
    var n := |fs| - 1;
    var (cs, o) := Fill(st.frame, st.offset, st.fid, lengths);
    var st' := Emit(st, lengths).1;
    assert ByFid(sent)[n] == SegmentSoFar(st, fs, n) == st.frame[..st.offset];
    SegmentGrows(st, sent, lengths);
    assert st.frame[..|st.frame|] == st.frame;
    LastSegmentGrown(st, st', sent, sent + NonEmpty(cs), fs, st.frame[..o]);
  }

  lemma {:induction false} SameFrameSegments(st: Stream, sent: seq<seq<byte>>, fs: seq<Fetched>, lengths: seq<nat>)
    requires st.offset > 0 && Segments(st, sent, fs)
    ensures var (reply, st') := Emit(st, lengths); Segments(st', sent + NonEmpty(reply.contents), fs)
  {
    FillKeepsCount(sent, st.frame, st.offset, st.fid, lengths);
    if |ByFid(sent)| == |fs| {
      SameFrameSegment(st, sent, fs, lengths);
    }
  }

  // ---- all runs ----

  lemma {:induction false} SegmentsStep(run: Run, interval: int, u: Urb)
    requires Valid(run.stream) && Segments(run.stream, run.sent, run.fetched)
    ensures var r := Step(run, interval, u); Segments(r.stream, r.sent, r.fetched)
  {
    var st := run.stream;
    if TooEarly(st, interval, u.now) {
      NonEmptyEmpties(|u.lengths|);
      assert run.sent + [] == run.sent;
    } else if st.offset > 0 {
      SameFrameSegments(st, run.sent, run.fetched, u.lengths);
    } else if u.next.Some? {
      NewFrameSegments(st, run.sent, run.fetched, u.next.value, u.now, u.lengths);
    }
  }

  lemma {:induction false} RunSegments(interval: int, start: Stream, us: seq<Urb>)
    ensures var r := Exec(interval, start, us); Segments(r.stream, r.sent, r.fetched)
  {
    if us != [] {
      RunSegments(interval, start, us[..|us| - 1]);
      SegmentsStep(Exec(interval, start, us[..|us| - 1]), interval, us[|us| - 1]);
    }
  }

  /** Between frames, splitting at FID changes gives back exactly the frames taken from the source if and
      only if none of them was empty or began in a URB without a usable slot: the same condition as for
      the EOF bit. */
  lemma {:induction false} EveryFrameByFidExactly(interval: int, start: Stream, us: seq<Urb>)
    requires Exec(interval, start, us).stream.offset == 0
    ensures var r := Exec(interval, start, us); ByFid(r.sent) == Frames(r.fetched) <==> AllDeliverable(r.fetched)
  {
    var r := Exec(interval, start, us);
    RunSegments(interval, start, us);
    assert |Frames(r.fetched)| == |r.fetched|;
    if AllDeliverable(r.fetched) {
      FramesByFid(interval, start, us);
    } else if ByFid(r.sent) == Frames(r.fetched) {
      forall i | 0 <= i < |r.fetched|
        ensures Deliverable(r.fetched[i])
      {
        assert ByFid(r.sent)[i] == SegmentSoFar(r.stream, r.fetched, i);
        assert Frames(r.fetched)[i] == r.fetched[i].frame;
      }
    }
  }
}
