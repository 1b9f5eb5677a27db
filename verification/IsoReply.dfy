/**
  Isochronous replies: a device fills disjoint slots of a buffer in place, and the client recovers
  every slot from a reply that carries no length prefixes but its descriptors.
 */
module IsoReply {
  import opened UsbIp
  import opened Bytes
  import opened Transfer

  const RET_SUBMIT: u32 := 3

  // ---- slots ----

  /** Slots as the host lays them out: inside the buffer, disjoint, still empty. */
  ghost predicate Slots(isos: seq<IsoDesc>, size: nat) {
    && (forall i :: 0 <= i < |isos| ==> isos[i].offset + isos[i].length <= size && isos[i].actual == 0)
    && (forall i, j {:trigger Apart(isos[i], isos[j])} :: 0 <= i < j < |isos| ==> Apart(isos[i], isos[j]))
  }

  predicate Apart(a: IsoDesc, b: IsoDesc) {
    a.offset + a.length <= b.offset || b.offset + b.length <= a.offset || a.length == 0 || b.length == 0
  }

  /** One byte string per slot, none longer than its slot. */
  ghost predicate FitSlots(isos: seq<IsoDesc>, contents: seq<seq<byte>>) {
    |contents| == |isos| && forall i :: 0 <= i < |isos| ==> |contents[i]| <= isos[i].length
  }

  /** The descriptors after filling: status cleared, actual length recorded. */
  function Filled(isos: seq<IsoDesc>, contents: seq<seq<byte>>): (r: seq<IsoDesc>)
    requires FitSlots(isos, contents)
    ensures |r| == |isos|
  {
    seq(|isos|, i requires 0 <= i < |isos| => isos[i].(actual := |contents[i]|, status := 0))
  }

  /** Slot i of the buffer begins with contents i. */
  ghost predicate Stored(data: seq<byte>, isos: seq<IsoDesc>, contents: seq<seq<byte>>) {
    && |contents| <= |isos|
    && forall i :: 0 <= i < |contents| ==>
         isos[i].offset + |contents[i]| <= |data| && data[isos[i].offset..isos[i].offset + |contents[i]|] == contents[i]
  }

  function Patch(data: seq<byte>, offset: nat, bytes: seq<byte>): (r: seq<byte>)
    requires offset + |bytes| <= |data|
    ensures |r| == |data|
  {
    data[..offset] + bytes + data[offset + |bytes|..]
  }

  /** memcpy into the buffer. */
  method Copy(data: array<byte>, offset: nat, bytes: seq<byte>)
    requires offset + |bytes| <= data.Length
    modifies data
    ensures data[..] == Patch(old(data[..]), offset, bytes)
  {
    for k := 0 to |bytes|
      invariant forall j :: 0 <= j < data.Length ==>
                  data[j] == if offset <= j < offset + k then bytes[j - offset] else old(data[j])
    {
      data[offset + k] := bytes[k];
    }
  }

  lemma {:induction false} PatchSlice(data: seq<byte>, offset: nat, bytes: seq<byte>, lo: nat, hi: nat)
    requires offset + |bytes| <= |data| && lo <= hi <= |data|
    ensures hi <= offset || offset + |bytes| <= lo || bytes == [] ==> Patch(data, offset, bytes)[lo..hi] == data[lo..hi]
    ensures lo == offset && hi == offset + |bytes| ==> Patch(data, offset, bytes)[lo..hi] == bytes
  {
    forall k | lo <= k < hi
      ensures Patch(data, offset, bytes)[k] == if offset <= k < offset + |bytes| then bytes[k - offset] else data[k]
    {
    }
  }

  /** Writing into slot b does not touch what slot a holds. */
  lemma {:induction false} SlotKept(data: seq<byte>, a: IsoDesc, b: IsoDesc, content: seq<byte>, bytes: seq<byte>)
    requires Apart(a, b) && |content| <= a.length && |bytes| <= b.length && b.offset + |bytes| <= |data|
    requires a.offset + |content| <= |data| && data[a.offset..a.offset + |content|] == content
    ensures Patch(data, b.offset, bytes)[a.offset..a.offset + |content|] == content
  {
    if content == [] {
      assert Patch(data, b.offset, bytes)[a.offset..a.offset] == [];
    } else {
      PatchSlice(data, b.offset, bytes, a.offset, a.offset + |content|);
    }
  }

  /** Filling the next slot leaves the earlier ones alone. */
  lemma {:induction false} StoreNext(data: seq<byte>, isos: seq<IsoDesc>, contents: seq<seq<byte>>, bytes: seq<byte>)
    requires Slots(isos, |data|) && Stored(data, isos, contents) && |contents| < |isos|
    requires |bytes| <= isos[|contents|].length
    requires forall i :: 0 <= i < |contents| ==> |contents[i]| <= isos[i].length
    ensures Stored(Patch(data, isos[|contents|].offset, bytes), isos, contents + [bytes])
  {
    var n := |contents|;
    var data' := Patch(data, isos[n].offset, bytes);
    forall i | 0 <= i < n
      ensures data'[isos[i].offset..isos[i].offset + |contents[i]|] == contents[i]
    {
      assert Apart(isos[i], isos[n]);
      SlotKept(data, isos[i], isos[n], contents[i], bytes);
    }
    PatchSlice(data, isos[n].offset, bytes, isos[n].offset, isos[n].offset + |bytes|);
    StoredSnoc(data', isos, contents, bytes);
  }

  lemma {:induction false} StoredSnoc(data: seq<byte>, isos: seq<IsoDesc>, contents: seq<seq<byte>>, bytes: seq<byte>)
    requires Stored(data, isos, contents) && |contents| < |isos|
    requires isos[|contents|].offset + |bytes| <= |data|
    requires data[isos[|contents|].offset..isos[|contents|].offset + |bytes|] == bytes
    ensures Stored(data, isos, contents + [bytes])
  {
    var c := contents + [bytes];
    forall i | 0 <= i < |c|
      ensures isos[i].offset + |c[i]| <= |data| && data[isos[i].offset..isos[i].offset + |c[i]|] == c[i]
    {
      assert c[i] == if i < |contents| then contents[i] else bytes;
    }
  }

  // ---- how much fits ----

  function Concat(contents: seq<seq<byte>>): seq<byte> {
    if contents == [] then [] else Concat(contents[..|contents| - 1]) + contents[|contents| - 1]
  }

  function Range(lo: nat, n: nat): (r: set<int>)
    ensures |r| == n && forall x :: x in r <==> lo <= x < lo + n
  {
    if n == 0 then {} else Range(lo, n - 1) + {lo + n - 1}
  }

  /** The bytes of the buffer that the slots of a list occupy. */
  function Covered(isos: seq<IsoDesc>): set<int> {
    if isos == [] then {} else Covered(isos[..|isos| - 1]) + Range(isos[|isos| - 1].offset, isos[|isos| - 1].length)
  }

  lemma {:induction false} CoveredBy(isos: seq<IsoDesc>, x: int)
    ensures x in Covered(isos) <==> exists i :: 0 <= i < |isos| && isos[i].offset <= x < isos[i].offset + isos[i].length
  {
    if isos != [] {
      var front := isos[..|isos| - 1];
      CoveredBy(front, x);
      if i :| 0 <= i < |front| && front[i].offset <= x < front[i].offset + front[i].length {
        assert isos[i] == front[i];
      }
      if i :| 0 <= i < |isos| && isos[i].offset <= x < isos[i].offset + isos[i].length {
        assert i == |front| || front[i] == isos[i];
      }
    }
  }

  lemma {:induction false} LastSlotApart(isos: seq<IsoDesc>, size: nat)
    requires isos != [] && Slots(isos, size)
    ensures Covered(isos[..|isos| - 1]) !! Range(isos[|isos| - 1].offset, isos[|isos| - 1].length)
  {
    var n := |isos| - 1;
    var front := isos[..n];
    forall x | x in Covered(front) ensures x !in Range(isos[n].offset, isos[n].length) {
      CoveredBy(front, x);
      var i :| 0 <= i < |front| && front[i].offset <= x < front[i].offset + front[i].length;
      assert Apart(isos[i], isos[n]);
    }
  }

  lemma {:induction false} SlotsPrefix(isos: seq<IsoDesc>, contents: seq<seq<byte>>, size: nat, n: nat)
    requires Slots(isos, size) && FitSlots(isos, contents) && n <= |isos|
    ensures Slots(isos[..n], size) && FitSlots(isos[..n], contents[..n])
  {
  }

  lemma {:induction false} ConcatWithinCovered(isos: seq<IsoDesc>, contents: seq<seq<byte>>, size: nat)
    requires Slots(isos, size) && FitSlots(isos, contents)
    ensures |Concat(contents)| <= |Covered(isos)|
  {
    if isos != [] {
      var n := |isos| - 1;
      LastSlotApart(isos, size);
      SlotsPrefix(isos, contents, size, n);
      ConcatWithinCovered(isos[..n], contents[..n], size);
      DisjointSize(Covered(isos[..n]), Range(isos[n].offset, isos[n].length));
    }
  }

  lemma {:induction false} DisjointSize(a: set<int>, b: set<int>)
    requires a !! b
    ensures |a + b| == |a| + |b|
  {
  }

  /** Disjoint slots never carry more than the buffer holds, so the 32-bit total cannot wrap. */
  lemma {:induction false} TotalFits(isos: seq<IsoDesc>, contents: seq<seq<byte>>, size: nat)
    requires Slots(isos, size) && FitSlots(isos, contents)
    ensures |Concat(contents)| <= size
  {
    ConcatWithinCovered(isos, contents, size);
    forall x | x in Covered(isos) ensures x in Range(0, size) { CoveredBy(isos, x); }
    SubsetSize(Covered(isos), Range(0, size));
  }

  lemma {:induction false} SubsetSize(a: set<int>, b: set<int>)
    requires a <= b
    ensures |a| <= |b|
  {
    assert b == a + (b - a);
  }

  // ---- the reply ----

  datatype RetHeader = RetHeader(seqnum: u32, status: u32, actual: u32, startFrame: u32, packets: u32, errors: u32)

  function HeaderBytes(h: RetHeader): (r: seq<byte>)
    ensures |r| == 48
  {
    Words([RET_SUBMIT, h.seqnum, 0, 0, 0, h.status, h.actual, h.startFrame, h.packets, h.errors]) + Zeros(8)
  }

  /** RET_SUBMIT with a transfer attached. */
  function ReplyBytes(h: RetHeader, b: Buffer): seq<byte>
    requires b.isIn && h.actual > 0 ==> InBounds(b.data, b.isos)
    requires b.isIn && b.isos == [] ==> h.actual <= |b.data|
  {
    HeaderBytes(h) + if h.actual > 0 || h.packets > 0 then SendData(b, if b.isIn then h.actual else 0) else []
  }

  function Cut(data: seq<byte>, isos: seq<IsoDesc>): (r: seq<seq<byte>>)
    requires SumActual(isos) <= |data|
  {
    if isos == [] then []
    else
      var front := isos[..|isos| - 1];
      Cut(data, front) + [data[SumActual(front)..SumActual(isos)]]
  }

  /** What follows the header: as many bytes as it says, as many descriptors as it says, and each
      packet's share of the bytes. */
  function ReadBody(h: RetHeader, s: seq<byte>): Option<(RetHeader, seq<IsoDesc>, seq<seq<byte>>, seq<byte>)> {
    var end := h.actual + 16 * h.packets;
    if |s| < end then None
    else
      var isos := ReadDescs(s[h.actual..end], h.packets);
      if SumActual(isos) > h.actual then None else Some((h, isos, Cut(s[..h.actual], isos), s[end..]))
  }

  /** How a client reads the reply to one of its IN transfers. */
  function ReadReply(s: seq<byte>): Option<(RetHeader, seq<IsoDesc>, seq<seq<byte>>, seq<byte>)> {
    if |s| < 48 then None
    else
      var ws := ReadWords(s[..40]);
      if ws[0] != RET_SUBMIT then None else ReadBody(RetHeader(ws[1], ws[5], ws[6], ws[7], ws[8], ws[9]), s[48..])
  }

  lemma {:induction false} GatherStored(data: seq<byte>, isos: seq<IsoDesc>, contents: seq<seq<byte>>)
    requires |contents| == |isos| && Stored(data, isos, contents)
    requires forall i :: 0 <= i < |isos| ==> isos[i].actual == |contents[i]|
    ensures InBounds(data, isos) && Gather(data, isos) == Concat(contents) && SumActual(isos) == |Concat(contents)|
  {
    if isos != [] {
      var n := |isos| - 1;
      forall i | 0 <= i < |isos| ensures isos[i].offset + isos[i].actual <= |data| {}
      GatherStored(data, isos[..n], contents[..n]);
    }
  }

  lemma {:induction false} CutConcat(contents: seq<seq<byte>>, isos: seq<IsoDesc>, more: seq<byte>)
    requires |contents| == |isos| && forall i :: 0 <= i < |isos| ==> isos[i].actual == |contents[i]|
    ensures SumActual(isos) == |Concat(contents)| && Cut(Concat(contents) + more, isos) == contents
  {
    if isos != [] {
      var n := |isos| - 1;
      var front, last := Concat(contents[..n]), contents[n];
      CutConcat(contents[..n], isos[..n], last + more);
      assert Concat(contents) + more == front + (last + more);
      assert (front + (last + more))[|front|..|front| + |last|] == last;
      assert contents == contents[..n] + [last];
    }
  }

  lemma {:induction false} HeaderRoundTrip(h: RetHeader, rest: seq<byte>)
    ensures ReadWords((HeaderBytes(h) + rest)[..40])
            == [RET_SUBMIT, h.seqnum, 0, 0, 0, h.status, h.actual, h.startFrame, h.packets, h.errors]
  {
    var ws := [RET_SUBMIT, h.seqnum, 0, 0, 0, h.status, h.actual, h.startFrame, h.packets, h.errors];
    assert (HeaderBytes(h) + rest)[..40] == Words(ws);
    WordsRoundTrip(ws);
  }

  lemma {:induction false} HeaderThenBody(h: RetHeader, rest: seq<byte>)
    ensures ReadReply(HeaderBytes(h) + rest) == ReadBody(h, rest)
  {
    HeaderRoundTrip(h, rest);
  }

  lemma {:induction false} CutReply(body: seq<byte>, ds: seq<byte>, tail: seq<byte>)
    ensures var s := body + ds + tail; var end := |body| + |ds|;
            |s| == end + |tail| && s[..|body|] == body && s[|body|..end] == ds && s[end..] == tail
  {
  }

  lemma {:induction false} BodyReadable(h: RetHeader, ds: seq<IsoDesc>, contents: seq<seq<byte>>, tail: seq<byte>)
    requires |contents| == |ds| && forall i :: 0 <= i < |ds| ==> ds[i].actual == |contents[i]|
    requires h.actual == |Concat(contents)| && h.packets == |ds|
    ensures ReadBody(h, Concat(contents) + DescsBytes(ds) + tail) == Some((h, ds, contents, tail))
  {
    CutReply(Concat(contents), DescsBytes(ds), tail);
    DescsRoundTrip(ds);
    CutConcat(contents, ds, []);
    assert Concat(contents) + [] == Concat(contents);
  }

  /** The data and descriptors of a filled buffer as they are sent. */
  lemma {:induction false} ReplyParts(h: RetHeader, data: seq<byte>, isos: seq<IsoDesc>, contents: seq<seq<byte>>)
    requires FitSlots(isos, contents) && Stored(data, isos, contents)
    requires h.actual == |Concat(contents)| && h.packets == |isos|
    ensures InBounds(data, Filled(isos, contents)) && (isos == [] ==> h.actual <= |data|)
    ensures ReplyBytes(h, Buffer(data, Filled(isos, contents), true))
            == HeaderBytes(h) + (Concat(contents) + DescsBytes(Filled(isos, contents)))
  {
    var ds := Filled(isos, contents);
    assert Stored(data, ds, contents);
    GatherStored(data, ds, contents);
    if isos == [] {
      assert Concat(contents) == [];
    }
  }

  /** A reply whose header states the total of its slots has exactly 48 + actual + 16 * packets bytes,
      and the client gets back every slot's contents and finds the next message behind it. */
  lemma {:induction false} ReplyReadable(h: RetHeader, data: seq<byte>, isos: seq<IsoDesc>, contents: seq<seq<byte>>,
                                         tail: seq<byte>)
    requires FitSlots(isos, contents) && Stored(data, isos, contents)
    requires h.actual == |Concat(contents)| && h.packets == |isos|
    ensures InBounds(data, Filled(isos, contents)) && (isos == [] ==> h.actual <= |data|)
    ensures var s := ReplyBytes(h, Buffer(data, Filled(isos, contents), true));
            && |s| == 48 + h.actual + 16 * h.packets
            && ReadReply(s + tail) == Some((h, Filled(isos, contents), contents, tail))
  {
    var ds, body := Filled(isos, contents), Concat(contents);
    ReplyParts(h, data, isos, contents);
    JoinTail(HeaderBytes(h), body, DescsBytes(ds), tail);
    HeaderThenBody(h, body + DescsBytes(ds) + tail);
    BodyReadable(h, ds, contents, tail);
  }

  lemma {:induction false} JoinTail(header: seq<byte>, body: seq<byte>, descs: seq<byte>, tail: seq<byte>)
    ensures header + (body + descs) + tail == header + (body + descs + tail)
    ensures |header + (body + descs)| == |header| + |body| + |descs|
  {
  }
}
