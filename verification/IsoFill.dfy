/**
  Filling the slots of an isochronous IN URB one after the other, as the media handlers do, and the
  reply that comes of it.
 */
module IsoFill {
  import opened UsbIp
  import opened Bytes
  import opened Transfer
  import opened IsoReply

  datatype UrbReply = Epipe | Success(total: u32, isos: seq<IsoDesc>)

  function Lengths(isos: seq<IsoDesc>): (r: seq<nat>)
    ensures |r| == |isos|
  {
    seq(|isos|, i requires 0 <= i < |isos| => isos[i].length)
  }

  function Empties(n: nat): (r: seq<seq<byte>>)
    ensures |r| == n
  {
    seq(n, _ => [])
  }

  /** The reply states the total, the descriptors and the buffer agree with the slot contents. */
  ghost predicate Answers(r: UrbReply, isos: seq<IsoDesc>, contents: seq<seq<byte>>, data: seq<byte>) {
    && r.Success? && FitSlots(isos, contents) && r.isos == Filled(isos, contents)
    && r.total == |Concat(contents)| && Stored(data, isos, contents)
  }

  /** Descriptors of a URB of which the first slots have been filled. */
  ghost predicate Described(descs: seq<IsoDesc>, isos: seq<IsoDesc>, contents: seq<seq<byte>>) {
    && |descs| == |isos| >= |contents|
    && (forall j :: 0 <= j < |contents| ==> |contents[j]| <= isos[j].length)
    && (forall j :: 0 <= j < |isos| ==>
          descs[j] == isos[j].(status := 0, actual := if j < |contents| then |contents[j]| else 0))
  }

  method ClearStatus(isos: seq<IsoDesc>) returns (descs: seq<IsoDesc>)
    requires forall i :: 0 <= i < |isos| ==> isos[i].actual == 0
    ensures Described(descs, isos, [])
  {
    descs := isos;
    for i := 0 to |isos|
      invariant |descs| == |isos|
      invariant forall j :: 0 <= j < |isos| ==> descs[j] == if j < i then isos[j].(status := 0) else isos[j]
    {
      descs := descs[i := descs[i].(status := 0)];
    }
  }

  lemma {:induction false} PadEmpties(data: seq<byte>, isos: seq<IsoDesc>, descs: seq<IsoDesc>,
                                      contents: seq<seq<byte>>, n: nat)
    requires Slots(isos, |data|) && Stored(data, isos, contents) && Described(descs, isos, contents)
    requires |contents| + n == |isos|
    decreases n
    ensures var c := contents + Empties(n);
            FitSlots(isos, c) && descs == Filled(isos, c) && Concat(c) == Concat(contents) && Stored(data, isos, c)
  {
    if n == 0 {
      assert contents + Empties(0) == contents;
    } else {
      PadEmpties(data, isos, descs, contents + [[]], n - 1);
      assert contents + [[]] + Empties(n - 1) == contents + Empties(n);
    }
  }

  lemma {:induction false} NothingSent(isos: seq<IsoDesc>, data: seq<byte>)
    requires Slots(isos, |data|)
    ensures FitSlots(isos, Empties(|isos|))
    ensures Answers(Success(0, Filled(isos, Empties(|isos|))), isos, Empties(|isos|), data)
  {
    var descs := seq(|isos|, i requires 0 <= i < |isos| => isos[i].(status := 0));
    PadEmpties(data, isos, descs, [], |isos|);
    assert [] + Empties(|isos|) == Empties(|isos|);
  }

  /** Buffer, descriptors and total after the first slots were filled. */
  ghost predicate Progress(data: seq<byte>, isos: seq<IsoDesc>, descs: seq<IsoDesc>, contents: seq<seq<byte>>,
                           total: nat) {
    Stored(data, isos, contents) && Described(descs, isos, contents) && total == |Concat(contents)|
  }

  method Finish(data: seq<byte>, isos: seq<IsoDesc>, descs: seq<IsoDesc>, ghost contents: seq<seq<byte>>,
                ghost all: seq<seq<byte>>, total: nat) returns (r: UrbReply)
    requires Slots(isos, |data|) && |data| < 0x1_0000_0000 && |contents| <= |isos|
    requires Progress(data, isos, descs, contents, total)
    requires all == contents + Empties(|isos| - |contents|)
    ensures Answers(r, isos, all, data)
  {
    PadEmpties(data, isos, descs, contents, |isos| - |contents|);
    TotalFits(isos, all, |data|);
    r := Success(total, descs);
  }

  /** Write one packet into its slot and record its length. */
  method PutPacket(data: array<byte>, isos: seq<IsoDesc>, descs: seq<IsoDesc>, ghost contents: seq<seq<byte>>,
                   ghost total: nat,
                   packet: seq<byte>, i: nat)
    returns (r: seq<IsoDesc>)
    requires Slots(isos, data.Length) && Progress(data[..], isos, descs, contents, total)
    requires i == |contents| < |isos| && |packet| <= isos[i].length
    modifies data
    ensures Progress(data[..], isos, r, contents + [packet], total + |packet|)
  {
    StoreNext(data[..], isos, contents, packet);
    Copy(data, isos[i].offset, packet);
    r := descs[i := descs[i].(actual := |packet|)];
  }

  /** For every URB answered this way the header's actual_length is the sum of the descriptors' and the
      number of data bytes sent; the reply has 48 + actual_length + 16 * packets bytes and the client
      recovers each slot. */
  lemma {:induction false} AnswerReadable(r: UrbReply, isos: seq<IsoDesc>, contents: seq<seq<byte>>, data: seq<byte>,
                                          seqnum: u32, tail: seq<byte>)
    requires Answers(r, isos, contents, data) && |isos| < 0x1_0000_0000
    ensures InBounds(data, r.isos) && (isos == [] ==> r.total <= |data|)
    ensures |r.isos| == |contents| == |isos| && forall i :: 0 <= i < |isos| ==>
              r.isos[i] == IsoDesc(isos[i].offset, isos[i].length, |contents[i]|, 0)
    ensures var h := RetHeader(seqnum, 0, r.total, 0, |isos|, 0);
            var s := ReplyBytes(h, Buffer(data, r.isos, true));
            && r.total == SumActual(r.isos)
            && |s| == 48 + r.total + 16 * |isos|
            && ReadReply(s + tail) == Some((h, r.isos, contents, tail))
  {
    AnswerTotal(r, isos, contents, data);
    ReplyReadable(RetHeader(seqnum, 0, r.total, 0, |isos|, 0), data, isos, contents, tail);
  }

  lemma {:induction false} AnswerTotal(r: UrbReply, isos: seq<IsoDesc>, contents: seq<seq<byte>>, data: seq<byte>)
    requires Answers(r, isos, contents, data)
    ensures r.total == SumActual(r.isos)
  {
    assert Stored(data, r.isos, contents);
    GatherStored(data, r.isos, contents);
  }
}
