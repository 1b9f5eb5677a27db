/**
  Isochronous transfers of the libusb backend: descriptors are validated against the buffer when
  they arrive, and packet offsets are implied by the packet lengths.
 */
module LibusbIso {
  import opened UsbIp
  import opened Bytes
  import opened Transfer

  /** libusb_iso_packet_descriptor. */
  datatype Packet = Packet(length: u32, actual: u32, status: TransferStatus)

  const WRAP := 0x1_0000_0000

  /** The signed value of a 32-bit status word, and back. */
  function Signed(x: u32): int { if x < 0x8000_0000 then x else x - WRAP }

  function StatusWord(t: TransferStatus): u32 { StatusOfTransfer(t) % WRAP }

  function StoredPacket(d: IsoDesc): Packet { Packet(d.length, d.actual, TransferOfStatus(Signed(d.status))) }

  /** Sum of the lengths of the first n packets: where packet n begins. */
  function Start(ps: seq<Packet>, n: nat): nat
    requires n <= |ps|
  {
    if n == 0 then 0 else Start(ps, n - 1) + ps[n - 1].length
  }

  /** The same sum in the 32-bit arithmetic of the code. */
  function WrappedStart(ps: seq<Packet>, n: nat): u32
    requires n <= |ps|
  {
    if n == 0 then 0 else (WrappedStart(ps, n - 1) + ps[n - 1].length) % WRAP
  }

  /** What the receive loop accepts. */
  ghost predicate Accepted(ps: seq<Packet>, size: nat) {
    Start(ps, |ps|) <= size && forall i :: 0 <= i < |ps| ==> ps[i].actual <= ps[i].length
  }

  /** get_iso_descriptor. */
  function Descriptor(ps: seq<Packet>, i: nat): IsoDesc
    requires i < |ps|
  {
    IsoDesc(WrappedStart(ps, i), ps[i].length, ps[i].actual, StatusWord(ps[i].status))
  }

  lemma {:induction false} StartPrefix(a: seq<Packet>, b: seq<Packet>, n: nat)
    requires n <= |a| && n <= |b| && a[..n] == b[..n]
    ensures Start(a, n) == Start(b, n)
  {
    if n > 0 {
      assert a[..n][..n - 1] == a[..n - 1] && b[..n][..n - 1] == b[..n - 1];
      assert a[n - 1] == a[..n][n - 1] && b[n - 1] == b[..n][n - 1];
      StartPrefix(a, b, n - 1);
    }
  }

  lemma {:induction false} StartMonotone(ps: seq<Packet>, i: nat, j: nat)
    requires i <= j <= |ps|
    ensures Start(ps, i) <= Start(ps, j)
  {
    if i < j {
      StartMonotone(ps, i, j - 1);
    }
  }

  /** Where an accepted packet lies. */
  lemma {:induction false} PacketPlace(ps: seq<Packet>, size: nat, i: nat)
    requires Accepted(ps, size) && i < |ps|
    ensures Start(ps, i) + ps[i].actual <= Start(ps, i) + ps[i].length == Start(ps, i + 1) <= size
  {
    StartMonotone(ps, i + 1, |ps|);
  }

  /** Accepted packets occupy disjoint stretches of the buffer, in order, all inside it. */
  lemma {:induction false} PacketsDisjoint(ps: seq<Packet>, size: nat, i: nat, j: nat)
    requires Accepted(ps, size) && i < j < |ps|
    ensures Start(ps, i) + ps[i].actual <= Start(ps, i) + ps[i].length <= Start(ps, j)
    ensures Start(ps, j) + ps[j].actual <= Start(ps, j) + ps[j].length <= size
  {
    PacketPlace(ps, size, i);
    PacketPlace(ps, size, j);
    StartMonotone(ps, i + 1, j);
  }

  /** Below the buffer limit the 32-bit offsets are the true ones. */
  lemma {:induction false} NoOverflow(ps: seq<Packet>, size: nat, n: nat)
    requires Accepted(ps, size) && size < WRAP && n <= |ps|
    ensures WrappedStart(ps, n) == Start(ps, n)
  {
    if n > 0 {
      NoOverflow(ps, size, n - 1);
      StartMonotone(ps, n, |ps|);
    }
  }

  datatype Outcome = EndOfStream | Refused | Got(packets: seq<Packet>)

  /** Packet n of a stream of descriptors. */
  function Arriving(s: seq<byte>, n: nat): Packet
    requires |s| >= 16 * (n + 1)
  {
    StoredPacket(ReadDesc(s[16 * n..16 * n + 16]))
  }

  /** The receive loop: one descriptor after the other, refused as soon as one does not fit. */
  function Receive(s: seq<byte>, size: nat, n: nat): Outcome {
    if n == 0 then Got([])
    else
      var before := Receive(s, size, n - 1);
      if !before.Got? then before
      else if |s| < 16 * n then EndOfStream
      else
        var ps, p := before.packets, Arriving(s, n - 1);
        if p.actual > p.length || Start(ps, |ps|) + p.length > size then Refused else Got(ps + [p])
  }

  /** The packets a stream describes, checked or not. */
  function Described(s: seq<byte>, n: nat): (r: seq<Packet>)
    requires |s| >= 16 * n
    ensures |r| == n
  {
    if n == 0 then [] else Described(s, n - 1) + [Arriving(s, n - 1)]
  }

  lemma {:induction false} AcceptOne(ps: seq<Packet>, p: Packet, size: nat)
    ensures Accepted(ps + [p], size) <==>
              Accepted(ps, size) && p.actual <= p.length && Start(ps, |ps|) + p.length <= size
    ensures Start(ps + [p], |ps| + 1) == Start(ps, |ps|) + p.length
  {
    var qs := ps + [p];
    StartPrefix(ps, qs, |ps|);
    assert qs[|ps|] == p;
    if Accepted(qs, size) {
      forall i | 0 <= i < |ps| ensures ps[i].actual <= ps[i].length { assert qs[i] == ps[i]; }
    }
  }

  /** The loop accepts exactly the complete lists whose packets fit the buffer one after the other. */
  lemma {:induction false} ReceiveExactly(s: seq<byte>, size: nat, n: nat)
    ensures Receive(s, size, n).Got? <==> |s| >= 16 * n && Accepted(Described(s, n), size)
    ensures Receive(s, size, n).Got? ==> Receive(s, size, n).packets == Described(s, n)
  {
    if n > 0 {
      ReceiveExactly(s, size, n - 1);
      if |s| >= 16 * n {
        AcceptOne(Described(s, n - 1), Arriving(s, n - 1), size);
      }
    }
  }

  /** Why it does not: it refuses exactly if the descriptors that did arrive whole do not fit, and reports the
      end of the stream exactly if they fit but some are missing. */
  lemma {:induction false} ReceiveFailsExactly(s: seq<byte>, size: nat, n: nat)
    ensures var whole := if |s| / 16 < n then |s| / 16 else n;
            && (Receive(s, size, n).Refused? <==> !Accepted(Described(s, whole), size))
            && (Receive(s, size, n).EndOfStream? <==> |s| < 16 * n && Accepted(Described(s, whole), size))
  {
    if n > 0 {
      ReceiveFailsExactly(s, size, n - 1);
      ReceiveExactly(s, size, n - 1);
      ReceiveExactly(s, size, n);
      if |s| >= 16 * n {
        AcceptOne(Described(s, n - 1), Arriving(s, n - 1), size);
      }
    }
  }

  lemma {:induction false} ReceiveStays(s: seq<byte>, size: nat, i: nat, n: nat)
    requires i <= n && !Receive(s, size, i).Got?
    ensures Receive(s, size, n) == Receive(s, size, i)
  {
    if i < n {
      ReceiveStays(s, size, i, n - 1);
    }
  }

  method RecvPackets(sock: Socket, size: nat, packets: nat) returns (r: Outcome)
    modifies sock`unread
    ensures r == Receive(old(sock.unread), size, packets)
    ensures r.Got? ==>
              && |old(sock.unread)| >= 16 * packets && sock.unread == old(sock.unread)[16 * packets..]
              && Accepted(r.packets, size)
  {
    ghost var s := sock.unread;
    var ps: seq<Packet>, total := [], 0;
    for i := 0 to packets
      invariant 16 * i <= |s| && sock.unread == s[16 * i..]
      invariant Receive(s, size, i) == Got(ps) && total == Start(ps, |ps|)
    {
      ghost var next := Receive(s, size, i + 1);
      var bytes := sock.Read(16);
      if bytes.Err? {
        ReceiveStays(s, size, i + 1, packets);
        return EndOfStream;
      }
      assert bytes.value == s[16 * i..16 * i + 16];
      var d := ReadDesc(bytes.value);
      if d.actual > d.length || total + d.length > size {
        ReceiveStays(s, size, i + 1, packets);
        return Refused;
      }
      AcceptOne(ps, StoredPacket(d), size);
      total := total + d.length;
      ps := ps + [StoredPacket(d)];
    }
    ReceiveExactly(s, size, packets);
    r := Got(ps);
  }

  /** The data of the packets back to back. */
  function PacketBytes(buffer: seq<byte>, ps: seq<Packet>, n: nat): seq<byte>
    requires n <= |ps| && Accepted(ps, |buffer|)
  {
    if n == 0 then []
    else
      PacketPlace(ps, |buffer|, n - 1);
      PacketBytes(buffer, ps, n - 1) + buffer[Start(ps, n - 1)..Start(ps, n - 1) + ps[n - 1].actual]
  }

  function Descriptors(ps: seq<Packet>, n: nat): (r: seq<byte>)
    requires n <= |ps|
  {
    if n == 0 then [] else Descriptors(ps, n - 1) + DescBytes(Descriptor(ps, n - 1))
  }

  function SentPackets(buffer: seq<byte>, ps: seq<Packet>, length: nat): seq<byte>
    requires Accepted(ps, |buffer|)
  {
    (if length > 0 then PacketBytes(buffer, ps, |ps|) else []) + Descriptors(ps, |ps|)
  }

  /** The send loop with its running offset writes each packet from its own place and describes it
      as get_iso_descriptor does, although that recomputes every offset from the start. */
  method SendPackets(sock: Socket, buffer: seq<byte>, ps: seq<Packet>, length: nat)
    requires Accepted(ps, |buffer|) && |buffer| < WRAP
    modifies sock`written
    ensures sock.written == old(sock.written) + SentPackets(buffer, ps, length)
  {
    var buffers: seq<byte>, descs: seq<byte>, offset: u32 := [], [], 0;
    for i := 0 to |ps|
      invariant offset == WrappedStart(ps, i) == Start(ps, i)
      invariant buffers == if length > 0 then PacketBytes(buffer, ps, i) else []
      invariant descs == Descriptors(ps, i) && sock.written == old(sock.written)
    {
      NoOverflow(ps, |buffer|, i + 1);
      PacketPlace(ps, |buffer|, i);
      if length > 0 {
        buffers := buffers + buffer[offset..offset + ps[i].actual];
      }
      descs := descs + DescBytes(IsoDesc(offset, ps[i].length, ps[i].actual, StatusWord(ps[i].status)));
      offset := (offset + ps[i].length) % WRAP;
    }
    sock.Write(buffers + descs);
  }

  /** get_iso_descriptor's loop. */
  method GetIsoDescriptor(ps: seq<Packet>, index: nat, size: nat) returns (d: IsoDesc)
    requires index < |ps| && Accepted(ps, size) && size < WRAP
    ensures d == Descriptor(ps, index) && d.offset == Start(ps, index) && d.offset + d.length <= size
  {
    NoOverflow(ps, size, index);
    StartMonotone(ps, index + 1, |ps|);
    var offset: u32 := 0;
    for i := 0 to index
      invariant offset == WrappedStart(ps, i)
    {
      offset := (offset + ps[i].length) % WRAP;
    }
    d := IsoDesc(offset, ps[index].length, ps[index].actual, StatusWord(ps[index].status));
  }

  // ---- what the client reads ----

  /** How many data bytes the first n packets carry. */
  function SentBefore(ps: seq<Packet>, n: nat): nat
    requires n <= |ps|
  {
    if n == 0 then 0 else SentBefore(ps, n - 1) + ps[n - 1].actual
  }

  lemma {:induction false} PacketBytesLength(buffer: seq<byte>, ps: seq<Packet>, n: nat)
    requires n <= |ps| && Accepted(ps, |buffer|)
    ensures |PacketBytes(buffer, ps, n)| == SentBefore(ps, n)
  {
    if n > 0 {
      PacketBytesLength(buffer, ps, n - 1);
      PacketPlace(ps, |buffer|, n - 1);
    }
  }

  lemma {:induction false} CutParts(a: seq<byte>, b: seq<byte>, lo: nat, hi: nat)
    requires lo <= hi <= |a|
    ensures (a + b)[lo..hi] == a[lo..hi] && (a + b)[|a|..] == b
  {
  }

  /** Packet i is found behind the bytes of the packets before it. */
  lemma {:induction false} PacketFound(buffer: seq<byte>, ps: seq<Packet>, n: nat, i: nat)
    requires i < n <= |ps| && Accepted(ps, |buffer|)
    ensures Start(ps, i) + ps[i].actual <= |buffer|
    ensures SentBefore(ps, i) + ps[i].actual <= |PacketBytes(buffer, ps, n)|
    ensures PacketBytes(buffer, ps, n)[SentBefore(ps, i)..SentBefore(ps, i) + ps[i].actual]
            == buffer[Start(ps, i)..Start(ps, i) + ps[i].actual]
  {
    PacketPlace(ps, |buffer|, n - 1);
    PacketPlace(ps, |buffer|, i);
    PacketBytesLength(buffer, ps, n - 1);
    var front := PacketBytes(buffer, ps, n - 1);
    var last := buffer[Start(ps, n - 1)..Start(ps, n - 1) + ps[n - 1].actual];
    if i < n - 1 {
      PacketFound(buffer, ps, n - 1, i);
      CutParts(front, last, SentBefore(ps, i), SentBefore(ps, i) + ps[i].actual);
    } else {
      CutParts(front, last, 0, 0);
      assert (front + last)[|front|..][..|last|] == last;
    }
  }

  /** The descriptors as a list. */
  function DescriptorList(ps: seq<Packet>, n: nat): (r: seq<IsoDesc>)
    requires n <= |ps|
    ensures |r| == n && forall i :: 0 <= i < n ==> r[i] == Descriptor(ps, i)
  {
    if n == 0 then [] else DescriptorList(ps, n - 1) + [Descriptor(ps, n - 1)]
  }

  lemma {:induction false} DescsSnoc(ds: seq<IsoDesc>, d: IsoDesc)
    ensures DescsBytes(ds + [d]) == DescsBytes(ds) + DescBytes(d)
  {
    assert (ds + [d])[..|ds|] == ds;
  }

  lemma {:induction false} DescriptorsBytes(ps: seq<Packet>, n: nat)
    requires n <= |ps|
    ensures Descriptors(ps, n) == DescsBytes(DescriptorList(ps, n))
  {
    if n > 0 {
      DescriptorsBytes(ps, n - 1);
      DescsSnoc(DescriptorList(ps, n - 1), Descriptor(ps, n - 1));
    }
  }

  /** The status words as the client must see them. */
  function WireWord(t: TransferStatus): u32 {
    match t
    case Completed => 0
    case Cancelled => 0xFFFF_FF98
    case Error | Stall | TimedOut | Overflow => 0xFFFF_FFE0
    case NoDevice => 0xFFFF_FF94
    case Unknown => 0xFFFF_FFFE
  }

  lemma {:induction false} WordsMatch(t: TransferStatus)
    ensures StatusWord(t) == WireWord(t)
  {
  }

  /** Descriptor i describes packet i. */
  predicate Describes(d: IsoDesc, ps: seq<Packet>, i: nat)
    requires i < |ps|
  {
    && d.offset == Start(ps, i) && d.length == ps[i].length && d.actual == ps[i].actual
    && d.status == WireWord(ps[i].status)
  }

  lemma {:induction false} DescriptorFound(ps: seq<Packet>, size: nat, i: nat)
    requires Accepted(ps, size) && size < WRAP && i < |ps|
    ensures |Descriptors(ps, |ps|)| == 16 * |ps|
    ensures Describes(ReadDescs(Descriptors(ps, |ps|), |ps|)[i], ps, i)
  {
    DescriptorsBytes(ps, |ps|);
    var list := DescriptorList(ps, |ps|);
    DescsRoundTrip(list);
    assert list[i] == Descriptor(ps, i);
    NoOverflow(ps, size, i);
    WordsMatch(ps[i].status);
  }

  /** From what send_transfer_data writes the client recovers every packet: packet i's bytes follow those of
      the packets before it and are the ones from its own slot; behind the data are as many descriptors, each
      with the slot's place, length, actual length and status. */
  lemma {:induction false} SentReadable(buffer: seq<byte>, ps: seq<Packet>, length: nat, i: nat)
    requires Accepted(ps, |buffer|) && |buffer| < WRAP && i < |ps|
    ensures var s, d := SentPackets(buffer, ps, length), if length > 0 then SentBefore(ps, |ps|) else 0;
            && Start(ps, i) + ps[i].actual <= |buffer| && |s| == d + 16 * |ps|
            && SentBefore(ps, i) + ps[i].actual <= SentBefore(ps, |ps|)
            && (length > 0 ==> s[SentBefore(ps, i)..SentBefore(ps, i) + ps[i].actual]
                               == buffer[Start(ps, i)..Start(ps, i) + ps[i].actual])
            && Describes(ReadDescs(s[d..], |ps|)[i], ps, i)
  {
    PacketFound(buffer, ps, |ps|, i);
    PacketBytesLength(buffer, ps, |ps|);
    DescriptorFound(ps, |buffer|, i);
    var descs := Descriptors(ps, |ps|);
    if length > 0 {
      CutParts(PacketBytes(buffer, ps, |ps|), descs, SentBefore(ps, i), SentBefore(ps, i) + ps[i].actual);
    } else {
      CutParts([], descs, 0, 0);
    }
  }

  /** libusb's status for a status word of the client. */
  function StoredStatus(word: u32): TransferStatus {
    if word == 0 then Completed
    else if word == 0xFFFF_FF98 then Cancelled
    else if word == 0xFFFF_FF92 then TimedOut
    else if word == 0xFFFF_FFE0 then Stall
    else if word == 0xFFFF_FF94 then NoDevice
    else if word == 0xFFFF_FFB5 then Overflow
    else Error
  }

  lemma {:induction false} ArrivingAt(ds: seq<IsoDesc>, tail: seq<byte>, i: nat)
    requires i < |ds|
    ensures Arriving(DescsBytes(ds) + tail, i) == Packet(ds[i].length, ds[i].actual, StoredStatus(ds[i].status))
  {
    var s := DescsBytes(ds) + tail;
    var n := |ds| - 1;
    if i == n {
      assert s[16 * i..16 * i + 16] == DescBytes(ds[i]);
      DescRoundTrip(ds[i]);
    } else {
      ArrivingAt(ds[..n], DescBytes(ds[n]) + tail, i);
      assert s == DescsBytes(ds[..n]) + (DescBytes(ds[n]) + tail);
    }
  }

  /** What arrives of a client's descriptors is each packet's length, actual length and status, in order; the
      offsets it sent play no part. */
  lemma {:induction false} DescribedExactly(ds: seq<IsoDesc>, tail: seq<byte>, n: nat)
    requires n <= |ds|
    ensures |DescsBytes(ds) + tail| >= 16 * n
    ensures forall i :: 0 <= i < n ==>
              Described(DescsBytes(ds) + tail, n)[i] == Packet(ds[i].length, ds[i].actual, StoredStatus(ds[i].status))
  {
    if n > 0 {
      DescribedExactly(ds, tail, n - 1);
      ArrivingAt(ds, tail, n - 1);
    }
  }

  // ---- the header of the reply ----

  /** The packets that did not complete. */
  function FailedPackets(ps: seq<Packet>, n: nat): set<nat>
    requires n <= |ps|
  {
    set i: nat | i < n && ps[i].status != Completed
  }

  lemma {:induction false} FailedSnoc(ps: seq<Packet>, n: nat)
    requires n < |ps|
    ensures |FailedPackets(ps, n + 1)| == |FailedPackets(ps, n)| + if ps[n].status != Completed then 1 else 0
  {
    assert FailedPackets(ps, n + 1) == FailedPackets(ps, n) + if ps[n].status != Completed then {n} else {};
  }

  lemma {:induction false} SentBelowStart(ps: seq<Packet>, size: nat, n: nat)
    requires Accepted(ps, size) && n <= |ps|
    ensures SentBefore(ps, n) <= Start(ps, n) <= size
  {
    StartMonotone(ps, n, |ps|);
    if n > 0 { SentBelowStart(ps, size, n - 1); }
  }

  /** transfer_callback's two loops over the packets of an isochronous IN transfer. */
  method SumPackets(ps: seq<Packet>, size: nat) returns (actual: u32, errors: nat)
    requires Accepted(ps, size) && size < WRAP
    ensures actual == SentBefore(ps, |ps|) && actual <= size
    ensures errors == |FailedPackets(ps, |ps|)|
  {
    actual, errors := 0, 0;
    for i := 0 to |ps|
      invariant actual == SentBefore(ps, i)
    {
      SentBelowStart(ps, size, i + 1);
      actual := actual + ps[i].actual;
    }
    SentBelowStart(ps, size, |ps|);
    for i := 0 to |ps|
      invariant errors == |FailedPackets(ps, i)|
    {
      FailedSnoc(ps, i);
      if ps[i].status != Completed {
        errors := errors + 1;
      }
    }
  }

  /** A header that states this sum announces exactly what is sent: as many data bytes, which are as many as the
      descriptors add up to, and then the descriptors; also when no packet carries data. */
  lemma {:induction false} HeaderAnnounces(buffer: seq<byte>, ps: seq<Packet>)
    requires Accepted(ps, |buffer|) && |buffer| < WRAP
    ensures var actual := SentBefore(ps, |ps|);
            && |SentPackets(buffer, ps, actual)| == actual + 16 * |ps|
            && SumActual(ReadDescs(SentPackets(buffer, ps, actual)[actual..], |ps|)) == actual
  {
    var actual, list := SentBefore(ps, |ps|), DescriptorList(ps, |ps|);
    PacketBytesLength(buffer, ps, |ps|);
    DescriptorsBytes(ps, |ps|);
    DescsRoundTrip(list);
    CutParts(if actual > 0 then PacketBytes(buffer, ps, |ps|) else [], Descriptors(ps, |ps|), 0, 0);
    DescriptorSum(ps, |ps|);
  }

  lemma {:induction false} DescriptorSum(ps: seq<Packet>, n: nat)
    requires n <= |ps|
    ensures SumActual(DescriptorList(ps, n)) == SentBefore(ps, n)
  {
    if n > 0 {
      DescriptorSum(ps, n - 1);
      SumSnoc(DescriptorList(ps, n - 1), Descriptor(ps, n - 1));
    }
  }

  lemma {:induction false} SumSnoc(ds: seq<IsoDesc>, d: IsoDesc)
    ensures SumActual(ds + [d]) == SumActual(ds) + d.actual
  {
    assert (ds + [d])[..|ds|] == ds;
  }
}
