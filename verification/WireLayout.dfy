/**
  The bytes themselves: where every field of a message stands, and what a reader makes of any byte string,
  in terms of byte positions and literal values only.
 */
module WireLayout {
  import opened Bytes
  import opened Transfer
  import opened IsoReply
  import opened Codec
  import Devlist

  /** The big-endian words at a position. */
  function U16(s: seq<byte>, at: nat): int
    requires at + 2 <= |s|
  {
    s[at] as int * 256 + s[at + 1] as int
  }

  function U32(s: seq<byte>, at: nat): int
    requires at + 4 <= |s|
  {
    s[at] as int * 16777216 + s[at + 1] as int * 65536 + s[at + 2] as int * 256 + s[at + 3] as int
  }

  // ---- words and descriptors at their positions ----

  lemma {:induction false} U32Tail(s: seq<byte>, at: nat)
    requires at + 8 <= |s|
    ensures U32(s[4..], at) == U32(s, 4 + at)
  {
  }

  lemma {:induction false} WordAt(s: seq<byte>, k: nat)
    requires 4 * k + 4 <= |s|
    ensures ReadWords(s)[k] == U32(s, 4 * k)
  {
    if k > 0 {
      WordAt(s[4..], k - 1);
      U32Tail(s, 4 * (k - 1));
    } else {
      assert s[..4][0] == s[0] && s[..4][1] == s[1] && s[..4][2] == s[2] && s[..4][3] == s[3];
    }
  }

  lemma {:induction false} U32Shift(a: seq<byte>, b: seq<byte>, at: nat)
    requires at + 4 <= |b|
    ensures U32(a + b, |a| + at) == U32(b, at)
  {
  }

  lemma {:induction false} U32Prefix(a: seq<byte>, b: seq<byte>, at: nat)
    requires at + 4 <= |a|
    ensures U32(a + b, at) == U32(a, at)
  {
  }

  lemma {:induction false} WordsAt(ws: seq<u32>, k: nat)
    requires k < |ws|
    ensures U32(Words(ws), 4 * k) == ws[k]
  {
    WordsRoundTrip(ws);
    WordAt(Words(ws), k);
  }

  /** Descriptor d stands at this position: offset, length, actual length, status. */
  predicate DescAt(s: seq<byte>, at: nat, d: IsoDesc) {
    && at + 16 <= |s| && U32(s, at) == d.offset && U32(s, at + 4) == d.length
    && U32(s, at + 8) == d.actual && U32(s, at + 12) == d.status
  }

  lemma {:induction false} DescShift(a: seq<byte>, b: seq<byte>, at: nat, d: IsoDesc)
    requires DescAt(b, at, d)
    ensures DescAt(a + b, |a| + at, d)
  {
  }

  lemma {:induction false} DescsAt(ds: seq<IsoDesc>, i: nat)
    requires i < |ds|
    ensures DescAt(DescsBytes(ds), 16 * i, ds[i])
  {
    var n := |ds| - 1;
    var front, last := DescsBytes(ds[..n]), DescBytes(ds[n]);
    if i < n {
      DescsAt(ds[..n], i);
      U32Prefix(front, last, 16 * i);
      U32Prefix(front, last, 16 * i + 4);
      U32Prefix(front, last, 16 * i + 8);
      U32Prefix(front, last, 16 * i + 12);
    } else {
      var ws := [ds[n].offset, ds[n].length, ds[n].actual, ds[n].status];
      WordsAt(ws, 0);
      WordsAt(ws, 1);
      WordsAt(ws, 2);
      WordsAt(ws, 3);
      DescShift(front, last, 0, ds[n]);
    }
  }

  /** The data of packet d stands at this position. */
  predicate DataAt(s: seq<byte>, at: nat, data: seq<byte>, d: IsoDesc) {
    && at + d.actual <= |s| && d.offset + d.actual <= |data|
    && s[at..at + d.actual] == data[d.offset..d.offset + d.actual]
  }

  lemma {:induction false} DataAppend(a: seq<byte>, b: seq<byte>, at: nat, data: seq<byte>, d: IsoDesc)
    requires DataAt(a, at, data, d)
    ensures DataAt(a + b, at, data, d)
  {
    assert (a + b)[at..at + d.actual] == a[at..at + d.actual];
  }

  lemma {:induction false} DataShift(a: seq<byte>, b: seq<byte>, at: nat, data: seq<byte>, d: IsoDesc)
    requires DataAt(b, at, data, d)
    ensures DataAt(a + b, |a| + at, data, d)
  {
    assert (a + b)[|a| + at..|a| + at + d.actual] == b[at..at + d.actual];
  }

  lemma {:induction false} GatheredAt(data: seq<byte>, isos: seq<IsoDesc>, i: nat)
    requires InBounds(data, isos) && i < |isos|
    ensures DataAt(Gather(data, isos), SumActual(isos[..i]), data, isos[i])
  {
    var n := |isos| - 1;
    GatherLength(data, isos[..n]);
    if i < n {
      GatheredAt(data, isos[..n], i);
      assert isos[..n][..i] == isos[..i];
      DataAppend(Gather(data, isos[..n]), PacketData(data, isos[n]), SumActual(isos[..i]), data, isos[i]);
    } else {
      assert PacketData(data, isos[n])[..isos[n].actual] == PacketData(data, isos[n]);
      DataShift(Gather(data, isos[..n]), PacketData(data, isos[n]), 0, data, isos[n]);
    }
  }

  // ---- commands ----

  /** The basic header common to both commands. */
  predicate HeaderAt(s: seq<byte>, command: byte, h: Header) {
    && |s| >= 48 && s[0] == 0 && s[1] == 0 && s[2] == 0 && s[3] == command
    && U32(s, 4) == h.seqnum && U32(s, 8) == h.devid && U32(s, 12) == h.direction && U32(s, 16) == h.ep
  }

  predicate ParamsAt(s: seq<byte>, p: Params) {
    && |s| >= 48
    && U32(s, 20) == p.flags && U32(s, 24) == p.length && U32(s, 28) == p.startFrame
    && U32(s, 32) == p.packets && U32(s, 36) == p.interval
  }

  /** The setup packet is little-endian. */
  predicate SetupAt(s: seq<byte>, t: Setup) {
    && |s| >= 48 && s[40] == t.requestType && s[41] == t.request
    && s[42] as int + s[43] as int * 256 == t.value && s[44] as int + s[45] as int * 256 == t.index
    && s[46] as int + s[47] as int * 256 == t.length
  }

  /** Words read behind the first four bytes. */
  lemma {:induction false} WordsBehind(s: seq<byte>, n: nat, k: nat)
    requires 4 + 4 * n <= |s| && k < n
    ensures ReadWords(s[4..][..4 * n])[k] == U32(s, 4 + 4 * k)
  {
    WordAt(s[4..][..4 * n], k);
  }

  lemma {:induction false} NineWords(s: seq<byte>)
    requires |s| >= 40
    ensures var ws := ReadWords(s[4..][..36]);
            && |ws| == 9 && ws[0] == U32(s, 4) && ws[1] == U32(s, 8) && ws[2] == U32(s, 12) && ws[3] == U32(s, 16)
            && ws[4] == U32(s, 20) && ws[5] == U32(s, 24) && ws[6] == U32(s, 28) && ws[7] == U32(s, 32)
            && ws[8] == U32(s, 36)
  {
    WordsBehind(s, 9, 0); WordsBehind(s, 9, 1); WordsBehind(s, 9, 2);
    WordsBehind(s, 9, 3); WordsBehind(s, 9, 4); WordsBehind(s, 9, 5);
    WordsBehind(s, 9, 6); WordsBehind(s, 9, 7); WordsBehind(s, 9, 8);
  }

  lemma {:induction false} CommandWord(s: seq<byte>, command: byte)
    requires |s| >= 4
    ensures FromBe32(s[..4]) == command <==> s[0] == 0 && s[1] == 0 && s[2] == 0 && s[3] == command
  {
  }

  lemma {:induction false} SetupParsed(s: seq<byte>)
    requires |s| >= 48
    ensures SetupAt(s, ParseSetup(s[4..][36..44]))
  {
    var t := s[4..][36..44];
    assert t[0] == s[40] && t[1] == s[41];
    assert t[2..4][0] == s[42] && t[2..4][1] == s[43] && t[4..6][0] == s[44] && t[4..6][1] == s[45];
    assert t[6..8][0] == s[46] && t[6..8][1] == s[47];
  }

  /** The bytes of a data phase that come before its descriptors, if it has any. */
  function DataSize(b: Buffer, length: nat): nat { if length == 0 then 0 else SumActual(b.isos) }

  /** Packet i of a data phase behind a 48-byte header. */
  predicate PacketAt(s: seq<byte>, b: Buffer, length: nat, i: nat)
    requires i < |b.isos|
  {
    && DescAt(s, 48 + DataSize(b, length) + 16 * i, b.isos[i])
    && (length > 0 ==> DataAt(s, 48 + SumActual(b.isos[..i]), b.data, b.isos[i]))
  }

  /** A data phase: the front of the buffer, or the packets' data back to back and then their descriptors. */
  ghost predicate BodyAt(s: seq<byte>, b: Buffer, length: nat) {
    && |s| >= 48
    && (b.isos == [] ==> length <= |b.data| && s[48..] == b.data[..length])
    && (b.isos != [] ==> |s| == 48 + DataSize(b, length) + 16 * |b.isos|)
    && forall i :: 0 <= i < |b.isos| ==> PacketAt(s, b, length, i)
  }

  lemma {:induction false} DescBehind(header: seq<byte>, body: seq<byte>, ds: seq<IsoDesc>, i: nat)
    requires i < |ds|
    ensures DescAt(header + (body + DescsBytes(ds)), |header| + |body| + 16 * i, ds[i])
  {
    DescsAt(ds, i);
    DescShift(body, DescsBytes(ds), 16 * i, ds[i]);
    DescShift(header, body + DescsBytes(ds), |body| + 16 * i, ds[i]);
  }

  lemma {:induction false} DataBehind(header: seq<byte>, b: Buffer, descs: seq<byte>, i: nat)
    requires InBounds(b.data, b.isos) && i < |b.isos|
    ensures DataAt(header + (Gather(b.data, b.isos) + descs), |header| + SumActual(b.isos[..i]), b.data, b.isos[i])
  {
    GatheredAt(b.data, b.isos, i);
    DataAppend(Gather(b.data, b.isos), descs, SumActual(b.isos[..i]), b.data, b.isos[i]);
    DataShift(header, Gather(b.data, b.isos) + descs, SumActual(b.isos[..i]), b.data, b.isos[i]);
  }

  lemma {:induction false} BodyLayout(header: seq<byte>, b: Buffer, length: nat)
    requires |header| == 48 && (length > 0 ==> InBounds(b.data, b.isos)) && (b.isos == [] ==> length <= |b.data|)
    ensures BodyAt(header + SendData(b, length), b, length)
  {
    var s := header + SendData(b, length);
    if b.isos == [] {
      assert s[48..] == SendData(b, length);
    } else {
      var body := if length > 0 then Gather(b.data, b.isos) else [];
      if length > 0 { GatherLength(b.data, b.isos); }
      forall i | 0 <= i < |b.isos| ensures PacketAt(s, b, length, i) {
        DescBehind(header, body, b.isos, i);
        if length > 0 { DataBehind(header, b, DescsBytes(b.isos), i); }
      }
    }
  }

  /** Every byte of a CMD_SUBMIT: the 48-byte block, then for OUT transfers the buffer, or packet by packet the
      data of an isochronous one, then the descriptors. */
  lemma {:induction false} SubmitLayout(c: Command)
    requires c.Submit? && Sendable(c)
    ensures var s := Encode(c);
            && HeaderAt(s, 1, c.h) && ParamsAt(s, c.p) && SetupAt(s, c.setup)
            && BodyAt(s, c.transfer, if c.transfer.isIn then 0 else c.p.length)
  {
    var s := Encode(c);
    SubmitFields(c, []);
    assert s + [] == s;
    SubmitBlock(c, s);
    var d := SendData(c.transfer, DataLength(c));
    assert d + [] == d && s[..48] + s[48..] == s && s[48..] == s[4..][44..];
    BodyLayout(s[..48], c.transfer, DataLength(c));
  }

  lemma {:induction false} SubmitBlock(c: Command, s: seq<byte>)
    requires c.Submit? && |s| >= 48 && FromBe32(s[..4]) == CMD_SUBMIT
    requires ReadWords(s[4..][..36]) == SubmitWords(c.h, c.p) && ParseSetup(s[4..][36..44]) == c.setup
    ensures HeaderAt(s, 1, c.h) && ParamsAt(s, c.p) && SetupAt(s, c.setup)
  {
    NineWords(s);
    CommandWord(s, 1);
    SetupParsed(s);
  }

  /** Every byte of a CMD_UNLINK. */
  lemma {:induction false} UnlinkLayout(c: Command)
    requires c.Unlink?
    ensures var s := Encode(c);
            |s| == 48 && HeaderAt(s, 2, c.h) && U32(s, 20) == c.target && forall i :: 24 <= i < 48 ==> s[i] == 0
  {
    var s := Encode(c);
    UnlinkFields(c, []);
    assert s + [] == s;
    CommandWord(s, 2);
    WordsBehind(s, 5, 0); WordsBehind(s, 5, 1); WordsBehind(s, 5, 2); WordsBehind(s, 5, 3); WordsBehind(s, 5, 4);
    assert s[24..] == Zeros(24);
    forall i | 24 <= i < 48 ensures s[i] == 0 { assert s[i] == s[24..][i - 24]; }
  }

  /** The limits of the protocol, in words of the block: endpoint, buffer length and packet count. */
  predicate Excessive(s: seq<byte>)
    requires |s| >= 48
  {
    U32(s, 16) > 127 || U32(s, 24) > 16777216 || (U32(s, 32) > 1024 && U32(s, 32) != 4294967295)
  }

  /** How many bytes a CMD_SUBMIT takes according to its block. */
  function SubmitSize(s: seq<byte>): int
    requires |s| >= 48
  {
    48 + (if U32(s, 12) == 1 then 0 else U32(s, 24)) + if U32(s, 32) == 4294967295 then 0 else 16 * U32(s, 32)
  }

  /** What get_cmd_from_socket makes of any stream of at least 48 bytes: which command it is, when it is
      refused, when it is incomplete, and which fields are read from where. */
  lemma {:induction false} DecodeExactly(s: seq<byte>)
    requires |s| >= 48
    ensures FromBe32(s[..4]) == U32(s, 0)
    ensures U32(s, 0) != 1 && U32(s, 0) != 2 ==> Decode(s) == Err(UnknownCommand)
    ensures U32(s, 0) == 2 ==>
              && Decode(s).Ok? && Decode(s).value.1 == s[48..] && Decode(s).value.0.Unlink?
              && HeaderAt(s, 2, Decode(s).value.0.h) && U32(s, 20) == Decode(s).value.0.target
    ensures U32(s, 0) == 1 ==>
              && (Decode(s) == Err(SocketError) <==> Excessive(s))
              && (Decode(s) == Err(SocketEof) <==> !Excessive(s) && |s| < SubmitSize(s))
              && (Decode(s).Ok? <==> !Excessive(s) && |s| >= SubmitSize(s))
              && (Decode(s).Ok? ==>
                    var (c, rest) := Decode(s).value;
                    && c.Submit? && HeaderAt(s, 1, c.h) && ParamsAt(s, c.p) && SetupAt(s, c.setup)
                    && c.transfer.isIn == (U32(s, 12) == 1) && rest == s[SubmitSize(s)..])
  {
    assert s[..4][0] == s[0] && s[..4][1] == s[1] && s[..4][2] == s[2] && s[..4][3] == s[3];
    CommandWord(s, 1);
    CommandWord(s, 2);
    NineWords(s);
    SetupParsed(s);
    WordsBehind(s, 5, 0); WordsBehind(s, 5, 1); WordsBehind(s, 5, 2); WordsBehind(s, 5, 3); WordsBehind(s, 5, 4);
  }

  // ---- replies ----

  predicate ReplyHeaderAt(s: seq<byte>, h: RetHeader) {
    && |s| >= 48 && s[0] == 0 && s[1] == 0 && s[2] == 0 && s[3] == 3
    && U32(s, 4) == h.seqnum && U32(s, 8) == 0 && U32(s, 12) == 0 && U32(s, 16) == 0
    && U32(s, 20) == h.status && U32(s, 24) == h.actual && U32(s, 28) == h.startFrame && U32(s, 32) == h.packets
    && U32(s, 36) == h.errors && U32(s, 40) == 0 && U32(s, 44) == 0
  }

  /** Every byte of a RET_SUBMIT for an IN transfer with packets. */
  lemma {:induction false} ReplyLayout(h: RetHeader, b: Buffer)
    requires b.isIn && b.isos != [] && InBounds(b.data, b.isos) && h.packets > 0
    ensures ReplyHeaderAt(ReplyBytes(h, b), h) && BodyAt(ReplyBytes(h, b), b, h.actual)
  {
    BodyLayout(HeaderBytes(h), b, h.actual);
    ReplyWords(h, SendData(b, h.actual));
  }

  lemma {:induction false} ReplyWords(h: RetHeader, rest: seq<byte>)
    ensures ReplyHeaderAt(HeaderBytes(h) + rest, h)
  {
    var s := HeaderBytes(h) + rest;
    HeaderRoundTrip(h, rest);
    WordAt(s[..40], 0); WordAt(s[..40], 1); WordAt(s[..40], 2); WordAt(s[..40], 3); WordAt(s[..40], 4);
    WordAt(s[..40], 5); WordAt(s[..40], 6); WordAt(s[..40], 7); WordAt(s[..40], 8); WordAt(s[..40], 9);
    assert s[40..48] == Zeros(8);
    forall i | 40 <= i < 48 ensures s[i] == 0 { assert s[i] == s[40..48][i - 40]; }
  }

  // ---- the device list ----

  /** A text in a field of n bytes: its characters, at most n - 1 of them, then NUL bytes. */
  predicate TextAt(s: seq<byte>, at: nat, n: nat, text: seq<byte>) {
    at + n <= |s| && forall i :: 0 <= i < n ==> s[at + i] == if i < |text| && i < n - 1 then text[i] else 0
  }

  predicate NumbersAt(s: seq<byte>, d: Devlist.UsbDevice) {
    && |s| >= 312 && U32(s, 288) == d.n.busNum && U32(s, 292) == d.n.devNum && U32(s, 296) == d.n.speed
    && U16(s, 300) == d.p.vendor && U16(s, 302) == d.p.product && U16(s, 304) == d.p.bcd
    && s[306] == d.c.class_ && s[307] == d.c.subclass && s[308] == d.c.protocol && s[309] == d.c.configuration
    && s[310] == d.c.configurations && s[311] == |d.interfaces| % 256
  }

  /** Every byte of a device entry. */
  lemma {:induction false} DeviceLayout(d: Devlist.UsbDevice)
    ensures var s := Devlist.Encode(d);
            && |s| == 312 + 4 * |d.interfaces| && TextAt(s, 0, 256, d.path) && TextAt(s, 256, 32, d.busid)
            && NumbersAt(s, d)
            && forall i :: 0 <= i < |d.interfaces| ==>
                 s[312 + 4 * i..316 + 4 * i]
                 == [d.interfaces[i].class_, d.interfaces[i].subclass, d.interfaces[i].protocol, 0]
  {
    var s, head := Devlist.Encode(d), Devlist.DeviceBytes(d);
    RecordLayout(d);
    assert s[..312] == head;
    assert forall i :: 0 <= i < 312 ==> s[i] == head[i];
    forall i | 0 <= i < |d.interfaces|
      ensures s[312 + 4 * i..316 + 4 * i]
              == [d.interfaces[i].class_, d.interfaces[i].subclass, d.interfaces[i].protocol, 0]
    {
      InterfaceAt(d.interfaces, i);
      assert s[312 + 4 * i..316 + 4 * i] == Devlist.InterfacesBytes(d.interfaces)[4 * i..4 * i + 4];
    }
  }

  lemma {:induction false} InterfaceAt(list: seq<Devlist.Interface>, i: nat)
    requires i < |list|
    ensures Devlist.InterfacesBytes(list)[4 * i..4 * i + 4] == [list[i].class_, list[i].subclass, list[i].protocol, 0]
  {
    if i > 0 {
      InterfaceAt(list[1..], i - 1);
      assert Devlist.InterfacesBytes(list)[4 * i..4 * i + 4]
             == Devlist.InterfacesBytes(list[1..])[4 * (i - 1)..4 * (i - 1) + 4];
    }
  }

  lemma {:induction false} RecordLayout(d: Devlist.UsbDevice)
    ensures var s := Devlist.DeviceBytes(d);
            TextAt(s, 0, 256, d.path) && TextAt(s, 256, 32, d.busid) && NumbersAt(s, d)
  {
    var a, b := Devlist.Field(d.path, 256), Devlist.Field(d.busid, 32);
    var ws, t := [d.n.busNum, d.n.devNum, d.n.speed], Devlist.TailBytes(d);
    var s := Devlist.DeviceBytes(d);
    Devlist.CutDevice(a, b, Words(ws), t);
    assert forall i :: 0 <= i < 256 ==> s[i] == s[..256][i];
    assert forall i :: 0 <= i < 32 ==> s[256 + i] == s[256..288][i];
    WordsAt(ws, 0);
    WordsAt(ws, 1);
    WordsAt(ws, 2);
    assert forall i :: 0 <= i < 12 ==> s[288 + i] == s[288..300][i];
    assert s[300] == s[300..302][0] && s[301] == s[300..302][1] && s[302] == s[302..304][0];
    assert s[303] == s[302..304][1] && s[304] == s[304..306][0] && s[305] == s[304..306][1];
    assert s[306] == t[6] && s[307] == t[7] && s[308] == t[8] && s[309] == t[9] && s[310] == t[10] && s[311] == t[11];
  }

  /** The first twelve bytes of the reply: version 1.11, command 5, status and number of entries; the entries
      follow one after the other. */
  lemma {:induction false} ListLayout(status: u32, ds: seq<Devlist.UsbDevice>)
    requires |ds| < 0x1_0000_0000
    ensures var s := Devlist.EncodeList(status, ds);
            && |s| >= 12 && s[..4] == [1, 17, 0, 5] && U32(s, 4) == status && U32(s, 8) == |ds|
            && s[12..] == Devlist.EncodeDevices(ds)
  {
    var s, ws := Devlist.EncodeList(status, ds), [status, |ds|];
    WordsAt(ws, 0);
    WordsAt(ws, 1);
    assert s[4..12] == Words(ws);
    assert forall i :: 0 <= i < 8 ==> s[4 + i] == s[4..12][i];
  }
}
