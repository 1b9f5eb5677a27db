/**
  USB/IP commands on the wire: CMD_SUBMIT and CMD_UNLINK, big-endian except for the setup packet,
  each message delimiting itself.
 */
module Codec {
  import opened Bytes
  import opened Transfer

  const CMD_SUBMIT: u32 := 1
  const CMD_UNLINK: u32 := 2
  const DIRECTION_IN: u32 := 1
  const MAX_ENDPOINT: u32 := 0x7F
  const MAX_TRANSFER_BUFFER: u32 := 0x100_0000
  const MAX_ISO_PACKETS: u32 := 1024
  const NO_ISO_PACKETS: u32 := 0xFFFF_FFFF

  datatype Setup = Setup(requestType: byte, request: byte, value: u16, index: u16, length: u16)

  datatype Header = Header(seqnum: u32, devid: u32, direction: u32, ep: u32)

  /** The five words between the basic header and the setup packet. */
  datatype Params = Params(flags: u32, length: u32, startFrame: u32, packets: u32, interval: u32)

  datatype Command =
    | Submit(h: Header, p: Params, setup: Setup, transfer: Buffer)
    | Unlink(h: Header, target: u32)

  // ---- setup packet ----

  function SetupBytes(s: Setup): (r: seq<byte>)
    ensures |r| == 8
  {
    [s.requestType, s.request] + Le16(s.value) + Le16(s.index) + Le16(s.length)
  }

  function ParseSetup(b: seq<byte>): Setup
    requires |b| == 8
  {
    Setup(b[0], b[1], FromLe16(b[2..4]), FromLe16(b[4..6]), FromLe16(b[6..8]))
  }

  /** The setup packet survives the wire, and every eight bytes are some setup packet. */
  lemma SetupRoundTrip(s: Setup, b: seq<byte>)
    requires |b| == 8
    ensures ParseSetup(SetupBytes(s)) == s && SetupBytes(ParseSetup(b)) == b
  {
    var t := SetupBytes(s);
    assert t[2..4] == Le16(s.value) && t[4..6] == Le16(s.index) && t[6..8] == Le16(s.length);
    var u := ParseSetup(b);
    assert Le16(u.value) == b[2..4] && Le16(u.index) == b[4..6] && Le16(u.length) == b[6..8];
  }

  // ---- encoding ----

  function SubmitWords(h: Header, p: Params): seq<u32> {
    [h.seqnum, h.devid, h.direction, h.ep, p.flags, p.length, p.startFrame, p.packets, p.interval]
  }

  /** The data phase only travels with OUT transfers. */
  function DataLength(c: Command): nat
    requires c.Submit?
  {
    if c.transfer.isIn then 0 else c.p.length
  }

  /** Memory the sender touches exists. */
  ghost predicate Sendable(c: Command) {
    c.Submit? ==>
      && (DataLength(c) > 0 ==> InBounds(c.transfer.data, c.transfer.isos))
      && (c.transfer.isos == [] ==> DataLength(c) <= |c.transfer.data|)
  }

  function Encode(c: Command): seq<byte>
    requires Sendable(c)
  {
    match c
    case Submit(h, p, setup, transfer) =>
      Be32(CMD_SUBMIT) + Words(SubmitWords(h, p)) + SetupBytes(setup) + SendData(transfer, DataLength(c))
    case Unlink(h, target) => Be32(CMD_UNLINK) + Words([h.seqnum, h.devid, h.direction, h.ep, target]) + Zeros(24)
  }

  // ---- decoding ----

  function NumIso(packets: u32): nat { if packets == NO_ISO_PACKETS then 0 else packets }

  predicate InLimits(h: Header, p: Params) {
    && h.ep <= MAX_ENDPOINT && p.length <= MAX_TRANSFER_BUFFER
    && (p.packets == NO_ISO_PACKETS || p.packets <= MAX_ISO_PACKETS)
  }

  function DecodeSubmit(s: seq<byte>): Result<(Command, seq<byte>)> {
    if |s| < 44 then Err(SocketEof)
    else
      var ws := ReadWords(s[..36]);
      var h, p := Header(ws[0], ws[1], ws[2], ws[3]), Params(ws[4], ws[5], ws[6], ws[7], ws[8]);
      if !InLimits(h, p) then Err(SocketError)
      else
        var isIn := h.direction == DIRECTION_IN;
        match ReceiveData(s[44..], p.length, NumIso(p.packets), isIn, if isIn then 0 else p.length)
        case Ok((b, rest)) => Ok((Submit(h, p, ParseSetup(s[36..44]), b), rest))
        case Err(e) => Err(e)
  }

  function DecodeUnlink(s: seq<byte>): Result<(Command, seq<byte>)> {
    if |s| < 44 then Err(SocketEof)
    else
      var ws := ReadWords(s[..20]);
      Ok((Unlink(Header(ws[0], ws[1], ws[2], ws[3]), ws[4]), s[44..]))
  }

  /** get_cmd_from_socket on what the peer has sent; the remaining bytes are left in the stream. */
  function Decode(s: seq<byte>): Result<(Command, seq<byte>)> {
    if |s| < 4 then Err(SocketEof)
    else
      var command := FromBe32(s[..4]);
      if command == CMD_SUBMIT then DecodeSubmit(s[4..])
      else if command == CMD_UNLINK then DecodeUnlink(s[4..])
      else Err(UnknownCommand)
  }

  // ---- round trip ----

  /** What a submit must satisfy to arrive as it was sent. */
  ghost predicate Wireable(c: Command) {
    c.Submit? ==>
      && InLimits(c.h, c.p)
      && |c.transfer.isos| == NumIso(c.p.packets)
      && |c.transfer.data| == c.p.length
      && c.transfer.isIn == (c.h.direction == DIRECTION_IN)
      && PayloadKept(c.transfer)
  }

  /** An IN buffer is still blank; the packets of an OUT buffer, in order, are the whole buffer. */
  ghost predicate PayloadKept(b: Buffer) {
    && (b.isIn ==> b.data == Zeros(|b.data|))
    && (!b.isIn && b.isos != [] && b.data != [] ==> InBounds(b.data, b.isos) && Gather(b.data, b.isos) == b.data)
  }

  lemma CutBlock(a: seq<byte>, w: seq<byte>, t: seq<byte>, d: seq<byte>, tail: seq<byte>)
    requires |a| == 4 && |w| == 36 && |t| == 8
    ensures var s := a + w + t + d + tail;
            && |s| >= 48 && s[..4] == a && s[4..][..36] == w && s[4..][36..44] == t && s[4..][44..] == d + tail
  {
  }

  /** Cutting an encoded submit, with anything after it, at its field boundaries. */
  lemma SubmitFields(c: Command, tail: seq<byte>)
    requires c.Submit? && Sendable(c)
    ensures var s := (Encode(c) + tail);
            && |s| >= 48 && FromBe32(s[..4]) == CMD_SUBMIT
            && ReadWords(s[4..][..36]) == SubmitWords(c.h, c.p)
            && ParseSetup(s[4..][36..44]) == c.setup
            && s[4..][44..] == SendData(c.transfer, DataLength(c)) + tail
  {
    var w, t, d := Words(SubmitWords(c.h, c.p)), SetupBytes(c.setup), SendData(c.transfer, DataLength(c));
    CutBlock(Be32(CMD_SUBMIT), w, t, d, tail);
    Be32RoundTrip(CMD_SUBMIT);
    WordsRoundTrip(SubmitWords(c.h, c.p));
    SetupRoundTrip(c.setup, t);
  }

  lemma UnlinkFields(c: Command, tail: seq<byte>)
    requires c.Unlink?
    ensures var s := (Encode(c) + tail);
            && |s| >= 48 && FromBe32(s[..4]) == CMD_UNLINK
            && ReadWords(s[4..][..20]) == [c.h.seqnum, c.h.devid, c.h.direction, c.h.ep, c.target]
            && s[4..][44..] == tail
  {
    var ws := [c.h.seqnum, c.h.devid, c.h.direction, c.h.ep, c.target];
    var s := Encode(c) + tail;
    assert s[..4] == Be32(CMD_UNLINK);
    Be32RoundTrip(CMD_UNLINK);
    assert s[4..] == Words(ws) + Zeros(24) + tail;
    assert s[4..][..20] == Words(ws) && s[4..][44..] == tail;
    WordsRoundTrip(ws);
  }

  lemma CutThree(a: seq<byte>, b: seq<byte>, c: seq<byte>)
    ensures var s := a + b + c; s[..|a|] == a && s[|a|..|a| + |b|] == b && s[|a| + |b|..] == c
  {
  }

  lemma ReceiveParts(body: seq<byte>, isos: seq<IsoDesc>, tail: seq<byte>, size: nat, isIn: bool)
    requires |body| <= size
    ensures ReceiveData(body + DescsBytes(isos) + tail, size, |isos|, isIn, |body|)
            == Ok((Buffer(body + Zeros(size - |body|), isos, isIn), tail))
  {
    CutThree(body, DescsBytes(isos), tail);
    DescsRoundTrip(isos);
  }

  /** A buffer that keeps its payload comes back whole from what was sent of it. */
  lemma BufferRoundTrip(b: Buffer, tail: seq<byte>)
    requires !b.isIn && b.data != [] ==> InBounds(b.data, b.isos)
    requires PayloadKept(b)
    ensures var length := if b.isIn then 0 else |b.data|;
            ReceiveData(SendData(b, length) + tail, |b.data|, |b.isos|, b.isIn, length) == Ok((b, tail))
  {
    var body := if b.isIn then [] else b.data;
    assert SendData(b, |body|) == body + DescsBytes(b.isos);
    ReceiveParts(body, b.isos, tail, |b.data|, b.isIn);
    assert body + Zeros(|b.data| - |body|) == b.data;
  }

  /** Packets laid out back to back over the whole buffer keep their payload. */
  lemma CompactKeepsPayload(b: Buffer)
    requires !b.isIn && Compact(b.isos) && SumActual(b.isos) == |b.data|
    ensures InBounds(b.data, b.isos) && PayloadKept(b)
  {
    CompactGather(b.data, b.isos);
  }

  /** A wireable command arrives as it was sent and takes exactly its own bytes. */
  lemma CommandRoundTrip(c: Command, tail: seq<byte>)
    requires Sendable(c) && Wireable(c)
    ensures Decode(Encode(c) + tail) == Ok((c, tail))
  {
    if c.Submit? {
      SubmitFields(c, tail);
      BufferRoundTrip(c.transfer, tail);
    } else {
      UnlinkFields(c, tail);
    }
  }

  /** Conversely, a buffer that comes back whole kept its payload. */
  lemma BufferRoundTripNecessary(b: Buffer, length: nat)
    requires !b.isIn && b.data != [] ==> InBounds(b.data, b.isos)
    requires length == if b.isIn then 0 else |b.data|
    requires ReceiveData(SendData(b, length), |b.data|, |b.isos|, b.isIn, length) == Ok((b, []))
    ensures PayloadKept(b)
  {
    var s := SendData(b, length);
    if b.isIn {
      assert b.data == s[..0] + Zeros(|b.data|);
    } else if b.isos != [] && b.data != [] {
      var g := Gather(b.data, b.isos);
      assert |s| == length + 16 * |b.isos|;
      assert (g + DescsBytes(b.isos))[..|g|] == g;
      assert b.data == s[..length] + Zeros(0);
    }
  }

  /** What a successful decoding of an encoded submit says about its buffer. */
  lemma {:induction false} DecodedSubmit(c: Command)
    requires c.Submit? && Sendable(c)
    ensures Decode(Encode(c)) == Ok((c, [])) ==>
              var isIn := c.h.direction == DIRECTION_IN;
              var s, length := SendData(c.transfer, DataLength(c)), if isIn then 0 else c.p.length;
              && InLimits(c.h, c.p)
              && ReceiveData(s, c.p.length, NumIso(c.p.packets), isIn, length) == Ok((c.transfer, []))
  {
    SubmitFields(c, []);
    assert Encode(c) + [] == Encode(c);
    assert SendData(c.transfer, DataLength(c)) + [] == SendData(c.transfer, DataLength(c));
  }

  lemma {:induction false} ReceivedShape(s: seq<byte>, size: nat, packets: nat, isIn: bool, length: nat)
    requires length <= size && ReceiveData(s, size, packets, isIn, length).Ok?
    ensures var b := ReceiveData(s, size, packets, isIn, length).value.0;
            |b.data| == size && |b.isos| == packets && b.isIn == isIn
  {
  }

  lemma {:induction false} RoundTripNecessary(c: Command)
    requires Sendable(c)
    ensures Decode(Encode(c)) == Ok((c, [])) ==> Wireable(c)
  {
    if c.Submit? && Decode(Encode(c)) == Ok((c, [])) {
      DecodedSubmit(c);
      var isIn := c.h.direction == DIRECTION_IN;
      var s, length := SendData(c.transfer, DataLength(c)), if isIn then 0 else c.p.length;
      ReceivedShape(s, c.p.length, NumIso(c.p.packets), isIn, length);
      BufferRoundTripNecessary(c.transfer, length);
    }
  }

  /** The exact condition: a command decodes to itself, with nothing left over, if and only if it is
      wireable. */
  lemma RoundTripExactly(c: Command)
    requires Sendable(c)
    ensures Decode(Encode(c)) == Ok((c, [])) <==> Wireable(c)
  {
    if Wireable(c) {
      assert Encode(c) + [] == Encode(c);
      CommandRoundTrip(c, []);
    }
    RoundTripNecessary(c);
  }

  // ---- streams ----

  ghost predicate AllWireable(cs: seq<Command>) {
    forall i :: 0 <= i < |cs| ==> Sendable(cs[i]) && Wireable(cs[i])
  }

  function EncodeAll(cs: seq<Command>): seq<byte>
    requires forall i :: 0 <= i < |cs| ==> Sendable(cs[i])
  {
    if cs == [] then [] else Encode(cs[0]) + EncodeAll(cs[1..])
  }

  /** Decoding never invents bytes: it leaves a proper suffix of the stream. */
  lemma DecodeConsumes(s: seq<byte>)
    requires Decode(s).Ok?
    ensures var (c, rest) := Decode(s).value;
            && |rest| <= |s| - 48 && rest == s[|s| - |rest|..]
            && (c.Submit? ==> InLimits(c.h, c.p) && |s| - |rest| == 48 + DataLength(c) + 16 * |c.transfer.isos|)
            && (c.Unlink? ==> |s| - |rest| == 48)
  {
  }

  /** The commands of a stream up to its end or the first error. */
  function DecodeAll(s: seq<byte>): (seq<Command>, WireError)
    decreases |s|
  {
    match Decode(s)
    case Err(e) => ([], e)
    case Ok((c, rest)) =>
      DecodeConsumes(s);
      var (cs, e) := DecodeAll(rest);
      ([c] + cs, e)
  }

  lemma DecodeAllStep(s: seq<byte>, c: Command, rest: seq<byte>)
    requires Decode(s) == Ok((c, rest))
    ensures DecodeAll(s) == ([c] + DecodeAll(rest).0, DecodeAll(rest).1)
  {
  }

  /** Any list of wireable commands sent back to back is read back as that list, and then the stream
      is at its end. */
  lemma {:induction false} StreamRoundTrip(cs: seq<Command>)
    requires AllWireable(cs)
    ensures DecodeAll(EncodeAll(cs)) == (cs, SocketEof)
  {
    if cs != [] {
      var s, tail := EncodeAll(cs), EncodeAll(cs[1..]);
      CommandRoundTrip(cs[0], tail);
      DecodeAllStep(s, cs[0], tail);
      StreamRoundTrip(cs[1..]);
      assert [cs[0]] + cs[1..] == cs;
    }
  }

  /** No two lists share an encoding. */
  lemma EncodingInjective(a: seq<Command>, b: seq<Command>)
    requires AllWireable(a) && AllWireable(b) && EncodeAll(a) == EncodeAll(b)
    ensures a == b
  {
    StreamRoundTrip(a);
    StreamRoundTrip(b);
  }

  lemma ShortReceive(s: seq<byte>, cut: nat, size: nat, packets: nat, isIn: bool, length: nat)
    requires length <= size && cut < |s| && ReceiveData(s, size, packets, isIn, length).Ok?
    requires ReceiveData(s, size, packets, isIn, length).value.1 == []
    ensures ReceiveData(s[..cut], size, packets, isIn, length) == Err(SocketEof)
  {
  }

  lemma ShortSubmit(s: seq<byte>, cut: nat)
    requires cut < |s| && DecodeSubmit(s).Ok? && DecodeSubmit(s).value.1 == []
    ensures DecodeSubmit(s[..cut]) == Err(SocketEof)
  {
    if cut >= 44 {
      var p, h := DecodeSubmit(s).value.0.p, DecodeSubmit(s).value.0.h;
      var isIn := h.direction == DIRECTION_IN;
      assert s[..cut][..36] == s[..36] && s[..cut][44..] == s[44..][..cut - 44];
      ShortReceive(s[44..], cut - 44, p.length, NumIso(p.packets), isIn, if isIn then 0 else p.length);
    }
  }

  /** A command cut short is never mistaken for another one: whatever bytes form one command, no
      proper prefix of them does, and the reader reports the end of the stream. */
  lemma PrefixFree(s: seq<byte>, cut: nat)
    requires cut < |s| && Decode(s).Ok? && Decode(s).value.1 == []
    ensures Decode(s[..cut]) == Err(SocketEof)
  {
    if cut >= 4 {
      assert s[..cut][..4] == s[..4] && s[..cut][4..] == s[4..][..cut - 4];
      if Decode(s).value.0.Submit? {
        ShortSubmit(s[4..], cut - 4);
      }
    }
  }

  // ---- the reader ----

  method RecvSubmit(sock: Socket) returns (r: Result<Command>)
    modifies sock`unread
    ensures match DecodeSubmit(old(sock.unread))
            case Ok((c, rest)) => r == Ok(c) && sock.unread == rest
            case Err(e) => r == Err(e)
  {
    var block := sock.Read(44);
    if block.Err? {
      return Err(block.error);
    }
    ghost var s := old(sock.unread);
    assert block.value[..36] == s[..36] && block.value[36..44] == s[36..44];
    var ws := ReadWords(block.value[..36]);
    var h, p := Header(ws[0], ws[1], ws[2], ws[3]), Params(ws[4], ws[5], ws[6], ws[7], ws[8]);
    if h.ep > MAX_ENDPOINT {
      return Err(SocketError);
    }
    var setup := ParseSetup(block.value[36..44]);
    if p.length > MAX_TRANSFER_BUFFER {
      return Err(SocketError);
    }
    if p.packets != NO_ISO_PACKETS && p.packets > MAX_ISO_PACKETS {
      return Err(SocketError);
    }
    var isIn := h.direction == DIRECTION_IN;
    var b := sock.RecvTransferData(p.length, NumIso(p.packets), isIn, if isIn then 0 else p.length);
    r := if b.Ok? then Ok(Submit(h, p, setup, b.value)) else Err(b.error);
  }

  method GetCommand(sock: Socket) returns (r: Result<Command>)
    modifies sock`unread
    ensures match Decode(old(sock.unread))
            case Ok((c, rest)) => r == Ok(c) && sock.unread == rest
            case Err(e) => r == Err(e)
  {
    var word := sock.Read(4);
    if word.Err? {
      return Err(word.error);
    }
    var command := FromBe32(word.value);
    if command == CMD_SUBMIT {
      r := RecvSubmit(sock);
    } else if command == CMD_UNLINK {
      var block := sock.Read(44);
      if block.Err? {
        return Err(block.error);
      }
      ghost var s := old(sock.unread)[4..];
      assert block.value[..20] == s[..20];
      var ws := ReadWords(block.value[..20]);
      r := Ok(Unlink(Header(ws[0], ws[1], ws[2], ws[3]), ws[4]));
    } else {
      r := Err(UnknownCommand);
    }
  }
}
