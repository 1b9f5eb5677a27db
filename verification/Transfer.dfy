/**
  Transfer buffers of virtual devices and how they cross the socket: the data phase and the
  isochronous packet descriptors, without any length prefix of their own.
 */
module Transfer {
  import opened Bytes

  datatype WireError = SocketEof | SocketError | UnknownCommand

  datatype Result<T> = Ok(value: T) | Err(error: WireError)

  datatype IsoDesc = IsoDesc(offset: u32, length: u32, actual: u32, status: u32)

  datatype Buffer = Buffer(data: seq<byte>, isos: seq<IsoDesc>, isIn: bool)

  function DescBytes(d: IsoDesc): seq<byte> { Words([d.offset, d.length, d.actual, d.status]) }

  function ReadDesc(s: seq<byte>): IsoDesc
    requires |s| == 16
  {
    var ws := ReadWords(s);
    IsoDesc(ws[0], ws[1], ws[2], ws[3])
  }

  function DescsBytes(ds: seq<IsoDesc>): (r: seq<byte>)
    ensures |r| == 16 * |ds|
  {
    if ds == [] then [] else DescsBytes(ds[..|ds| - 1]) + DescBytes(ds[|ds| - 1])
  }

  function ReadDescs(s: seq<byte>, n: nat): (r: seq<IsoDesc>)
    requires |s| == 16 * n
    ensures |r| == n
  {
    if n == 0 then [] else ReadDescs(s[..16 * (n - 1)], n - 1) + [ReadDesc(s[16 * (n - 1)..])]
  }

  lemma DescRoundTrip(d: IsoDesc)
    ensures ReadDesc(DescBytes(d)) == d
  {
    WordsRoundTrip([d.offset, d.length, d.actual, d.status]);
  }

  lemma {:induction false} DescsRoundTrip(ds: seq<IsoDesc>)
    ensures ReadDescs(DescsBytes(ds), |ds|) == ds
  {
    if ds != [] {
      var front, last := ds[..|ds| - 1], ds[|ds| - 1];
      DescsRoundTrip(front);
      DescRoundTrip(last);
    }
  }

  /** Every packet's data lies inside the buffer. */
  ghost predicate InBounds(data: seq<byte>, isos: seq<IsoDesc>) {
    forall i :: 0 <= i < |isos| ==> isos[i].offset + isos[i].actual <= |data|
  }

  function PacketData(data: seq<byte>, d: IsoDesc): seq<byte>
    requires d.offset + d.actual <= |data|
  {
    data[d.offset..d.offset + d.actual]
  }

  /** The packets' data back to back, as it is sent. */
  function Gather(data: seq<byte>, isos: seq<IsoDesc>): (r: seq<byte>)
    requires InBounds(data, isos)
  {
    if isos == [] then [] else Gather(data, isos[..|isos| - 1]) + PacketData(data, isos[|isos| - 1])
  }

  function SumActual(isos: seq<IsoDesc>): nat {
    if isos == [] then 0 else SumActual(isos[..|isos| - 1]) + isos[|isos| - 1].actual
  }

  lemma {:induction false} GatherLength(data: seq<byte>, isos: seq<IsoDesc>)
    requires InBounds(data, isos)
    ensures |Gather(data, isos)| == SumActual(isos)
  {
    if isos != [] {
      GatherLength(data, isos[..|isos| - 1]);
    }
  }

  /** Each packet starts where the one before ended. */
  predicate Compact(isos: seq<IsoDesc>) {
    isos == []
    || (Compact(isos[..|isos| - 1]) && isos[|isos| - 1].offset == SumActual(isos[..|isos| - 1]))
  }

  lemma {:induction false} InBoundsSnoc(data: seq<byte>, front: seq<IsoDesc>, last: IsoDesc)
    requires InBounds(data, front) && last.offset + last.actual <= |data|
    ensures InBounds(data, front + [last])
    ensures Gather(data, front + [last]) == Gather(data, front) + PacketData(data, last)
  {
    var isos := front + [last];
    assert isos[..|front|] == front;
    forall i | 0 <= i < |isos|
      ensures isos[i].offset + isos[i].actual <= |data|
    {
      if i < |front| { assert isos[i] == front[i]; }
    }
  }

  lemma {:induction false} JoinSlices(data: seq<byte>, a: nat, b: nat)
    requires a <= b <= |data|
    ensures data[..a] + data[a..b] == data[..b]
  {
  }

  /** Compact packets that fill the buffer are the buffer. */
  lemma {:induction false} CompactGather(data: seq<byte>, isos: seq<IsoDesc>)
    requires Compact(isos) && SumActual(isos) <= |data|
    ensures InBounds(data, isos) && Gather(data, isos) == data[..SumActual(isos)]
  {
    if isos != [] {
      var front, last := isos[..|isos| - 1], isos[|isos| - 1];
      CompactGather(data, front);
      InBoundsSnoc(data, front, last);
      assert front + [last] == isos;
      JoinSlices(data, last.offset, last.offset + last.actual);
    }
  }

  /** send_transfer_data of the generic operator. */
  function SendData(b: Buffer, length: nat): seq<byte>
    requires (length > 0 ==> InBounds(b.data, b.isos)) && (b.isos == [] ==> length <= |b.data|)
  {
    if b.isos == [] then b.data[..length]
    else (if length > 0 then Gather(b.data, b.isos) else []) + DescsBytes(b.isos)
  }

  /** recv_transfer_data into a fresh buffer of the given size. */
  function ReceiveData(s: seq<byte>, size: nat, packets: nat, isIn: bool, length: nat): Result<(Buffer, seq<byte>)>
    requires length <= size
  {
    if |s| < length + 16 * packets then Err(SocketEof)
    else Ok((Buffer(s[..length] + Zeros(size - length), ReadDescs(s[length..length + 16 * packets], packets), isIn),
             s[length + 16 * packets..]))
  }

  /** A blocking stream socket: what the peer has sent and not been read, and what was written. */
  class Socket {
    var unread: seq<byte>
    var written: seq<byte>

    constructor (input: seq<byte>)
      ensures unread == input && written == []
    {
      unread, written := input, [];
    }

    /** Read exactly n bytes, or fail at the end of the stream. */
    method Read(n: nat) returns (r: Result<seq<byte>>)
      modifies this`unread
      ensures |old(unread)| < n ==> r == Err(SocketEof) && unread == old(unread)
      ensures |old(unread)| >= n ==> r == Ok(old(unread)[..n]) && unread == old(unread)[n..]
    {
      if |unread| < n {
        return Err(SocketEof);
      }
      r := Ok(unread[..n]);
      unread := unread[n..];
    }

    method Write(bytes: seq<byte>)
      modifies this`written
      ensures written == old(written) + bytes
    {
      written := written + bytes;
    }

    /** The descriptors are collected while the packet buffers are listed, and written after them. */
    method SendTransferData(b: Buffer, length: nat)
      requires (length > 0 ==> InBounds(b.data, b.isos)) && (b.isos == [] ==> length <= |b.data|)
      modifies this`written
      ensures written == old(written) + SendData(b, length)
    {
      if b.isos == [] {
        if length > 0 {
          Write(b.data[..length]);
        }
        return;
      }
      var buffers, descs: seq<byte> := [], [];
      for i := 0 to |b.isos|
        invariant buffers == if length > 0 then Gather(b.data, b.isos[..i]) else []
        invariant descs == DescsBytes(b.isos[..i])
      {
        assert b.isos[..i + 1][..i] == b.isos[..i];
        if length > 0 {
          buffers := buffers + b.data[b.isos[i].offset..b.isos[i].offset + b.isos[i].actual];
        }
        descs := descs + DescBytes(b.isos[i]);
      }
      assert b.isos[..|b.isos|] == b.isos;
      Write(buffers + descs);
    }

    method RecvDescriptors(packets: nat) returns (r: Result<seq<IsoDesc>>)
      modifies this`unread
      ensures |old(unread)| < 16 * packets ==> r == Err(SocketEof)
      ensures |old(unread)| >= 16 * packets ==>
                r == Ok(ReadDescs(old(unread)[..16 * packets], packets)) && unread == old(unread)[16 * packets..]
    {
      ghost var s := unread;
      var isos: seq<IsoDesc> := [];
      for i := 0 to packets
        invariant 16 * i <= |s| && unread == s[16 * i..]
        invariant isos == ReadDescs(s[..16 * i], i)
      {
        var bytes := Read(16);
        if bytes.Err? {
          return Err(bytes.error);
        }
        ghost var t := s[..16 * (i + 1)];
        assert t[..16 * i] == s[..16 * i] && t[16 * i..] == bytes.value;
        isos := isos + [ReadDesc(bytes.value)];
      }
      r := Ok(isos);
    }

    /** Fills the buffer, then reads the descriptors. */
    method RecvTransferData(size: nat, packets: nat, isIn: bool, length: nat) returns (r: Result<Buffer>)
      requires length <= size
      modifies this`unread
      ensures match ReceiveData(old(unread), size, packets, isIn, length)
              case Ok((b, rest)) => r == Ok(b) && unread == rest
              case Err(e) => r == Err(e)
    {
      var data := Zeros(size);
      ghost var s := unread;
      if length > 0 {
        var bytes := Read(length);
        if bytes.Err? {
          return Err(bytes.error);
        }
        data := bytes.value + data[length..];
      }
      assert unread == s[length..];
      assert data == s[..length] + Zeros(size - length);
      var isos := RecvDescriptors(packets);
      if isos.Err? {
        return Err(isos.error);
      }
      assert s[length..][..16 * packets] == s[length..length + 16 * packets];
      assert s[length..][16 * packets..] == s[length + 16 * packets..];
      r := Ok(Buffer(data, isos.value, isIn));
    }
  }
}
