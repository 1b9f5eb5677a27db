/**
  The device list reply: fixed 312-byte device records, each followed by four bytes per interface.
 */
module Devlist {
  import opened Bytes
  import opened Transfer

  const VERSION: u16 := 0x0111
  const OP_REP_DEVLIST: u16 := 0x0005

  datatype Interface = Interface(class_: byte, subclass: byte, protocol: byte)

  datatype Numbers = Numbers(busNum: u32, devNum: u32, speed: u32)

  datatype Product = Product(vendor: u16, product: u16, bcd: u16)

  datatype Classes = Classes(class_: byte, subclass: byte, protocol: byte, configuration: byte, configurations: byte)

  datatype UsbDevice = UsbDevice(path: seq<byte>, busid: seq<byte>, n: Numbers, p: Product, c: Classes,
                                 interfaces: seq<Interface>)

  // ---- NUL-padded text ----

  /** Text in a field of n bytes, cut so that a NUL always remains. */
  function Field(text: seq<byte>, n: nat): (r: seq<byte>)
    requires n > 0
    ensures |r| == n
  {
    if |text| < n then text + Zeros(n - |text|) else text[..n - 1] + [0]
  }

  /** Up to the first NUL. */
  function Trim(s: seq<byte>): seq<byte> {
    if s == [] || s[0] == 0 then [] else [s[0]] + Trim(s[1..])
  }

  lemma {:induction false} TrimPrefix(text: seq<byte>, rest: seq<byte>)
    requires 0 !in text && (rest == [] || rest[0] == 0)
    ensures Trim(text + rest) == text
  {
    if text == [] {
      assert text + rest == rest;
    } else {
      TrimPrefix(text[1..], rest);
      assert (text + rest)[1..] == text[1..] + rest;
    }
  }

  lemma {:induction false} TrimNoNul(s: seq<byte>)
    ensures 0 !in Trim(s) && |Trim(s)| <= |s| && (0 in s ==> |Trim(s)| < |s|)
  {
    if s != [] && s[0] != 0 {
      TrimNoNul(s[1..]);
    }
  }

  /** Text survives a field exactly if it leaves room for the NUL and contains none. */
  lemma FieldRoundTrip(text: seq<byte>, n: nat)
    requires n > 0
    ensures Trim(Field(text, n)) == text <==> |text| < n && 0 !in text
  {
    TrimNoNul(Field(text, n));
    if |text| < n && 0 !in text {
      TrimPrefix(text, Zeros(n - |text|));
    }
    if |text| >= n {
      assert Field(text, n)[n - 1] == 0;
    }
  }

  // ---- one device ----

  function TailBytes(d: UsbDevice): (r: seq<byte>)
    ensures |r| == 12
  {
    Be16(d.p.vendor) + Be16(d.p.product) + Be16(d.p.bcd)
    + [d.c.class_, d.c.subclass, d.c.protocol, d.c.configuration, d.c.configurations, |d.interfaces| % 256]
  }

  function DeviceBytes(d: UsbDevice): (r: seq<byte>)
    ensures |r| == 312
  {
    Field(d.path, 256) + Field(d.busid, 32) + Words([d.n.busNum, d.n.devNum, d.n.speed]) + TailBytes(d)
  }

  function InterfaceBytes(i: Interface): seq<byte> { [i.class_, i.subclass, i.protocol, 0] }

  function InterfacesBytes(list: seq<Interface>): (r: seq<byte>)
    ensures |r| == 4 * |list|
  {
    if list == [] then [] else InterfaceBytes(list[0]) + InterfacesBytes(list[1..])
  }

  function Encode(d: UsbDevice): seq<byte> { DeviceBytes(d) + InterfacesBytes(d.interfaces) }

  function ReadInterfaces(s: seq<byte>, n: nat): (r: seq<Interface>)
    requires |s| >= 4 * n
    ensures |r| == n
  {
    if n == 0 then [] else [Interface(s[0], s[1], s[2])] + ReadInterfaces(s[4..], n - 1)
  }

  /** A device record from its 312 bytes, with the interface count at their end. */
  function ParseDevice(b: seq<byte>): (UsbDevice, byte)
    requires |b| == 312
  {
    var ws := ReadWords(b[288..300]);
    (UsbDevice(Trim(b[..256]), Trim(b[256..288]), Numbers(ws[0], ws[1], ws[2]),
               Product(FromBe16(b[300..302]), FromBe16(b[302..304]), FromBe16(b[304..306])),
               Classes(b[306], b[307], b[308], b[309], b[310]), []), b[311])
  }

  function Decode(s: seq<byte>): Result<(UsbDevice, seq<byte>)> {
    if |s| < 312 then Err(SocketEof)
    else
      var (d, n) := ParseDevice(s[..312]);
      if |s| < 312 + 4 * n then Err(SocketEof)
      else Ok((d.(interfaces := ReadInterfaces(s[312..], n)), s[312 + 4 * n..]))
  }

  predicate Fits(d: UsbDevice) {
    |d.path| < 256 && 0 !in d.path && |d.busid| < 32 && 0 !in d.busid && |d.interfaces| < 256
  }

  lemma {:induction false} InterfacesRoundTrip(list: seq<Interface>, n: nat, tail: seq<byte>)
    requires n <= |list|
    ensures |InterfacesBytes(list) + tail| >= 4 * n && ReadInterfaces(InterfacesBytes(list) + tail, n) == list[..n]
  {
    if n > 0 {
      InterfacesRoundTrip(list[1..], n - 1, tail);
      assert (InterfacesBytes(list) + tail)[4..] == InterfacesBytes(list[1..]) + tail;
    }
  }

  lemma CutDevice(a: seq<byte>, b: seq<byte>, w: seq<byte>, t: seq<byte>)
    requires |a| == 256 && |b| == 32 && |w| == 12 && |t| == 12
    ensures var s := a + b + w + t;
            && s[..256] == a && s[256..288] == b && s[288..300] == w
            && s[300..302] == t[..2] && s[302..304] == t[2..4] && s[304..306] == t[4..6]
            && forall i :: 6 <= i < 12 ==> s[300 + i] == t[i]
  {
  }

  /** What a reader makes of a device record, whatever the device. */
  lemma ParseDeviceBytes(d: UsbDevice)
    ensures ParseDevice(DeviceBytes(d))
            == (d.(path := Trim(Field(d.path, 256)), busid := Trim(Field(d.busid, 32)), interfaces := []),
                |d.interfaces| % 256)
  {
    var ws := [d.n.busNum, d.n.devNum, d.n.speed];
    CutDevice(Field(d.path, 256), Field(d.busid, 32), Words(ws), TailBytes(d));
    WordsRoundTrip(ws);
    var s, t := DeviceBytes(d), TailBytes(d);
    assert s[306] == t[6..][0] && s[307] == t[6..][1] && s[308] == t[6..][2]
           && s[309] == t[6..][3] && s[310] == t[6..][4] && s[311] == t[6..][5];
  }

  /** What a reader makes of a whole device entry, whatever the device. */
  lemma DecodeEncoded(d: UsbDevice, tail: seq<byte>)
    ensures var n := |d.interfaces| % 256;
            Decode(Encode(d) + tail) == Ok((d.(path := Trim(Field(d.path, 256)), busid := Trim(Field(d.busid, 32)),
                                               interfaces := d.interfaces[..n]),
                                            InterfacesBytes(d.interfaces)[4 * n..] + tail))
  {
    var n := |d.interfaces| % 256;
    assert n <= |d.interfaces|;
    var s := Encode(d) + tail;
    assert s[..312] == DeviceBytes(d) && s[312..] == InterfacesBytes(d.interfaces) + tail;
    ParseDeviceBytes(d);
    InterfacesRoundTrip(d.interfaces, n, tail);
    assert s[312 + 4 * n..] == InterfacesBytes(d.interfaces)[4 * n..] + tail;
  }

  /** A device entry is read back, with nothing left over, exactly if its texts fit their fields
      without a NUL and it has at most 255 interfaces. */
  lemma DeviceRoundTripExactly(d: UsbDevice)
    ensures Decode(Encode(d)) == Ok((d, [])) <==> Fits(d)
  {
    assert Encode(d) + [] == Encode(d);
    DecodeEncoded(d, []);
    FieldRoundTrip(d.path, 256);
    FieldRoundTrip(d.busid, 32);
    if |d.interfaces| < 256 {
      assert d.interfaces[..|d.interfaces|] == d.interfaces;
    }
  }

  lemma DeviceRoundTrip(d: UsbDevice, tail: seq<byte>)
    requires Fits(d)
    ensures Decode(Encode(d) + tail) == Ok((d, tail))
  {
    DecodeEncoded(d, tail);
    FieldRoundTrip(d.path, 256);
    FieldRoundTrip(d.busid, 32);
    assert d.interfaces[..|d.interfaces|] == d.interfaces;
    assert InterfacesBytes(d.interfaces)[4 * |d.interfaces|..] + tail == tail;
  }

  // ---- the list ----

  function EncodeDevices(ds: seq<UsbDevice>): seq<byte> {
    if ds == [] then [] else Encode(ds[0]) + EncodeDevices(ds[1..])
  }

  function EncodeList(status: u32, ds: seq<UsbDevice>): seq<byte>
    requires |ds| < 0x1_0000_0000
  {
    Be16(VERSION) + Be16(OP_REP_DEVLIST) + Words([status, |ds|]) + EncodeDevices(ds)
  }

  function DecodeDevices(s: seq<byte>, n: nat): Result<(seq<UsbDevice>, seq<byte>)> {
    if n == 0 then Ok(([], s))
    else
      match Decode(s)
      case Err(e) => Err(e)
      case Ok((d, rest)) =>
        match DecodeDevices(rest, n - 1)
        case Err(e) => Err(e)
        case Ok((ds, rest')) => Ok(([d] + ds, rest'))
  }

  /** from_socket, after version and command were read. */
  function DecodeList(s: seq<byte>): Result<(u32, seq<UsbDevice>, seq<byte>)> {
    if |s| < 8 then Err(SocketEof)
    else
      var ws := ReadWords(s[..8]);
      match DecodeDevices(s[8..], ws[1])
      case Err(e) => Err(e)
      case Ok((ds, rest)) => Ok((ws[0], ds, rest))
  }

  lemma {:induction false} DevicesRoundTrip(ds: seq<UsbDevice>, tail: seq<byte>)
    requires forall i :: 0 <= i < |ds| ==> Fits(ds[i])
    ensures DecodeDevices(EncodeDevices(ds) + tail, |ds|) == Ok((ds, tail))
  {
    if ds == [] {
      assert EncodeDevices(ds) + tail == tail;
    } else {
      var rest := EncodeDevices(ds[1..]) + tail;
      DevicesRoundTrip(ds[1..], tail);
      DeviceRoundTrip(ds[0], rest);
      Reassociate(Encode(ds[0]), EncodeDevices(ds[1..]), tail);
      assert [ds[0]] + ds[1..] == ds;
    }
  }

  /** The whole reply is read back, and the next message starts where it ends. */
  lemma ListRoundTrip(status: u32, ds: seq<UsbDevice>, tail: seq<byte>)
    requires |ds| < 0x1_0000_0000 && forall i :: 0 <= i < |ds| ==> Fits(ds[i])
    ensures DecodeList((EncodeList(status, ds) + tail)[4..]) == Ok((status, ds, tail))
  {
    var w, e := Words([status, |ds|]), EncodeDevices(ds);
    var s := (EncodeList(status, ds) + tail)[4..];
    assert s == w + (e + tail);
    WordsRoundTrip([status, |ds|]);
    DevicesRoundTrip(ds, tail);
  }
}
