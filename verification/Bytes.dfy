/** Bytes, machine words and their byte orders. */
module Bytes {
  type byte = x: int | 0 <= x < 256
  type u16 = x: int | 0 <= x < 0x1_0000
  type u32 = x: int | 0 <= x < 0x1_0000_0000

  function Be16(x: u16): seq<byte> { [x / 256, x % 256] }

  function Le16(x: u16): seq<byte> { [x % 256, x / 256] }

  function Be32(x: u32): seq<byte> { [x / 0x100_0000, x / 0x1_0000 % 256, x / 256 % 256, x % 256] }

  function FromBe16(s: seq<byte>): u16
    requires |s| == 2
  {
    s[0] as int * 256 + s[1]
  }

  function FromLe16(s: seq<byte>): u16
    requires |s| == 2
  {
    s[1] as int * 256 + s[0]
  }

  function FromBe32(s: seq<byte>): u32
    requires |s| == 4
  {
    s[0] as int * 0x100_0000 + s[1] as int * 0x1_0000 + s[2] as int * 256 + s[3]
  }

  lemma Be32RoundTrip(x: u32)
    ensures FromBe32(Be32(x)) == x
  {
    var a := x / 256;
    var b := a / 256;
    assert x / 0x1_0000 == b;
    assert x / 0x100_0000 == b / 256;
  }

  /** A run of big-endian 32-bit words. */
  function Words(ws: seq<u32>): (r: seq<byte>)
    ensures |r| == 4 * |ws|
  {
    if ws == [] then [] else Be32(ws[0]) + Words(ws[1..])
  }

  function ReadWords(s: seq<byte>): (r: seq<u32>)
    ensures |r| == |s| / 4
  {
    if |s| < 4 then [] else [FromBe32(s[..4])] + ReadWords(s[4..])
  }

  lemma {:induction false} WordsRoundTrip(ws: seq<u32>)
    ensures ReadWords(Words(ws)) == ws
  {
    if ws != [] {
      var s := Words(ws);
      Be32RoundTrip(ws[0]);
      WordsRoundTrip(ws[1..]);
      assert s[..4] == Be32(ws[0]) && s[4..] == Words(ws[1..]);
    }
  }

  function Zeros(n: nat): (r: seq<byte>)
    ensures |r| == n
  {
    seq(n, _ => 0)
  }

  lemma Reassociate<T>(a: seq<T>, b: seq<T>, c: seq<T>)
    ensures a + b + c == a + (b + c)
  {
  }

}
