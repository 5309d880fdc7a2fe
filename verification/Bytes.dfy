/** Octets, fixed-width unsigned integers and the byte orders used by the wire formats. */
module Bytes {

  type byte = x: int | 0 <= x < 0x100
  type uint16 = x: int | 0 <= x < 0x1_0000
  type uint24 = x: int | 0 <= x < 0x100_0000
  type uint32 = x: int | 0 <= x < 0x1_0000_0000

  const TWO_TO_THE_24 := 0x100_0000
  const TWO_TO_THE_32 := 0x1_0000_0000

  /** The conversion of any integer to `uint32_t`: two's complement truncation. */
  function U32(x: int): uint32 {
    x % TWO_TO_THE_32
  }

  function Min(a: nat, b: nat): nat {
    if a <= b then a else b
  }

  function Be16(x: uint16): (s: seq<byte>)
    ensures |s| == 2
  {
    [x / 0x100, x % 0x100]
  }

  function Be24(x: uint24): (s: seq<byte>)
    ensures |s| == 3
  {
    Be16(x / 0x100) + [x % 0x100]
  }

  function Be32(x: uint32): (s: seq<byte>)
    ensures |s| == 4
  {
    Be24(x / 0x100) + [x % 0x100]
  }

  function Le32(x: uint32): (s: seq<byte>)
    ensures |s| == 4
  {
    var s := Be32(x);
    [s[3], s[2], s[1], s[0]]
  }

  function FromBe16(s: seq<byte>): uint16
    requires |s| >= 2
  {
    s[0] as int * 0x100 + s[1] as int
  }

  function FromBe24(s: seq<byte>): uint24
    requires |s| >= 3
  {
    FromBe16(s) as int * 0x100 + s[2] as int
  }

  function FromBe32(s: seq<byte>): uint32
    requires |s| >= 4
  {
    FromBe24(s) as int * 0x100 + s[3] as int
  }

  function FromLe32(s: seq<byte>): uint32
    requires |s| >= 4
  {
    FromBe32([s[3], s[2], s[1], s[0]])
  }

  /** Reading a big-endian or little-endian number back gives the number written,
      whatever follows it. */
  lemma ReadBack16(x: uint16, tail: seq<byte>)
    ensures FromBe16(Be16(x) + tail) == x
  {
  }

  lemma ReadBack24(x: uint24, tail: seq<byte>)
    ensures FromBe24(Be24(x) + tail) == x
  {
    ReadBack16(x / 0x100, [x % 0x100] + tail);
    assert Be24(x) + tail == Be16(x / 0x100) + ([x % 0x100] + tail);
  }

  lemma ReadBackBe32(x: uint32, tail: seq<byte>)
    ensures FromBe32(Be32(x) + tail) == x
  {
    ReadBack24(x / 0x100, [x % 0x100] + tail);
    assert Be32(x) + tail == Be24(x / 0x100) + ([x % 0x100] + tail);
  }

  lemma ReadBackLe32(x: uint32, tail: seq<byte>)
    ensures FromLe32(Le32(x) + tail) == x
  {
    ReadBackBe32(x, []);
    var s := Le32(x) + tail;
    assert Be32(x) + [] == [s[3], s[2], s[1], s[0]];
  }
}
