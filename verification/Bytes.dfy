/** Bytes, machine words and their little-endian images. */
module Bytes {

  type byte = b: int | 0 <= b < 0x100
  type u16 = w: int | 0 <= w < 0x1_0000
  type u32 = w: int | 0 <= w < 0x1_0000_0000

  /** The C cast to `uint8_t`. */
  function Low8(x: int): byte {
    x % 0x100
  }

  /** The value of a 32-bit unsigned expression, with wrap-around. */
  function Wrap32(x: int): u32 {
    x % 0x1_0000_0000
  }

  function Le16(w: u16): seq<byte> {
    [Low8(w), Low8(w / 0x100)]
  }

  function Le32(w: u32): seq<byte> {
    [Low8(w), Low8(w / 0x100), Low8(w / 0x1_0000), Low8(w / 0x100_0000)]
  }

  function FromLe16(s: seq<byte>): u16
    requires |s| == 2
  {
    s[0] as int + 0x100 * (s[1] as int)
  }

  function FromLe32(s: seq<byte>): u32
    requires |s| == 4
  {
    s[0] as int + 0x100 * (s[1] as int) + 0x1_0000 * (s[2] as int) + 0x100_0000 * (s[3] as int)
  }

  lemma Le16RoundTrip(w: u16)
    ensures FromLe16(Le16(w)) == w
  {
  }

  lemma Le32RoundTrip(w: u32)
    ensures FromLe32(Le32(w)) == w
  {
    var h := w / 0x100;
    var hh := h / 0x100;
    assert w / 0x1_0000 == hh;
    assert w / 0x100_0000 == hh / 0x100;
    assert w == w % 0x100 + 0x100 * h;
    assert h == h % 0x100 + 0x100 * hh;
    assert hh == hh % 0x100 + 0x100 * (hh / 0x100);
  }

  lemma FromLe32RoundTrip(s: seq<byte>)
    requires |s| == 4
    ensures Le32(FromLe32(s)) == s
  {
    var w := FromLe32(s);
    var h := s[1] as int + 0x100 * (s[2] as int) + 0x1_0000 * (s[3] as int);
    var hh := s[2] as int + 0x100 * (s[3] as int);
    assert w == s[0] as int + 0x100 * h && h == s[1] as int + 0x100 * hh;
    assert w / 0x100 == h && w / 0x1_0000 == hh && w / 0x100_0000 == s[3];
  }

  function Min(a: int, b: int): int {
    if a < b then a else b
  }

  function Flatten<T>(ss: seq<seq<T>>): seq<T> {
    if ss == [] then [] else ss[0] + Flatten(ss[1..])
  }
}
