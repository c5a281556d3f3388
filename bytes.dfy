/**
 * Fixed-width integers and their big-endian encodings, as produced by Rust's
 * `to_be_bytes` and read back by `from_be_bytes`.
 */
module Bytes {

  type u8 = x: int | 0 <= x < 0x100
  type u16 = x: int | 0 <= x < 0x1_0000
  type u32 = x: int | 0 <= x < 0x1_0000_0000
  type u64 = x: int | 0 <= x < 0x1_0000_0000_0000_0000
  type i32 = x: int | -0x8000_0000 <= x < 0x8000_0000

  /** `u16::to_be_bytes` */
  function U16ToBe(x: u16): (r: seq<u8>)
    ensures |r| == 2
  {
    [x / 0x100, x % 0x100]
  }

  /** `u16::from_be_bytes` */
  function U16FromBe(b: seq<u8>): u16
    requires |b| == 2
  {
    (b[0] as int) * 0x100 + b[1]
  }

  /** `u32::to_be_bytes` */
  function U32ToBe(x: u32): (r: seq<u8>)
    ensures |r| == 4
  {
    var hi, lo := x / 0x1_0000, x % 0x1_0000;
    [hi / 0x100, hi % 0x100, lo / 0x100, lo % 0x100]
  }

  /** `u32::from_be_bytes` */
  function U32FromBe(b: seq<u8>): u32
    requires |b| == 4
  {
    var hi: int := (b[0] as int) * 0x100 + b[1];
    var lo: int := (b[2] as int) * 0x100 + b[3];
    assert hi < 0x1_0000 && lo < 0x1_0000;
    hi * 0x1_0000 + lo
  }

  /** `i32::from_be_bytes`: the four bytes are a two's-complement word. */
  function I32FromBe(b: seq<u8>): i32
    requires |b| == 4
  {
    var u := U32FromBe(b);
    if u < 0x8000_0000 then u else u - 0x1_0000_0000
  }

  /** `i32::to_be_bytes` */
  function I32ToBe(x: i32): (r: seq<u8>)
    ensures |r| == 4
  {
    U32ToBe(if x >= 0 then x else x + 0x1_0000_0000)
  }

  lemma U16RoundTrip(x: u16, b: seq<u8>)
    requires |b| == 2
    ensures U16FromBe(U16ToBe(x)) == x
    ensures U16ToBe(U16FromBe(b)) == b
  {
  }

  lemma U16FromToBe(x: u16)
    ensures U16FromBe(U16ToBe(x)) == x
  {
  }

  lemma U32RoundTrip(x: u32, b: seq<u8>)
    requires |b| == 4
    ensures U32FromBe(U32ToBe(x)) == x
    ensures U32ToBe(U32FromBe(b)) == b
  {
    U32FromToBe(x);
    U32ToFromBe(b);
  }

  lemma U32FromToBe(x: u32)
    ensures U32FromBe(U32ToBe(x)) == x
  {
    var hi, lo := x / 0x1_0000, x % 0x1_0000;
    var b := U32ToBe(x);
    assert (b[0] as int) * 0x100 + b[1] == hi;
    assert (b[2] as int) * 0x100 + b[3] == lo;
  }

  lemma U32ToFromBe(b: seq<u8>)
    requires |b| == 4
    ensures U32ToBe(U32FromBe(b)) == b
  {
    var hi: int := (b[0] as int) * 0x100 + b[1];
    var lo: int := (b[2] as int) * 0x100 + b[3];
    var v := U32FromBe(b);
    assert v / 0x1_0000 == hi && v % 0x1_0000 == lo;
  }

  lemma I32RoundTrip(x: i32, b: seq<u8>)
    requires |b| == 4
    ensures I32FromBe(I32ToBe(x)) == x
    ensures I32ToBe(I32FromBe(b)) == b
  {
    U32RoundTrip(if x >= 0 then x else x + 0x1_0000_0000, b);
  }

  /** `str::as_bytes` for text made of ASCII characters only. */
  function AsciiBytes(s: string): (b: seq<u8>)
    requires forall i :: 0 <= i < |s| ==> s[i] as int < 0x80
    ensures |b| == |s| && forall i :: 0 <= i < |s| ==> b[i] == s[i] as int
  {
    if s == [] then [] else [s[0] as int] + AsciiBytes(s[1..])
  }
}
