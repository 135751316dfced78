/** Fixed-width integers as the wire and the disk see them: byte sequences, the Go
    integer ranges, and the conversions between them. Every conversion that can lose
    bits in the program is written out here. */
module Bytes {
  type byte = x: int | 0 <= x < 0x100

  const MAX_INT16: int := 0x7FFF
  const MAX_INT32: int := 0x7FFF_FFFF
  const MAX_UINT32: int := 0xFFFF_FFFF
  const MAX_INT64: int := 0x7FFF_FFFF_FFFF_FFFF
  const MIN_INT64: int := -0x8000_0000_0000_0000
  const TWO_32: int := 0x1_0000_0000
  const TWO_64: int := 0x1_0000_0000_0000_0000

  type uint16 = x: int | 0 <= x < 0x1_0000
  type uint32 = x: int | 0 <= x < 0x1_0000_0000
  type uint64 = x: int | 0 <= x < 0x1_0000_0000_0000_0000
  type int8 = x: int | -0x80 <= x < 0x80
  type int32 = x: int | -0x8000_0000 <= x < 0x8000_0000
  type int64 = x: int | -0x8000_0000_0000_0000 <= x < 0x8000_0000_0000_0000

  datatype Option<+T> = None | Some(value: T)

  function Min(a: int, b: int): int { if a < b then a else b }
  function Max(a: int, b: int): int { if a < b then b else a }

  /** Go's `uint32(x)`. */
  function ToUint32(x: int): uint32 { x % TWO_32 }

  /** Go's `int32(x)`: the two's-complement value of the low 32 bits. */
  function Wrap32(x: int): int32 {
    var u := x % TWO_32;
    if u < 0x8000_0000 then u else u - TWO_32
  }

  /** Go's `int64(x)`. */
  function Wrap64(x: int): int64 {
    var u := x % TWO_64;
    if u < 0x8000_0000_0000_0000 then u else u - TWO_64
  }

  /** Go's `int8(b)` of a byte, and back. */
  function ToInt8(b: byte): int8 { if b < 0x80 then b else b - 0x100 }
  function FromInt8(x: int8): byte { if x < 0 then x + 0x100 else x }

  function PutU16(n: uint16): (s: seq<byte>)
    ensures |s| == 2
  {
    [n / 0x100, n % 0x100]
  }

  function GetU16(s: seq<byte>): uint16
    requires |s| == 2
  {
    s[0] as int * 0x100 + s[1] as int
  }

  function PutU32(n: uint32): (s: seq<byte>)
    ensures |s| == 4
  {
    PutU16(n / 0x1_0000) + PutU16(n % 0x1_0000)
  }

  function GetU32(s: seq<byte>): uint32
    requires |s| == 4
  {
    GetU16(s[..2]) as int * 0x1_0000 + GetU16(s[2..]) as int
  }

  function PutU64(n: uint64): (s: seq<byte>)
    ensures |s| == 8
  {
    PutU32(n / TWO_32) + PutU32(n % TWO_32)
  }

  function GetU64(s: seq<byte>): uint64
    requires |s| == 8
  {
    GetU32(s[..4]) as int * TWO_32 + GetU32(s[4..]) as int
  }

  /** A signed 64-bit field is stored as its two's-complement image. */
  function PutI64(x: int64): (s: seq<byte>)
    ensures |s| == 8
  {
    PutU64(if x < 0 then x + TWO_64 else x)
  }

  function GetI64(s: seq<byte>): int64
    requires |s| == 8
  {
    var u := GetU64(s);
    if u < 0x8000_0000_0000_0000 then u else u - TWO_64
  }

  function PutI32(x: int32): (s: seq<byte>)
    ensures |s| == 4
  {
    PutU32(if x < 0 then x + TWO_32 else x)
  }

  function GetI32(s: seq<byte>): int32
    requires |s| == 4
  {
    var u := GetU32(s);
    if u < 0x8000_0000 then u else u - TWO_32
  }

  lemma {:induction false} U32RoundTrip(n: uint32)
    ensures GetU32(PutU32(n)) == n
  {
    var s := PutU32(n);
    assert s[..2] == PutU16(n / 0x1_0000) && s[2..] == PutU16(n % 0x1_0000);
  }

  lemma {:induction false} U64RoundTrip(n: uint64)
    ensures GetU64(PutU64(n)) == n
  {
    var s := PutU64(n);
    assert s[..4] == PutU32(n / TWO_32) && s[4..] == PutU32(n % TWO_32);
    U32RoundTrip(n / TWO_32);
    U32RoundTrip(n % TWO_32);
  }

  lemma {:induction false} I64RoundTrip(x: int64)
    ensures GetI64(PutI64(x)) == x
  {
    U64RoundTrip(if x < 0 then x + TWO_64 else x);
  }

  lemma {:induction false} I32RoundTrip(x: int32)
    ensures GetI32(PutI32(x)) == x
  {
    U32RoundTrip(if x < 0 then x + TWO_32 else x);
  }

  lemma {:induction false} U16Back(s: seq<byte>)
    requires |s| == 2
    ensures PutU16(GetU16(s)) == s
  {
    assert s == [s[0], s[1]];
  }

  lemma {:induction false} U32Back(s: seq<byte>)
    requires |s| == 4
    ensures PutU32(GetU32(s)) == s
  {
    hide GetU16, PutU16;
    U16Back(s[..2]);
    U16Back(s[2..]);
    assert s == s[..2] + s[2..];
  }

  lemma {:induction false} U64Back(s: seq<byte>)
    requires |s| == 8
    ensures PutU64(GetU64(s)) == s
  {
    hide GetU32, PutU32;
    U32Back(s[..4]);
    U32Back(s[4..]);
    assert s == s[..4] + s[4..];
  }

  lemma {:induction false} I64Back(s: seq<byte>)
    requires |s| == 8
    ensures PutI64(GetI64(s)) == s
  {
    hide GetU64, PutU64;
    U64Back(s);
  }

  // ---- Sets --------------------------------------------------------------------------------

  lemma {:induction false} HasMember(s: set<int>)
    requires s != {}
    ensures exists x :: x in s
  {
    if !(exists x :: x in s) {
      NoMember(s);
      assert false;
    }
  }

  lemma {:induction false} NoMember(s: set<int>)
    requires forall x :: x !in s
    ensures s == {}
  {
    assert forall x | x in s :: false;
  }
}
