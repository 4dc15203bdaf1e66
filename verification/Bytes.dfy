/** Bytes, 32-byte keys, fixed-width integers and their little-endian images. */
module Bytes {

  type Byte = x: int | 0 <= x < 256
  type U16 = x: int | 0 <= x < 0x1_0000
  type U32 = x: int | 0 <= x < 0x1_0000_0000
  type U64 = x: int | 0 <= x < 0x1_0000_0000_0000_0000
  type I64 = x: int | -0x8000_0000_0000_0000 <= x < 0x8000_0000_0000_0000

  const U64_MAX: U64 := 0xFFFF_FFFF_FFFF_FFFF
  const I64_MIN: I64 := -0x8000_0000_0000_0000
  const I64_MAX: I64 := 0x7FFF_FFFF_FFFF_FFFF

  /** A public key: 32 bytes. */
  type Key = k: seq<Byte> | |k| == 32 witness seq(32, _ => 0)

  /** `Pubkey::default()`. */
  const DEFAULT_KEY: Key := Zeros(32)

  type EightBytes = b: seq<Byte> | |b| == 8 witness seq(8, _ => 0)

  function Zeros(n: nat): (s: seq<Byte>)
    ensures |s| == n && forall i :: 0 <= i < n ==> s[i] == 0
  {
    seq(n, _ => 0)
  }

  /** 256 to the power `n`: one more than the largest value `n` bytes can hold. */
  function Pow256(n: nat): (p: nat)
    ensures p > 0
  {
    if n == 0 then 1 else 256 * Pow256(n - 1)
  }

  /** The `n` low bytes of `v`, least significant first. */
  function LeBytes(v: nat, n: nat): (s: seq<Byte>)
    ensures |s| == n
  {
    if n == 0 then [] else [v % 256] + LeBytes(v / 256, n - 1)
  }

  function LeValue(s: seq<Byte>): nat
  {
    if s == [] then 0 else s[0] + 256 * LeValue(s[1..])
  }

  lemma {:induction false} LeValueOfBytes(v: nat, n: nat)
    requires v < Pow256(n)
    ensures LeValue(LeBytes(v, n)) == v
  {
    if n > 0 {
      LeValueOfBytes(v / 256, n - 1);
      assert LeBytes(v, n)[1..] == LeBytes(v / 256, n - 1);
    }
  }

  lemma DigitAndRest(digit: Byte, rest: nat)
    ensures (digit + 256 * rest) % 256 == digit && (digit + 256 * rest) / 256 == rest
  {
  }

  lemma {:induction false} LeBytesOfValue(s: seq<Byte>)
    ensures LeValue(s) < Pow256(|s|)
    ensures LeBytes(LeValue(s), |s|) == s
  {
    if s != [] {
      LeBytesOfValue(s[1..]);
      DigitAndRest(s[0], LeValue(s[1..]));
      assert [s[0]] + s[1..] == s;
    }
  }

  lemma Powers()
    ensures Pow256(2) == 0x1_0000
    ensures Pow256(4) == 0x1_0000_0000
    ensures Pow256(8) == 0x1_0000_0000_0000_0000
  {
  }

  /** A byte-string literal. */
  function Ascii(s: string): (b: seq<Byte>)
    ensures |b| == |s|
  {
    seq(|s|, i requires 0 <= i < |s| => s[i] as int % 256)
  }

  // ---- Unsigned integers --------------------------------------------------

  function U16Value(s: seq<Byte>): (v: U16)
    requires |s| == 2
  {
    LeBytesOfValue(s);
    Powers();
    LeValue(s)
  }

  function U64Value(s: seq<Byte>): (v: U64)
    requires |s| == 8
  {
    LeBytesOfValue(s);
    Powers();
    LeValue(s)
  }

  function U64Bytes(v: U64): (s: EightBytes)
  {
    LeBytes(v, 8)
  }

  /** `U64Bytes` and `U64Value` are inverse to each other. */
  lemma U64RoundTrip(v: U64, s: EightBytes)
    ensures U64Value(U64Bytes(v)) == v
    ensures U64Bytes(U64Value(s)) == s
  {
    Powers();
    LeValueOfBytes(v, 8);
    LeBytesOfValue(s);
  }

  lemma U16RoundTrip(v: U16, s: seq<Byte>)
    requires |s| == 2
    ensures U16Value(LeBytes(v, 2)) == v
    ensures LeBytes(U16Value(s), 2) == s
  {
    Powers();
    LeValueOfBytes(v, 2);
    LeBytesOfValue(s);
  }

  /** Least significant byte first. */
  lemma UnsignedDigits(s: seq<Byte>)
    ensures |s| == 2 ==> U16Value(s) == s[0] as int + 0x100 * s[1] as int
    ensures |s| == 8 ==>
              U64Value(s) ==
              s[0] as int + 0x100 * s[1] as int + 0x1_0000 * s[2] as int + 0x100_0000 * s[3] as int
              + 0x1_0000_0000 * s[4] as int + 0x100_0000_0000 * s[5] as int
              + 0x1_0000_0000_0000 * s[6] as int + 0x100_0000_0000_0000 * s[7] as int
  {
    if |s| == 2 {
      ValueFrom(s, 0);
      ValueFrom(s, 1);
      assert s[2..] == [];
    } else if |s| == 8 {
      ValueFrom(s, 0);
      ValueFrom(s, 1);
      ValueFrom(s, 2);
      ValueFrom(s, 3);
      ValueFrom(s, 4);
      ValueFrom(s, 5);
      ValueFrom(s, 6);
      ValueFrom(s, 7);
      assert s[8..] == [];
    }
    assert s[0..] == s;
    hide LeBytes;
  }

  lemma ValueFrom(s: seq<Byte>, i: nat)
    requires i < |s|
    ensures LeValue(s[i..]) == s[i] as int + 256 * LeValue(s[i + 1..])
  {
    assert s[i..][1..] == s[i + 1..];
  }

  // ---- Signed integers: two's complement ----------------------------------

  /** The unsigned word that carries the same 64 bits as `v`. */
  function Unsign(v: I64): (w: U64)
  {
    if v < 0 then v + 0x1_0000_0000_0000_0000 else v
  }

  function Sign(w: U64): (v: I64)
  {
    if w < 0x8000_0000_0000_0000 then w else w - 0x1_0000_0000_0000_0000
  }

  function I64Bytes(v: I64): (s: EightBytes)
  {
    U64Bytes(Unsign(v))
  }

  function I64Value(s: seq<Byte>): (v: I64)
    requires |s| == 8
  {
    Sign(U64Value(s))
  }

  lemma I64RoundTrip(v: I64, s: EightBytes)
    ensures I64Value(I64Bytes(v)) == v
    ensures I64Bytes(I64Value(s)) == s
  {
    U64RoundTrip(Unsign(v), s);
  }

  /** The top byte of a signed integer counts from -128 to 127. */
  lemma SignedDigits(s: seq<Byte>)
    requires |s| == 8
    ensures I64Value(s) ==
            s[0] as int + 0x100 * s[1] as int + 0x1_0000 * s[2] as int + 0x100_0000 * s[3] as int
            + 0x1_0000_0000 * s[4] as int + 0x100_0000_0000 * s[5] as int + 0x1_0000_0000_0000 * s[6] as int
            + 0x100_0000_0000_0000 * (if s[7] < 128 then s[7] as int else s[7] as int - 256)
  {
    UnsignedDigits(s);
    hide U64Value;
  }
}
