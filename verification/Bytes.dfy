/** Bytes, and unsigned numbers as byte strings. */
module Bytes {
  import opened Basics

  newtype byte = b: int | 0 <= b < 256

  function Pow256(width: nat): (p: nat)
    ensures p > 0
  {
    if width == 0 then 1 else 256 * Pow256(width - 1)
  }

  /** The low `width` bytes of n, least significant first. */
  function LittleEndian(n: nat, width: nat): (s: seq<byte>)
    ensures |s| == width
  {
    if width == 0 then [] else [(n % 256) as byte] + LittleEndian(n / 256, width - 1)
  }

  function FromLittleEndian(s: seq<byte>): (n: nat)
    ensures n < Pow256(|s|)
  {
    if s == [] then 0 else s[0] as nat + 256 * FromLittleEndian(s[1..])
  }

  function BigEndian(n: nat, width: nat): (s: seq<byte>)
    ensures |s| == width
  {
    Reverse(LittleEndian(n, width))
  }

  function FromBigEndian(s: seq<byte>): (n: nat)
    ensures n < Pow256(|s|)
  {
    FromLittleEndian(Reverse(s))
  }

  /** The memory image of an unsigned number. */
  function NativeBytes(n: nat, width: nat, littleEndian: bool): (s: seq<byte>)
    ensures |s| == width
  {
    if littleEndian then LittleEndian(n, width) else BigEndian(n, width)
  }

  function FromNativeBytes(s: seq<byte>, littleEndian: bool): nat {
    if littleEndian then FromLittleEndian(s) else FromBigEndian(s)
  }

  /** Bytes determine a number and are determined by it. */
  lemma {:induction false} LittleEndianOfBytes(s: seq<byte>)
    ensures LittleEndian(FromLittleEndian(s), |s|) == s
  {
    if s != [] {
      LittleEndianOfBytes(s[1..]);
      LowByte(s[0] as nat, FromLittleEndian(s[1..]));
      assert s == [s[0]] + s[1..];
    }
  }

  lemma LowByte(low: nat, high: nat)
    requires low < 256
    ensures (low + 256 * high) % 256 == low && (low + 256 * high) / 256 == high
  {
  }

  lemma {:induction false} LittleEndianRoundTrip(n: nat, width: nat)
    requires n < Pow256(width)
    ensures FromLittleEndian(LittleEndian(n, width)) == n
  {
    if width > 0 {
      LittleEndianRoundTrip(n / 256, width - 1);
      assert LittleEndian(n, width)[1..] == LittleEndian(n / 256, width - 1);
    }
  }

  lemma BigEndianRoundTrip(n: nat, width: nat)
    requires n < Pow256(width)
    ensures FromBigEndian(BigEndian(n, width)) == n
  {
    ReverseTwice(LittleEndian(n, width));
    LittleEndianRoundTrip(n, width);
  }

  lemma {:induction false} Pow256AtLeast(width: nat)
    requires width >= 4
    ensures Pow256(width) >= 0x1_0000_0000
  {
    if width == 4 {
      assert Pow256(1) == 256 * Pow256(0);
      assert Pow256(2) == 256 * Pow256(1);
      assert Pow256(3) == 256 * Pow256(2);
    } else {
      Pow256AtLeast(width - 1);
    }
  }

  lemma {:induction false} Zeros(n: nat)
    ensures forall i :: 0 <= i < n ==> LittleEndian(0, n)[i] == 0
  {
    if n > 0 { Zeros(n - 1); }
  }

  lemma {:induction false} AllZero(s: seq<byte>)
    requires forall i :: 0 <= i < |s| ==> s[i] == 0
    ensures FromLittleEndian(s) == 0
  {
    if s != [] { AllZero(s[1..]); }
  }

  /** The image of zero reads as zero in either byte order. */
  lemma ZeroImage(width: nat, littleEndian: bool)
    ensures FromBigEndian(NativeBytes(0, width, littleEndian)) == 0
  {
    Zeros(width);
    AllZero(Reverse(NativeBytes(0, width, littleEndian)));
  }
}
