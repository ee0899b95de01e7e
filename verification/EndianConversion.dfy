/** Byte order conversion, by value on unsigned words and in place on their bytes. */
module EndianConversion {
  import opened Basics
  import opened Bytes

  function SwapEndian16(v: bv16): bv16 {
    (v >> 8) | (v << 8)
  }

  function SwapEndian32(v: bv32): bv32 {
    ((v >> 24) & 0x000000FF) | ((v << 8) & 0x00FF0000) | ((v >> 8) & 0x0000FF00) | ((v << 24) & 0xFF000000)
  }

  function SwapEndian64(v: bv64): bv64 {
    ((v >> 56) & 0x00000000000000FF) | ((v << 40) & 0x00FF000000000000) |
    ((v >> 40) & 0x000000000000FF00) | ((v << 24) & 0x0000FF0000000000) |
    ((v >> 24) & 0x0000000000FF0000) | ((v << 8) & 0x000000FF00000000) |
    ((v >> 8) & 0x00000000FF000000) | ((v << 56) & 0xFF00000000000000)
  }

  /** By value, every byte moves to the mirrored position, and a second swap moves it back. */
  lemma SwapMirrors16(v: bv16)
    ensures SwapEndian16(v) & 0xFF == (v >> 8) & 0xFF
    ensures (SwapEndian16(v) >> 8) & 0xFF == v & 0xFF
    ensures SwapEndian16(SwapEndian16(v)) == v
  {
  }

  lemma SwapMirrors32(v: bv32)
    ensures SwapEndian32(v) & 0xFF == (v >> 24) & 0xFF
    ensures (SwapEndian32(v) >> 8) & 0xFF == (v >> 16) & 0xFF
    ensures (SwapEndian32(v) >> 16) & 0xFF == (v >> 8) & 0xFF
    ensures (SwapEndian32(v) >> 24) & 0xFF == v & 0xFF
    ensures SwapEndian32(SwapEndian32(v)) == v
  {
  }

  lemma SwapMirrors64(v: bv64)
    ensures SwapEndian64(v) & 0xFF == (v >> 56) & 0xFF
    ensures (SwapEndian64(v) >> 8) & 0xFF == (v >> 48) & 0xFF
    ensures (SwapEndian64(v) >> 16) & 0xFF == (v >> 40) & 0xFF
    ensures (SwapEndian64(v) >> 24) & 0xFF == (v >> 32) & 0xFF
    ensures (SwapEndian64(v) >> 32) & 0xFF == (v >> 24) & 0xFF
    ensures (SwapEndian64(v) >> 40) & 0xFF == (v >> 16) & 0xFF
    ensures (SwapEndian64(v) >> 48) & 0xFF == (v >> 8) & 0xFF
    ensures (SwapEndian64(v) >> 56) & 0xFF == v & 0xFF
    ensures SwapEndian64(SwapEndian64(v)) == v
  {
  }

  /** In place: the bytes of one object are exchanged pairwise from the ends. */
  method SwapEndianInPlace(bytes: array<byte>)
    modifies bytes
    ensures bytes[..] == Reverse(old(bytes[..]))
  {
    var length := bytes.Length;
    for i := 0 to length / 2
      invariant forall k :: 0 <= k < i ==> bytes[k] == old(bytes[length - 1 - k]) && bytes[length - 1 - k] == old(bytes[k])
      invariant forall k :: i <= k < length - i ==> bytes[k] == old(bytes[k])
    {
      bytes[i], bytes[length - 1 - i] := bytes[length - 1 - i], bytes[i];
    }
  }
}
