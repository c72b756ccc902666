// Big-endian bit strings, the form in which the encoder's bytes and bit buffers are modelled, and
// the append-only bit buffer itself (deps/qrcodegen.cpp, class BitBuffer). A uint8_t is the string
// of its eight bits, most significant first, so `x ^ y` is Xor and bit `7 - i` of x is x[i].
module Bits {

  type byte = b: seq<bool> | |b| == 8 witness [false, false, false, false, false, false, false, false]
  /** A character of a C string or a byte of binary data, as a number. */
  type uint8 = n: nat | n < 256
  type uint32 = n: nat | n < 0x1_0000_0000

  function Pow2(n: nat): (p: nat)
    ensures p > 0
  {
    if n == 0 then 1 else 2 * Pow2(n - 1)
  }

  /** The value `v >> n`. */
  function Shr(v: nat, n: nat): (r: nat)
    ensures r <= v
  {
    if n == 0 then v else Shr(v, n - 1) / 2
  }

  lemma {:induction false} ShrZeroIffSmall(v: nat, n: nat)
    ensures Shr(v, n) == 0 <==> v < Pow2(n)
    decreases n
  {
    if n > 0 {
      ShrOfHalf(v, n - 1);
      ShrZeroIffSmall(v / 2, n - 1);
    }
  }

  lemma {:induction false} ShrOfHalf(v: nat, n: nat)
    ensures Shr(v, n + 1) == Shr(v / 2, n)
  {
    if n > 0 { ShrOfHalf(v, n - 1); }
  }

  // ---- big-endian bit strings ----

  /** The low `len` bits of `v`, most significant first. */
  function BitsOf(v: nat, len: nat): (bits: seq<bool>)
    ensures |bits| == len
    decreases len
  {
    if len == 0 then [] else BitsOf(v / 2, len - 1) + [v % 2 == 1]
  }

  /** The number whose bits, most significant first, are `bits`. */
  function ValueOf(bits: seq<bool>): nat
  {
    if bits == [] then 0
    else 2 * ValueOf(bits[..|bits| - 1]) + (if bits[|bits| - 1] then 1 else 0)
  }

  lemma {:induction false} ValueOfBitsOf(v: nat, len: nat)
    requires v < Pow2(len)
    ensures ValueOf(BitsOf(v, len)) == v
    decreases len
  {
    if len > 0 {
      ValueOfBitsOf(v / 2, len - 1);
      var bits := BitsOf(v, len);
      assert bits[..|bits| - 1] == BitsOf(v / 2, len - 1);
    }
  }

  lemma {:induction false} BitsOfValueOf(bits: seq<bool>)
    ensures ValueOf(bits) < Pow2(|bits|)
    ensures BitsOf(ValueOf(bits), |bits|) == bits
  {
    if bits != [] {
      BitsOfValueOf(bits[..|bits| - 1]);
      assert bits == bits[..|bits| - 1] + [bits[|bits| - 1]];
    }
  }

  /** Bit k of the string is bit `len - 1 - k` of the number: `((v >> (len - 1 - k)) & 1) != 0`. */
  lemma {:induction false} BitsOfAt(v: nat, len: nat, k: nat)
    requires k < len
    ensures BitsOf(v, len)[k] <==> Shr(v, len - 1 - k) % 2 == 1
    decreases len
  {
    if k < len - 1 {
      BitsOfAt(v / 2, len - 1, k);
      ShrOfHalf(v, len - 2 - k);
    }
  }

  // ---- bytes as a bit stream ----

  /** All bits of the bytes in order: bit i is `(data[i >> 3] >> (7 - (i & 7))) & 1`. */
  function Stream(data: seq<byte>): (bits: seq<bool>)
    ensures |bits| == 8 * |data|
  {
    seq(8 * |data|, i requires 0 <= i < 8 * |data| => data[i / 8][i % 8])
  }

  function Pack(bits: seq<bool>): (data: seq<byte>)
    requires |bits| % 8 == 0
    ensures |data| == |bits| / 8
  {
    seq(|bits| / 8, k requires 0 <= k < |bits| / 8 => var b: byte := bits[8 * k..8 * k + 8]; b)
  }

  lemma StreamOfPack(bits: seq<bool>)
    requires |bits| % 8 == 0
    ensures Stream(Pack(bits)) == bits
  {
  }

  lemma PackOfStream(data: seq<byte>)
    ensures Pack(Stream(data)) == data
  {
    var packed := Pack(Stream(data));
    forall k | 0 <= k < |data|
      ensures packed[k] == data[k]
    {
      forall i | 0 <= i < 8
        ensures packed[k][i] == data[k][i]
      {
        assert (8 * k + i) / 8 == k && (8 * k + i) % 8 == i;
      }
    }
  }

  // ---- numbers below 256 as a bit stream ----

  /** Each byte in eight bits. */
  function ByteBits(data: seq<uint8>): (bits: seq<bool>)
    ensures |bits| == 8 * |data| && |bits| % 8 == 0
  {
    if data == [] then [] else ByteBits(data[..|data| - 1]) + BitsOf(data[|data| - 1], 8)
  }

  function ReadBytes(bits: seq<bool>): (data: seq<nat>)
    requires |bits| % 8 == 0
    ensures |data| == |bits| / 8
  {
    if bits == [] then [] else ReadBytes(bits[..|bits| - 8]) + [ValueOf(bits[|bits| - 8..])]
  }

  lemma PowerOfEight()
    ensures Pow2(8) == 256
  {
    assert Pow2(4) == 16;
  }

  /** Bytes read back from their bits. */
  lemma {:induction false} BytesReadBack(data: seq<uint8>)
    ensures ReadBytes(ByteBits(data)) == data
  {
    hide BitsOf, ValueOf, Pow2;
    if data != [] {
      var rest, last := data[..|data| - 1], data[|data| - 1];
      BytesReadBack(rest);
      PowerOfEight();
      ValueOfBitsOf(last, 8);
      var bits := ByteBits(data);
      assert bits[..|bits| - 8] == ByteBits(rest) && bits[|bits| - 8..] == BitsOf(last, 8);
      assert data == rest + [last];
    }
  }

  // ---- exclusive or ----

  function Zeros(n: nat): (z: seq<bool>)
    ensures |z| == n
  {
    seq(n, i => false)
  }

  /** `a ^ b` on strings of equal length. */
  function Xor(a: seq<bool>, b: seq<bool>): (c: seq<bool>)
    requires |a| == |b|
    ensures |c| == |a|
  {
    seq(|a|, i requires 0 <= i < |a| => a[i] != b[i])
  }

  lemma XorLaws(a: seq<bool>, b: seq<bool>, c: seq<bool>)
    requires |a| == |b| == |c|
    ensures Xor(Xor(a, b), c) == Xor(a, Xor(b, c))
    ensures Xor(a, b) == Xor(b, a)
    ensures Xor(a, a) == Zeros(|a|)
    ensures Xor(a, Zeros(|a|)) == a == Xor(Zeros(|a|), a)
  {
  }

  /** `(a ^ b) ^ (c ^ d)` with the middle two operands swapped. */
  lemma XorMiddleSwap(a: seq<bool>, b: seq<bool>, c: seq<bool>, d: seq<bool>)
    requires |a| == |b| == |c| == |d|
    ensures Xor(Xor(a, b), Xor(c, d)) == Xor(Xor(a, c), Xor(b, d))
  {
  }

  /** The operands of a zero sum are equal. */
  lemma XorCancels(a: seq<bool>, b: seq<bool>)
    requires |a| == |b|
    ensures Xor(a, b) == Zeros(|a|) <==> a == b
  {
    if Xor(a, b) == Zeros(|a|) {
      forall i | 0 <= i < |a| ensures a[i] == b[i] { assert Xor(a, b)[i] == Zeros(|a|)[i]; }
    }
    XorLaws(a, b, b);
  }

  // ---- the bit buffer ----

  class BitBuffer {
    var bits: seq<bool>

    constructor ()
      ensures bits == []
    {
      bits := [];
    }

    /** `ok` is false exactly where the source throws its range error; the buffer is then unchanged. */
    method AppendBits(val: uint32, len: int) returns (ok: bool)
      modifies this
      ensures ok <==> 0 <= len <= 31 && val < Pow2(len)
      ensures bits == if ok then old(bits) + BitsOf(val, len) else old(bits)
    {
      if len < 0 || len > 31 || Shr(val, len) != 0 {
        if 0 <= len { ShrZeroIffSmall(val, len); }
        return false;
      }
      ShrZeroIffSmall(val, len);
      var i := len - 1;
      while i >= 0
        invariant -1 <= i < len
        invariant bits == old(bits) + BitsOf(Shr(val, i + 1), len - 1 - i)
      {
        bits := bits + [Shr(val, i) % 2 == 1];
        assert Shr(val, i + 1) == Shr(val, i) / 2;
        i := i - 1;
      }
      return true;
    }
  }
}
