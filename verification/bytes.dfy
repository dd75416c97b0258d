/**
 * Octets and the native `size_t` length prefix. The servers write a
 * `std::size_t` with `sizeof(std::size_t)` bytes in the machine's byte
 * order; the model fixes that order to little-endian and the width to 8.
 */
module Bytes {

  newtype byte = x: int | 0 <= x < 256

  const SIZE_BYTES: nat := 8

  /** 2^64: one more than the largest `size_t`. */
  const SIZE_LIMIT: nat := 0x1_0000_0000_0000_0000

  /** Values of a 64-bit `size_t`. */
  type SizeT = n: int | 0 <= n < SIZE_LIMIT

  /** `++n` on a `size_t`: unsigned wrap-around at 2^64. */
  function Inc(n: SizeT): (r: SizeT)
    ensures r == (n + 1) % SIZE_LIMIT
  {
    if n == SIZE_LIMIT - 1 then 0 else n + 1
  }

  function Pow256(k: nat): (p: nat)
    ensures p >= 1
  {
    if k == 0 then 1 else 256 * Pow256(k - 1)
  }

  lemma Pow256Eight()
    ensures Pow256(SIZE_BYTES) == SIZE_LIMIT
  {
  }

  /** The `k` bytes of `n`, least significant first. */
  function LittleEndian(n: nat, k: nat): (bs: seq<byte>)
    requires n < Pow256(k)
    ensures |bs| == k
  {
    if k == 0 then [] else [(n % 256) as byte] + LittleEndian(n / 256, k - 1)
  }

  /** The number whose little-endian bytes are `bs`. */
  function FromLittleEndian(bs: seq<byte>): (n: nat)
    ensures n < Pow256(|bs|)
  {
    if bs == [] then 0 else bs[0] as nat + 256 * FromLittleEndian(bs[1..])
  }

  lemma {:induction false} FromLittleEndianOfLittleEndian(n: nat, k: nat)
    requires n < Pow256(k)
    ensures FromLittleEndian(LittleEndian(n, k)) == n
  {
    if k > 0 {
      var bs := LittleEndian(n, k);
      assert bs[1..] == LittleEndian(n / 256, k - 1);
      FromLittleEndianOfLittleEndian(n / 256, k - 1);
    }
  }

  lemma {:induction false} LittleEndianOfFromLittleEndian(bs: seq<byte>)
    ensures LittleEndian(FromLittleEndian(bs), |bs|) == bs
  {
    if bs != [] {
      var n := FromLittleEndian(bs);
      var rest := FromLittleEndian(bs[1..]);
      assert n % 256 == bs[0] as nat && n / 256 == rest;
      LittleEndianOfFromLittleEndian(bs[1..]);
    }
  }

  /** The 8 bytes the writer puts on the socket for `sizeof(std::size_t)`. */
  function EncodeSize(n: SizeT): (bs: seq<byte>)
    ensures |bs| == SIZE_BYTES
  {
    Pow256Eight();
    LittleEndian(n, SIZE_BYTES)
  }

  /** The `size_t` a reader obtains from 8 bytes. */
  function DecodeSize(bs: seq<byte>): (n: SizeT)
    requires |bs| == SIZE_BYTES
  {
    Pow256Eight();
    FromLittleEndian(bs)
  }

  lemma DecodeSizeOfEncodeSize(n: SizeT)
    ensures DecodeSize(EncodeSize(n)) == n
  {
    Pow256Eight();
    FromLittleEndianOfLittleEndian(n, SIZE_BYTES);
  }

  lemma EncodeSizeOfDecodeSize(bs: seq<byte>)
    requires |bs| == SIZE_BYTES
    ensures EncodeSize(DecodeSize(bs)) == bs
  {
    LittleEndianOfFromLittleEndian(bs);
  }

  /** The last byte weighs 256^(k-1): the number is at least that byte times its weight. */
  lemma {:induction false} FromLittleEndianLastByte(bs: seq<byte>)
    requires bs != []
    ensures FromLittleEndian(bs) >= bs[|bs| - 1] as nat * Pow256(|bs| - 1)
  {
    if |bs| > 1 {
      var tail := bs[1..];
      FromLittleEndianLastByte(tail);
      assert tail[|tail| - 1] == bs[|bs| - 1];
      var top, w, ft := bs[|bs| - 1] as nat, Pow256(|tail| - 1), FromLittleEndian(tail);
      assert Pow256(|bs| - 1) == 256 * w;
      assert ft >= top * w;
      assert FromLittleEndian(bs) >= 256 * ft;
      ScaleByByte(top, w);
    }
  }

  /** Multiplying one factor by 256 multiplies the product by 256. */
  lemma ScaleByByte(a: nat, b: nat)
    ensures a * (256 * b) == 256 * (a * b)
  {
  }

  /** A length whose most significant byte has its top bit set is 2^63 or more. */
  lemma DecodeSizeTopBit(bs: seq<byte>)
    requires |bs| == SIZE_BYTES && bs[SIZE_BYTES - 1] >= 0x80
    ensures DecodeSize(bs) >= 0x8000_0000_0000_0000
  {
    FromLittleEndianLastByte(bs);
    assert Pow256(7) == 0x100_0000_0000_0000;
    assert bs[7] as nat * Pow256(7) >= 0x80 * 0x100_0000_0000_0000;
  }

  /** Zero bytes encode the length 0. */
  lemma {:induction false} FromLittleEndianZeros(bs: seq<byte>)
    requires forall i :: 0 <= i < |bs| ==> bs[i] == 0
    ensures FromLittleEndian(bs) == 0
  {
    if bs != [] {
      FromLittleEndianZeros(bs[1..]);
    }
  }
}
