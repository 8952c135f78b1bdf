/** SHA-1 as sections 3 to 6.1 of RFC 3174 define it, on messages that are whole bytes. */
module Sha1Spec {

  datatype Regs = Regs(a: bv32, b: bv32, c: bv32, d: bv32, e: bv32)

  const H0 := Regs(0x67452301, 0xefcdab89, 0x98badcfe, 0x10325476, 0xc3d2e1f0)

  function Choose(b: bv32, c: bv32, d: bv32): bv32 { (b & c) | (!b & d) }
  function Parity(b: bv32, c: bv32, d: bv32): bv32 { b ^ c ^ d }
  function Majority(b: bv32, c: bv32, d: bv32): bv32 { (b & c) | (b & d) | (c & d) }

  /** Section 5: the function used in step `t`. */
  function F(t: nat, b: bv32, c: bv32, d: bv32): bv32 {
    if t < 20 then Choose(b, c, d)
    else if t < 40 then Parity(b, c, d)
    else if t < 60 then Majority(b, c, d)
    else Parity(b, c, d)
  }

  /** Section 5: the constant used in step `t`. */
  function K(t: nat): bv32 {
    if t < 20 then 0x5a827999 else if t < 40 then 0x6ed9eba1 else if t < 60 then 0x8f1bbcdc else 0xca62c1d6
  }

  /** A word is four bytes, most significant first. */
  function BigEndian(b0: bv8, b1: bv8, b2: bv8, b3: bv8): bv32 {
    (b0 as bv32 << 24) | (b1 as bv32 << 16) | (b2 as bv32 << 8) | b3 as bv32
  }

  /** Section 6.1 (a) and (b): the message schedule. */
  ghost function W(block: seq<bv8>, t: nat): bv32
    requires |block| == 64
  {
    if t < 16 then BigEndian(block[4 * t], block[4 * t + 1], block[4 * t + 2], block[4 * t + 3])
    else (W(block, t - 3) ^ W(block, t - 8) ^ W(block, t - 14) ^ W(block, t - 16)).RotateLeft(1)
  }

  /** Addition of five words, modulo 2^32. */
  function Sum(v: bv32, w: bv32, x: bv32, y: bv32, z: bv32): bv32 { v + w + x + y + z }

  /** Section 6.1 (d): one step. */
  function Round(r: Regs, t: nat, w: bv32): Regs {
    Regs(Sum(r.a.RotateLeft(5), F(t, r.b, r.c, r.d), r.e, w, K(t)), r.a, r.b.RotateLeft(30), r.c, r.d)
  }

  ghost function Rounds(h: Regs, block: seq<bv8>, t: nat): Regs
    requires |block| == 64
  {
    if t == 0 then h else Round(Rounds(h, block, t - 1), t - 1, W(block, t - 1))
  }

  function Add(h: Regs, r: Regs): Regs {
    Regs(h.a + r.a, h.b + r.b, h.c + r.c, h.d + r.d, h.e + r.e)
  }

  /** Section 6.1 (e): all 80 steps on one block. */
  ghost function Block(h: Regs, block: seq<bv8>): Regs
    requires |block| == 64
  {
    Add(h, Rounds(h, block, 80))
  }

  ghost function HashBlocks(h: Regs, m: seq<bv8>): Regs
    requires |m| % 64 == 0
    decreases |m|
  {
    if m == [] then h else HashBlocks(Block(h, m[..64]), m[64..])
  }

  /** Section 4: the fewest zero bytes that leave room for the length at the end of a block. */
  function ZeroCount(len: nat): (k: nat)
    ensures k < 64 && (len + 1 + k) % 64 == 56
  {
    (119 - len % 64) % 64
  }

  function Zeros(k: nat): (z: seq<bv8>)
    ensures |z| == k && forall i :: 0 <= i < k ==> z[i] == 0
  {
    seq(k, i => 0)
  }

  const LENGTH_MODULUS := 0x1_0000_0000_0000_0000

  /** Eight bytes, most significant first. */
  function BigEndian64(x: bv64): (r: seq<bv8>)
    ensures |r| == 8
  {
    [((x >> 56) & 0xff) as bv8, ((x >> 48) & 0xff) as bv8, ((x >> 40) & 0xff) as bv8, ((x >> 32) & 0xff) as bv8,
     ((x >> 24) & 0xff) as bv8, ((x >> 16) & 0xff) as bv8, ((x >> 8) & 0xff) as bv8, (x & 0xff) as bv8]
  }

  /** A bit count as a 64-bit word; it wraps at 2^64. */
  function LengthWord(bits: nat): bv64 { (bits % LENGTH_MODULUS) as bv64 }

  /** The length of a message in bits, as eight bytes. */
  function LengthBytes(bits: nat): (r: seq<bv8>)
    ensures |r| == 8
  {
    BigEndian64(LengthWord(bits))
  }

  /** Section 4: a message padded to a whole number of blocks. */
  function Pad(m: seq<bv8>): (r: seq<bv8>)
    ensures |r| % 64 == 0 && m <= r
  {
    m + [0x80] + Zeros(ZeroCount(|m|)) + LengthBytes(8 * |m|)
  }

  function WordBytes(x: bv32): (r: seq<bv8>)
    ensures |r| == 4
  {
    [((x >> 24) & 0xff) as bv8, ((x >> 16) & 0xff) as bv8, ((x >> 8) & 0xff) as bv8, (x & 0xff) as bv8]
  }

  function Digest(h: Regs): (r: seq<bv8>)
    ensures |r| == 20
  {
    WordBytes(h.a) + WordBytes(h.b) + WordBytes(h.c) + WordBytes(h.d) + WordBytes(h.e)
  }

  ghost function Sha1(m: seq<bv8>): seq<bv8> {
    Digest(HashBlocks(H0, Pad(m)))
  }
}
