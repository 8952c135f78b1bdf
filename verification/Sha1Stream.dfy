/** A hash in progress: what absorbing data means, independently of how it is buffered. */
module Sha1Stream {
  import opened Collections
  import opened Sha1Spec

  /** Hash words so far, bits so far (modulo 2^64), and the bytes not yet hashed. */
  datatype Ctx = Ctx(hash: Regs, total: nat, live: seq<bv8>)

  const START := Ctx(H0, 0, [])

  /** The bytes of `n` that make whole blocks. */
  function Whole(n: nat): (k: nat)
    ensures k % 64 == 0 && k <= n < k + 64
  {
    n / 64 * 64
  }

  lemma WholeIs(n: nat, k: nat)
    requires k % 64 == 0 && k <= n < k + 64
    ensures Whole(n) == k
  {
  }

  function AddBits(total: nat, bytes: nat): (r: nat)
    ensures r < LENGTH_MODULUS
  {
    (total + 8 * bytes) % LENGTH_MODULUS
  }

  ghost function Absorb(c: Ctx, data: seq<bv8>): (r: Ctx)
    ensures |r.live| < 64
  {
    var t := c.live + data;
    var k := Whole(|t|);
    Ctx(HashBlocks(c.hash, t[..k]), AddBits(c.total, |data|), t[k..])
  }

  lemma {:induction false} HashBlocksConcat(h: Regs, x: seq<bv8>, y: seq<bv8>)
    requires |x| % 64 == 0 && |y| % 64 == 0
    ensures HashBlocks(h, x + y) == HashBlocks(HashBlocks(h, x), y)
    decreases |x|
  {
    if x == [] {
      assert x + y == y;
    } else {
      HashBlocksConcat(Block(h, x[..64]), x[64..], y);
      assert (x + y)[..64] == x[..64];
      assert (x + y)[64..] == x[64..] + y;
    }
  }

  lemma HashOneBlock(h: Regs, m: seq<bv8>)
    requires |m| == 64
    ensures HashBlocks(h, m) == Block(h, m)
  {
    assert m[..64] == m && m[64..] == [];
  }

  lemma SplitTwice(h: Regs, t: seq<bv8>, y: seq<bv8>)
    ensures var k := Whole(|t|); var u := t[k..] + y; var j := Whole(|u|); var all := t + y;
      && Whole(|all|) == k + j
      && HashBlocks(h, all[..k + j]) == HashBlocks(HashBlocks(h, t[..k]), u[..j])
      && all[k + j..] == u[j..]
  {
    var k := Whole(|t|);
    var u := t[k..] + y;
    var j := Whole(|u|);
    WholeIs(|t + y|, k + j);
    assert (t + y)[..k + j] == t[..k] + u[..j];
    HashBlocksConcat(h, t[..k], u[..j]);
  }

  lemma TotalsAdd(total: nat, x: nat, y: nat)
    ensures AddBits(AddBits(total, x), y) == AddBits(total, x + y)
  {
  }

  /** Absorbing two fragments is absorbing them joined. */
  lemma AbsorbTwice(c: Ctx, x: seq<bv8>, y: seq<bv8>)
    ensures Absorb(Absorb(c, x), y) == Absorb(c, x + y)
  {
    var t, all := c.live + x, c.live + (x + y);
    assert all == t + y;
    SplitTwice(c.hash, t, y);
    TotalsAdd(c.total, |x|, |y|);
  }

  /** Absorbing into the buffer without filling it. */
  lemma AbsorbSmall(c: Ctx, data: seq<bv8>)
    requires |c.live| + |data| < 64
    ensures Absorb(c, data) == Ctx(c.hash, AddBits(c.total, |data|), c.live + data)
  {
    WholeIs(|c.live + data|, 0);
    assert (c.live + data)[..0] == [];
  }

  /** Absorbing exactly up to a block hashes it. */
  lemma AbsorbToBlock(c: Ctx, data: seq<bv8>)
    requires |c.live| + |data| == 64
    ensures Absorb(c, data) == Ctx(Block(c.hash, c.live + data), AddBits(c.total, |data|), [])
  {
    WholeIs(|c.live + data|, 64);
    HashOneBlock(c.hash, c.live + data);
    assert (c.live + data)[..64] == c.live + data;
  }

  lemma NoBits(total: nat)
    requires total < LENGTH_MODULUS
    ensures AddBits(total, 0) == total
  {
  }

  lemma AbsorbNothing(c: Ctx)
    requires |c.live| < 64 && c.total < LENGTH_MODULUS
    ensures Absorb(c, []) == c
  {
    var nothing: seq<bv8> := [];
    AbsorbSmall(c, nothing);
    assert c.live + nothing == c.live;
    NoBits(c.total);
    assert |nothing| == 0;
  }

  ghost function AbsorbAll(c: Ctx, parts: seq<seq<bv8>>): Ctx
    decreases |parts|
  {
    if parts == [] then c else Absorb(AbsorbAll(c, parts[..|parts| - 1]), parts[|parts| - 1])
  }

  /** Only the joined message matters, not how it was cut. */
  lemma {:induction false} FragmentationIrrelevant(c: Ctx, parts: seq<seq<bv8>>)
    requires |c.live| < 64 && c.total < LENGTH_MODULUS
    ensures AbsorbAll(c, parts) == Absorb(c, Join(parts))
    decreases |parts|
  {
    if parts == [] {
      AbsorbNothing(c);
    } else {
      FragmentationIrrelevant(c, parts[..|parts| - 1]);
      AbsorbTwice(c, Join(parts[..|parts| - 1]), parts[|parts| - 1]);
    }
  }

  // ---------------------------------------------------------------- finishing

  /** How many padding bytes the program adds before the length. */
  function BytesToPad(live: nat): int {
    if 120 - live > 64 then 120 - live - 64 else 120 - live
  }

  /** The first `k` bytes of the padding table. */
  function Padding(k: nat): seq<bv8>
    requires 1 <= k
  {
    [0x80] + Zeros(k - 1)
  }

  /** Between 1 and 64 padding bytes, exactly those section 4 of RFC 3174 asks for. */
  lemma PaddingIs(len: nat)
    ensures 1 <= BytesToPad(len % 64) <= 64
    ensures BytesToPad(len % 64) == 1 + ZeroCount(len)
    ensures Padding(BytesToPad(len % 64)) == [0x80] + Zeros(ZeroCount(len))
  {
  }

  ghost function Finish(c: Ctx): Ctx
    requires |c.live| < 64
  {
    Absorb(Absorb(c, Padding(BytesToPad(|c.live|))), LengthBytes(c.total))
  }

  lemma LengthBytesWrap(bits: nat)
    ensures LengthBytes(bits % LENGTH_MODULUS) == LengthBytes(bits)
  {
    assert bits % LENGTH_MODULUS % LENGTH_MODULUS == bits % LENGTH_MODULUS;
  }

  /** What the program appends to a message is the padding of the RFC. */
  lemma PaddedMessage(m: seq<bv8>)
    ensures var c := Absorb(START, m);
      m + Padding(BytesToPad(|c.live|)) + LengthBytes(c.total) == Pad(m)
  {
    assert [] + m == m;
    WholeIs(|m|, |m| - |m| % 64);
    PaddingIs(|m|);
    LengthBytesWrap(8 * |m|);
    assert m + ([0x80] + Zeros(ZeroCount(|m|))) == m + [0x80] + Zeros(ZeroCount(|m|));
  }

  lemma FinishAbsorbsPadded(m: seq<bv8>)
    ensures Finish(Absorb(START, m)) == Absorb(START, Pad(m))
  {
    var c := Absorb(START, m);
    var pad := Padding(BytesToPad(|c.live|));
    AbsorbTwice(START, m, pad);
    AbsorbTwice(START, m + pad, LengthBytes(c.total));
    PaddedMessage(m);
  }

  lemma TakeAll(m: seq<bv8>, k: nat)
    requires k == |m|
    ensures [] + m == m && m[..k] == m && m[k..] == []
  {
  }

  lemma AbsorbWhole(m: seq<bv8>)
    requires |m| % 64 == 0
    ensures Absorb(START, m).hash == HashBlocks(H0, m) && Absorb(START, m).live == []
  {
    var k := Whole(|m|);
    WholeIs(|m|, |m|);
    TakeAll(m, k);
  }

  /** After any message, finishing gives the RFC's digest and leaves nothing buffered. */
  lemma FinishIsSha1(m: seq<bv8>)
    ensures Digest(Finish(Absorb(START, m)).hash) == Sha1(m)
    ensures Finish(Absorb(START, m)).live == []
  {
    FinishAbsorbsPadded(m);
    AbsorbWhole(Pad(m));
  }
}
