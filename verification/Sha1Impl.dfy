/** The hash as it is computed: optimised functions, moving read positions, unrolled loops, a 64-byte buffer. */
module Sha1Impl {
  import opened Collections
  import opened Sha1Spec
  import opened Sha1Stream

  // ---------------------------------------------------------------- macros

  function Rotl1(x: bv32): bv32 { (x << 1) | (x >> 31) }
  function Rotl5(x: bv32): bv32 { (x << 5) | (x >> 27) }
  function Rotl8(x: bv32): bv32 { (x << 8) | (x >> 24) }
  function Rotl30(x: bv32): bv32 { (x << 30) | (x >> 2) }
  function Rotr8(x: bv32): bv32 { (x >> 8) | (x << 24) }

  lemma RotationsAre(x: bv32)
    ensures Rotl1(x) == x.RotateLeft(1) && Rotl5(x) == x.RotateLeft(5) && Rotl30(x) == x.RotateLeft(30)
  {
  }

  function FastChoose(x: bv32, y: bv32, z: bv32): bv32 { z ^ (x & (y ^ z)) }
  function FastMajority(x: bv32, y: bv32, z: bv32): bv32 { (x & (y | z)) | (y & z) }

  /** The four round functions, by quarter. */
  function FastF(quarter: nat, x: bv32, y: bv32, z: bv32): bv32 {
    if quarter == 0 then FastChoose(x, y, z)
    else if quarter == 1 then Parity(x, y, z)
    else if quarter == 2 then FastMajority(x, y, z)
    else Parity(x, y, z)
  }

  lemma FastChooseIs(x: bv32, y: bv32, z: bv32)
    ensures FastChoose(x, y, z) == Choose(x, y, z)
  {
    assert z ^ (x & (y ^ z)) == (x & y) | (!x & z);
  }

  lemma FastMajorityIs(x: bv32, y: bv32, z: bv32)
    ensures FastMajority(x, y, z) == Majority(x, y, z)
  {
    assert (x & (y | z)) | (y & z) == (x & y) | (x & z) | (y & z);
  }

  ghost predicate InQuarter(quarter: nat, t: nat) { 20 * quarter <= t < 20 * quarter + 20 <= 80 }

  /** The rewritten functions are those of section 5. */
  lemma FastFIs(quarter: nat, t: nat, x: bv32, y: bv32, z: bv32)
    requires InQuarter(quarter, t)
    ensures FastF(quarter, x, y, z) == F(t, x, y, z)
  {
    if quarter == 0 { FastChooseIs(x, y, z); } else if quarter == 2 { FastMajorityIs(x, y, z); }
  }

  function FastK(quarter: nat): bv32 {
    if quarter == 0 then 0x5a827999
    else if quarter == 1 then 0x6ed9eba1
    else if quarter == 2 then 0x8f1bbcdc
    else 0xca62c1d6
  }

  lemma FastKIs(quarter: nat, t: nat)
    requires InQuarter(quarter, t)
    ensures FastK(quarter) == K(t)
  {
  }

  /** The round macro, one register after the other: the step of section 6.1 (d). */
  method DoRound(quarter: nat, ghost t: nat, r0: Regs, w: bv32) returns (r: Regs)
    requires InQuarter(quarter, t)
    ensures r == Round(r0, t, w)
  {
    FastFIs(quarter, t, r0.b, r0.c, r0.d);
    FastKIs(quarter, t);
    RotationsAre(r0.a);
    RotationsAre(r0.b);
    var a, b, c, d, e := r0.a, r0.b, r0.c, r0.d, r0.e;
    var temp := Sum(Rotl5(a), FastF(quarter, b, c, d), e, w, FastK(quarter));
    e := d;
    d := c;
    c := Rotl30(b);
    b := a;
    a := temp;
    r := Regs(a, b, c, d, e);
  }

  function Swap(x: bv32): bv32 { (Rotr8(x) & 0xff00ff00) | (Rotl8(x) & 0x00ff00ff) }

  function ByteSwap(littleEndian: bool, x: bv32): bv32 { if littleEndian then Swap(x) else x }

  function Swap64(x: bv64): bv64 {
    var a := (x >> 32) as bv32;
    var b := (x & 0xffff_ffff) as bv32;
    (Swap(b) as bv64 << 32) | Swap(a) as bv64
  }

  function ByteSwap64(littleEndian: bool, x: bv64): bv64 { if littleEndian then Swap64(x) else x }

  /** The machine's own word at four consecutive bytes. */
  function LoadWord(littleEndian: bool, b0: bv8, b1: bv8, b2: bv8, b3: bv8): bv32 {
    if littleEndian then b0 as bv32 | (b1 as bv32 << 8) | (b2 as bv32 << 16) | (b3 as bv32 << 24)
    else BigEndian(b0, b1, b2, b3)
  }

  function StoreWord(littleEndian: bool, x: bv32): seq<bv8> {
    if littleEndian then
      [(x & 0xff) as bv8, ((x >> 8) & 0xff) as bv8, ((x >> 16) & 0xff) as bv8, ((x >> 24) & 0xff) as bv8]
    else WordBytes(x)
  }

  function StoreWord64(littleEndian: bool, x: bv64): (r: seq<bv8>)
    ensures |r| == 8
  {
    if littleEndian then
      [(x & 0xff) as bv8, ((x >> 8) & 0xff) as bv8, ((x >> 16) & 0xff) as bv8, ((x >> 24) & 0xff) as bv8,
       ((x >> 32) & 0xff) as bv8, ((x >> 40) & 0xff) as bv8, ((x >> 48) & 0xff) as bv8, ((x >> 56) & 0xff) as bv8]
    else BigEndian64(x)
  }

  /** On either byte order a swapped load is the big-endian word. */
  lemma SwappedLoadIs(littleEndian: bool, b0: bv8, b1: bv8, b2: bv8, b3: bv8)
    ensures ByteSwap(littleEndian, LoadWord(littleEndian, b0, b1, b2, b3)) == BigEndian(b0, b1, b2, b3)
  {
  }

  /** On either byte order a swapped store writes the bytes most significant first. */
  lemma SwappedStoreIs(littleEndian: bool, x: bv32)
    ensures StoreWord(littleEndian, ByteSwap(littleEndian, x)) == WordBytes(x)
  {
  }

  lemma SwappedStore64Is(littleEndian: bool, x: bv64)
    ensures StoreWord64(littleEndian, ByteSwap64(littleEndian, x)) == BigEndian64(x)
  {
  }

  // ---------------------------------------------------------------- one block

  predicate UnrollFactor(u: nat) { u == 1 || u == 2 || u == 4 || u == 5 || u == 10 || u == 20 }

  /** The first 16 words, read in the machine's byte order and swapped. */
  method LoadBlock(littleEndian: bool, block: seq<bv8>, buf: array<bv32>)
    requires |block| == 64 && buf.Length == 80
    modifies buf
    ensures forall t :: 0 <= t < 16 ==> buf[t] == W(block, t)
  {
    var w := 0;
    while w < 16
      invariant 0 <= w <= 16
      invariant forall t :: 0 <= t < w ==> buf[t] == W(block, t)
    {
      var b0, b1, b2, b3 := block[4 * w], block[4 * w + 1], block[4 * w + 2], block[4 * w + 3];
      SwappedLoadIs(littleEndian, b0, b1, b2, b3);
      buf[w] := ByteSwap(littleEndian, LoadWord(littleEndian, b0, b1, b2, b3));
      w := w + 1;
    }
  }

  function Mix(x3: bv32, x8: bv32, x14: bv32, x16: bv32): bv32 { Rotl1(x3 ^ x8 ^ x14 ^ x16) }

  lemma MixIs(block: seq<bv8>, t: nat)
    requires |block| == 64 && 16 <= t
    ensures W(block, t) == Mix(W(block, t - 3), W(block, t - 8), W(block, t - 14), W(block, t - 16))
  {
    RotationsAre(W(block, t - 3) ^ W(block, t - 8) ^ W(block, t - 14) ^ W(block, t - 16));
  }

  /** The remaining 64 words, through four moving read positions. */
  method ExpandBlock(ghost block: seq<bv8>, buf: array<bv32>)
    requires |block| == 64 && buf.Length == 80
    requires forall t :: 0 <= t < 16 ==> buf[t] == W(block, t)
    modifies buf
    ensures forall t :: 0 <= t < 80 ==> buf[t] == W(block, t)
  {
    var w, w16, w14, w8, w3 := 16, 0, 2, 8, 13;
    while w < 80
      invariant 16 <= w <= 80 && w16 == w - 16 && w14 == w - 14 && w8 == w - 8 && w3 == w - 3
      invariant forall t :: 0 <= t < w ==> buf[t] == W(block, t)
    {
      MixIs(block, w);
      buf[w] := Mix(buf[w3], buf[w8], buf[w14], buf[w16]);
      w3, w8, w14, w16 := w3 + 1, w8 + 1, w14 + 1, w16 + 1;
      w := w + 1;
    }
  }

  /** Rounds still to do when the loop counter is `i`. */
  function Left(i: int, unroll: nat): nat {
    if i < 0 then 0 else Left(i - 1, unroll) + unroll
  }

  lemma {:induction false} LeftIs(i: int, unroll: nat)
    requires -1 <= i
    ensures Left(i, unroll) == (i + 1) * unroll
    decreases i + 1
  {
    if i == -1 {
    } else {
      LeftIs(i - 1, unroll);
      assert (i + 1) * unroll == i * unroll + unroll;
    }
  }

  lemma QuarterFits(unroll: nat)
    requires UnrollFactor(unroll)
    ensures 0 <= 20 / unroll && Left(20 / unroll - 1, unroll) == 20
  {
    LeftIs(20 / unroll - 1, unroll);
  }

  /** The body of one loop iteration: `unroll` rounds in a row. */
  method UnrolledRounds(unroll: nat, quarter: nat, ghost h: Regs, ghost block: seq<bv8>, buf: array<bv32>,
                        r0: Regs, w: nat)
    returns (r: Regs)
    requires |block| == 64 && buf.Length == 80 && 20 * quarter <= w <= w + unroll <= 20 * quarter + 20 <= 80
    requires forall t :: 0 <= t < 80 ==> buf[t] == W(block, t)
    requires r0 == Rounds(h, block, w)
    ensures r == Rounds(h, block, w + unroll)
  {
    r := r0;
    for j := 0 to unroll
      invariant r == Rounds(h, block, w + j)
    {
      r := DoRound(quarter, w + j, r, buf[w + j]);
    }
  }

  /** One quarter: `count` iterations counting down. */
  method TwentyRounds(unroll: nat, count: nat, quarter: nat, ghost h: Regs, ghost block: seq<bv8>,
                      buf: array<bv32>, r0: Regs)
    returns (r: Regs)
    requires Left(count - 1, unroll) == 20 && |block| == 64 && buf.Length == 80 && quarter < 4
    requires forall t :: 0 <= t < 80 ==> buf[t] == W(block, t)
    requires r0 == Rounds(h, block, 20 * quarter)
    ensures r == Rounds(h, block, 20 * quarter + 20)
  {
    r := r0;
    var w, end := 20 * quarter, 20 * quarter + 20;
    var i := count - 1;
    while i >= 0
      invariant -1 <= i < count && 20 * quarter <= w <= end && w + Left(i, unroll) == end
      invariant r == Rounds(h, block, w)
    {
      r := UnrolledRounds(unroll, quarter, h, block, buf, r, w);
      w := w + unroll;
      i := i - 1;
    }
  }

  /** Four quarters of 20 rounds, `unroll` rounds to a loop iteration. */
  method EightyRounds(unroll: nat, h: Regs, block: seq<bv8>, buf: array<bv32>) returns (r: Regs)
    requires UnrollFactor(unroll) && |block| == 64 && buf.Length == 80
    requires forall t :: 0 <= t < 80 ==> buf[t] == W(block, t)
    ensures r == Rounds(h, block, 80)
  {
    r := h;
    var w := 0;
    var quarter := 0;
    var count := 20 / unroll;
    QuarterFits(unroll);
    while quarter < 4
      invariant 0 <= quarter <= 4 && w == 20 * quarter && r == Rounds(h, block, w)
    {
      r := TwentyRounds(unroll, count, quarter, h, block, buf, r);
      w := w + 20;
      quarter := quarter + 1;
    }
  }

  // ---------------------------------------------------------------- the context

  /** The bit count as it lies in memory before it is hashed. */
  function NativeLength(littleEndian: bool, total: nat): seq<bv8> {
    StoreWord64(littleEndian, ByteSwap64(littleEndian, LengthWord(total)))
  }

  lemma NativeLengthIs(littleEndian: bool, total: nat)
    ensures NativeLength(littleEndian, total) == LengthBytes(total)
  {
    SwappedStore64Is(littleEndian, LengthWord(total));
  }

  function OutputWord(fast: bool, littleEndian: bool, x: bv32): seq<bv8> {
    if fast then StoreWord(littleEndian, ByteSwap(littleEndian, x)) else WordBytes(x)
  }

  lemma OutputWordIs(fast: bool, littleEndian: bool, x: bv32)
    ensures OutputWord(fast, littleEndian, x) == WordBytes(x)
  {
    SwappedStoreIs(littleEndian, x);
  }

  ghost function WordOf(h: Regs, i: nat): bv32
    requires i < 5
  {
    [h.a, h.b, h.c, h.d, h.e][i]
  }

  lemma JoinedPrefix(a: seq<bv8>, b: seq<bv8>, c: seq<bv8>, d: seq<bv8>, e: seq<bv8>, i: nat)
    requires |a| == |b| == |c| == |d| == |e| == 4 && i < 5
    ensures var all := a + b + c + d + e; all[..4 * i] + [a, b, c, d, e][i] == all[..4 * (i + 1)]
  {
  }

  lemma DigestPrefix(h: Regs, i: nat)
    requires i < 5
    ensures Digest(h)[..4 * i] + WordBytes(WordOf(h, i)) == Digest(h)[..4 * (i + 1)]
  {
    var a, b, c, d, e := WordBytes(h.a), WordBytes(h.b), WordBytes(h.c), WordBytes(h.d), WordBytes(h.e);
    JoinedPrefix(a, b, c, d, e, i);
  }

  class Sha1Context {
    const littleEndian: bool
    const unroll: nat
    const hash: array<bv32>
    const buffer: array<bv8>
    var totalLength: nat
    var bufferLength: nat

    ghost predicate Shaped()
      reads this
    {
      && hash.Length == 5 && buffer.Length == 64 && UnrollFactor(unroll)
      && totalLength < LENGTH_MODULUS && bufferLength <= 64
    }

    ghost predicate Valid()
      reads this
    {
      Shaped() && bufferLength < 64
    }

    ghost function Words(): Regs
      requires Shaped()
      reads this, hash
    {
      Regs(hash[0], hash[1], hash[2], hash[3], hash[4])
    }

    /** Only the first `bufferLength` bytes of the buffer are live. */
    ghost function View(): Ctx
      requires Shaped()
      reads this, hash, buffer
    {
      Ctx(Words(), totalLength, buffer[..bufferLength])
    }

    /** `SHA1Init`, for either byte order and any of the unroll factors. */
    constructor (littleEndian: bool, unroll: nat)
      requires UnrollFactor(unroll)
      ensures Valid() && fresh(hash) && fresh(buffer) && View() == START
    {
      this.littleEndian, this.unroll := littleEndian, unroll;
      totalLength, bufferLength := 0, 0;
      hash := new bv32[5];
      buffer := new bv8[64];
      new;
      hash[0], hash[1], hash[2], hash[3], hash[4] := 0x67452301, 0xefcdab89, 0x98badcfe, 0x10325476, 0xc3d2e1f0;
    }

    method AddWords(r: Regs)
      requires Shaped()
      modifies hash
      ensures Words() == Add(old(Words()), r)
    {
      var sum := Add(Regs(hash[0], hash[1], hash[2], hash[3], hash[4]), r);
      hash[0], hash[1], hash[2], hash[3], hash[4] := sum.a, sum.b, sum.c, sum.d, sum.e;
    }

    /** `SHA1Guts`: the block function of section 6.1, in place. */
    method Guts(block: seq<bv8>)
      requires Shaped() && |block| == 64
      modifies hash
      ensures Words() == Block(old(Words()), block)
    {
      var buf := new bv32[80];
      LoadBlock(littleEndian, block, buf);
      ExpandBlock(block, buf);
      var h := Regs(hash[0], hash[1], hash[2], hash[3], hash[4]);
      var r := EightyRounds(unroll, h, block, buf);
      AddWords(r);
    }

    /** Append bytes to the buffer and count them. */
    method Copy(data: seq<bv8>)
      requires Valid() && bufferLength + |data| <= 64
      modifies this, buffer
      ensures Shaped() && bufferLength == old(bufferLength) + |data|
      ensures View() == Ctx(old(Words()), AddBits(old(totalLength), |data|), old(View()).live + data)
    {
      for k := 0 to |data|
        invariant buffer[..bufferLength + k] == old(buffer[..bufferLength]) + data[..k]
        modifies buffer
      {
        buffer[bufferLength + k] := data[k];
      }
      totalLength := AddBits(totalLength, |data|);
      bufferLength := bufferLength + |data|;
    }

    /** Hash the buffer when it is full. */
    method Flush()
      requires Shaped()
      modifies this, hash
      ensures Valid() && totalLength == old(totalLength)
      ensures View() == if old(bufferLength) == 64 then Ctx(Block(old(Words()), old(buffer[..])), totalLength, [])
                        else old(View())
    {
      if bufferLength == 64 {
        Guts(buffer[..]);
        bufferLength := 0;
      }
    }

    /** One turn of the default loop. */
    method CopyAndFlush(data: seq<bv8>)
      requires Valid() && bufferLength + |data| <= 64
      modifies this, hash, buffer
      ensures Valid() && View() == Absorb(old(View()), data)
      ensures bufferLength == if old(bufferLength) + |data| == 64 then 0 else old(bufferLength) + |data|
    {
      ghost var c := View();
      if bufferLength + |data| == 64 { AbsorbToBlock(c, data); } else { AbsorbSmall(c, data); }
      Copy(data);
      assert bufferLength == 64 ==> buffer[..] == buffer[..bufferLength];
      Flush();
    }

    /** Pass on the first `n` bytes of what is left from `i` on. */
    method Consume(data: seq<bv8>, i: nat, n: nat)
      requires Valid() && i + n <= |data| && bufferLength + n <= 64
      modifies this, hash, buffer
      ensures Valid() && Absorb(View(), data[i + n..]) == Absorb(old(View()), data[i..])
      ensures bufferLength == if old(bufferLength) + n == 64 then 0 else old(bufferLength) + n
    {
      AbsorbTwice(View(), data[i..i + n], data[i + n..]);
      assert data[i..i + n] + data[i + n..] == data[i..];
      CopyAndFlush(data[i..i + n]);
    }

    /** `SHA1Update`, default path: everything goes through the buffer. */
    method Update(data: seq<bv8>)
      requires Valid()
      modifies this, hash, buffer
      ensures Valid() && View() == Absorb(old(View()), data)
    {
      ghost var goal := Absorb(View(), data);
      var i := 0;
      assert data[0..] == data;
      while i < |data|
        invariant 0 <= i <= |data| && Valid()
        invariant Absorb(View(), data[i..]) == goal
      {
        var left := 64 - bufferLength;
        var n := if left > |data| - i then |data| - i else left;
        Consume(data, i, n);
        i := i + n;
      }
      AbsorbNothing(View());
    }

    /** Top up a partly filled buffer. */
    method FastHead(data: seq<bv8>) returns (i: nat)
      requires Valid()
      modifies this, hash, buffer
      ensures Valid() && i <= |data| && (bufferLength == 0 || i == |data|)
      ensures Absorb(View(), data[i..]) == Absorb(old(View()), data)
    {
      i := 0;
      assert data[0..] == data;
      if bufferLength != 0 {
        var left := 64 - bufferLength;
        i := if left > |data| then |data| else left;
        Consume(data, 0, i);
      }
    }

    /** Keep what is left in the buffer. */
    method FastRest(data: seq<bv8>)
      requires Valid() && bufferLength + |data| < 64
      modifies this, buffer
      ensures Valid() && View() == Absorb(old(View()), data)
    {
      if data == [] {
        AbsorbNothing(View());
      } else {
        AbsorbSmall(View(), data);
        Copy(data);
      }
    }

    /** Hash one block straight from the data. */
    method FastBlock(data: seq<bv8>, i: nat)
      requires Valid() && bufferLength == 0 && i + 64 <= |data|
      modifies this, hash
      ensures Valid() && bufferLength == 0
      ensures Absorb(View(), data[i + 64..]) == Absorb(old(View()), data[i..])
    {
      var block := data[i..i + 64];
      AbsorbTwice(View(), block, data[i + 64..]);
      assert block + data[i + 64..] == data[i..];
      AbsorbToBlock(View(), block);
      assert View().live + block == block;
      totalLength := AddBits(totalLength, 64);
      Guts(block);
    }

    method FastBlocks(data: seq<bv8>, from: nat) returns (i: nat)
      requires Valid() && from <= |data| && (bufferLength == 0 || from == |data|)
      modifies this, hash
      ensures Valid() && i <= |data| && bufferLength + (|data| - i) < 64
      ensures Absorb(View(), data[i..]) == Absorb(old(View()), data[from..])
    {
      i := from;
      ghost var goal := Absorb(View(), data[from..]);
      while |data| - i > 63
        invariant from <= i <= |data| && Valid()
        invariant bufferLength == 0 || i == |data|
        invariant Absorb(View(), data[i..]) == goal
      {
        FastBlock(data, i);
        i := i + 64;
      }
    }

    /** `SHA1Update`, SHA1_FAST_COPY path: whole blocks are hashed straight from the data. */
    method FastUpdate(data: seq<bv8>)
      requires Valid()
      modifies this, hash, buffer
      ensures Valid() && View() == Absorb(old(View()), data)
    {
      ghost var goal := Absorb(View(), data);
      var i := FastHead(data);
      i := FastBlocks(data, i);
      FastRest(data[i..]);
    }

    /** `SHA1Update` as compiled. */
    method Feed(fast: bool, data: seq<bv8>)
      requires Valid()
      modifies this, hash, buffer
      ensures Valid() && View() == Absorb(old(View()), data)
    {
      if fast { FastUpdate(data); } else { Update(data); }
    }

    /** A sequence of updates. */
    method FeedAll(fast: bool, parts: seq<seq<bv8>>)
      requires Valid()
      modifies this, hash, buffer
      ensures Valid() && View() == AbsorbAll(old(View()), parts)
    {
      var k := 0;
      while k < |parts|
        invariant 0 <= k <= |parts| && Valid() && View() == AbsorbAll(old(View()), parts[..k])
      {
        assert parts[..k + 1][..k] == parts[..k];
        Feed(fast, parts[k]);
        k := k + 1;
      }
      assert parts[..k] == parts;
    }

    method AddPadding(fast: bool)
      requires Valid()
      modifies this, hash, buffer
      ensures Valid() && View() == Absorb(old(View()), Padding(BytesToPad(old(bufferLength))))
    {
      var bytesToPad := 120 - bufferLength;
      if bytesToPad > 64 {
        bytesToPad := bytesToPad - 64;
      }
      Feed(fast, Padding(bytesToPad));
    }

    method Output(fast: bool) returns (digest: seq<bv8>)
      requires Valid()
      ensures digest == Digest(Words())
    {
      digest := [];
      ghost var h := Words();
      var i := 0;
      while i < 5
        invariant 0 <= i <= 5 && digest == Digest(h)[..4 * i]
      {
        var word := OutputWord(fast, littleEndian, hash[i]);
        OutputWordIs(fast, littleEndian, hash[i]);
        assert hash[i] == WordOf(h, i);
        DigestPrefix(h, i);
        digest := digest + word;
        i := i + 1;
      }
    }

    /** `SHA1Final`: pad, append the length, and give out the digest. */
    method Final(fast: bool) returns (digest: seq<bv8>)
      requires Valid()
      modifies this, hash, buffer
      ensures Valid() && View() == Finish(old(View())) && digest == Digest(Words())
    {
      var lengthPad := NativeLength(littleEndian, totalLength);
      NativeLengthIs(littleEndian, totalLength);
      AddPadding(fast);
      Feed(fast, lengthPad);
      digest := Output(fast);
    }
  }

  /** Initialise, update with any fragments, finish: the RFC's hash of the fragments joined. */
  method HashParts(littleEndian: bool, unroll: nat, fast: bool, parts: seq<seq<bv8>>) returns (digest: seq<bv8>)
    requires UnrollFactor(unroll)
    ensures digest == Sha1(Join(parts))
  {
    var sc := new Sha1Context(littleEndian, unroll);
    sc.FeedAll(fast, parts);
    FragmentationIrrelevant(START, parts);
    FinishIsSha1(Join(parts));
    digest := sc.Final(fast);
  }

  /** `shahash`: one update. */
  method ShaHash(data: seq<bv8>) returns (digest: seq<bv8>)
    ensures digest == Sha1(data)
  {
    digest := HashParts(true, 20, false, [data]);
    assert Join([data]) == data by { assert [data][..0] == [] && [] + data == data; }
  }
}
