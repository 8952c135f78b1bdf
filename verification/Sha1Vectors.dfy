/**
 * The two messages of section 7.3 of RFC 3174 that fit in one block and in two. The intermediate words below are those
 * of the computation; only the digests matter.
 */
module Sha1Vectors {
  import opened Sha1Spec

  lemma FiveRounds(h: Regs, b: seq<bv8>, t: nat, r: Regs)
    requires |b| == 64
    requires var r1 := Round(Rounds(h, b, t), t, W(b, t)); var r2 := Round(r1, t + 1, W(b, t + 1));
      var r3 := Round(r2, t + 2, W(b, t + 2)); var r4 := Round(r3, t + 3, W(b, t + 3));
      Round(r4, t + 4, W(b, t + 4)) == r
    ensures Rounds(h, b, t + 5) == r
  {
    assert Rounds(h, b, t + 2) == Round(Rounds(h, b, t + 1), t + 1, W(b, t + 1));
    assert Rounds(h, b, t + 4) == Round(Rounds(h, b, t + 3), t + 3, W(b, t + 3));
  }

  lemma OneBlock(h: Regs, b: seq<bv8>)
    requires |b| == 64
    ensures HashBlocks(h, b) == Add(h, Rounds(h, b, 80))
  {
    assert b[..64] == b && b[64..] == [];
  }

  lemma TwoBlocks(h: Regs, h1: Regs, m: seq<bv8>)
    requires |m| == 128 && h1 == Add(h, Rounds(h, m[..64], 80))
    ensures HashBlocks(h, m) == Add(h1, Rounds(h1, m[64..], 80))
  {
    OneBlock(h1, m[64..]);
  }

  /** Words of a block whose bytes are known. */
  lemma WordAt(b: seq<bv8>, t: nat, w: bv32)
    requires |b| == 64 && t < 16
    requires BigEndian(b[4 * t], b[4 * t + 1], b[4 * t + 2], b[4 * t + 3]) == w
    ensures W(b, t) == w
  {
  }

  lemma FourWords(b: seq<bv8>, t: nat, s: seq<bv8>, w0: bv32, w1: bv32, w2: bv32, w3: bv32)
    requires |b| == 64 && t <= 12 && |s| == 16 && s == b[4 * t..4 * t + 16]
    requires BigEndian(s[0], s[1], s[2], s[3]) == w0 && BigEndian(s[4], s[5], s[6], s[7]) == w1
    requires BigEndian(s[8], s[9], s[10], s[11]) == w2 && BigEndian(s[12], s[13], s[14], s[15]) == w3
    ensures W(b, t) == w0 && W(b, t + 1) == w1 && W(b, t + 2) == w2 && W(b, t + 3) == w3
  {
    assert forall i :: 0 <= i < 16 ==> b[4 * t + i] == s[i];
  }

  // ---------------------------------------------------------------- "abc"

  ghost predicate IsAbc(b: seq<bv8>) {
    && |b| == 64
    && W(b, 0) == 0x61626380 && W(b, 1) == 0x00000000 && W(b, 2) == 0x00000000 && W(b, 3) == 0x00000000
    && W(b, 4) == 0x00000000 && W(b, 5) == 0x00000000 && W(b, 6) == 0x00000000 && W(b, 7) == 0x00000000
    && W(b, 8) == 0x00000000 && W(b, 9) == 0x00000000 && W(b, 10) == 0x00000000 && W(b, 11) == 0x00000000
    && W(b, 12) == 0x00000000 && W(b, 13) == 0x00000000 && W(b, 14) == 0x00000000 && W(b, 15) == 0x00000018
  }

  lemma AbcWords16(b: seq<bv8>)
    requires IsAbc(b)
    ensures W(b, 16) == 0xc2c4c700 && W(b, 17) == 0x00000000 && W(b, 18) == 0x00000030 && W(b, 19) == 0x85898e01
    ensures W(b, 20) == 0x00000000 && W(b, 21) == 0x00000060 && W(b, 22) == 0x0b131c03 && W(b, 23) == 0x00000030
    ensures W(b, 24) == 0x85898ec1 && W(b, 25) == 0x16263806 && W(b, 26) == 0x00000000 && W(b, 27) == 0x00000180
    ensures W(b, 28) == 0x2c4c700c && W(b, 29) == 0x000000f0 && W(b, 30) == 0x93afb507 && W(b, 31) == 0x5898e048
  {
  }

  lemma AbcWords32(b: seq<bv8>)
    requires IsAbc(b)
    ensures W(b, 32) == 0x8e9a9202 && W(b, 33) == 0x00000600 && W(b, 34) == 0xb131c0f0 && W(b, 35) == 0x16263bc6
    ensures W(b, 36) == 0x4ebed41e && W(b, 37) == 0x626380a1 && W(b, 38) == 0x16263806 && W(b, 39) == 0x000018c0
    ensures W(b, 40) == 0xd2e138c4 && W(b, 41) == 0x00000f00 && W(b, 42) == 0x3afb5079 && W(b, 43) == 0x898e04e5
    ensures W(b, 44) == 0xe2ba3c2b && W(b, 45) == 0x000060c0 && W(b, 46) == 0x053a37cd && W(b, 47) == 0x74458547
  {
    AbcWords16(b);
  }

  lemma AbcWords48(b: seq<bv8>)
    requires IsAbc(b)
    ensures W(b, 48) == 0xda9415ed && W(b, 49) == 0x26380a16 && W(b, 50) == 0x626383a1 && W(b, 51) == 0x4ebf54de
    ensures W(b, 52) == 0x3835b44b && W(b, 53) == 0x0000f600 && W(b, 54) == 0x1e84c7a3 && W(b, 55) == 0x98e04d98
    ensures W(b, 56) == 0x651d16a0 && W(b, 57) == 0x62658ca1 && W(b, 58) == 0x458544d6 && W(b, 59) == 0x44584cb7
    ensures W(b, 60) == 0x7ba06619 && W(b, 61) == 0x6380aea2 && W(b, 62) == 0x0ae55269 && W(b, 63) == 0x627b49a1
  {
    AbcWords32(b);
  }

  lemma AbcWords64(b: seq<bv8>)
    requires IsAbc(b)
    ensures W(b, 64) == 0x7cd45c9d && W(b, 65) == 0x000f0000 && W(b, 66) == 0xfb50753a && W(b, 67) == 0xec6765e8
    ensures W(b, 68) == 0xba3c2be2 && W(b, 69) == 0x0060c000 && W(b, 70) == 0x3a37cd05 && W(b, 71) == 0x458546f4
    ensures W(b, 72) == 0xb8599dd6 && W(b, 73) == 0x380a1a26 && W(b, 74) == 0x01e02203 && W(b, 75) == 0xe7cc3456
    ensures W(b, 76) == 0xe6e60b69 && W(b, 77) == 0x00f60a00 && W(b, 78) == 0x5795ef4f && W(b, 79) == 0x822e0879
  {
    AbcWords48(b);
  }

  lemma AbcRounds20(b: seq<bv8>)
    requires IsAbc(b)
    ensures Rounds(H0, b, 20) == Regs(0xfd9e1d7d, 0xdc64901d, 0x20aa99ca, 0xd3a49608, 0xc82f758b)
  {
    AbcWords16(b);
    FiveRounds(H0, b, 0, Regs(0xcfd499de, 0xcdd8e11b, 0x284e43c2, 0x626414db, 0xc045bf0c));
    FiveRounds(H0, b, 5, Regs(0x8351f929, 0x4b6ae328, 0x27a301f5, 0x664f8c30, 0x0ff1f290));
    FiveRounds(H0, b, 10, Regs(0x196bee77, 0x9128f695, 0x1181ed99, 0x18c623f9, 0x7ef6a7a2));
    FiveRounds(H0, b, 15, Regs(0xfd9e1d7d, 0xdc64901d, 0x20aa99ca, 0xd3a49608, 0xc82f758b));
  }

  lemma AbcRounds40(b: seq<bv8>)
    requires IsAbc(b)
    ensures Rounds(H0, b, 40) == Regs(0x32de1cba, 0x4c986405, 0xf718e5cf, 0x03d447f6, 0xf72eec32)
  {
    AbcRounds20(b);
    AbcWords16(b);
    AbcWords32(b);
    FiveRounds(H0, b, 20, Regs(0xc7567dc6, 0xd541f12d, 0x884a0d21, 0x0ce88eff, 0x868dec32));
    FiveRounds(H0, b, 25, Regs(0xc5fbaf5d, 0x8370b52e, 0xd2aa1365, 0x6f8d7ef5, 0x12104ee9));
    FiveRounds(H0, b, 30, Regs(0x21796ad4, 0x2c0ebc11, 0x811bea82, 0xcee1174c, 0xc499ed01));
    FiveRounds(H0, b, 35, Regs(0x32de1cba, 0x4c986405, 0xf718e5cf, 0x03d447f6, 0xf72eec32));
  }

  lemma AbcRounds60(b: seq<bv8>)
    requires IsAbc(b)
    ensures Rounds(H0, b, 60) == Regs(0x3f52de5a, 0x09d785fd, 0x3498bfd4, 0xf211824f, 0xd79915ab)
  {
    AbcRounds40(b);
    AbcWords32(b);
    AbcWords48(b);
    FiveRounds(H0, b, 40, Regs(0x40f28e09, 0xee1b1aaf, 0x5fc64f71, 0x25c28357, 0xff21f7b7));
    FiveRounds(H0, b, 45, Regs(0x120731c5, 0xbaf39337, 0xafab40b2, 0x2806e11b, 0x8714787c));
    FiveRounds(H0, b, 50, Regs(0x7b71f76d, 0x27e9f1d8, 0x792410db, 0x8e11eb59, 0x99076cb3));
    FiveRounds(H0, b, 55, Regs(0x3f52de5a, 0x09d785fd, 0x3498bfd4, 0xf211824f, 0xd79915ab));
  }

  lemma AbcRounds80(b: seq<bv8>)
    requires IsAbc(b)
    ensures Rounds(H0, b, 80) == Regs(0x42541b35, 0x5738d5e1, 0x21834873, 0x681e6df6, 0xd8fdf6ad)
  {
    AbcRounds60(b);
    AbcWords48(b);
    AbcWords64(b);
    FiveRounds(H0, b, 60, Regs(0x19dfa7ac, 0x6b61c9e1, 0xed9b0082, 0x9523272c, 0xf5d5b051));
    FiveRounds(H0, b, 65, Regs(0x3f2588c2, 0x497093c0, 0xde37534a, 0x030f7cad, 0x4405957e));
    FiveRounds(H0, b, 70, Regs(0x5ee76897, 0x11793f6f, 0x3b6d0b79, 0xce616779, 0xf0667e31));
    FiveRounds(H0, b, 75, Regs(0x42541b35, 0x5738d5e1, 0x21834873, 0x681e6df6, 0xd8fdf6ad));
  }

  lemma AbcLength()
    ensures LengthBytes(24) == [0, 0, 0, 0, 0, 0, 0, 24]
  {
    assert LengthWord(24) == 24;
  }

  lemma AbcPadded(m: seq<bv8>)
    requires m == [0x61, 0x62, 0x63]
    ensures |Pad(m)| == 64 && IsAbc(Pad(m))
  {
    AbcLength();
    assert ZeroCount(3) == 52;
    var b := Pad(m);
    assert b == m + [0x80] + Zeros(52) + [0, 0, 0, 0, 0, 0, 0, 24];
    WordAt(b, 0, 0x61626380);
    WordAt(b, 15, 0x00000018);
    forall t | 1 <= t < 15 ensures W(b, t) == 0 { WordAt(b, t, 0); }
  }

  lemma AbcHash(m: seq<bv8>)
    requires m == [0x61, 0x62, 0x63]
    ensures HashBlocks(H0, Pad(m)) == Regs(0xa9993e36, 0x4706816a, 0xba3e2571, 0x7850c26c, 0x9cd0d89d)
  {
    AbcPadded(m);
    AbcRounds80(Pad(m));
    OneBlock(H0, Pad(m));
  }

  lemma AbcBytes(h: Regs)
    requires h == Regs(0xa9993e36, 0x4706816a, 0xba3e2571, 0x7850c26c, 0x9cd0d89d)
    ensures Digest(h) == [0xa9, 0x99, 0x3e, 0x36] + [0x47, 0x06, 0x81, 0x6a] + [0xba, 0x3e, 0x25, 0x71]
                       + [0x78, 0x50, 0xc2, 0x6c] + [0x9c, 0xd0, 0xd8, 0x9d]
  {
  }

  /** The digest of "abc". */
  lemma AbcDigest(m: seq<bv8>)
    requires m == [0x61, 0x62, 0x63]
    ensures Sha1(m) == [0xa9, 0x99, 0x3e, 0x36] + [0x47, 0x06, 0x81, 0x6a] + [0xba, 0x3e, 0x25, 0x71]
                     + [0x78, 0x50, 0xc2, 0x6c] + [0x9c, 0xd0, 0xd8, 0x9d]
  {
    AbcHash(m);
    AbcBytes(HashBlocks(H0, Pad(m)));
  }

  // ---------------------------------------------------------------- two blocks

  ghost predicate IsFirst(b: seq<bv8>) {
    && |b| == 64
    && W(b, 0) == 0x61626364 && W(b, 1) == 0x62636465 && W(b, 2) == 0x63646566 && W(b, 3) == 0x64656667
    && W(b, 4) == 0x65666768 && W(b, 5) == 0x66676869 && W(b, 6) == 0x6768696a && W(b, 7) == 0x68696a6b
    && W(b, 8) == 0x696a6b6c && W(b, 9) == 0x6a6b6c6d && W(b, 10) == 0x6b6c6d6e && W(b, 11) == 0x6c6d6e6f
    && W(b, 12) == 0x6d6e6f70 && W(b, 13) == 0x6e6f7071 && W(b, 14) == 0x80000000 && W(b, 15) == 0x00000000
  }

  lemma FirstWords16(b: seq<bv8>)
    requires IsFirst(b)
    ensures W(b, 16) == 0x0a063a3e && W(b, 17) == 0xd8dadcdf && W(b, 18) == 0xdadcdec0 && W(b, 19) == 0xc8d2b4be
    ensures W(b, 20) == 0x6f757b5b && W(b, 21) == 0x757b5967 && W(b, 22) == 0x8da16d70 && W(b, 23) == 0xdaeefaba
    ensures W(b, 24) == 0xfaf6cab6 && W(b, 25) == 0xa6fb675a && W(b, 26) == 0x0c604cc8 && W(b, 27) == 0x604cc02c
    ensures W(b, 28) == 0x49c0e6e2 && W(b, 29) == 0x2ee8cbbc && W(b, 30) == 0xcfd72ec4 && W(b, 31) == 0x97e9810e
  {
  }

  lemma FirstWords32(b: seq<bv8>)
    requires IsFirst(b)
    ensures W(b, 32) == 0x0989cbe8 && W(b, 33) == 0xf24843fe && W(b, 34) == 0x5c40d0ba && W(b, 35) == 0xa8d9cc3b
    ensures W(b, 36) == 0xb2b9666e && W(b, 37) == 0xba7b71b7 && W(b, 38) == 0x20b28a72 && W(b, 39) == 0xb28af500
    ensures W(b, 40) == 0x8ac87842 && W(b, 41) == 0x289addf4 && W(b, 42) == 0x56d51f21 && W(b, 43) == 0xd96b7fd2
    ensures W(b, 44) == 0x3868e778 && W(b, 45) == 0xab5e4848 && W(b, 46) == 0x7f0e2118 && W(b, 47) == 0xde87a111
  {
    FirstWords16(b);
  }

  lemma FirstWords48(b: seq<bv8>)
    requires IsFirst(b)
    ensures W(b, 48) == 0xe8be56b0 && W(b, 49) == 0x1a0ae652 && W(b, 50) == 0xcd5611c8 && W(b, 51) == 0x46ef29dc
    ensures W(b, 52) == 0x60d3da6d && W(b, 53) == 0xddf3ba6e && W(b, 54) == 0x2737f5e9 && W(b, 55) == 0x4888a710
    ensures W(b, 56) == 0xd2a1177b && W(b, 57) == 0x9999633b && W(b, 58) == 0xd6c69d03 && W(b, 59) == 0xccf6127b
    ensures W(b, 60) == 0x7c58fe6d && W(b, 61) == 0xfdd99c68 && W(b, 62) == 0xf8e32074 && W(b, 63) == 0xe0ba3c7d
  {
    FirstWords32(b);
  }

  lemma FirstWords64(b: seq<bv8>)
    requires IsFirst(b)
    ensures W(b, 64) == 0x152198d6 && W(b, 65) == 0x7b3f1982 && W(b, 66) == 0x37f2d5b7 && W(b, 67) == 0x8596323e
    ensures W(b, 68) == 0x810790d6 && W(b, 69) == 0xbea0a942 && W(b, 70) == 0x11c7e1b1 && W(b, 71) == 0x6158d101
    ensures W(b, 72) == 0x5fcd77d9 && W(b, 73) == 0x7f2f12e6 && W(b, 74) == 0xf868cfb1 && W(b, 75) == 0xd6e997e9
    ensures W(b, 76) == 0xf526b852 && W(b, 77) == 0xb7578dcc && W(b, 78) == 0x55d99df4 && W(b, 79) == 0x1ff69958
  {
    FirstWords48(b);
  }

  lemma FirstRounds20(b: seq<bv8>)
    requires IsFirst(b)
    ensures Rounds(H0, b, 20) == Regs(0x6c445652, 0x944b1bd1, 0x509ae70d, 0x1ac1a012, 0x5098df8e)
  {
    FirstWords16(b);
    FiveRounds(H0, b, 0, Regs(0x33f4ae5b, 0x2c4f6eac, 0x9442644e, 0xbafced14, 0xc045bf05));
    FiveRounds(H0, b, 5, Regs(0x6350afda, 0xc565c35e, 0xd160cfc3, 0x36c132d6, 0x65ae1462));
    FiveRounds(H0, b, 10, Regs(0xb2e7a8be, 0x32f94a85, 0xa180d207, 0xb867b2a8, 0xe264fa9d));
    FiveRounds(H0, b, 15, Regs(0x6c445652, 0x944b1bd1, 0x509ae70d, 0x1ac1a012, 0x5098df8e));
  }

  lemma FirstRounds40(b: seq<bv8>)
    requires IsFirst(b)
    ensures Rounds(H0, b, 40) == Regs(0xadeb7478, 0x24957f22, 0x50fe1eba, 0x564cff26, 0xaadf0cbb)
  {
    FirstRounds20(b);
    FirstWords16(b);
    FirstWords32(b);
    FiveRounds(H0, b, 20, Regs(0xeeb82d9a, 0xfd224575, 0x38ae4b71, 0xc254445d, 0x6560db69));
    FiveRounds(H0, b, 25, Regs(0x05b457b2, 0xe1122421, 0x3549a991, 0xca5cbdf1, 0x96850b06));
    FiveRounds(H0, b, 30, Regs(0xe9ac987c, 0x31c756a9, 0x16bcc90b, 0x14b8c7d8, 0x2a7212fb));
    FiveRounds(H0, b, 35, Regs(0xadeb7478, 0x24957f22, 0x50fe1eba, 0x564cff26, 0xaadf0cbb));
  }

  lemma FirstRounds60(b: seq<bv8>)
    requires IsFirst(b)
    ensures Rounds(H0, b, 60) == Regs(0x9ef775c3, 0xf03d3782, 0xeb029e53, 0xe9a06dc8, 0x1ddb0e44)
  {
    FirstRounds40(b);
    FirstWords32(b);
    FirstWords48(b);
    FiveRounds(H0, b, 40, Regs(0x98c1ea64, 0x633e9561, 0xbe6f2e37, 0x1e6f3ec2, 0x35c39404));
    FiveRounds(H0, b, 45, Regs(0x7e846f58, 0x88341600, 0x3229a424, 0xa8ab53c0, 0xb1ba8907));
    FiveRounds(H0, b, 50, Regs(0x36d1230a, 0xedea95b1, 0x33a24b84, 0x234b9db2, 0xa1b8d62e));
    FiveRounds(H0, b, 55, Regs(0x9ef775c3, 0xf03d3782, 0xeb029e53, 0xe9a06dc8, 0x1ddb0e44));
  }

  lemma FirstRounds80(b: seq<bv8>)
    requires IsFirst(b)
    ensures Rounds(H0, b, 80) == Regs(0x8ce34517, 0xd3ad7c25, 0x6b4e1883, 0x74351cd2, 0x86838382)
  {
    FirstRounds60(b);
    FirstWords48(b);
    FirstWords64(b);
    FiveRounds(H0, b, 60, Regs(0xe5895c81, 0x513f9ca0, 0x0afebdea, 0x10203537, 0xcd8952c4));
    FiveRounds(H0, b, 65, Regs(0xfdf6efff, 0x2c7b07bd, 0x5b45f27f, 0x452a0b6a, 0x440df4b5));
    FiveRounds(H0, b, 70, Regs(0x352d9f4b, 0xc5210e35, 0x6ae27edc, 0xa10195c4, 0xc44ae5b8));
    FiveRounds(H0, b, 75, Regs(0x8ce34517, 0xd3ad7c25, 0x6b4e1883, 0x74351cd2, 0x86838382));
  }

  const SECOND_START := Regs(0xf4286818, 0xc37b27ae, 0x0408f581, 0x84677148, 0x4a566572)

  ghost predicate IsSecond(b: seq<bv8>) {
    && |b| == 64
    && W(b, 0) == 0x00000000 && W(b, 1) == 0x00000000 && W(b, 2) == 0x00000000 && W(b, 3) == 0x00000000
    && W(b, 4) == 0x00000000 && W(b, 5) == 0x00000000 && W(b, 6) == 0x00000000 && W(b, 7) == 0x00000000
    && W(b, 8) == 0x00000000 && W(b, 9) == 0x00000000 && W(b, 10) == 0x00000000 && W(b, 11) == 0x00000000
    && W(b, 12) == 0x00000000 && W(b, 13) == 0x00000000 && W(b, 14) == 0x00000000 && W(b, 15) == 0x000001c0
  }

  lemma SecondWords16(b: seq<bv8>)
    requires IsSecond(b)
    ensures W(b, 16) == 0x00000000 && W(b, 17) == 0x00000000 && W(b, 18) == 0x00000380 && W(b, 19) == 0x00000000
    ensures W(b, 20) == 0x00000000 && W(b, 21) == 0x00000700 && W(b, 22) == 0x00000000 && W(b, 23) == 0x00000380
    ensures W(b, 24) == 0x00000e00 && W(b, 25) == 0x00000000 && W(b, 26) == 0x00000000 && W(b, 27) == 0x00001c00
    ensures W(b, 28) == 0x00000000 && W(b, 29) == 0x00000d80 && W(b, 30) == 0x00003800 && W(b, 31) == 0x00000480
  {
  }

  lemma SecondWords32(b: seq<bv8>)
    requires IsSecond(b)
    ensures W(b, 32) == 0x00000000 && W(b, 33) == 0x00007000 && W(b, 34) == 0x00000e00 && W(b, 35) == 0x00003600
    ensures W(b, 36) == 0x0000e000 && W(b, 37) == 0x00000e00 && W(b, 38) == 0x00000000 && W(b, 39) == 0x0001ce00
    ensures W(b, 40) == 0x00000000 && W(b, 41) == 0x0000d800 && W(b, 42) == 0x00038000 && W(b, 43) == 0x00004f00
    ensures W(b, 44) == 0x00000000 && W(b, 45) == 0x00070e00 && W(b, 46) == 0x0000ee00 && W(b, 47) == 0x00037500
  {
    SecondWords16(b);
  }

  lemma SecondWords48(b: seq<bv8>)
    requires IsSecond(b)
    ensures W(b, 48) == 0x000e0000 && W(b, 49) == 0x0000e000 && W(b, 50) == 0x00003600 && W(b, 51) == 0x001cee00
    ensures W(b, 52) == 0x00000000 && W(b, 53) == 0x000df000 && W(b, 54) == 0x00380000 && W(b, 55) == 0x0004c600
    ensures W(b, 56) == 0x0000e000 && W(b, 57) == 0x0070ee00 && W(b, 58) == 0x000ee000 && W(b, 59) == 0x00369e00
    ensures W(b, 60) == 0x00e00000 && W(b, 61) == 0x000ed600 && W(b, 62) == 0x0000e000 && W(b, 63) == 0x01cea600
  {
    SecondWords32(b);
  }

  lemma SecondWords64(b: seq<bv8>)
    requires IsSecond(b)
    ensures W(b, 64) == 0x00000000 && W(b, 65) == 0x00d80000 && W(b, 66) == 0x0380e000 && W(b, 67) == 0x004f0000
    ensures W(b, 68) == 0x00000000 && W(b, 69) == 0x070e0000 && W(b, 70) == 0x00ee0000 && W(b, 71) == 0x03751c00
    ensures W(b, 72) == 0x0e000000 && W(b, 73) == 0x00e0e000 && W(b, 74) == 0x00363800 && W(b, 75) == 0x1cee9000
    ensures W(b, 76) == 0x00000000 && W(b, 77) == 0x0df09000 && W(b, 78) == 0x3800e000 && W(b, 79) == 0x04c77400
  {
    SecondWords48(b);
  }

  lemma SecondRounds20(b: seq<bv8>)
    requires IsSecond(b)
    ensures Rounds(SECOND_START, b, 20) == Regs(0xd8992153, 0xc2eb709f, 0x2946d62f, 0x9541f6db, 0x365dc8d8)
  {
    SecondWords16(b);
    FiveRounds(SECOND_START, b, 0, Regs(0x41e34277, 0xeef743c6, 0x70d4aec1, 0xd34f7163, 0x4b7c95fa));
    FiveRounds(SECOND_START, b, 5, Regs(0xb8538aca, 0xfdde1de1, 0xf1a51a04, 0xf9fe80dd, 0x1510e457));
    FiveRounds(SECOND_START, b, 10, Regs(0x258b0baa, 0xa2604ca8, 0xffb35eef, 0xd0e89e4b, 0xdaea53d8));
    FiveRounds(SECOND_START, b, 15, Regs(0xd8992153, 0xc2eb709f, 0x2946d62f, 0x9541f6db, 0x365dc8d8));
  }

  lemma SecondRounds40(b: seq<bv8>)
    requires IsSecond(b)
    ensures Rounds(SECOND_START, b, 40) == Regs(0x03bb6310, 0x84e2a5f2, 0x21f56e03, 0xb3bd6b84, 0x1a5b6901)
  {
    SecondRounds20(b);
    SecondWords16(b);
    SecondWords32(b);
    FiveRounds(SECOND_START, b, 20, Regs(0x88fb5867, 0x8fbaa5b9, 0x66b5652e, 0x7ba1c02f, 0xcdd20bd7));
    FiveRounds(SECOND_START, b, 25, Regs(0x0a2fb108, 0x2429be5f, 0xd7105b6b, 0x142f390d, 0x7bb14148));
    FiveRounds(SECOND_START, b, 30, Regs(0x295cc25b, 0xf15f04f3, 0xdad8a664, 0x2292bce1, 0xc5e61888));
    FiveRounds(SECOND_START, b, 35, Regs(0x03bb6310, 0x84e2a5f2, 0x21f56e03, 0xb3bd6b84, 0x1a5b6901));
  }

  lemma SecondRounds60(b: seq<bv8>)
    requires IsSecond(b)
    ensures Rounds(SECOND_START, b, 60) == Regs(0xa65818f7, 0x5b086c42, 0xb9e15956, 0xea1256a6, 0xdb69cb9f)
  {
    SecondRounds40(b);
    SecondWords32(b);
    SecondWords48(b);
    FiveRounds(SECOND_START, b, 40, Regs(0x3caed7af, 0xec1d3d61, 0x8a162454, 0x2fec95da, 0xf0b63dd7));
    FiveRounds(SECOND_START, b, 45, Regs(0x850d411c, 0xdc8e7f26, 0x11be4eda, 0x9cc5815a, 0xb0f40cfa));
    FiveRounds(SECOND_START, b, 50, Regs(0x2bdbb8cb, 0x431d65bc, 0x05e5f88a, 0x627ef507, 0x1f919cb0));
    FiveRounds(SECOND_START, b, 55, Regs(0xa65818f7, 0x5b086c42, 0xb9e15956, 0xea1256a6, 0xdb69cb9f));
  }

  lemma SecondRounds80(b: seq<bv8>)
    requires IsSecond(b)
    ensures Rounds(SECOND_START, b, 80) == Regs(0x906fd62c, 0x58c0aac0, 0xb6a55520, 0x74e9b89d, 0x9af00b7f)
  {
    SecondRounds60(b);
    SecondWords48(b);
    SecondWords64(b);
    FiveRounds(SECOND_START, b, 60, Regs(0x60a9da62, 0xd504902b, 0x3d9b66fd, 0x24d85327, 0xdeaac406));
    FiveRounds(SECOND_START, b, 65, Regs(0x989dd165, 0x76c0563b, 0xfd889aef, 0xc20fa430, 0x62da1e06));
    FiveRounds(SECOND_START, b, 70, Regs(0xd28d83ad, 0x16f3babb, 0xb2861037, 0xeb86e39e, 0xe2cb1d5c));
    FiveRounds(SECOND_START, b, 75, Regs(0x906fd62c, 0x58c0aac0, 0xb6a55520, 0x74e9b89d, 0x9af00b7f));
  }

  const LONG0: seq<bv8> :=
    [0x61, 0x62, 0x63, 0x64, 0x62, 0x63, 0x64, 0x65, 0x63, 0x64, 0x65, 0x66, 0x64, 0x65, 0x66, 0x67]
  const LONG1: seq<bv8> :=
    [0x65, 0x66, 0x67, 0x68, 0x66, 0x67, 0x68, 0x69, 0x67, 0x68, 0x69, 0x6a, 0x68, 0x69, 0x6a, 0x6b]
  const LONG2: seq<bv8> :=
    [0x69, 0x6a, 0x6b, 0x6c, 0x6a, 0x6b, 0x6c, 0x6d, 0x6b, 0x6c, 0x6d, 0x6e, 0x6c, 0x6d, 0x6e, 0x6f]
  const LONG3: seq<bv8> :=
    [0x6d, 0x6e, 0x6f, 0x70, 0x6e, 0x6f, 0x70, 0x71]

  /** The bytes of "abcdbcdecdefdefgefghfghighijhijkijkljklmklmnlmnomnopnopq". */
  const LONG: seq<bv8> := LONG0 + LONG1 + LONG2 + LONG3

  lemma LongWords0(b: seq<bv8>)
    requires |b| == 64 && b[0..16] == LONG0
    ensures W(b, 0) == 0x61626364 && W(b, 1) == 0x62636465 && W(b, 2) == 0x63646566 && W(b, 3) == 0x64656667
  {
    FourWords(b, 0, b[0..16], 0x61626364, 0x62636465, 0x63646566, 0x64656667);
  }

  lemma LongWords1(b: seq<bv8>)
    requires |b| == 64 && b[16..32] == LONG1
    ensures W(b, 4) == 0x65666768 && W(b, 5) == 0x66676869 && W(b, 6) == 0x6768696a && W(b, 7) == 0x68696a6b
  {
    FourWords(b, 4, b[16..32], 0x65666768, 0x66676869, 0x6768696a, 0x68696a6b);
  }

  lemma LongWords2(b: seq<bv8>)
    requires |b| == 64 && b[32..48] == LONG2
    ensures W(b, 8) == 0x696a6b6c && W(b, 9) == 0x6a6b6c6d && W(b, 10) == 0x6b6c6d6e && W(b, 11) == 0x6c6d6e6f
  {
    FourWords(b, 8, b[32..48], 0x696a6b6c, 0x6a6b6c6d, 0x6b6c6d6e, 0x6c6d6e6f);
  }

  lemma LongWords3(b: seq<bv8>)
    requires |b| == 64 && b[48..64] == LONG3 + [0x80, 0, 0, 0, 0, 0, 0, 0]
    ensures W(b, 12) == 0x6d6e6f70 && W(b, 13) == 0x6e6f7071 && W(b, 14) == 0x80000000 && W(b, 15) == 0x00000000
  {
    FourWords(b, 12, b[48..64], 0x6d6e6f70, 0x6e6f7071, 0x80000000, 0x00000000);
  }

  lemma LongFirst(b: seq<bv8>)
    requires b == LONG + [0x80] + Zeros(7)
    ensures IsFirst(b)
  {
    assert b[48..64] == LONG3 + [0x80, 0, 0, 0, 0, 0, 0, 0];
    LongWords0(b);
    LongWords1(b);
    LongWords2(b);
    LongWords3(b);
  }

  lemma LongSecond(b: seq<bv8>)
    requires b == Zeros(56) + [0, 0, 0, 0, 0, 0, 1, 0xc0]
    ensures IsSecond(b)
  {
    forall t | 0 <= t < 14 ensures W(b, t) == 0 { WordAt(b, t, 0); }
    WordAt(b, 14, 0);
    WordAt(b, 15, 0x000001c0);
  }

  lemma LongLength()
    ensures LengthBytes(448) == [0, 0, 0, 0, 0, 0, 1, 0xc0]
  {
    assert LengthWord(448) == 448;
  }

  lemma Cut64(x: seq<bv8>, y: seq<bv8>, m: seq<bv8>)
    requires |x| == 64 && m == x + y
    ensures m[..64] == x && m[64..] == y
  {
  }

  lemma LongPadded()
    ensures |Pad(LONG)| == 128 && IsFirst(Pad(LONG)[..64]) && IsSecond(Pad(LONG)[64..])
  {
    LongLength();
    assert ZeroCount(56) == 63;
    var x, y := LONG + [0x80] + Zeros(7), Zeros(56) + [0, 0, 0, 0, 0, 0, 1, 0xc0];
    assert Zeros(63) == Zeros(7) + Zeros(56);
    Cut64(x, y, Pad(LONG));
    LongFirst(x);
    LongSecond(y);
  }

  lemma LongHash()
    ensures HashBlocks(H0, Pad(LONG)) == Regs(0x84983e44, 0x1c3bd26e, 0xbaae4aa1, 0xf95129e5, 0xe54670f1)
  {
    var m := Pad(LONG);
    LongPadded();
    FirstRounds80(m[..64]);
    SecondRounds80(m[64..]);
    TwoBlocks(H0, SECOND_START, m);
  }

  lemma LongBytes(h: Regs)
    requires h == Regs(0x84983e44, 0x1c3bd26e, 0xbaae4aa1, 0xf95129e5, 0xe54670f1)
    ensures Digest(h) == [0x84, 0x98, 0x3e, 0x44] + [0x1c, 0x3b, 0xd2, 0x6e] + [0xba, 0xae, 0x4a, 0xa1]
                       + [0xf9, 0x51, 0x29, 0xe5] + [0xe5, 0x46, 0x70, 0xf1]
  {
  }

  /** The digest of that message. */
  lemma LongDigest()
    ensures Sha1(LONG) == [0x84, 0x98, 0x3e, 0x44] + [0x1c, 0x3b, 0xd2, 0x6e] + [0xba, 0xae, 0x4a, 0xa1]
                        + [0xf9, 0x51, 0x29, 0xe5] + [0xe5, 0x46, 0x70, 0xf1]
  {
    LongHash();
    LongBytes(HashBlocks(H0, Pad(LONG)));
  }
}
