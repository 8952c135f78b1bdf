/** Chunk hashes as text, as bytes, and as WHOHAS packets. */
module Whohas {
  import opened Collections
  import opened Wire

  // ---------------------------------------------------------------- hexadecimal text

  predicate IsHexDigit(c: char) {
    '0' <= c <= '9' || 'a' <= c <= 'f' || 'A' <= c <= 'F'
  }

  function ToUpper(c: char): char {
    if 'a' <= c <= 'z' then c - 32 as char else c
  }

  function ToLower(c: char): char {
    if 'A' <= c <= 'Z' then c + 32 as char else c
  }

  /** `_hex2binary`, which is not asked about digits only: a byte; bytes from 128 on are negative characters. */
  function DigitValue(c: char): (v: nat)
    ensures v < 256 && (IsHexDigit(c) ==> v < 16)
  {
    var u := ToUpper(c);
    if u <= '9' || 128 <= u as int then (u as int - '0' as int) % 256 else (u as int - ('A' as int - 10)) % 256
  }

  /** One digit as `%x` prints it. */
  function DigitChar(v: int): (c: char)
    requires 0 <= v < 16
    ensures IsHexDigit(c) && DigitValue(c) == v && ToLower(c) == c
  {
    if v < 10 then (v + '0' as int) as char else (v - 10 + 'a' as int) as char
  }

  predicate IsHex(s: string) {
    |s| % 2 == 0 && forall i :: 0 <= i < |s| ==> IsHexDigit(s[i])
  }

  /** Bitwise or. */
  function Or(x: nat, y: nat): nat
    decreases x + y
  {
    if x == 0 then y else if y == 0 then x
    else 2 * Or(x / 2, y / 2) + if x % 2 == 1 || y % 2 == 1 then 1 else 0
  }

  lemma OrEven(x: nat, y: nat)
    ensures Or(2 * x, y) == 2 * Or(x, y / 2) + y % 2
  {
  }

  lemma OrByOne(x: nat, y: nat)
    requires y < 2
    ensures Or(2 * x, y) == 2 * x + y
  {
    OrEven(x, y);
  }

  lemma OrByTwo(x: nat, y: nat)
    requires y < 4
    ensures Or(4 * x, y) == 4 * x + y
  {
    OrEven(2 * x, y);
    OrByOne(x, y / 2);
  }

  lemma OrByThree(x: nat, y: nat)
    requires y < 8
    ensures Or(8 * x, y) == 8 * x + y
  {
    OrEven(4 * x, y);
    OrByTwo(x, y / 2);
  }

  /** Below a value shifted by four there is room for four bits. */
  lemma OrByFour(x: nat, y: nat)
    requires y < 16
    ensures Or(16 * x, y) == 16 * x + y
  {
    OrEven(8 * x, y);
    OrByThree(x, y / 2);
  }

  /** The first value shifted by four bits, or the second, cut to a byte. */
  function ShiftOr(x: nat, y: nat): byte { (Or(16 * x, y) % 256) as byte }

  function PairValue(hi: char, lo: char): byte { ShiftOr(DigitValue(hi), DigitValue(lo)) }

  lemma ShiftOrDigits(x: nat, y: nat)
    requires x < 16 && y < 16
    ensures ShiftOr(x, y) as int == 16 * x + y
  {
    OrByFour(x, y);
  }

  lemma Halves(x: nat, y: nat, v: int)
    requires x < 16 && y < 16 && v == 16 * x + y
    ensures v / 16 == x && v % 16 == y
  {
  }

  lemma PairOfDigits(hi: char, lo: char)
    requires IsHexDigit(hi) && IsHexDigit(lo)
    ensures var v := PairValue(hi, lo) as int; v / 16 == DigitValue(hi) && v % 16 == DigitValue(lo)
  {
    ShiftOrDigits(DigitValue(hi), DigitValue(lo));
    Halves(DigitValue(hi), DigitValue(lo), PairValue(hi, lo) as int);
  }

  function HexToBytes(s: string): (b: seq<byte>)
    requires |s| % 2 == 0
    ensures |b| == |s| / 2
    ensures forall i :: 0 <= i < |b| ==> b[i] == PairValue(s[2 * i], s[2 * i + 1])
  {
    seq(|s| / 2, i requires 0 <= i < |s| / 2 => PairValue(s[2 * i], s[2 * i + 1]))
  }

  function BytesToHex(b: seq<byte>): (s: string)
    ensures |s| == 2 * |b|
    ensures forall i :: 0 <= i < |b| ==>
              s[2 * i] == DigitChar(b[i] as int / 16) && s[2 * i + 1] == DigitChar(b[i] as int % 16)
  {
    if b == [] then []
    else
      var last := b[|b| - 1] as int;
      BytesToHex(b[..|b| - 1]) + [DigitChar(last / 16), DigitChar(last % 16)]
  }

  /** The sixteen digits in order. */
  const DIGITS := "0123456789abcdef"

  lemma DigitCharIs(v: int)
    requires 0 <= v < 16
    ensures DigitChar(v) == DIGITS[v]
  {
  }

  /** A byte is printed as sixteen times the value of its first digit plus that of the second. */
  lemma HexDigitsAre(b: seq<byte>, i: nat)
    requires i < |b|
    ensures exists hi, lo :: 0 <= hi < 16 && 0 <= lo < 16 && b[i] as int == 16 * hi + lo &&
              BytesToHex(b)[2 * i] == DIGITS[hi] && BytesToHex(b)[2 * i + 1] == DIGITS[lo]
  {
    var hi, lo := b[i] as int / 16, b[i] as int % 16;
    DigitCharIs(hi);
    DigitCharIs(lo);
    assert b[i] as int == 16 * hi + lo;
  }

  function Lower(s: string): (r: string)
    ensures |r| == |s| && forall i :: 0 <= i < |s| ==> r[i] == ToLower(s[i])
  {
    seq(|s|, i requires 0 <= i < |s| => ToLower(s[i]))
  }

  lemma DigitRoundTrip(c: char)
    requires IsHexDigit(c)
    ensures DigitChar(DigitValue(c)) == ToLower(c)
  {
  }

  lemma PairRoundTrip(hi: char, lo: char)
    requires IsHexDigit(hi) && IsHexDigit(lo)
    ensures var v := PairValue(hi, lo) as int; DigitChar(v / 16) == ToLower(hi) && DigitChar(v % 16) == ToLower(lo)
  {
    DigitRoundTrip(hi);
    DigitRoundTrip(lo);
    PairOfDigits(hi, lo);
  }

  lemma EvenOdd(t: string, u: string)
    requires |t| == |u| && |t| % 2 == 0
    requires forall i :: 0 <= i < |t| / 2 ==> t[2 * i] == u[2 * i] && t[2 * i + 1] == u[2 * i + 1]
    ensures t == u
  {
    forall k | 0 <= k < |t| ensures t[k] == u[k] {
      assert k == 2 * (k / 2) || k == 2 * (k / 2) + 1;
    }
  }

  /** Text survives the way to bytes and back, up to letter case. */
  lemma HexRoundTrip(s: string)
    requires IsHex(s)
    ensures BytesToHex(HexToBytes(s)) == Lower(s)
  {
    var b := HexToBytes(s);
    var t := BytesToHex(b);
    forall i | 0 <= i < |b| ensures t[2 * i] == ToLower(s[2 * i]) && t[2 * i + 1] == ToLower(s[2 * i + 1]) {
      PairRoundTrip(s[2 * i], s[2 * i + 1]);
    }
    EvenOdd(t, Lower(s));
  }

  lemma ByteRoundTrip(x: byte)
    ensures PairValue(DigitChar(x as int / 16), DigitChar(x as int % 16)) == x
  {
    PairOfDigits(DigitChar(x as int / 16), DigitChar(x as int % 16));
  }

  /** Bytes survive the way to text and back. */
  lemma BytesRoundTrip(b: seq<byte>)
    ensures IsHex(BytesToHex(b)) && HexToBytes(BytesToHex(b)) == b
  {
    var s := BytesToHex(b);
    forall k | 0 <= k < |s| ensures IsHexDigit(s[k]) {
      assert k == 2 * (k / 2) || k == 2 * (k / 2) + 1;
    }
    forall i | 0 <= i < |b| ensures PairValue(s[2 * i], s[2 * i + 1]) == b[i] { ByteRoundTrip(b[i]); }
  }

  lemma ByteAt(hex: string, i: nat, m: nat)
    requires |hex| % 2 == 0 && i == 2 * m < |hex|
    ensures HexToBytes(hex)[m] == PairValue(hex[i], hex[i + 1])
  {
  }

  /** `s` with the bytes from `at` on replaced. */
  function Overwritten(s: seq<byte>, at: nat, bytes: seq<byte>): seq<byte>
    requires at + |bytes| <= |s|
  {
    s[..at] + bytes + s[at + |bytes|..]
  }

  lemma OneMore(s: seq<byte>, at: nat, bytes: seq<byte>, m: nat)
    requires at + |bytes| <= |s| && m < |bytes|
    ensures Overwritten(s, at, bytes[..m])[at + m := bytes[m]] == Overwritten(s, at, bytes[..m + 1])
  {
  }

  /** `hex2binary`: two characters to a byte, written at `at`. */
  method Hex2Binary(hex: string, buf: array<byte>, at: nat)
    requires |hex| % 2 == 0 && at + |hex| / 2 <= buf.Length
    modifies buf
    ensures buf[..] == Overwritten(old(buf[..]), at, HexToBytes(hex))
  {
    ghost var before, bytes := buf[..], HexToBytes(hex);
    var i := 0;
    ghost var m := 0;
    while i < |hex|
      invariant 0 <= i == 2 * m <= |hex| && buf[..] == Overwritten(before, at, bytes[..m])
    {
      ghost var so := buf[..];
      ByteAt(hex, i, m);
      buf[at + i / 2] := PairValue(hex[i], hex[i + 1]);
      OneMore(before, at, bytes, m);
      assert buf[..] == so[at + m := bytes[m]];
      i, m := i + 2, m + 1;
    }
    assert bytes[..m] == bytes;
  }

  /** `binary2hex`: two lower-case digits for each byte. */
  method Binary2Hex(buf: seq<byte>) returns (hex: string)
    ensures hex == BytesToHex(buf)
  {
    hex := [];
    for i := 0 to |buf|
      invariant hex == BytesToHex(buf[..i])
    {
      assert buf[..i + 1][..i] == buf[..i];
      hex := hex + [DigitChar(buf[i] as int / 16), DigitChar(buf[i] as int % 16)];
    }
    assert buf[..|buf|] == buf;
  }

  // ---------------------------------------------------------------- packets

  /** A hash is 20 bytes. */
  predicate IsHash(h: seq<byte>) { |h| == 20 }

  predicate AllHashes(hs: seq<seq<byte>>) { forall i :: 0 <= i < |hs| ==> IsHash(hs[i]) }

  lemma {:induction false} JoinedLength(hs: seq<seq<byte>>)
    requires AllHashes(hs)
    ensures |Join(hs)| == 20 * |hs|
  {
    if hs == [] {
    } else {
      JoinedLength(hs[..|hs| - 1]);
    }
  }

  datatype WhohasPacket = WhohasPacket(packetLen: int, data: seq<byte>)

  /** `init_packet` for a WHOHAS: a count and three padding bytes, nothing when the count is zero. */
  function InitPacket(data: seq<byte>): (p: WhohasPacket)
    requires |data| <= 1000
    ensures |p.data| == |data| + 4
  {
    var n := |data| / 20;
    var prefix: seq<byte> := if n == 0 then [0, 0, 0, 0] else [n as byte, 1, 1, 1];
    WhohasPacket(|data| + 16 + 4, prefix + data)
  }

  function Encode(hs: seq<seq<byte>>): WhohasPacket
    requires AllHashes(hs) && |hs| <= 50
  {
    JoinedLength(hs);
    InitPacket(Join(hs))
  }

  /** Groups of 50 hashes; the last packet holds what is left, possibly nothing. */
  function Batches(hs: seq<seq<byte>>): (bs: seq<seq<seq<byte>>>)
    requires AllHashes(hs)
    ensures forall i :: 0 <= i < |bs| ==> AllHashes(bs[i]) && |bs[i]| <= 50
    ensures |bs| == |hs| / 50 + 1
    decreases |hs|
  {
    if |hs| < 50 then [hs] else [hs[..50]] + Batches(hs[50..])
  }

  function EncodeAll(bs: seq<seq<seq<byte>>>): (ps: seq<WhohasPacket>)
    requires forall i :: 0 <= i < |bs| ==> AllHashes(bs[i]) && |bs[i]| <= 50
    ensures |ps| == |bs| && forall i :: 0 <= i < |bs| ==> ps[i] == Encode(bs[i])
  {
    seq(|bs|, i requires 0 <= i < |bs| => Encode(bs[i]))
  }

  /** What a receiver can read: the count fits the data. */
  predicate Readable(p: WhohasPacket) {
    |p.data| >= 4 && 4 + 20 * p.data[0] as int <= |p.data|
  }

  function Decode(p: WhohasPacket): (hs: seq<seq<byte>>)
    requires Readable(p)
    ensures AllHashes(hs)
  {
    seq(p.data[0] as int, i requires 0 <= i < p.data[0] as int => p.data[4 + 20 * i..4 + 20 * i + 20])
  }

  lemma {:induction false} JoinedAt(hs: seq<seq<byte>>, i: nat)
    requires AllHashes(hs) && i < |hs|
    ensures |Join(hs)| == 20 * |hs| && Join(hs)[20 * i..20 * i + 20] == hs[i]
  {
    JoinedLength(hs);
    if i == |hs| - 1 {
    } else {
      JoinedAt(hs[..|hs| - 1], i);
      assert Join(hs)[20 * i..20 * i + 20] == Join(hs[..|hs| - 1])[20 * i..20 * i + 20];
    }
  }

  /** Decoding undoes encoding, and a packet never exceeds 1020 bytes. */
  lemma DecodeEncode(hs: seq<seq<byte>>)
    requires AllHashes(hs) && |hs| <= 50
    ensures Readable(Encode(hs)) && Decode(Encode(hs)) == hs
    ensures Encode(hs).packetLen == 16 + |Encode(hs).data| <= 1020
    ensures Encode(hs).data[0] as int == |hs| && Encode(hs).data[4..] == Join(hs)
  {
    var p := Encode(hs);
    JoinedLength(hs);
    assert p.data[0] as int == |hs|;
    forall i | 0 <= i < |hs| ensures p.data[4 + 20 * i..4 + 20 * i + 20] == hs[i] {
      JoinedAt(hs, i);
      assert p.data[4..] == Join(hs);
      assert p.data[4 + 20 * i..4 + 20 * i + 20] == p.data[4..][20 * i..20 * i + 20];
    }
  }

  ghost function DecodeAll(ps: seq<WhohasPacket>): seq<seq<byte>>
    requires forall i :: 0 <= i < |ps| ==> Readable(ps[i])
  {
    if ps == [] then [] else Decode(ps[0]) + DecodeAll(ps[1..])
  }

  /** All packets of a request decode to all its hashes, in order. */
  lemma {:induction false} RequestRoundTrip(hs: seq<seq<byte>>)
    requires AllHashes(hs)
    ensures var ps := EncodeAll(Batches(hs));
      && (forall i :: 0 <= i < |ps| ==> Readable(ps[i]) && ps[i].packetLen <= 1020 && |Decode(ps[i])| <= 50)
      && DecodeAll(ps) == hs
    decreases |hs|
  {
    var bs := Batches(hs);
    var ps := EncodeAll(bs);
    forall i | 0 <= i < |ps| ensures Readable(ps[i]) && ps[i].packetLen <= 1020 && |Decode(ps[i])| <= 50 {
      DecodeEncode(bs[i]);
    }
    DecodeEncode(bs[0]);
    if |hs| < 50 {
      assert ps[1..] == [];
      assert DecodeAll(ps) == hs + [];
    } else {
      RequestRoundTrip(hs[50..]);
      assert ps[1..] == EncodeAll(Batches(hs[50..]));
      assert hs == hs[..50] + hs[50..];
    }
  }

  // ---------------------------------------------------------------- the request

  /** The buffer a line is read into: forty bytes, cleared before. */
  function Padded(s: string): (r: string)
    requires |s| <= 40
    ensures |r| == 40 && (|s| == 40 ==> r == s)
  {
    s + seq(40 - |s|, _ => 0 as char)
  }

  lemma OrDouble(x: nat, z: nat)
    ensures Or(2 * x, 2 * z) == 2 * Or(x, z)
  {
    OrEven(x, 2 * z);
  }

  lemma OrOfTwo(d: nat, q: nat)
    requires q < 16 && d == 16 * q
    ensures Or(16 * d, d) == 16 * (16 * q + q)
  {
    OrDouble(8 * d, 8 * q);
    OrDouble(4 * d, 4 * q);
    OrDouble(2 * d, 2 * q);
    OrDouble(d, q);
    OrByFour(q, q);
  }

  lemma NulPair()
    ensures PairValue(0 as char, 0 as char) == 208
  {
    OrOfTwo(DigitValue(0 as char), 13);
  }

  /** The zeros a short line is padded with are not digits: they make bytes of 208. */
  lemma ShortLine(s: string, m: nat)
    requires |s| <= 2 * m && m < 20
    ensures HexToBytes(Padded(s))[m] == 208
  {
    NulPair();
  }

  /** Lines that are not refused for their length. */
  ghost predicate AllShort(lines: seq<string>) {
    forall i :: 0 <= i < |lines| ==> |lines[i]| <= 40
  }

  /** Lines as the chunk file promises them. */
  ghost predicate AllHex(lines: seq<string>) {
    forall i :: 0 <= i < |lines| ==> |lines[i]| == 40 && IsHex(lines[i])
  }

  ghost function HashesOf(lines: seq<string>): (hs: seq<seq<byte>>)
    requires AllShort(lines)
    ensures |hs| == |lines| && AllHashes(hs) && forall i :: 0 <= i < |lines| ==> hs[i] == HexToBytes(Padded(lines[i]))
  {
    seq(|lines|, i requires 0 <= i < |lines| => HexToBytes(Padded(lines[i])))
  }

  lemma HashesAppend(lines: seq<string>, k: nat)
    requires k < |lines| && AllShort(lines[..k]) && |lines[k]| <= 40
    ensures AllShort(lines[..k + 1])
    ensures HashesOf(lines[..k + 1]) == HashesOf(lines[..k]) + [HexToBytes(Padded(lines[k]))]
  {
    assert forall i :: 0 <= i < k ==> lines[..k + 1][i] == lines[..k][i];
  }

  lemma JoinedAppend(hs: seq<seq<byte>>, h: seq<byte>)
    requires AllHashes(hs) && IsHash(h)
    ensures AllHashes(hs + [h]) && Join(hs + [h]) == Join(hs) + h
  {
    assert (hs + [h])[..|hs|] == hs;
  }

  ghost predicate FullBatches(bs: seq<seq<seq<byte>>>) {
    forall i :: 0 <= i < |bs| ==> AllHashes(bs[i]) && |bs[i]| == 50
  }

  lemma Associate<T>(x: seq<T>, y: seq<T>, z: seq<T>)
    ensures x + y + z == x + (y + z)
  {
  }

  lemma {:induction false} BatchesThen(full: seq<seq<seq<byte>>>, rest: seq<seq<byte>>)
    requires FullBatches(full) && AllHashes(rest)
    ensures AllHashes(Join(full) + rest)
    ensures Batches(Join(full) + rest) == full + Batches(rest)
    decreases |full|
  {
    if full == [] {
      assert Join(full) + rest == rest;
    } else {
      var init, last := full[..|full| - 1], full[|full| - 1];
      assert (last + rest)[..50] == last && (last + rest)[50..] == rest;
      BatchesThen(init, last + rest);
      Associate(Join(init), last, rest);
      Associate(init, [last], Batches(rest));
      assert full == init + [last];
    }
  }

  /** Full batches followed by fewer than 50 hashes are the batches of all the hashes. */
  lemma {:induction false} BatchesAre(full: seq<seq<seq<byte>>>, pending: seq<seq<byte>>)
    requires FullBatches(full) && AllHashes(pending) && |pending| < 50
    ensures AllHashes(Join(full) + pending)
    ensures Batches(Join(full) + pending) == full + [pending]
    decreases |full|
  {
    BatchesThen(full, pending);
    assert Batches(pending) == [pending];
  }

  /** Packets (newest first) for the full batches, and the hashes still pending, account for `hs`. */
  ghost predicate Collected(hs: seq<seq<byte>>, packets: seq<WhohasPacket>, full: seq<seq<seq<byte>>>,
                            pending: seq<seq<byte>>)
  {
    && FullBatches(full) && AllHashes(pending)
    && hs == Join(full) + pending
    && Reversed(packets) == EncodeAll(full)
  }

  lemma CollectBatch(hs: seq<seq<byte>>, packets: seq<WhohasPacket>, full: seq<seq<seq<byte>>>, pending: seq<seq<byte>>)
    requires Collected(hs, packets, full, pending) && |pending| == 50
    ensures Collected(hs, [Encode(pending)] + packets, full + [pending], [])
  {
    var more := full + [pending];
    assert more[..|full|] == full;
    assert Join(more) + [] == Join(more);
    assert Reversed([Encode(pending)] + packets) == Reversed(packets) + [Encode(pending)];
    assert EncodeAll(more) == EncodeAll(full) + [Encode(pending)];
  }

  lemma CollectEnd(hs: seq<seq<byte>>, packets: seq<WhohasPacket>, full: seq<seq<seq<byte>>>, pending: seq<seq<byte>>)
    requires AllHashes(hs) && Collected(hs, packets, full, pending) && |pending| < 50
    ensures Reversed([Encode(pending)] + packets) == EncodeAll(Batches(hs))
  {
    BatchesAre(full, pending);
    assert Reversed([Encode(pending)] + packets) == Reversed(packets) + [Encode(pending)];
    assert EncodeAll(full + [pending]) == EncodeAll(full) + [Encode(pending)];
  }

  /** Put one more hash behind the `count` bytes already in the buffer. */
  method AppendHash(line: string, data: array<byte>, count: nat, ghost pending: seq<seq<byte>>)
    requires |line| == 40 && data.Length == 1200 && count + 20 <= 1000
    requires AllHashes(pending) && data[..count] == Join(pending)
    modifies data
    ensures AllHashes(pending + [HexToBytes(line)]) && data[..count + 20] == Join(pending + [HexToBytes(line)])
  {
    Hex2Binary(line, data, count);
    JoinedAppend(pending, HexToBytes(line));
  }

  /** One line of the file: append its hash and send the batch off when it is full. */
  method TakeLine(line: string, data: array<byte>, count: nat, packets: seq<WhohasPacket>,
                  ghost hs: seq<seq<byte>>, ghost full: seq<seq<seq<byte>>>, ghost pending: seq<seq<byte>>)
    returns (count': nat, packets': seq<WhohasPacket>, ghost full': seq<seq<seq<byte>>>, ghost pending': seq<seq<byte>>)
    requires |line| == 40 && data.Length == 1200 && count == 20 * |pending| < 1000
    requires Collected(hs, packets, full, pending) && data[..count] == Join(pending)
    modifies data
    ensures Collected(hs + [HexToBytes(line)], packets', full', pending')
    ensures count' == 20 * |pending'| < 1000 && data[..count'] == Join(pending')
  {
    AppendHash(line, data, count, pending);
    count', packets', full', pending' := count + 20, packets, full, pending + [HexToBytes(line)];
    assert Collected(hs + [HexToBytes(line)], packets', full', pending');
    if count' >= 1000 {
      CollectBatch(hs + [HexToBytes(line)], packets', full', pending');
      packets' := [InitPacket(data[..count'])] + packets';
      full', pending' := full' + [pending'], [];
      count' := 0;
    }
  }

  /** `generate_WHOHAS`: a packet whenever 1000 bytes are collected, and one for the rest; newest first. */
  method GenerateWhohas(lines: seq<string>) returns (ret: Option<seq<WhohasPacket>>)
    ensures ret == None <==> exists i :: 0 <= i < |lines| && |lines[i]| > 40
    ensures ret.Some? ==> AllShort(lines) && Reversed(ret.value) == EncodeAll(Batches(HashesOf(lines)))
  {
    var data := new byte[1200](i => 0);
    var count := 0;
    var packets: seq<WhohasPacket> := [];
    ghost var full: seq<seq<seq<byte>>> := [];
    ghost var pending: seq<seq<byte>> := [];
    var k := 0;
    while k < |lines|
      invariant 0 <= k <= |lines| && count == 20 * |pending| < 1000
      invariant AllShort(lines[..k]) && Collected(HashesOf(lines[..k]), packets, full, pending)
      invariant data[..count] == Join(pending)
    {
      if |lines[k]| > 40 {
        return None;
      }
      HashesAppend(lines, k);
      count, packets, full, pending :=
        TakeLine(Padded(lines[k]), data, count, packets, HashesOf(lines[..k]), full, pending);
      k := k + 1;
    }
    assert lines[..k] == lines;
    CollectEnd(HashesOf(lines), packets, full, pending);
    return Some([InitPacket(data[..count])] + packets);
  }

  /** `request_chunk`: twenty bytes copied out of the packet. */
  method CopyHash(data: seq<byte>, start: nat) returns (h: seq<byte>)
    requires start + 20 <= |data|
    ensures h == data[start..start + 20]
  {
    var request := new byte[20];
    for j := 0 to 20
      invariant request[..j] == data[start..start + j]
    {
      request[j] := data[start + j];
    }
    h := request[..];
  }

  /** The loop of the WHOHAS handler: the hashes a packet asks for. */
  method DecodeHashes(p: WhohasPacket) returns (hs: seq<seq<byte>>)
    requires Readable(p)
    ensures hs == Decode(p)
  {
    hs := [];
    var count := p.data[0] as int;
    var i := 0;
    while i < count
      invariant 0 <= i <= count && hs == Decode(p)[..i]
    {
      var request := CopyHash(p.data, 4 + 20 * i);
      hs := hs + [request];
      i := i + 1;
    }
  }

  /** From the lines of a chunk file to what every peer reads back: the same hashes, in lower case. */
  lemma RequestSurvives(lines: seq<string>, list: seq<WhohasPacket>)
    requires AllHex(lines)
    requires Reversed(list) == EncodeAll(Batches(HashesOf(lines)))
    ensures forall i :: 0 <= i < |list| ==> Readable(Reversed(list)[i]) && Reversed(list)[i].packetLen <= 1020
    ensures |list| == |lines| / 50 + 1
    ensures var got := DecodeAll(Reversed(list));
      |got| == |lines| && forall i :: 0 <= i < |lines| ==> BytesToHex(got[i]) == Lower(lines[i])
  {
    RequestRoundTrip(HashesOf(lines));
    forall i | 0 <= i < |lines| ensures BytesToHex(HexToBytes(lines[i])) == Lower(lines[i]) {
      HexRoundTrip(lines[i]);
    }
  }
}
