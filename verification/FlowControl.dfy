/**
 * The sender, the receiver and the retransmission tracker of one chunk transfer, as values:
 * each function gives the state a flow-control routine leaves behind and the packets it returns.
 */
module FlowControl {
  import opened Collections
  import opened FloatArithmetic
  import opened Wire

  // ---------------------------------------------------------------- congestion control

  datatype Phase = SlowStart | Avoidance

  datatype Congestion = Congestion(window: int, ssthresh: int, phase: Phase, rate: real)

  const INITIAL_CONGESTION := Congestion(1, 64, SlowStart, 1.0)

  /** Integer division by two as the program's language defines it. */
  function HalfTowardZero(x: int): int {
    if x >= 0 then x / 2 else -((-x) / 2)
  }

  /** A loss halves the threshold and falls back to a window of one. */
  function OnLoss(c: Congestion): Congestion {
    Congestion(1, HalfTowardZero(c.window), SlowStart, 1.0)
  }

  /** An acknowledgement, when the floating-point sum of the rate and 1/window comes out as `sum`. */
  function OnAck(c: Congestion, sum: real): Congestion {
    match c.phase
    case SlowStart =>
      if c.ssthresh == c.window then c.(phase := Avoidance, rate := 0.0)
      else c.(window := c.window + 1)
    case Avoidance =>
      if sum >= 1.0 then c.(window := c.window + 1, rate := 0.0) else c.(rate := sum)
  }

  /** That sum on a machine that calculates with `f`. */
  function NextRate(f: Arithmetic, c: Congestion): real {
    f.add(c.rate, f.reciprocal(c.window))
  }

  // ---------------------------------------------------------------- sender

  datatype PieceState = Unsent | Unacked | Acked

  /** `start` is the last acknowledged index, `end` the last one sent; both begin at -1. */
  datatype Sender = Sender(start: int, end: int, state: seq<PieceState>, cc: Congestion,
                           prevAck: int, dupCount: int)

  /** A new transfer; `prevAck` and `dupCount` are never set and hold whatever the memory held. */
  ghost function InitSender(n: int, prev: int, count: int): Sender
    requires 0 <= n
  {
    Sender(-1, -1, seq(n, i => Unsent), INITIAL_CONGESTION, prev, count)
  }

  /** Where `end` stands after the window has been filled. */
  function SendTarget(s: Sender): (e: int)
    ensures s.end <= e
    ensures s.end < e ==> e <= s.start + s.cc.window && e <= |s.state| - 1
  {
    if s.end - s.start < s.cc.window && s.end <= |s.state| - 1 then
      if s.start + s.cc.window < |s.state| - 1 then s.start + s.cc.window else |s.state| - 1
    else s.end
  }

  ghost function MarkSent(st: seq<PieceState>, lo: int, hi: int): (r: seq<PieceState>)
    ensures |r| == |st|
    ensures forall i :: 0 <= i < |st| ==> r[i] == if lo < i <= hi then Unacked else st[i]
  {
    seq(|st|, i requires 0 <= i < |st| => if lo < i <= hi then Unacked else st[i])
  }

  ghost function AfterSend(s: Sender): Sender {
    s.(end := SendTarget(s), state := MarkSent(s.state, s.end, SendTarget(s)))
  }

  /** Pieces `lo+1 .. hi`, in ascending order. */
  ghost function Pieces(c: Chunk, lo: int, hi: int): (r: seq<Packet>)
    requires c.Valid() && -1 <= lo <= hi < c.n
    ensures |r| == hi - lo
    ensures forall k :: 0 <= k < |r| ==> r[k] == c.PieceOf(lo + 1 + k)
  {
    seq(hi - lo, k requires 0 <= k < hi - lo => c.PieceOf(lo + 1 + k))
  }

  /** The packet list `send_data` hands back: it is built by prepending, so newest first. */
  ghost function SendList(c: Chunk, s: Sender): seq<Packet>
    requires c.Valid() && |s.state| == c.n && -1 <= s.end
  {
    if s.end < SendTarget(s) then Reversed(Pieces(c, s.end, SendTarget(s))) else []
  }

  // ---------------------------------------------------------------- retransmission tracker

  datatype Entry = Entry(sock: int, seqNum: int, packet: Packet)

  const DUMMY_SEQ := -441
  const DUMMY := Entry(0, DUMMY_SEQ, Packet(0, []))

  predicate HasSeq(trk: seq<Entry>, q: int) {
    exists j :: 0 <= j < |trk| && trk[j].seqNum == q
  }

  /** Start timing `packet`; an empty list is the null tracker and gets the dummy head first. */
  function Track(trk: seq<Entry>, packet: Packet, sock: int): seq<Entry> {
    if trk == [] then [DUMMY, Entry(sock, packet.seqNum, packet)]
    else if HasSeq(trk, packet.seqNum) then trk
    else trk + [Entry(sock, packet.seqNum, packet)]
  }

  function TrackAll(trk: seq<Entry>, packets: seq<Packet>, sock: int): seq<Entry>
    decreases |packets|
  {
    if packets == [] then trk else TrackAll(Track(trk, packets[0], sock), packets[1..], sock)
  }

  predicate Matches(e: Entry, sock: int, i: int) {
    e.sock == sock && e.seqNum - 1 == i
  }

  /** Drop the first entry that times piece `i`. */
  function Untrack(trk: seq<Entry>, sock: int, i: int): seq<Entry> {
    if trk == [] then []
    else if Matches(trk[0], sock, i) then trk[1..]
    else [trk[0]] + Untrack(trk[1..], sock, i)
  }

  // ---------------------------------------------------------------- acknowledgements

  /** First index at or after `i` that is not a sent piece below `hi`. */
  function FirstUnsent(st: seq<PieceState>, i: int, hi: int): (r: int)
    requires 0 <= i && hi <= |st|
    ensures i <= r && (r < hi ==> st[r] == Unsent)
    ensures i < r ==> r <= hi
    ensures forall k :: i <= k < r ==> st[k] != Unsent
    decreases hi - i
  {
    if i < hi && st[i] != Unsent then FirstUnsent(st, i + 1, hi) else i
  }

  ghost function MarkAcked(st: seq<PieceState>, lo: int, hi: int): (r: seq<PieceState>)
    ensures |r| == |st|
    ensures forall i :: 0 <= i < |st| ==> r[i] == if lo <= i < hi then Acked else st[i]
  {
    seq(|st|, i requires 0 <= i < |st| => if lo <= i < hi then Acked else st[i])
  }

  /** Stop timing every piece in `[lo, hi)` that was still waiting for its acknowledgement. */
  function UntrackRange(trk: seq<Entry>, sock: int, st: seq<PieceState>, lo: int, hi: int): seq<Entry>
    requires 0 <= lo && hi <= |st|
    decreases hi - lo
  {
    if lo >= hi then trk
    else UntrackRange(if st[lo] == Acked then trk else Untrack(trk, sock, lo), sock, st, lo + 1, hi)
  }

  /** Duplicate detection: the new `prevAck`/`dupCount` and whether this is the third copy. */
  function CheckAck(s: Sender, a: int): (r: (Sender, bool)) {
    if s.prevAck == a then (s.(dupCount := s.dupCount + 1), s.dupCount + 1 >= 2)
    else (s.(dupCount := 0, prevAck := a), false)
  }

  datatype AckResult = AckResult(snd: Sender, trk: seq<Entry>, out: seq<Packet>)

  ghost predicate SenderReady(c: Chunk, s: Sender) {
    && c.Valid()
    && |s.state| == c.n
    && -1 <= s.start
    && -1 <= s.end
  }

  /** One past the last piece an acknowledgement of `a` can mark. */
  function AckLimit(c: Chunk, a: int): int {
    if a + 1 < c.n then a + 1 else c.n
  }

  /** The third copy of an acknowledgement of `a`: send the next piece again and fall back. */
  ghost function FastRetransmit(c: Chunk, s: Sender, trk: seq<Entry>, a: int): AckResult
    requires SenderReady(c, s) && -1 <= a
  {
    if a < c.n - 1 then AckResult(s.(cc := OnLoss(s.cc)), trk, [c.PieceOf(a + 1)]) else AckResult(s, trk, [])
  }

  /** Mark the pieces up to `a`, move `start` there and refill the window; stop at an unsent piece. */
  ghost function Advance(c: Chunk, s: Sender, trk: seq<Entry>, a: int, sum: real): AckResult
    requires SenderReady(c, s) && -1 <= a
  {
    var lo := s.start + 1;
    var stop := FirstUnsent(s.state, lo, AckLimit(c, a));
    var upTo := if stop < |s.state| then stop else |s.state|;
    var s2 := s.(state := MarkAcked(s.state, lo, stop));
    var trk2 := UntrackRange(trk, c.peer, s.state, lo, upTo);
    if stop < AckLimit(c, a) then AckResult(s2, trk2, [])
    else
      var s3 := s2.(start := a, cc := OnAck(s.cc, sum));
      AckResult(AfterSend(s3), trk2, SendList(c, s3))
  }

  /** The whole of `handle_ack`, for the acknowledged index `a`. */
  ghost function HandleAck(c: Chunk, s: Sender, trk: seq<Entry>, a: int, sum: real): AckResult
    requires SenderReady(c, s) && -1 <= a
  {
    if a > c.n then AckResult(s, trk, [])
    else
      var (s1, third) := CheckAck(s, a);
      if third then FastRetransmit(c, s1, trk, a) else Advance(c, s1, trk, a, sum)
  }

  // ---------------------------------------------------------------- receiver

  datatype Piece = Missing | Stored(data: seq<byte>)

  datatype Buffer = Buffer(socket: int, offset: int, busy: bool, expected: int, total: int, pieces: seq<Piece>)

  ghost function InitBuffer(n: int, socket: int, offset: int): Buffer
    requires 0 <= n
  {
    Buffer(socket, offset, true, 1, 0, seq(n, i => Missing))
  }

  /** A piece is stored the first time it is seen; later copies are ignored. */
  function Store(b: Buffer, i: int, payload: seq<byte>): Buffer
    requires 0 <= i < |b.pieces|
  {
    if b.pieces[i].Missing? then b.(pieces := b.pieces[i := Stored(payload)], total := b.total + |payload|)
    else b
  }

  /** The first missing index at or after `i`. */
  function Scan(pieces: seq<Piece>, i: int): (r: int)
    requires 0 <= i
    ensures i <= r && (i < r ==> r <= |pieces|)
    ensures forall k :: i <= k < r ==> pieces[k].Stored?
    ensures r < |pieces| ==> pieces[r].Missing?
    decreases |pieces| - i
  {
    if i < |pieces| && pieces[i].Stored? then Scan(pieces, i + 1) else i
  }

  /** The buffer after a DATA packet, and the acknowledgement number sent back. */
  function Receive(b: Buffer, packet: Packet): (Buffer, Option<int>)
    requires 1 <= packet.seqNum && 0 <= b.expected
  {
    if packet.seqNum > |b.pieces| then (b, None)
    else
      var b1 := Store(b, packet.seqNum - 1, packet.payload);
      var i := Scan(b1.pieces, b1.expected);
      (b1.(expected := i), Some(i))
  }
}
