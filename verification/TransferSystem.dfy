/**
 * Sender, tracker, receiver and network of one chunk transfer as a transition system.
 * `sent` records every message ever put on the wire; any of them may be delivered at any time,
 * any number of times or never, so the network loses, duplicates and reorders at will.
 */
module TransferSystem {
  import opened Collections
  import opened FlowControl
  import opened Wire

  datatype World = World(snd: Sender, trk: seq<Entry>, rcv: Buffer, sent: seq<Message>)

  /** `sum` is what the sender's floating-point addition returns, if it comes to that. */
  datatype Event =
    | DeliverData(packet: Packet)
    | DeliverAck(num: int, sum: real)
    | Timeout(index: int)
    | Loss

  ghost function DataOf(packets: seq<Packet>): (r: seq<Message>)
    ensures |r| == |packets|
    ensures forall k :: 0 <= k < |r| ==> r[k] == Data(packets[k])
  {
    seq(|packets|, k requires 0 <= k < |packets| => Data(packets[k]))
  }

  /** The world once the GET has been answered, from any values of the fields a new transfer leaves unset. */
  ghost function Init(c: Chunk, prev: int, count: int): World
    requires c.Valid()
  {
    var s0 := InitSender(c.n, prev, count);
    var out := Reversed(SendList(c, s0));
    World(AfterSend(s0), TrackAll([], out, c.peer), InitBuffer(c.n, c.peer, 0), DataOf(out))
  }

  ghost predicate Enabled(c: Chunk, w: World, e: Event) {
    match e
    case DeliverData(packet) => Data(packet) in w.sent && 1 <= packet.seqNum && 0 <= w.rcv.expected
    case DeliverAck(num, _) => Ack(num) in w.sent && 0 <= num && SenderReady(c, w.snd)
    case Timeout(index) => 0 <= index < |w.trk|
    case Loss => true
  }

  /** The response list is put in sending order; each packet is timed and sent. */
  ghost function Respond(c: Chunk, w: World, r: AckResult): World {
    var out := Reversed(r.out);
    w.(snd := r.snd, trk := TrackAll(r.trk, out, c.peer), sent := w.sent + DataOf(out))
  }

  ghost function TakeAck(c: Chunk, w: World, num: int, sum: real): World
    requires SenderReady(c, w.snd) && 0 <= num
  {
    Respond(c, w, HandleAck(c, w.snd, w.trk, num - 1, sum))
  }

  ghost function Step(c: Chunk, w: World, e: Event): World
    requires Enabled(c, w, e)
  {
    match e
    case DeliverData(packet) =>
      var (rcv, ack) := Receive(w.rcv, packet);
      w.(rcv := rcv, sent := if ack.Some? then w.sent + [Ack(ack.value)] else w.sent)
    case DeliverAck(num, sum) => TakeAck(c, w, num, sum)
    case Timeout(index) =>
      if w.trk[index].seqNum == DUMMY_SEQ then w
      else w.(sent := w.sent + [Data(Packet(w.trk[index].seqNum, w.trk[index].packet.payload))])
    case Loss => w.(snd := w.snd.(cc := OnLoss(w.snd.cc)))
  }

  ghost predicate CanRun(c: Chunk, w: World, es: seq<Event>)
    decreases |es|
  {
    es == [] || (Enabled(c, w, es[0]) && CanRun(c, Step(c, w, es[0]), es[1..]))
  }

  ghost function Run(c: Chunk, w: World, es: seq<Event>): World
    requires CanRun(c, w, es)
    decreases |es|
  {
    if es == [] then w else Run(c, Step(c, w, es[0]), es[1..])
  }

  lemma Cons(c: Chunk, w: World, e: Event, rest: seq<Event>) returns (es: seq<Event>)
    requires Enabled(c, w, e) && CanRun(c, Step(c, w, e), rest)
    ensures es == [e] + rest && CanRun(c, w, es) && Run(c, w, es) == Run(c, Step(c, w, e), rest)
  {
    es := [e] + rest;
    assert es[1..] == rest;
  }

  lemma Glue(es: seq<Event>, more: seq<Event>)
    requires es != []
    ensures (es + more)[0] == es[0] && (es + more)[1..] == es[1..] + more
  {
  }

  lemma {:induction false} RunAppend(c: Chunk, w: World, es: seq<Event>, more: seq<Event>)
    requires CanRun(c, w, es) && CanRun(c, Run(c, w, es), more)
    ensures CanRun(c, w, es + more) && Run(c, w, es + more) == Run(c, Run(c, w, es), more)
    decreases |es|
  {
    if es == [] {
      assert es + more == more;
    } else {
      Glue(es, more);
      RunAppend(c, Step(c, w, es[0]), es[1..], more);
    }
  }

  /** From unset fields `prev` and `count`, `es` leads to `w`. */
  ghost predicate RunsTo(c: Chunk, prev: int, count: int, es: seq<Event>, w: World)
    requires c.Valid()
  {
    CanRun(c, Init(c, prev, count), es) && Run(c, Init(c, prev, count), es) == w
  }

  /** Some run, from any unset fields, leads to `w`. */
  ghost predicate Reachable(c: Chunk, w: World)
    requires c.Valid()
  {
    exists prev, count, es :: RunsTo(c, prev, count, es, w)
  }

  /** Unset fields that look like two copies of an acknowledgement of piece 0. */
  predicate Misleading(prev: int, count: int) { prev == 0 && 1 <= count }

  ghost predicate ReachedBy(c: Chunk, prev: int, count: int, es: seq<Event>, w: World)
    requires c.Valid()
  {
    !Misleading(prev, count) && RunsTo(c, prev, count, es, w)
  }

  /** Some run, from unset fields that do not mislead, leads to `w`. */
  ghost predicate ReachableClear(c: Chunk, w: World)
    requires c.Valid()
  {
    exists prev, count, es :: ReachedBy(c, prev, count, es, w)
  }

  // ---------------------------------------------------------------- invariant

  /** How many leading pieces, among the first `k`, are acknowledged. */
  ghost function LeadingAcked(st: seq<PieceState>, k: nat): (a: nat)
    requires k <= |st|
    ensures a <= k
    ensures forall i :: 0 <= i < a ==> st[i] == Acked
    ensures a < k ==> st[a] != Acked
  {
    if k == 0 then 0
    else
      var a := LeadingAcked(st, k - 1);
      if a == k - 1 && st[k - 1] == Acked then k else a
  }

  /** How many leading pieces are acknowledged. */
  ghost function AckedUpTo(st: seq<PieceState>): (a: nat)
    ensures a <= |st|
    ensures forall i :: 0 <= i < a ==> st[i] == Acked
    ensures a < |st| ==> st[a] != Acked
  {
    LeadingAcked(st, |st|)
  }

  lemma AckedUpToIs(st: seq<PieceState>, a: nat)
    requires a <= |st|
    requires forall i :: 0 <= i < a ==> st[i] == Acked
    requires a < |st| ==> st[a] != Acked
    ensures AckedUpTo(st) == a
  {
  }

  ghost function AckedCount(w: World): nat { AckedUpTo(w.snd.state) }

  /** Pieces are acknowledged up to a point, then waiting up to `end`, then unsent. */
  ghost predicate Shape(st: seq<PieceState>, a: int, end: int) {
    && 0 <= a <= end + 1 <= |st|
    && (forall i :: 0 <= i < a ==> st[i] == Acked)
    && (forall i :: a <= i <= end ==> st[i] == Unacked)
    && (forall i :: end < i < |st| ==> st[i] == Unsent)
  }

  ghost predicate CongestionOk(cc: Congestion) {
    && 1 <= cc.window
    && match cc.phase
       case SlowStart => cc.ssthresh == 0 || cc.window <= cc.ssthresh
       case Avoidance => 1 <= cc.ssthresh <= cc.window
  }

  ghost predicate SenderOk(c: Chunk, s: Sender, a: int) {
    && |s.state| == c.n
    && Shape(s.state, a, s.end)
    && -1 <= s.start < a
    && (if s.start == -1 then a == 0 && !Misleading(s.prevAck, s.dupCount) else s.prevAck == s.start)
    && CongestionOk(s.cc)
    // something is always waiting until the whole chunk is acknowledged
    && (a <= s.end || s.end == c.n - 1)
    // before the first acknowledgement only piece 0 has left
    && (a == 0 ==> s.end == 0 && s.cc.window == 1)
  }

  ghost predicate TimesPiece(c: Chunk, e: Entry, end: int)
    requires c.Valid() && end < c.n
  {
    && 0 <= e.seqNum - 1 <= end
    && e.sock == c.peer
    && e.packet == c.PieceOf(e.seqNum - 1)
  }

  ghost predicate Distinct(trk: seq<Entry>) {
    forall i, j :: 0 <= i < j < |trk| ==> trk[i].seqNum != trk[j].seqNum
  }

  /** The dummy head stays first and is the only entry that times no piece. */
  ghost predicate TrackerOk(c: Chunk, trk: seq<Entry>, end: int)
    requires c.Valid() && end < c.n
  {
    && trk != [] && trk[0] == DUMMY
    && Distinct(trk)
    && forall j :: 1 <= j < |trk| ==> TimesPiece(c, trk[j], end)
  }

  /** Nothing waiting for an acknowledgement is forgotten. */
  ghost predicate AllWaitingTracked(st: seq<PieceState>, trk: seq<Entry>) {
    forall i :: 0 <= i < |st| && st[i] == Unacked ==> HasSeq(trk, i + 1)
  }

  ghost predicate GotFirst(pieces: seq<Piece>, k: int) {
    k <= |pieces| && forall i :: 0 <= i < k ==> pieces[i].Stored?
  }

  ghost predicate ReceiverOk(c: Chunk, b: Buffer, end: int)
    requires c.Valid()
  {
    && |b.pieces| == c.n
    && 1 <= b.expected <= c.n
    && (b.expected < c.n ==> b.pieces[b.expected].Missing?)
    // stored pieces were sent and carry the sender's bytes
    && (forall i :: 0 <= i < c.n && b.pieces[i].Stored? ==> i <= end && b.pieces[i].data == c.Slice(i))
    // the scan starts at index 1, yet nothing is stored before piece 0
    && (b.pieces[0].Missing? ==> b.expected == 1 && forall i :: 0 <= i < c.n ==> b.pieces[i].Missing?)
    && (b.pieces[0].Stored? ==> GotFirst(b.pieces, b.expected))
  }

  ghost predicate MessageOk(c: Chunk, m: Message, b: Buffer, end: int)
    requires c.Valid() && |b.pieces| == c.n && end < c.n
  {
    match m
    case Data(packet) =>
      && 0 <= packet.seqNum - 1 <= end
      && packet == c.PieceOf(packet.seqNum - 1)
      && (packet.seqNum == 1 || b.pieces[0].Stored?)
    case Ack(num) => 1 <= num <= b.expected && GotFirst(b.pieces, num)
  }

  ghost predicate SentBefore(sent: seq<Message>, j: int, q: int)
    requires j <= |sent|
  {
    exists i :: 0 <= i < j && sent[i].Data? && sent[i].packet.seqNum == q
  }

  /** Every DATA packet was preceded by the one before it. */
  ghost predicate AscendingFirstSends(sent: seq<Message>) {
    forall j :: 0 <= j < |sent| && sent[j].Data? && sent[j].packet.seqNum > 1 ==>
      SentBefore(sent, j, sent[j].packet.seqNum - 1)
  }

  ghost predicate AllMessagesOk(c: Chunk, sent: seq<Message>, b: Buffer, end: int)
    requires c.Valid() && |b.pieces| == c.n && end < c.n
  {
    forall m :: m in sent ==> MessageOk(c, m, b, end)
  }

  /** First transmissions ascend and have reached piece `end`. */
  ghost predicate LogOk(sent: seq<Message>, end: int) {
    AscendingFirstSends(sent) && SentBefore(sent, |sent|, end + 1)
  }

  ghost function TotalLength(pieces: seq<Piece>): nat {
    if pieces == [] then 0
    else TotalLength(pieces[..|pieces| - 1]) + if pieces[|pieces| - 1].Stored? then |pieces[|pieces| - 1].data| else 0
  }

  ghost predicate Inv(c: Chunk, w: World)
    requires c.Valid()
  {
    && |w.snd.state| == c.n
    && SenderOk(c, w.snd, AckedCount(w))
    && TrackerOk(c, w.trk, w.snd.end)
    && AllWaitingTracked(w.snd.state, w.trk)
    && ReceiverOk(c, w.rcv, w.snd.end)
    && AllMessagesOk(c, w.sent, w.rcv, w.snd.end)
    && GotFirst(w.rcv.pieces, AckedCount(w))
    && LogOk(w.sent, w.snd.end)
    && w.rcv.total == TotalLength(w.rcv.pieces)
  }
}
