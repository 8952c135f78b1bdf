/** What every run of a chunk transfer guarantees. */
module TransferTheorems {
  import opened FlowControl
  import opened TransferSafety
  import opened TransferSystem
  import opened Wire

  // ---------------------------------------------------------------- messages

  /** Any message on the wire can be delivered, and every packet carries a piece already sent. */
  lemma AlwaysDeliverable(c: Chunk, w: World, m: Message, sum: real)
    requires c.Valid() && ReachableClear(c, w) && m in w.sent
    ensures match m
      case Data(packet) =>
        && Enabled(c, w, DeliverData(packet))
        && 1 <= packet.seqNum <= w.snd.end + 1 <= c.n && packet == c.PieceOf(packet.seqNum - 1)
      case Ack(num) => Enabled(c, w, DeliverAck(num, sum))
  {
    ReachableOk(c, w);
    match m
    case Data(packet) => DataStepOk(c, w, packet);
    case Ack(num) => AckInRange(c, w, num);
  }

  /** The "not even sent" branch is dead: no acknowledgement on the wire reaches an unsent piece. */
  lemma NeverAcksUnsent(c: Chunk, w: World, num: int)
    requires c.Valid() && ReachableClear(c, w) && Ack(num) in w.sent
    ensures SenderReady(c, w.snd)
    ensures FirstUnsent(w.snd.state, w.snd.start + 1, AckLimit(c, num - 1)) >= AckLimit(c, num - 1)
  {
    ReachableOk(c, w);
    AckInRange(c, w, num);
  }

  lemma EveryPieceLogged(c: Chunk, w: World, i: int)
    requires c.Valid() && Inv(c, w) && 0 <= i <= w.snd.end
    ensures Data(c.PieceOf(i)) in w.sent
  {
    EarlierSent(w.sent, w.snd.end, i);
    var k :| 0 <= k < |w.sent| && w.sent[k].Data? && w.sent[k].packet.seqNum == i + 1;
    assert w.sent[k] in w.sent && MessageOk(c, w.sent[k], w.rcv, w.snd.end);
  }

  lemma ThirdSends(c: Chunk, s: Sender, a: int, trk: seq<Entry>, x: int, num: int, sum: real) returns (r: AckResult)
    requires c.Valid() && SenderOk(c, s, a) && 0 <= x <= s.end && num == x + 1 && CheckAck(s, x).1
    ensures SenderReady(c, s) && r == HandleAck(c, s, trk, x, sum)
    ensures r.out == if num < c.n then [c.PieceOf(num)] else []
    ensures num < c.n ==> num <= s.end && s.state[num] != Unsent
  {
    r := HandleAck(c, s, trk, x, sum);
    AckThird(c, s, a, trk, x, sum);
  }

  /** A fast retransmission repeats a piece that has already left, even after stale acknowledgements. */
  lemma FastRetransmitKnown(c: Chunk, w: World, num: int, sum: real)
    requires c.Valid() && ReachableClear(c, w) && Ack(num) in w.sent && CheckAck(w.snd, num - 1).1
    ensures SenderReady(c, w.snd) && 1 <= num <= c.n
    ensures HandleAck(c, w.snd, w.trk, num - 1, sum).out == if num < c.n then [c.PieceOf(num)] else []
    ensures num < c.n ==> w.snd.state[num] != Unsent && Data(c.PieceOf(num)) in w.sent
  {
    ReachableOk(c, w);
    AckInRange(c, w, num);
    var r := ThirdSends(c, w.snd, AckedCount(w), w.trk, num - 1, num, sum);
    if num < c.n { EveryPieceLogged(c, w, num); }
  }

  // ---------------------------------------------------------------- window

  ghost function CountUnacked(st: seq<PieceState>): nat {
    if st == [] then 0 else CountUnacked(st[..|st| - 1]) + if st[|st| - 1] == Unacked then 1 else 0
  }

  lemma {:induction false} CountOfShape(st: seq<PieceState>, a: int, end: int)
    requires Shape(st, a, end)
    ensures CountUnacked(st) == end + 1 - a
    decreases |st|
  {
    if st == [] {
    } else {
      var front := st[..|st| - 1];
      if end == |st| - 1 {
        if a == |st| {
          assert Shape(front, a - 1, end - 1);
          CountOfShape(front, a - 1, end - 1);
        } else {
          assert Shape(front, a, end - 1);
          CountOfShape(front, a, end - 1);
        }
      } else {
        assert Shape(front, a, end);
        CountOfShape(front, a, end);
      }
    }
  }

  lemma ShapeMeans(st: seq<PieceState>, a: int, start: int, end: int)
    requires Shape(st, a, end) && -1 <= start < a
    ensures forall i :: 0 <= i < |st| ==> (st[i] == Unsent <==> i > end)
    ensures forall i :: 0 <= i <= start ==> st[i] == Acked
  {
  }

  /** Unsent pieces are those after `end`; up to `start` all are acknowledged; first sends ascend. */
  lemma WindowShape(c: Chunk, w: World)
    requires c.Valid() && ReachableClear(c, w)
    ensures |w.snd.state| == c.n && -1 <= w.snd.start <= w.snd.end < c.n
    ensures forall i :: 0 <= i < c.n ==> (w.snd.state[i] == Unsent <==> i > w.snd.end)
    ensures forall i :: 0 <= i <= w.snd.start ==> w.snd.state[i] == Acked
    ensures AscendingFirstSends(w.sent)
  {
    ReachableOk(c, w);
    ShapeMeans(w.snd.state, AckedCount(w), w.snd.start, w.snd.end);
  }

  function Rank(p: PieceState): int {
    match p case Unsent => 0 case Unacked => 1 case Acked => 2
  }

  /** Pieces only move from unsent to waiting to acknowledged. */
  ghost predicate Forward(st: seq<PieceState>, st': seq<PieceState>) {
    && |st| == |st'|
    && forall i :: 0 <= i < |st| ==> Rank(st[i]) <= Rank(st'[i])
  }

  lemma ShapeForward(st: seq<PieceState>, a: int, end: int, st': seq<PieceState>, a': int, end': int)
    requires |st| == |st'| && Shape(st, a, end) && Shape(st', a', end') && a <= a' && end <= end'
    ensures Forward(st, st')
  {
  }

  lemma AckForward(c: Chunk, w: World, num: int, sum: real)
    requires c.Valid() && Inv(c, w) && Enabled(c, w, DeliverAck(num, sum))
    ensures var w' := Step(c, w, DeliverAck(num, sum));
      && Forward(w.snd.state, w'.snd.state) && w.snd.end <= w'.snd.end && AckedCount(w) <= AckedCount(w')
      && w'.rcv == w.rcv
  {
    AckInRange(c, w, num);
    if CheckAck(w.snd, num - 1).1 {
      var r := AckThirdWorld(c, w, num, sum);
    } else {
      var s' := AckAcceptedWorld(c, w, num, sum);
      AcceptedSender(c, w, num, sum, s');
      ShapeForward(w.snd.state, AckedCount(w), w.snd.end, s'.state, Max(AckedCount(w), num), s'.end);
    }
  }

  /** No step takes back an acknowledgement, a transmission or a stored piece. */
  lemma StepMonotone(c: Chunk, w: World, e: Event)
    requires c.Valid() && Inv(c, w) && Enabled(c, w, e)
    ensures var w' := Step(c, w, e);
      && Forward(w.snd.state, w'.snd.state)
      && w.snd.end <= w'.snd.end
      && AckedCount(w) <= AckedCount(w')
      && Extends(w.rcv.pieces, w'.rcv.pieces)
      && w.rcv.expected <= w'.rcv.expected
  {
    match e
    case DeliverData(packet) =>
      assert MessageOk(c, Data(packet), w.rcv, w.snd.end);
      ReceiveKeeps(c, w.rcv, w.snd.end, packet);
    case DeliverAck(num, sum) => AckForward(c, w, num, sum);
    case Timeout(index) =>
    case Loss =>
  }

  /** Whenever an acknowledgement releases new pieces, at most a window of them is then waiting. */
  lemma WindowRespected(c: Chunk, w: World, num: int, sum: real)
    requires c.Valid() && ReachableClear(c, w) && Enabled(c, w, DeliverAck(num, sum))
    ensures var w' := Step(c, w, DeliverAck(num, sum));
      w.snd.end < w'.snd.end ==> CountUnacked(w'.snd.state) <= w'.snd.cc.window
  {
    ReachableOk(c, w);
    AckInRange(c, w, num);
    if CheckAck(w.snd, num - 1).1 {
      var r := AckThirdWorld(c, w, num, sum);
    } else {
      var s' := AckAcceptedWorld(c, w, num, sum);
      AcceptedSender(c, w, num, sum, s');
      CountOfShape(s'.state, Max(AckedCount(w), num), s'.end);
    }
  }

  lemma SendFills(s: Sender)
    requires s.end <= |s.state| - 1
    ensures var r := AfterSend(s); r.end == |s.state| - 1 || r.cc.window <= r.end - r.start
  {
  }

  /** An acknowledgement that is not a third copy leaves the window full, or the last piece sent. */
  lemma WindowFilled(c: Chunk, w: World, num: int, sum: real)
    requires c.Valid() && ReachableClear(c, w) && Enabled(c, w, DeliverAck(num, sum)) && !CheckAck(w.snd, num - 1).1
    ensures var s := Step(c, w, DeliverAck(num, sum)).snd;
      s.start == num - 1 && (s.end == c.n - 1 || s.cc.window <= s.end - s.start)
  {
    ReachableOk(c, w);
    AckInRange(c, w, num);
    var s' := AckAcceptedWorld(c, w, num, sum);
    SendFills(Advanced(w.snd, num - 1, sum));
  }

  // ---------------------------------------------------------------- tracker

  /** Numbers in the tracker are distinct, the dummy head stays, and no waiting piece is forgotten. */
  lemma NothingForgotten(c: Chunk, w: World)
    requires c.Valid() && ReachableClear(c, w)
    ensures w.trk != [] && w.trk[0] == DUMMY && Distinct(w.trk)
    ensures forall j :: 1 <= j < |w.trk| ==>
              1 <= w.trk[j].seqNum <= c.n && w.trk[j].packet == c.PieceOf(w.trk[j].seqNum - 1)
    ensures forall i :: 0 <= i < |w.snd.state| && w.snd.state[i] == Unacked ==> HasSeq(w.trk, i + 1)
  {
    ReachableOk(c, w);
    forall j | 1 <= j < |w.trk| ensures TimesPiece(c, w.trk[j], w.snd.end) {}
  }

  /** Acknowledgements are delivered in non-decreasing order, none below `low`. */
  ghost predicate AcksAscend(es: seq<Event>, low: int)
    decreases |es|
  {
    es != [] ==>
      && (es[0].DeliverAck? ==> low <= es[0].num)
      && AcksAscend(es[1..], if es[0].DeliverAck? then es[0].num else low)
  }

  /** A piece is timed exactly while it is waiting. */
  ghost predicate TrackedExactly(st: seq<PieceState>, trk: seq<Entry>) {
    forall i :: 0 <= i < |st| ==> (HasSeq(trk, i + 1) <==> st[i] == Unacked)
  }

  lemma InOrderAccepted(c: Chunk, w: World, num: int, s': Sender)
    requires c.Valid() && SenderOk(c, w.snd, AckedCount(w)) && TrackerOk(c, w.trk, w.snd.end)
    requires w.snd.start == AckedCount(w) - 1 <= num - 1 <= w.snd.end
    requires SenderOk(c, s', num) && w.snd.end <= s'.end
    requires TrackedExactly(w.snd.state, w.trk)
    ensures TrackedExactly(s'.state, AcceptedTracker(c, w, num, s'.end))
  {
    AcceptedTrackerKeeps(c, w, num, s'.end);
    forall i | 0 <= i < c.n
      ensures HasSeq(AcceptedTracker(c, w, num, s'.end), i + 1) <==> s'.state[i] == Unacked
    {
      assert HasSeq(w.trk, i + 1) <==> w.snd.state[i] == Unacked;
    }
  }

  lemma InOrderAck(c: Chunk, w: World, num: int, sum: real)
    requires c.Valid() && Inv(c, w) && Enabled(c, w, DeliverAck(num, sum)) && w.snd.start <= num - 1
    requires TrackedExactly(w.snd.state, w.trk) && w.snd.start == AckedCount(w) - 1
    ensures var w' := Step(c, w, DeliverAck(num, sum));
      TrackedExactly(w'.snd.state, w'.trk) && w'.snd.start == AckedCount(w') - 1 == num - 1
  {
    AckInRange(c, w, num);
    if CheckAck(w.snd, num - 1).1 {
      var r := AckThirdWorld(c, w, num, sum);
      if num < c.n { TrackAllKeeps(c, w.trk, w.snd.end, num - 1, num); }
    } else {
      var s' := AckAcceptedWorld(c, w, num, sum);
      AcceptedSender(c, w, num, sum, s');
      InOrderAccepted(c, w, num, s');
    }
  }

  lemma InOrderStep(c: Chunk, w: World, e: Event)
    requires c.Valid() && Inv(c, w) && Enabled(c, w, e) && (e.DeliverAck? ==> w.snd.start + 1 <= e.num)
    requires TrackedExactly(w.snd.state, w.trk) && w.snd.start == AckedCount(w) - 1
    ensures var w' := Step(c, w, e);
      && TrackedExactly(w'.snd.state, w'.trk) && w'.snd.start == AckedCount(w') - 1
      && w'.snd.start == if e.DeliverAck? then e.num - 1 else w.snd.start
  {
    if e.DeliverAck? { InOrderAck(c, w, e.num, e.sum); }
  }

  lemma {:induction false} InOrderTracksExactly(c: Chunk, w: World, es: seq<Event>, low: int)
    requires c.Valid() && Inv(c, w) && CanRun(c, w, es) && low == w.snd.start + 1 && AcksAscend(es, low)
    requires TrackedExactly(w.snd.state, w.trk) && w.snd.start == AckedCount(w) - 1
    ensures var w' := Run(c, w, es); TrackedExactly(w'.snd.state, w'.trk) && w'.snd.start == AckedCount(w') - 1
    decreases |es|
  {
    if es == [] {
    } else {
      StepOk(c, w, es[0]);
      InOrderStep(c, w, es[0]);
      InOrderTracksExactly(c, Step(c, w, es[0]), es[1..], if es[0].DeliverAck? then es[0].num else low);
    }
  }

  lemma InitTracksExactly(c: Chunk, prev: int, count: int)
    requires c.Valid()
    ensures var w := Init(c, prev, count); TrackedExactly(w.snd.state, w.trk) && w.snd.start == AckedCount(w) - 1
  {
    InitWorld(c, prev, count);
    InitSenderOk(c, prev, count);
    TrackAllKeeps(c, [], 0, -1, 0);
  }

  /** If acknowledgements arrive in order, the tracked pieces are exactly the waiting ones. */
  lemma InOrderRun(c: Chunk, prev: int, count: int, es: seq<Event>, w: World)
    requires c.Valid() && ReachedBy(c, prev, count, es, w) && AcksAscend(es, 0)
    ensures TrackedExactly(w.snd.state, w.trk)
  {
    InitOk(c, prev, count);
    InitTracksExactly(c, prev, count);
    InOrderTracksExactly(c, Init(c, prev, count), es, 0);
  }
}
