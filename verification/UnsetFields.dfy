/**
 * The two fields a new transfer leaves unset: exactly when they hold 0 and a positive count, the acknowledgement
 * of piece 0 is taken for a third copy. The sender then cannot complete in order; the receiver gets all pieces.
 */
module UnsetFields {
  import opened Collections
  import opened FlowControl
  import opened TransferLiveness
  import opened TransferSafety
  import opened TransferSystem
  import opened TransferTheorems
  import opened Wire

  // ---------------------------------------------------------------- a misled sender never completes in order

  /**
   * Nothing past piece 0 counts as sent, and the next acknowledgement, none below `low`, is either taken for
   * another copy or runs into an unsent piece.
   */
  ghost predicate Misled(c: Chunk, s: Sender, low: int)
    requires c.Valid()
  {
    && |s.state| == c.n && s.start == -1 && s.end == 0
    && (forall i :: 1 <= i < c.n ==> s.state[i] == Unsent)
    && ((s.prevAck == 0 && 1 <= s.dupCount && s.state[0] == Unacked) || 2 <= low <= c.n)
  }

  /** Acknowledgement numbers lie between 1 and n. */
  ghost predicate AcksInChunk(c: Chunk, w: World) {
    && |w.rcv.pieces| == c.n && 1 <= w.rcv.expected <= c.n
    && forall num :: Ack(num) in w.sent ==> 1 <= num <= c.n
  }

  lemma MisledAck(c: Chunk, s: Sender, trk: seq<Entry>, num: int, sum: real, low: int)
    requires c.Valid() && Misled(c, s, low) && low <= num && 1 <= num <= c.n
    ensures Misled(c, HandleAck(c, s, trk, num - 1, sum).snd, num)
  {
    if num > 1 {
      assert s.state[1] == Unsent;
      assert FirstUnsent(s.state, 0, num) <= 1;
    }
  }

  lemma DataInChunk(c: Chunk, w: World, packet: Packet)
    requires AcksInChunk(c, w) && Enabled(c, w, DeliverData(packet))
    ensures AcksInChunk(c, Step(c, w, DeliverData(packet)))
  {
  }

  lemma AckInChunk(c: Chunk, w: World, num: int, sum: real)
    requires AcksInChunk(c, w) && Enabled(c, w, DeliverAck(num, sum))
    ensures AcksInChunk(c, Step(c, w, DeliverAck(num, sum)))
    ensures Step(c, w, DeliverAck(num, sum)).snd == HandleAck(c, w.snd, w.trk, num - 1, sum).snd
  {
  }

  lemma MisledStep(c: Chunk, w: World, e: Event, low: int)
    requires c.Valid() && Misled(c, w.snd, low) && AcksInChunk(c, w) && Enabled(c, w, e)
    requires e.DeliverAck? ==> low <= e.num
    ensures var w' := Step(c, w, e);
      Misled(c, w'.snd, if e.DeliverAck? then e.num else low) && AcksInChunk(c, w')
  {
    match e
    case DeliverData(packet) => DataInChunk(c, w, packet);
    case DeliverAck(num, sum) =>
      MisledAck(c, w.snd, w.trk, num, sum, low);
      AckInChunk(c, w, num, sum);
    case Timeout(index) =>
    case Loss =>
  }

  lemma {:induction false} MisledRun(c: Chunk, w: World, es: seq<Event>, low: int)
    requires c.Valid() && Misled(c, w.snd, low) && AcksInChunk(c, w) && CanRun(c, w, es) && AcksAscend(es, low)
    ensures !Complete(c, Run(c, w, es))
    decreases |es|
  {
    if es == [] {
      assert w.snd.state[c.n - 1] != Acked;
    } else {
      MisledStep(c, w, es[0], low);
      MisledRun(c, Step(c, w, es[0]), es[1..], if es[0].DeliverAck? then es[0].num else low);
    }
  }

  lemma InitMisled(c: Chunk, prev: int, count: int)
    requires c.Valid() && Misleading(prev, count)
    ensures Misled(c, Init(c, prev, count).snd, 0) && AcksInChunk(c, Init(c, prev, count))
  {
    InitWorld(c, prev, count);
    InitSenderOk(c, prev, count);
  }

  /** `es` completes a new transfer, and its acknowledgements arrive in order. */
  ghost predicate CompletesInOrder(c: Chunk, prev: int, count: int, es: seq<Event>)
    requires c.Valid()
  {
    && CanRun(c, Init(c, prev, count), es) && AcksAscend(es, 0)
    && Complete(c, Run(c, Init(c, prev, count), es))
  }

  /** Acknowledgements that arrive in order can complete a new transfer exactly when its fields do not mislead. */
  lemma UnsetFieldsMatter(c: Chunk, prev: int, count: int)
    requires c.Valid()
    ensures (exists es :: CompletesInOrder(c, prev, count, es)) <==> !Misleading(prev, count)
  {
    var w := Init(c, prev, count);
    if Misleading(prev, count) {
      InitMisled(c, prev, count);
      forall es | CanRun(c, w, es) && AcksAscend(es, 0) ensures !Complete(c, Run(c, w, es)) {
        MisledRun(c, w, es, 0);
      }
    } else {
      InitOk(c, prev, count);
      InitSenderOk(c, prev, count);
      InitWorld(c, prev, count);
      var es := Finish(c, w);
      assert CompletesInOrder(c, prev, count, es);
    }
  }

  // ---------------------------------------------------------------- a misled transfer sends what it has not sent

  /** After `es` a piece is on the wire that the sender takes for unsent. */
  ghost predicate LeavesUnsent(c: Chunk, prev: int, count: int, es: seq<Event>, i: int)
    requires c.Valid()
  {
    && 0 <= i < c.n && CanRun(c, Init(c, prev, count), es)
    && var w := Run(c, Init(c, prev, count), es);
       |w.snd.state| == c.n && Data(c.PieceOf(i)) in w.sent && w.snd.state[i] == Unsent
  }

  ghost predicate FirstStored(c: Chunk, b: Buffer, k: int)
    requires c.Valid()
  {
    && |b.pieces| == c.n && 1 <= k <= c.n && b.expected == k
    && (forall i :: 0 <= i < k ==> b.pieces[i] == Stored(c.Slice(i)))
    && (forall i :: k <= i < c.n ==> b.pieces[i].Missing?)
  }

  lemma FirstRound(c: Chunk, prev: int, count: int) returns (w: World)
    requires c.Valid() && Misleading(prev, count)
    ensures var w0 := Init(c, prev, count);
      Enabled(c, w0, DeliverData(c.PieceOf(0))) && w == Step(c, w0, DeliverData(c.PieceOf(0)))
    ensures Ack(1) in w.sent && Misled(c, w.snd, 0) && w.snd.prevAck == 0 && 1 <= w.snd.dupCount
    ensures AcksInChunk(c, w) && FirstStored(c, w.rcv, 1)
  {
    InitWorld(c, prev, count);
    InitSenderOk(c, prev, count);
    InitMisled(c, prev, count);
    var w0 := Init(c, prev, count);
    assert w0.sent[0] == Data(c.PieceOf(0));
    DataInChunk(c, w0, c.PieceOf(0));
    w := Step(c, w0, DeliverData(c.PieceOf(0)));
    assert w.sent[1] == Ack(1);
  }

  lemma SecondRound(c: Chunk, w: World)
    requires c.Valid() && 2 <= c.n && Ack(1) in w.sent
    requires Misled(c, w.snd, 0) && w.snd.prevAck == 0 && 1 <= w.snd.dupCount
    ensures Enabled(c, w, DeliverAck(1, 0.0))
    ensures var w' := Step(c, w, DeliverAck(1, 0.0));
      |w'.snd.state| == c.n && Data(c.PieceOf(1)) in w'.sent && w'.snd.state[1] == Unsent
  {
    AckStepIs(c, w, 1, 0.0);
    var r := HandleAck(c, w.snd, w.trk, 0, 0.0);
    assert r.out == Pieces(c, 0, 1);
    RespondOne(c, w, r, 1);
    var w' := Step(c, w, DeliverAck(1, 0.0));
    assert w'.sent[|w.sent|] == Data(c.PieceOf(1));
  }

  lemma SentIsMarked(c: Chunk, w: World, i: int)
    requires c.Valid() && ReachableClear(c, w) && 0 <= i < c.n && Data(c.PieceOf(i)) in w.sent
    ensures |w.snd.state| == c.n && w.snd.state[i] != Unsent
  {
    AlwaysDeliverable(c, w, Data(c.PieceOf(i)), 0.0);
    WindowShape(c, w);
  }

  /** Some run puts a piece on the wire that counts as unsent exactly when the fields mislead. */
  lemma UnsentPieceLeaves(c: Chunk, prev: int, count: int)
    requires c.Valid() && 2 <= c.n
    ensures (exists es, i :: LeavesUnsent(c, prev, count, es, i)) <==> Misleading(prev, count)
  {
    if Misleading(prev, count) {
      var w0 := Init(c, prev, count);
      var w := FirstRound(c, prev, count);
      SecondRound(c, w);
      var es := Cons(c, w, DeliverAck(1, 0.0), []);
      es := Cons(c, w0, DeliverData(c.PieceOf(0)), es);
      assert LeavesUnsent(c, prev, count, es, 1);
    } else {
      forall es, i ensures !LeavesUnsent(c, prev, count, es, i) {
        if LeavesUnsent(c, prev, count, es, i) {
          var w := Run(c, Init(c, prev, count), es);
          assert ReachedBy(c, prev, count, es, w);
          SentIsMarked(c, w, i);
        }
      }
    }
  }

  // ---------------------------------------------------------------- the receiver gets all pieces all the same

  /** The receiver has every piece, with the sender's bytes. */
  ghost predicate AllStored(c: Chunk, b: Buffer)
    requires c.Valid()
  {
    |b.pieces| == c.n && forall i :: 0 <= i < c.n ==> b.pieces[i] == Stored(c.Slice(i))
  }

  /** The sender is misled, the first `k` pieces have arrived, and their acknowledgement is on the wire. */
  ghost predicate HalfWay(c: Chunk, w: World, k: int)
    requires c.Valid()
  {
    && Misled(c, w.snd, k) && AcksInChunk(c, w) && FirstStored(c, w.rcv, k) && Ack(k) in w.sent
    && (w.snd.prevAck == k - 1 ==> 0 <= w.snd.dupCount)
  }

  lemma CopySent(c: Chunk, w: World, k: int)
    requires c.Valid() && SenderReady(c, w.snd) && 1 <= k < c.n
    ensures var r := HandleAck(c, w.snd, w.trk, k - 1, 0.0); var w' := Respond(c, w, r);
      && w'.rcv == w.rcv && w.sent <= w'.sent
      && r.snd.prevAck == k - 1
      && (w.snd.prevAck == k - 1 ==> r.snd.dupCount == w.snd.dupCount + 1)
      && (w.snd.prevAck != k - 1 ==> r.snd.dupCount == 0)
      && (CheckAck(w.snd, k - 1).1 ==> Data(c.PieceOf(k)) in w'.sent)
  {
    var r := HandleAck(c, w.snd, w.trk, k - 1, 0.0);
    if CheckAck(w.snd, k - 1).1 {
      assert r.out == Pieces(c, k - 1, k);
      RespondOne(c, w, r, k);
    }
  }

  /** One more copy of that acknowledgement; a third copy sends the next piece. */
  lemma AnotherCopy(c: Chunk, w: World, k: int) returns (w': World)
    requires c.Valid() && HalfWay(c, w, k) && k < c.n
    ensures Enabled(c, w, DeliverAck(k, 0.0)) && w' == Step(c, w, DeliverAck(k, 0.0))
    ensures HalfWay(c, w', k) && w'.snd.prevAck == k - 1
    ensures w.snd.prevAck == k - 1 ==> w'.snd.dupCount == w.snd.dupCount + 1
    ensures CheckAck(w.snd, k - 1).1 ==> Data(c.PieceOf(k)) in w'.sent
  {
    AckStepIs(c, w, k, 0.0);
    MisledAck(c, w.snd, w.trk, k, 0.0, k);
    AckInChunk(c, w, k, 0.0);
    w' := Step(c, w, DeliverAck(k, 0.0));
    CopySent(c, w, k);
  }

  lemma NextStored(c: Chunk, b: Buffer, k: int)
    requires c.Valid() && FirstStored(c, b, k) && k < c.n
    ensures var (b', ack) := Receive(b, c.PieceOf(k)); FirstStored(c, b', k + 1) && ack == Some(k + 1)
  {
    var b1 := Store(b, k, c.PieceOf(k).payload);
    assert b1.pieces[k].Stored? && b1.expected == k;
    assert Scan(b1.pieces, k) == Scan(b1.pieces, k + 1) == k + 1;
  }

  lemma NextArrives(c: Chunk, w: World, k: int) returns (w': World)
    requires c.Valid() && HalfWay(c, w, k) && k < c.n && w.snd.prevAck == k - 1 && Data(c.PieceOf(k)) in w.sent
    ensures Enabled(c, w, DeliverData(c.PieceOf(k))) && w' == Step(c, w, DeliverData(c.PieceOf(k)))
    ensures HalfWay(c, w', k + 1)
  {
    DataInChunk(c, w, c.PieceOf(k));
    NextStored(c, w.rcv, k);
    w' := Step(c, w, DeliverData(c.PieceOf(k)));
    assert w'.sent == w.sent + [Ack(k + 1)];
  }

  lemma {:induction false} AscendWeaker(es: seq<Event>, low: int, low': int)
    requires AcksAscend(es, low) && low' <= low
    ensures AcksAscend(es, low')
    decreases |es|
  {
    if es == [] || es[0].DeliverAck? {
    } else {
      AscendWeaker(es[1..], low, low');
    }
  }

  lemma AscendingFrom(c: Chunk, w: World, e: Event, rest: seq<Event>, low: int, next: int) returns (es: seq<Event>)
    requires Enabled(c, w, e) && CanRun(c, Step(c, w, e), rest) && AcksAscend(rest, next)
    requires low <= next && (e.DeliverAck? ==> e.num == next)
    ensures CanRun(c, w, es) && AcksAscend(es, low) && Run(c, w, es) == Run(c, Step(c, w, e), rest)
  {
    es := Cons(c, w, e, rest);
    assert es[1..] == rest;
    AscendWeaker(rest, next, if e.DeliverAck? then e.num else low);
  }

  lemma ThreeCopies(c: Chunk, w: World, k: int) returns (w1: World, w2: World, w3: World)
    requires c.Valid() && HalfWay(c, w, k) && k < c.n
    ensures Enabled(c, w, DeliverAck(k, 0.0)) && w1 == Step(c, w, DeliverAck(k, 0.0))
    ensures Enabled(c, w1, DeliverAck(k, 0.0)) && w2 == Step(c, w1, DeliverAck(k, 0.0))
    ensures Enabled(c, w2, DeliverAck(k, 0.0)) && w3 == Step(c, w2, DeliverAck(k, 0.0))
    ensures HalfWay(c, w3, k) && w3.snd.prevAck == k - 1 && Data(c.PieceOf(k)) in w3.sent
  {
    w1 := AnotherCopy(c, w, k);
    w2 := AnotherCopy(c, w1, k);
    w3 := AnotherCopy(c, w2, k);
  }

  lemma ThreeAcks(c: Chunk, w: World, w1: World, w2: World, k: int, rest: seq<Event>) returns (es: seq<Event>)
    requires Enabled(c, w, DeliverAck(k, 0.0)) && w1 == Step(c, w, DeliverAck(k, 0.0))
    requires Enabled(c, w1, DeliverAck(k, 0.0)) && w2 == Step(c, w1, DeliverAck(k, 0.0))
    requires Enabled(c, w2, DeliverAck(k, 0.0)) && CanRun(c, Step(c, w2, DeliverAck(k, 0.0)), rest)
    requires AcksAscend(rest, k)
    ensures CanRun(c, w, es) && AcksAscend(es, k) && Run(c, w, es) == Run(c, Step(c, w2, DeliverAck(k, 0.0)), rest)
  {
    es := AscendingFrom(c, w2, DeliverAck(k, 0.0), rest, k, k);
    es := AscendingFrom(c, w1, DeliverAck(k, 0.0), es, k, k);
    es := AscendingFrom(c, w, DeliverAck(k, 0.0), es, k, k);
  }

  lemma PieceBrought(c: Chunk, w: World, k: int, next: int) returns (w1: World, w2: World, w3: World, w4: World)
    requires c.Valid() && HalfWay(c, w, k) && k < c.n && next == k + 1
    ensures Enabled(c, w, DeliverAck(k, 0.0)) && w1 == Step(c, w, DeliverAck(k, 0.0))
    ensures Enabled(c, w1, DeliverAck(k, 0.0)) && w2 == Step(c, w1, DeliverAck(k, 0.0))
    ensures Enabled(c, w2, DeliverAck(k, 0.0)) && w3 == Step(c, w2, DeliverAck(k, 0.0))
    ensures Enabled(c, w3, DeliverData(c.PieceOf(k))) && w4 == Step(c, w3, DeliverData(c.PieceOf(k)))
    ensures HalfWay(c, w4, next)
  {
    w1, w2, w3 := ThreeCopies(c, w, k);
    w4 := NextArrives(c, w3, k);
  }

  /** The run that does so, before one that goes on. */
  lemma RoundRun(c: Chunk, w: World, w1: World, w2: World, w3: World, w4: World, k: int, next: int, rest: seq<Event>)
    returns (es: seq<Event>)
    requires c.Valid() && 0 <= k < c.n && next == k + 1
    requires Enabled(c, w, DeliverAck(k, 0.0)) && w1 == Step(c, w, DeliverAck(k, 0.0))
    requires Enabled(c, w1, DeliverAck(k, 0.0)) && w2 == Step(c, w1, DeliverAck(k, 0.0))
    requires Enabled(c, w2, DeliverAck(k, 0.0)) && w3 == Step(c, w2, DeliverAck(k, 0.0))
    requires Enabled(c, w3, DeliverData(c.PieceOf(k))) && w4 == Step(c, w3, DeliverData(c.PieceOf(k)))
    requires CanRun(c, w4, rest) && AcksAscend(rest, next)
    ensures CanRun(c, w, es) && AcksAscend(es, k) && Run(c, w, es) == Run(c, w4, rest)
  {
    es := AscendingFrom(c, w3, DeliverData(c.PieceOf(k)), rest, k, next);
    es := ThreeAcks(c, w, w1, w2, k, es);
  }

  /** Three copies of each acknowledgement bring the next piece. */
  lemma {:induction false} RestArrives(c: Chunk, w: World, k: int) returns (es: seq<Event>)
    requires c.Valid() && HalfWay(c, w, k)
    ensures CanRun(c, w, es) && AcksAscend(es, k) && AllStored(c, Run(c, w, es).rcv)
    decreases c.n - k
  {
    if k == c.n {
      es := [];
    } else {
      var next := k + 1;
      var w1, w2, w3, w4 := PieceBrought(c, w, k, next);
      es := RestArrives(c, w4, next);
      es := RoundRun(c, w, w1, w2, w3, w4, k, next, es);
    }
  }

  /** `es` brings every piece to the receiver, and its acknowledgements arrive in order. */
  ghost predicate BringsAll(c: Chunk, prev: int, count: int, es: seq<Event>)
    requires c.Valid()
  {
    && CanRun(c, Init(c, prev, count), es) && AcksAscend(es, 0)
    && AllStored(c, Run(c, Init(c, prev, count), es).rcv)
  }

  /** From any unset fields some run with acknowledgements in order stores every piece with the sender's bytes. */
  lemma ReceiverGetsAll(c: Chunk, prev: int, count: int)
    requires c.Valid()
    ensures exists es :: BringsAll(c, prev, count, es)
  {
    if Misleading(prev, count) {
      var w0 := Init(c, prev, count);
      var w := FirstRound(c, prev, count);
      var es := RestArrives(c, w, 1);
      es := AscendingFrom(c, w0, DeliverData(c.PieceOf(0)), es, 0, 1);
      assert BringsAll(c, prev, count, es);
    } else {
      UnsetFieldsMatter(c, prev, count);
      var es :| CompletesInOrder(c, prev, count, es);
      assert BringsAll(c, prev, count, es);
    }
  }
}
