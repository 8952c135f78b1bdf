/**
 * What every run guarantees, from any unset fields: right pieces on the wire, in the timers and in the buffer,
 * and no acknowledgement for a piece that is not stored.
 */
module TransferIntegrity {
  import opened Collections
  import opened FlowControl
  import opened TransferSafety
  import opened TransferSystem
  import opened Wire

  // ---------------------------------------------------------------- what every step keeps

  /** What an expired timer sends is a right piece. */
  ghost predicate TimerOk(c: Chunk, e: Entry, b: Buffer)
    requires c.Valid() && |b.pieces| == c.n
  {
    e.seqNum == DUMMY_SEQ || MessageOk(c, Data(Packet(e.seqNum, e.packet.payload)), b, c.n - 1)
  }

  ghost predicate TimersOk(c: Chunk, trk: seq<Entry>, b: Buffer)
    requires c.Valid() && |b.pieces| == c.n
  {
    forall e :: e in trk ==> TimerOk(c, e, b)
  }

  /** What counts as acknowledged is stored. */
  ghost predicate AckedStored(st: seq<PieceState>, pieces: seq<Piece>) {
    |st| == |pieces| && forall i :: 0 <= i < |st| && st[i] == Acked ==> pieces[i].Stored?
  }

  /** Each packet carries the piece its number says. */
  ghost predicate PacketsOk(c: Chunk, packets: seq<Packet>, b: Buffer)
    requires c.Valid() && |b.pieces| == c.n
  {
    forall p :: p in packets ==> MessageOk(c, Data(p), b, c.n - 1)
  }

  ghost predicate Faithful(c: Chunk, w: World)
    requires c.Valid()
  {
    && |w.snd.state| == c.n && -1 <= w.snd.start && -1 <= w.snd.end < c.n
    && ReceiverOk(c, w.rcv, c.n - 1) && w.rcv.total == TotalLength(w.rcv.pieces)
    && AllMessagesOk(c, w.sent, w.rcv, c.n - 1)
    && TimersOk(c, w.trk, w.rcv)
    && AckedStored(w.snd.state, w.rcv.pieces)
  }

  lemma {:induction false} TrackAllAdds(trk: seq<Entry>, packets: seq<Packet>, sock: int, e: Entry)
    requires e in TrackAll(trk, packets, sock)
    ensures e in trk || e == DUMMY || (e.packet in packets && e.seqNum == e.packet.seqNum)
    decreases |packets|
  {
    if packets == [] {
    } else {
      TrackAllAdds(Track(trk, packets[0], sock), packets[1..], sock, e);
    }
  }

  lemma TimersTrackAll(c: Chunk, trk: seq<Entry>, packets: seq<Packet>, b: Buffer)
    requires c.Valid() && |b.pieces| == c.n && TimersOk(c, trk, b) && PacketsOk(c, packets, b)
    ensures TimersOk(c, TrackAll(trk, packets, c.peer), b)
  {
    forall e | e in TrackAll(trk, packets, c.peer) ensures TimerOk(c, e, b) {
      TrackAllAdds(trk, packets, c.peer, e);
      if e !in trk && e != DUMMY { assert MessageOk(c, Data(e.packet), b, c.n - 1); }
    }
  }

  lemma {:induction false} UntrackSubset(trk: seq<Entry>, sock: int, i: int, e: Entry)
    requires e in Untrack(trk, sock, i)
    ensures e in trk
  {
    if trk == [] || Matches(trk[0], sock, i) {
    } else if e != trk[0] {
      UntrackSubset(trk[1..], sock, i, e);
    }
  }

  lemma {:induction false} UntrackRangeSubset(trk: seq<Entry>, sock: int, st: seq<PieceState>, lo: int, hi: int,
                                              e: Entry)
    requires 0 <= lo && hi <= |st| && e in UntrackRange(trk, sock, st, lo, hi)
    ensures e in trk
    decreases hi - lo
  {
    if lo >= hi {
    } else {
      var t := if st[lo] == Acked then trk else Untrack(trk, sock, lo);
      UntrackRangeSubset(t, sock, st, lo + 1, hi, e);
      if st[lo] != Acked { UntrackSubset(trk, sock, lo, e); }
    }
  }

  lemma TimersUntrackRange(c: Chunk, trk: seq<Entry>, st: seq<PieceState>, lo: int, hi: int, b: Buffer)
    requires c.Valid() && |b.pieces| == c.n && TimersOk(c, trk, b) && 0 <= lo && hi <= |st|
    ensures TimersOk(c, UntrackRange(trk, c.peer, st, lo, hi), b)
  {
    forall e | e in UntrackRange(trk, c.peer, st, lo, hi) ensures e in trk {
      UntrackRangeSubset(trk, c.peer, st, lo, hi, e);
    }
  }

  lemma Listed(c: Chunk, s: Sender, p: Packet) returns (i: int)
    requires c.Valid() && |s.state| == c.n && -1 <= s.end < c.n && p in SendList(c, s)
    ensures 0 <= i < c.n && p == c.PieceOf(i)
  {
    var list, pieces := SendList(c, s), Pieces(c, s.end, SendTarget(s));
    var k :| 0 <= k < |list| && list[k] == p;
    assert p == pieces[|pieces| - 1 - k];
    i := SendTarget(s) - k;
  }

  lemma SendListOk(c: Chunk, s: Sender, b: Buffer)
    requires c.Valid() && |s.state| == c.n && -1 <= s.end < c.n && |b.pieces| == c.n && b.pieces[0].Stored?
    ensures PacketsOk(c, SendList(c, s), b)
  {
    forall p | p in SendList(c, s) ensures MessageOk(c, Data(p), b, c.n - 1) {
      var i := Listed(c, s, p);
    }
  }

  /** What an acknowledgement leaves behind, when all pieces below its number are stored. */
  ghost predicate ResultOk(c: Chunk, r: AckResult, b: Buffer)
    requires c.Valid() && |b.pieces| == c.n
  {
    && -1 <= r.snd.start && -1 <= r.snd.end < c.n && AckedStored(r.snd.state, b.pieces)
    && TimersOk(c, r.trk, b) && PacketsOk(c, r.out, b)
  }

  lemma AdvanceFaithful(c: Chunk, s: Sender, trk: seq<Entry>, num: int, sum: real, b: Buffer)
    requires SenderReady(c, s) && s.end < c.n && |b.pieces| == c.n && 1 <= num <= c.n && GotFirst(b.pieces, num)
    requires AckedStored(s.state, b.pieces) && TimersOk(c, trk, b)
    ensures ResultOk(c, Advance(c, s, trk, num - 1, sum), b)
  {
    var lo := s.start + 1;
    var stop := FirstUnsent(s.state, lo, AckLimit(c, num - 1));
    TimersUntrackRange(c, trk, s.state, lo, if stop < |s.state| then stop else |s.state|, b);
    var st := MarkAcked(s.state, lo, stop);
    assert AckedStored(st, b.pieces);
    SendListOk(c, s.(state := st, start := num - 1, cc := OnAck(s.cc, sum)), b);
  }

  lemma HandleAckFaithful(c: Chunk, s: Sender, trk: seq<Entry>, num: int, sum: real, b: Buffer)
    requires SenderReady(c, s) && s.end < c.n && |b.pieces| == c.n && 1 <= num <= c.n && GotFirst(b.pieces, num)
    requires AckedStored(s.state, b.pieces) && TimersOk(c, trk, b)
    ensures ResultOk(c, HandleAck(c, s, trk, num - 1, sum), b)
  {
    var s1 := CheckAck(s, num - 1).0;
    AdvanceFaithful(c, s1, trk, num, sum, b);
  }

  lemma RespondFaithful(c: Chunk, w: World, r: AckResult)
    requires c.Valid() && Faithful(c, w) && ResultOk(c, r, w.rcv)
    ensures Faithful(c, Respond(c, w, r))
  {
    var out := Reversed(r.out);
    forall p | p in out ensures p in r.out {
      var k :| 0 <= k < |out| && out[k] == p;
      assert p == r.out[|out| - 1 - k];
    }
    TimersTrackAll(c, r.trk, out, w.rcv);
    forall m | m in DataOf(out) ensures MessageOk(c, m, w.rcv, c.n - 1) {
      var k :| 0 <= k < |out| && DataOf(out)[k] == m;
      assert out[k] in out;
    }
  }

  lemma AckFaithful(c: Chunk, w: World, num: int, sum: real)
    requires c.Valid() && Faithful(c, w) && Enabled(c, w, DeliverAck(num, sum))
    ensures Faithful(c, Step(c, w, DeliverAck(num, sum)))
  {
    assert MessageOk(c, Ack(num), w.rcv, c.n - 1);
    HandleAckFaithful(c, w.snd, w.trk, num, sum, w.rcv);
    var r := HandleAck(c, w.snd, w.trk, num - 1, sum);
    RespondFaithful(c, w, r);
    AckStepIs(c, w, num, sum);
  }

  lemma TimersSeeMore(c: Chunk, trk: seq<Entry>, b: Buffer, b': Buffer)
    requires c.Valid() && |b.pieces| == c.n && Extends(b.pieces, b'.pieces) && TimersOk(c, trk, b)
    ensures TimersOk(c, trk, b')
  {
    forall e | e in trk ensures TimerOk(c, e, b') { assert TimerOk(c, e, b); }
  }

  lemma DataFaithful(c: Chunk, w: World, packet: Packet)
    requires c.Valid() && Faithful(c, w) && Enabled(c, w, DeliverData(packet))
    ensures Faithful(c, Step(c, w, DeliverData(packet)))
  {
    assert MessageOk(c, Data(packet), w.rcv, c.n - 1);
    ReceiveKeeps(c, w.rcv, c.n - 1, packet);
    var b := Receive(w.rcv, packet).0;
    LogKeeps(c, w.sent, w.rcv, c.n - 1, b, c.n - 1);
    TimersSeeMore(c, w.trk, w.rcv, b);
  }

  lemma TimeoutFaithful(c: Chunk, w: World, index: int)
    requires c.Valid() && Faithful(c, w) && 0 <= index < |w.trk|
    ensures Faithful(c, Step(c, w, Timeout(index)))
  {
    assert TimerOk(c, w.trk[index], w.rcv);
  }

  lemma StepFaithful(c: Chunk, w: World, e: Event)
    requires c.Valid() && Faithful(c, w) && Enabled(c, w, e)
    ensures Faithful(c, Step(c, w, e))
  {
    match e
    case DeliverData(packet) => DataFaithful(c, w, packet);
    case DeliverAck(num, sum) => AckFaithful(c, w, num, sum);
    case Timeout(index) => TimeoutFaithful(c, w, index);
    case Loss =>
  }

  lemma InitFaithful(c: Chunk, prev: int, count: int)
    requires c.Valid()
    ensures Faithful(c, Init(c, prev, count))
  {
    InitWorld(c, prev, count);
    InitSenderOk(c, prev, count);
    InitReceiverOk(c);
    InitLogOk(c);
    var w := Init(c, prev, count);
    ReceiverSeesMore(c, w.rcv, 0, c.n - 1);
    LogKeeps(c, w.sent, w.rcv, 0, w.rcv, c.n - 1);
    TimersTrackAll(c, [], Pieces(c, -1, 0), w.rcv);
  }

  lemma {:induction false} RunFaithful(c: Chunk, w: World, es: seq<Event>)
    requires c.Valid() && Faithful(c, w) && CanRun(c, w, es)
    ensures Faithful(c, Run(c, w, es))
    decreases |es|
  {
    if es == [] {
    } else {
      StepFaithful(c, w, es[0]);
      RunFaithful(c, Step(c, w, es[0]), es[1..]);
    }
  }

  lemma ReachableFaithful(c: Chunk, w: World)
    requires c.Valid() && Reachable(c, w)
    ensures Faithful(c, w)
  {
    var prev, count, es :| RunsTo(c, prev, count, es, w);
    InitFaithful(c, prev, count);
    RunFaithful(c, Init(c, prev, count), es);
  }

  // ---------------------------------------------------------------- integrity

  lemma PacketOnWire(c: Chunk, w: World, packet: Packet)
    requires c.Valid() && Faithful(c, w) && Data(packet) in w.sent
    ensures 1 <= packet.seqNum <= c.n && packet == c.PieceOf(packet.seqNum - 1)
  {
    assert MessageOk(c, Data(packet), w.rcv, c.n - 1);
  }

  /** What counts as acknowledged is stored, and what is stored or on the wire is the sender's bytes. */
  lemma Integrity(c: Chunk, w: World)
    requires c.Valid() && Reachable(c, w)
    ensures |w.snd.state| == |w.rcv.pieces| == c.n
    ensures forall i :: 0 <= i < c.n && w.snd.state[i] == Acked ==> w.rcv.pieces[i].Stored?
    ensures forall i :: 0 <= i < c.n && w.rcv.pieces[i].Stored? ==> w.rcv.pieces[i].data == c.Slice(i)
    ensures forall packet :: Data(packet) in w.sent ==>
              1 <= packet.seqNum <= c.n && packet == c.PieceOf(packet.seqNum - 1)
  {
    ReachableFaithful(c, w);
    forall packet | Data(packet) in w.sent
      ensures 1 <= packet.seqNum <= c.n && packet == c.PieceOf(packet.seqNum - 1)
    {
      PacketOnWire(c, w, packet);
    }
  }

  /** Every acknowledgement ever sent covers only stored pieces, although the scan starts at index 1. */
  lemma AckSoundness(c: Chunk, w: World, num: int)
    requires c.Valid() && Reachable(c, w) && Ack(num) in w.sent
    ensures 1 <= num <= c.n && |w.rcv.pieces| == c.n
    ensures forall i :: 0 <= i < num ==> w.rcv.pieces[i].Stored?
  {
    ReachableFaithful(c, w);
    assert MessageOk(c, Ack(num), w.rcv, c.n - 1);
  }

  /** Every DATA packet delivered is answered with the first missing piece, or n when none is missing. */
  lemma AnsweredWithFirstMissing(c: Chunk, w: World, packet: Packet) returns (k: nat)
    requires c.Valid() && Reachable(c, w) && Enabled(c, w, DeliverData(packet))
    ensures var w' := Step(c, w, DeliverData(packet));
      && w'.sent == w.sent + [Ack(k)] && 1 <= k <= c.n && |w'.rcv.pieces| == c.n
      && (forall i :: 0 <= i < k ==> w'.rcv.pieces[i].Stored?) && (k < c.n ==> w'.rcv.pieces[k].Missing?)
  {
    ReachableFaithful(c, w);
    StepFaithful(c, w, DeliverData(packet));
    assert MessageOk(c, Data(packet), w.rcv, c.n - 1);
    ReceiveKeeps(c, w.rcv, c.n - 1, packet);
    k := Receive(w.rcv, packet).0.expected;
  }

  // ---------------------------------------------------------------- completion

  lemma {:induction false} TotalBound(pieces: seq<Piece>, p: int)
    requires 1 <= p && forall i :: 0 <= i < |pieces| && pieces[i].Stored? ==> |pieces[i].data| == p
    ensures TotalLength(pieces) <= |pieces| * p
    ensures TotalLength(pieces) == |pieces| * p <==> forall i :: 0 <= i < |pieces| ==> pieces[i].Stored?
  {
    if pieces == [] {
    } else {
      var last := |pieces| - 1;
      TotalBound(pieces[..last], p);
      assert |pieces| * p == last * p + p;
      assert forall i :: 0 <= i < last ==> pieces[..last][i] == pieces[i];
    }
  }

  /** The byte count reaches a whole chunk exactly when every piece is there. */
  lemma FullMeansAll(c: Chunk, w: World)
    requires c.Valid() && Reachable(c, w)
    ensures w.rcv.total == TotalLength(w.rcv.pieces)
    ensures w.rcv.total == c.n * c.p <==> forall i :: 0 <= i < |w.rcv.pieces| ==> w.rcv.pieces[i].Stored?
  {
    ReachableFaithful(c, w);
    TotalBound(w.rcv.pieces, c.p);
  }
}
