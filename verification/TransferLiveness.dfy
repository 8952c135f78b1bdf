/** A transfer can always be finished, and a fair run does finish it. */
module TransferLiveness {
  import opened FlowControl
  import opened TransferIntegrity
  import opened TransferSafety
  import opened TransferSystem
  import opened TransferTheorems
  import opened Wire

  /** Every piece acknowledged, every piece stored with the sender's bytes. */
  ghost predicate Complete(c: Chunk, w: World)
    requires c.Valid()
  {
    && |w.snd.state| == |w.rcv.pieces| == c.n
    && (forall i :: 0 <= i < c.n ==> w.snd.state[i] == Acked)
    && (forall i :: 0 <= i < c.n ==> w.rcv.pieces[i] == Stored(c.Slice(i)))
    && w.rcv.total == c.n * c.p
  }

  lemma AllAckedCompletes(c: Chunk, w: World)
    requires c.Valid() && Inv(c, w) && AckedCount(w) == c.n
    ensures Complete(c, w)
  {
    TotalBound(w.rcv.pieces, c.p);
  }

  // ---------------------------------------------------------------- no state is stuck

  /** Delivering the first unacknowledged piece makes the receiver's answer cover it. */
  lemma AnswerCovers(c: Chunk, w: World, packet: Packet)
    requires c.Valid() && Inv(c, w) && Data(packet) in w.sent && packet.seqNum == AckedCount(w) + 1
    ensures Enabled(c, w, DeliverData(packet))
    ensures var w' := Step(c, w, DeliverData(packet));
      && AckedCount(w) < w'.rcv.expected
      && w'.sent == w.sent + [Ack(w'.rcv.expected)]
      && w'.snd == w.snd
  {
    assert MessageOk(c, Data(packet), w.rcv, w.snd.end);
    ReceiveKeeps(c, w.rcv, w.snd.end, packet);
  }

  /** An acknowledgement covering an unacknowledged piece is never taken for a duplicate. */
  lemma CoveringAckAccepted(c: Chunk, w: World, num: int, sum: real)
    requires c.Valid() && Inv(c, w) && Ack(num) in w.sent && AckedCount(w) < num
    ensures Enabled(c, w, DeliverAck(num, sum)) && !CheckAck(w.snd, num - 1).1
    ensures AckedCount(Step(c, w, DeliverAck(num, sum))) == num
  {
    AckInRange(c, w, num);
    AckAcceptedStepOk(c, w, num, sum);
  }

  /** The tracker entry that resends the first unacknowledged piece. */
  lemma FirstWaiting(c: Chunk, w: World) returns (index: int)
    requires c.Valid() && Inv(c, w) && AckedCount(w) < c.n
    ensures 0 <= index < |w.trk| && w.trk[index].seqNum == AckedCount(w) + 1
    ensures Step(c, w, Timeout(index)) == w.(sent := w.sent + [Data(c.PieceOf(AckedCount(w)))])
  {
    var a := AckedCount(w);
    assert w.snd.state[a] == Unacked;
    index :| 0 <= index < |w.trk| && w.trk[index].seqNum == a + 1;
    var i := TimerResends(c, w, index);
  }

  /** The run `es` completes the transfer without a loss, and its acknowledgements arrive in order. */
  ghost predicate Finishes(c: Chunk, w: World, es: seq<Event>)
    requires c.Valid()
  {
    && CanRun(c, w, es) && Complete(c, Run(c, w, es))
    && (forall e :: e in es ==> !e.Loss?)
    && AcksAscend(es, AckedCount(w))
  }

  lemma FinishesFrom(c: Chunk, w: World, e: Event, rest: seq<Event>) returns (es: seq<Event>)
    requires c.Valid() && Enabled(c, w, e) && !e.Loss? && Finishes(c, Step(c, w, e), rest)
    requires AckedCount(Step(c, w, e)) == if e.DeliverAck? then e.num else AckedCount(w)
    requires AckedCount(w) <= AckedCount(Step(c, w, e))
    ensures Finishes(c, w, es)
  {
    es := Cons(c, w, e, rest);
    assert es[1..] == rest;
  }

  lemma {:induction false} FinishDelivery(c: Chunk, w: World, packet: Packet) returns (es: seq<Event>)
    requires c.Valid() && Inv(c, w) && Data(packet) in w.sent && packet.seqNum == AckedCount(w) + 1
    ensures Finishes(c, w, es)
    decreases c.n - AckedCount(w), 1
  {
    AnswerCovers(c, w, packet);
    StepOk(c, w, DeliverData(packet));
    var rest := FinishAnswer(c, Step(c, w, DeliverData(packet)));
    es := FinishesFrom(c, w, DeliverData(packet), rest);
  }

  /** Whenever the invariant holds a finite run completes: resend, deliver and answer the first waiting piece. */
  lemma {:induction false} Finish(c: Chunk, w: World) returns (es: seq<Event>)
    requires c.Valid() && Inv(c, w)
    ensures Finishes(c, w, es)
    decreases c.n - AckedCount(w), 2
  {
    if AckedCount(w) == c.n {
      AllAckedCompletes(c, w);
      es := [];
    } else {
      var index := FirstWaiting(c, w);
      StepOk(c, w, Timeout(index));
      var w1 := Step(c, w, Timeout(index));
      assert w1.sent[|w.sent|] == Data(c.PieceOf(AckedCount(w)));
      var rest := FinishDelivery(c, w1, c.PieceOf(AckedCount(w)));
      es := FinishesFrom(c, w, Timeout(index), rest);
    }
  }

  lemma {:induction false} FinishAnswer(c: Chunk, w: World) returns (es: seq<Event>)
    requires c.Valid() && Inv(c, w) && AckedCount(w) < w.rcv.expected
    requires w.sent != [] && w.sent[|w.sent| - 1] == Ack(w.rcv.expected)
    ensures Finishes(c, w, es)
    decreases c.n - AckedCount(w), 0
  {
    var e := DeliverAck(w.rcv.expected, 0.0);
    CoveringAckAccepted(c, w, w.rcv.expected, 0.0);
    StepOk(c, w, e);
    var rest := Finish(c, Step(c, w, e));
    es := FinishesFrom(c, w, e, rest);
  }

  /** No reachable state is stuck. */
  lemma NeverStuck(c: Chunk, w: World)
    requires c.Valid() && ReachableClear(c, w)
    ensures exists es :: Finishes(c, w, es)
  {
    ReachableOk(c, w);
    var es := Finish(c, w);
  }

  // ---------------------------------------------------------------- fair runs

  ghost predicate InfiniteRun(c: Chunk, ws: nat -> World, es: nat -> Event)
    requires c.Valid()
  {
    && (exists prev, count :: !Misleading(prev, count) && ws(0) == Init(c, prev, count))
    && forall t: nat :: Enabled(c, ws(t), es(t)) && ws(t + 1) == Step(c, ws(t), es(t))
  }

  /** Step `t` puts `m` on the wire. */
  ghost predicate Sends(ws: nat -> World, m: Message, t: nat) {
    && |ws(t).sent| < |ws(t + 1).sent|
    && m in ws(t + 1).sent[|ws(t).sent|..]
  }

  ghost predicate Delivers(es: nat -> Event, m: Message, t: nat) {
    match m
    case Data(packet) => es(t) == DeliverData(packet)
    case Ack(num) => es(t).DeliverAck? && es(t).num == num
  }

  ghost predicate FiresTimer(ws: nat -> World, es: nat -> Event, q: int, t: nat) {
    es(t).Timeout? && 0 <= es(t).index < |ws(t).trk| && ws(t).trk[es(t).index].seqNum == q
  }

  ghost predicate SentAfter(ws: nat -> World, m: Message, t: nat) {
    exists u: nat :: t <= u && Sends(ws, m, u)
  }

  ghost predicate DeliveredAfter(es: nat -> Event, m: Message, t: nat) {
    exists u: nat :: t <= u && Delivers(es, m, u)
  }

  ghost predicate FiredAfter(ws: nat -> World, es: nat -> Event, q: int, t: nat) {
    exists u: nat :: t <= u && FiresTimer(ws, es, q, u)
  }

  ghost predicate SentForever(ws: nat -> World, m: Message) { forall t: nat :: SentAfter(ws, m, t) }

  ghost predicate DeliveredForever(es: nat -> Event, m: Message) { forall t: nat :: DeliveredAfter(es, m, t) }

  ghost predicate TrackedFrom(ws: nat -> World, q: int, t0: nat) {
    forall t: nat :: t0 <= t ==> HasSeq(ws(t).trk, q)
  }

  /** Messages may be lost, but a message sent again and again is delivered again and again. */
  ghost predicate FairLossy(ws: nat -> World, es: nat -> Event) {
    forall m :: SentForever(ws, m) ==> DeliveredForever(es, m)
  }

  /** An entry that stays in the tracker for good expires again and again. */
  ghost predicate FairTimers(ws: nat -> World, es: nat -> Event) {
    forall q, t0: nat, t: nat :: q != DUMMY_SEQ && TrackedFrom(ws, q, t0) ==> FiredAfter(ws, es, q, t)
  }

  lemma {:induction false} AlwaysOk(c: Chunk, ws: nat -> World, es: nat -> Event, t: nat)
    requires c.Valid() && InfiniteRun(c, ws, es)
    ensures Inv(c, ws(t))
  {
    if t == 0 {
      var prev, count :| !Misleading(prev, count) && ws(0) == Init(c, prev, count);
      InitOk(c, prev, count);
    } else {
      AlwaysOk(c, ws, es, t - 1);
      StepOk(c, ws(t - 1), es(t - 1));
    }
  }

  lemma {:induction false} NeverBack(c: Chunk, ws: nat -> World, es: nat -> Event, t: nat, u: nat)
    requires c.Valid() && InfiniteRun(c, ws, es) && t <= u
    ensures AckedCount(ws(t)) <= AckedCount(ws(u)) && ws(t).rcv.expected <= ws(u).rcv.expected
    decreases u
  {
    if t >= u {
    } else {
      NeverBack(c, ws, es, t, u - 1);
      AlwaysOk(c, ws, es, u - 1);
      StepMonotone(c, ws(u - 1), es(u - 1));
    }
  }

  /** From some time on the receiver's position no longer changes. */
  lemma {:induction false} ExpectedSettles(c: Chunk, ws: nat -> World, es: nat -> Event, t: nat) returns (s: nat)
    requires c.Valid() && InfiniteRun(c, ws, es)
    ensures t <= s && forall u: nat :: s <= u ==> ws(u).rcv.expected == ws(s).rcv.expected
    decreases c.n - ws(t).rcv.expected
  {
    AlwaysOk(c, ws, es, t);
    if u: nat :| t <= u && ws(u).rcv.expected != ws(t).rcv.expected {
      NeverBack(c, ws, es, t, u);
      s := ExpectedSettles(c, ws, es, u);
    } else {
      s := t;
    }
  }

  lemma FirstIsTracked(c: Chunk, w: World)
    requires c.Valid() && Inv(c, w) && AckedCount(w) < c.n
    ensures HasSeq(w.trk, AckedCount(w) + 1)
  {
    assert w.snd.state[AckedCount(w)] == Unacked;
  }

  lemma FiringSends(c: Chunk, ws: nat -> World, es: nat -> Event, i: nat, u: nat)
    requires c.Valid() && InfiniteRun(c, ws, es) && i < c.n && FiresTimer(ws, es, i + 1, u)
    ensures Sends(ws, Data(c.PieceOf(i)), u)
  {
    AlwaysOk(c, ws, es, u);
    var j := TimerResends(c, ws(u), es(u).index);
    assert ws(u + 1) == Step(c, ws(u), es(u));
    assert ws(u + 1).sent[|ws(u).sent|..] == [Data(c.PieceOf(i))];
  }

  /** While `a` pieces stay acknowledged, the next one is resent for ever. */
  lemma ResentForever(c: Chunk, ws: nat -> World, es: nat -> Event, t0: nat, a: nat)
    requires c.Valid() && InfiniteRun(c, ws, es) && FairTimers(ws, es) && a < c.n
    requires forall t: nat :: t0 <= t ==> AckedCount(ws(t)) == a
    ensures SentForever(ws, Data(c.PieceOf(a)))
  {
    forall t: nat | t0 <= t ensures HasSeq(ws(t).trk, a + 1) {
      AlwaysOk(c, ws, es, t);
      FirstIsTracked(c, ws(t));
    }
    assert TrackedFrom(ws, a + 1, t0);
    forall t: nat ensures SentAfter(ws, Data(c.PieceOf(a)), t) {
      assert FiredAfter(ws, es, a + 1, t);
      var u: nat :| t <= u && FiresTimer(ws, es, a + 1, u);
      FiringSends(c, ws, es, a, u);
    }
  }

  /** Each delivery of that piece is answered with the receiver's settled position. */
  lemma AnsweredForever(c: Chunk, ws: nat -> World, es: nat -> Event, t0: nat, a: nat, k: int)
    requires c.Valid() && InfiniteRun(c, ws, es) && a < c.n
    requires forall t: nat :: t0 <= t ==> AckedCount(ws(t)) == a && ws(t).rcv.expected == k
    requires DeliveredForever(es, Data(c.PieceOf(a)))
    ensures a < k && SentForever(ws, Ack(k))
  {
    forall t: nat ensures a < k && SentAfter(ws, Ack(k), t) {
      var from: nat := if t < t0 then t0 else t;
      assert DeliveredAfter(es, Data(c.PieceOf(a)), from);
      var u: nat :| from <= u && Delivers(es, Data(c.PieceOf(a)), u);
      AlwaysOk(c, ws, es, u);
      AnswerCovers(c, ws(u), c.PieceOf(a));
      assert ws(u + 1).rcv.expected == k;
      assert ws(u + 1).sent[|ws(u).sent|..] == [Ack(k)];
      assert Sends(ws, Ack(k), u);
    }
    assert SentAfter(ws, Ack(k), 0);
  }

  /** In a fair run the acknowledged count cannot stay below `n` for good. */
  lemma NeverStalls(c: Chunk, ws: nat -> World, es: nat -> Event, t0: nat)
    requires c.Valid() && InfiniteRun(c, ws, es) && FairTimers(ws, es) && FairLossy(ws, es)
    requires AckedCount(ws(t0)) < c.n
    ensures exists u: nat :: t0 <= u && AckedCount(ws(t0)) < AckedCount(ws(u))
  {
    var a := AckedCount(ws(t0));
    if forall u: nat :: t0 <= u ==> AckedCount(ws(u)) <= a {
      forall u: nat | t0 <= u ensures AckedCount(ws(u)) == a { NeverBack(c, ws, es, t0, u); }
      ResentForever(c, ws, es, t0, a);
      var s := ExpectedSettles(c, ws, es, t0);
      var k := ws(s).rcv.expected;
      AnsweredForever(c, ws, es, s, a, k);
      assert DeliveredAfter(es, Ack(k), s);
      var u: nat :| s <= u && Delivers(es, Ack(k), u);
      AlwaysOk(c, ws, es, u);
      CoveringAckAccepted(c, ws(u), k, es(u).sum);
      assert AckedCount(ws(u + 1)) == k;
    }
  }

  lemma {:induction false} EventuallyAcked(c: Chunk, ws: nat -> World, es: nat -> Event, t0: nat) returns (t: nat)
    requires c.Valid() && InfiniteRun(c, ws, es) && FairTimers(ws, es) && FairLossy(ws, es)
    ensures t0 <= t && AckedCount(ws(t)) == c.n
    decreases c.n - AckedCount(ws(t0))
  {
    AlwaysOk(c, ws, es, t0);
    if AckedCount(ws(t0)) == c.n {
      t := t0;
    } else {
      NeverStalls(c, ws, es, t0);
      var u: nat :| t0 <= u && AckedCount(ws(t0)) < AckedCount(ws(u));
      AlwaysOk(c, ws, es, u);
      t := EventuallyAcked(c, ws, es, u);
    }
  }

  ghost predicate CompleteFrom(c: Chunk, ws: nat -> World, t: nat)
    requires c.Valid()
  {
    forall u: nat :: t <= u ==> Complete(c, ws(u))
  }

  /** Every fair run over a losing, duplicating, reordering network completes and stays complete. */
  lemma FairRunCompletes(c: Chunk, ws: nat -> World, es: nat -> Event)
    requires c.Valid() && InfiniteRun(c, ws, es) && FairTimers(ws, es) && FairLossy(ws, es)
    ensures exists t: nat :: CompleteFrom(c, ws, t)
  {
    var t := EventuallyAcked(c, ws, es, 0);
    forall u: nat | t <= u ensures Complete(c, ws(u)) {
      NeverBack(c, ws, es, t, u);
      AlwaysOk(c, ws, es, u);
      AllAckedCompletes(c, ws(u));
    }
    assert CompleteFrom(c, ws, t);
  }

  // ---------------------------------------------------------------- fair runs exist

  /** The events `es`, then losses for ever. */
  ghost function EventAt(es: seq<Event>, t: nat): Event { if t < |es| then es[t] else Loss }

  ghost function WorldAt(c: Chunk, w: World, es: seq<Event>, t: nat): World
    requires CanRun(c, w, es)
    decreases t
  {
    if t == 0 then w
    else if es == [] then WorldAt(c, Step(c, w, Loss), [], t - 1)
    else WorldAt(c, Step(c, w, es[0]), es[1..], t - 1)
  }

  lemma {:induction false} WorldAtNext(c: Chunk, w: World, es: seq<Event>, t: nat)
    requires CanRun(c, w, es)
    ensures Enabled(c, WorldAt(c, w, es, t), EventAt(es, t))
    ensures WorldAt(c, w, es, t + 1) == Step(c, WorldAt(c, w, es, t), EventAt(es, t))
    decreases t
  {
    if t == 0 {
    } else if es == [] {
      WorldAtNext(c, Step(c, w, Loss), [], t - 1);
    } else {
      WorldAtNext(c, Step(c, w, es[0]), es[1..], t - 1);
    }
  }

  /** Losses change neither the tracker nor the wire. */
  lemma {:induction false} WorldAfter(c: Chunk, w: World, es: seq<Event>, t: nat)
    requires CanRun(c, w, es) && |es| <= t
    ensures WorldAt(c, w, es, t).trk == Run(c, w, es).trk && WorldAt(c, w, es, t).sent == Run(c, w, es).sent
    decreases t
  {
    if t == 0 {
    } else if es == [] {
      WorldAfter(c, Step(c, w, Loss), [], t - 1);
    } else {
      WorldAfter(c, Step(c, w, es[0]), es[1..], t - 1);
    }
  }

  lemma TimedWaits(trk: seq<Entry>, st: seq<PieceState>, j: nat)
    requires j < |trk| && 1 <= trk[j].seqNum <= |st| && TrackedExactly(st, trk)
    ensures st[trk[j].seqNum - 1] == Unacked
  {
    assert HasSeq(trk, trk[j].seqNum - 1 + 1);
  }

  lemma OnlyDummy(trk: seq<Entry>, st: seq<PieceState>)
    requires trk != [] && trk[0] == DUMMY && forall j :: 1 <= j < |trk| ==> 1 <= trk[j].seqNum <= |st|
    requires TrackedExactly(st, trk) && forall i :: 0 <= i < |st| ==> st[i] == Acked
    ensures trk == [DUMMY]
  {
    if 1 < |trk| { TimedWaits(trk, st, 1); }
  }

  /** When everything is acknowledged in order, only the dummy is left in the tracker. */
  lemma OnlyDummyLeft(c: Chunk, prev: int, count: int, es: seq<Event>, w: World)
    requires c.Valid() && ReachedBy(c, prev, count, es, w) && AcksAscend(es, 0) && Complete(c, w)
    ensures w.trk == [DUMMY]
  {
    InOrderRun(c, prev, count, es, w);
    NothingForgotten(c, w);
    OnlyDummy(w.trk, w.snd.state);
  }

  /** From that moment on, a run that goes on with losses is silent. */
  lemma SilentAfter(c: Chunk, w: World, es: seq<Event>)
    requires CanRun(c, w, es) && Run(c, w, es).trk == [DUMMY]
    ensures forall t: nat :: |es| <= t ==>
              WorldAt(c, w, es, t).trk == [DUMMY] && WorldAt(c, w, es, t).sent == Run(c, w, es).sent
  {
    forall t: nat | |es| <= t
      ensures WorldAt(c, w, es, t).trk == [DUMMY] && WorldAt(c, w, es, t).sent == Run(c, w, es).sent
    {
      WorldAfter(c, w, es, t);
    }
  }

  /** A run that falls silent with an empty tracker is fair. */
  lemma SilentIsFair(ws: nat -> World, es: nat -> Event, t0: nat, sent: seq<Message>)
    requires forall t: nat :: t0 <= t ==> ws(t).trk == [DUMMY] && ws(t).sent == sent
    ensures FairTimers(ws, es) && FairLossy(ws, es)
  {
    forall q, t1: nat | q != DUMMY_SEQ ensures !TrackedFrom(ws, q, t1) {
      var u := if t0 < t1 then t1 else t0;
      assert !HasSeq(ws(u).trk, q);
    }
    forall m ensures !SentForever(ws, m) {
      assert forall u: nat :: t0 <= u ==> !Sends(ws, m, u);
      assert !SentAfter(ws, m, t0);
    }
  }

  lemma StreamIsRun(c: Chunk, w: World, run: seq<Event>, ws: nat -> World, es: nat -> Event)
    requires c.Valid() && w == Init(c, 0, 0) && CanRun(c, w, run)
    requires forall t: nat :: ws(t) == WorldAt(c, w, run, t)
    requires forall t: nat :: es(t) == EventAt(run, t)
    ensures InfiniteRun(c, ws, es)
  {
    forall t: nat ensures Enabled(c, ws(t), es(t)) && ws(t + 1) == Step(c, ws(t), es(t)) {
      WorldAtNext(c, w, run, t);
    }
    assert !Misleading(0, 0) && ws(0) == Init(c, 0, 0);
  }

  lemma CompletingRun(c: Chunk) returns (run: seq<Event>)
    requires c.Valid()
    ensures CanRun(c, Init(c, 0, 0), run) && Run(c, Init(c, 0, 0), run).trk == [DUMMY]
  {
    var w := Init(c, 0, 0);
    InitOk(c, 0, 0);
    InitSenderOk(c, 0, 0);
    InitWorld(c, 0, 0);
    run := Finish(c, w);
    OnlyDummyLeft(c, 0, 0, run, Run(c, w, run));
  }

  /** The three hypotheses of `FairRunCompletes` can be met together. */
  lemma FairRunExists(c: Chunk) returns (ws: nat -> World, es: nat -> Event)
    requires c.Valid()
    ensures InfiniteRun(c, ws, es) && FairTimers(ws, es) && FairLossy(ws, es)
  {
    var run := CompletingRun(c);
    var w := Init(c, 0, 0);
    SilentAfter(c, w, run);
    ws := (t: nat) => WorldAt(c, w, run, t);
    es := (t: nat) => EventAt(run, t);
    StreamIsRun(c, w, run, ws, es);
    SilentIsFair(ws, es, |run|, Run(c, w, run).sent);
  }
}
