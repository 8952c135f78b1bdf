/** The sender's routines as they run: fields updated in place, loops over the piece states. */
module SenderImpl {
  import opened Collections
  import opened FloatArithmetic
  import opened FlowControl
  import opened TrackerImpl
  import opened Wire

  /** The marking loop from index `i` on. */
  ghost function MarkLoop(c: Chunk, st: seq<PieceState>, trk: seq<Entry>, i: int, a: int):
    (seq<PieceState>, seq<Entry>, bool)
    requires |st| == c.n && 0 <= i
    decreases c.n - i
  {
    if i <= a && i < c.n then
      if st[i] == Unsent then (st, trk, false)
      else MarkLoop(c, st[i := Acked], if st[i] == Acked then trk else Untrack(trk, c.peer, i), i + 1, a)
    else (st, trk, true)
  }

  lemma MarkNext(c: Chunk, st: seq<PieceState>, trk: seq<Entry>, i: int, a: int, st': seq<PieceState>, trk': seq<Entry>)
    requires |st| == c.n && 0 <= i <= a && i < c.n && st[i] != Unsent
    requires st' == st[i := Acked] && trk' == if st[i] == Acked then trk else Untrack(trk, c.peer, i)
    ensures MarkLoop(c, st, trk, i, a) == MarkLoop(c, st', trk', i + 1, a)
  {
  }

  lemma MarkStops(c: Chunk, st: seq<PieceState>, trk: seq<Entry>, i: int, a: int)
    requires |st| == c.n && 0 <= i && (i <= a && i < c.n ==> st[i] == Unsent)
    ensures MarkLoop(c, st, trk, i, a) == (st, trk, a < i || c.n <= i)
  {
  }

  lemma {:induction false} FirstUnsentOfMarked(st: seq<PieceState>, i: int, j: int, hi: int)
    requires 0 <= i < j && i < |st| && hi <= |st|
    ensures FirstUnsent(st[i := Acked], j, hi) == FirstUnsent(st, j, hi)
    decreases hi - j
  {
    if j >= hi {
    } else {
      FirstUnsentOfMarked(st, i, j + 1, hi);
    }
  }

  lemma {:induction false} UntrackRangeOfMarked(trk: seq<Entry>, sock: int, st: seq<PieceState>,
                                                i: int, lo: int, hi: int)
    requires 0 <= i < lo && i < |st| && hi <= |st|
    ensures UntrackRange(trk, sock, st[i := Acked], lo, hi) == UntrackRange(trk, sock, st, lo, hi)
    decreases hi - lo
  {
    if lo >= hi {
    } else {
      UntrackRangeOfMarked(if st[lo] == Acked then trk else Untrack(trk, sock, lo), sock, st, i, lo + 1, hi);
    }
  }

  /** It marks the sent pieces up to the first unsent one and stops timing those that were waiting. */
  lemma {:induction false} MarkLoopIs(c: Chunk, st: seq<PieceState>, trk: seq<Entry>, i: int, a: int)
    requires |st| == c.n && 0 <= i
    ensures var stop := FirstUnsent(st, i, AckLimit(c, a));
      && MarkLoop(c, st, trk, i, a).0 == MarkAcked(st, i, stop)
      && MarkLoop(c, st, trk, i, a).1 == UntrackRange(trk, c.peer, st, i, if stop < |st| then stop else |st|)
      && MarkLoop(c, st, trk, i, a).2 == (stop >= AckLimit(c, a))
    decreases c.n - i
  {
    if i <= a && i < c.n && st[i] != Unsent {
      var st1, trk1 := st[i := Acked], if st[i] == Acked then trk else Untrack(trk, c.peer, i);
      MarkLoopIs(c, st1, trk1, i + 1, a);
      var stop := FirstUnsent(st, i, AckLimit(c, a));
      FirstUnsentOfMarked(st, i, i + 1, AckLimit(c, a));
      assert MarkAcked(st, i, stop) == MarkAcked(st1, i + 1, stop);
      UntrackRangeOfMarked(trk1, c.peer, st, i, i + 1, if stop < |st| then stop else |st|);
    } else {
      assert MarkAcked(st, i, i) == st;
    }
  }

  /** One more piece is marked and put in front of the list. */
  lemma OneMoreSent(c: Chunk, st: seq<PieceState>, lo: int, end: int, packet: Packet)
    requires c.Valid() && |st| == c.n && -1 <= lo <= end < c.n - 1 && packet == c.PieceOf(end + 1)
    ensures MarkSent(st, lo, end)[end + 1 := Unacked] == MarkSent(st, lo, end + 1)
    ensures [packet] + Reversed(Pieces(c, lo, end)) == Reversed(Pieces(c, lo, end + 1))
  {
  }

  ghost function Refilled(c: Chunk, s: Sender, trk: seq<Entry>): AckResult
    requires c.Valid() && |s.state| == c.n && -1 <= s.end
  {
    AckResult(AfterSend(s), trk, SendList(c, s))
  }

  /** Advancing is the marking loop and, if it runs to its end, refilling the window. */
  lemma AdvanceByLoop(c: Chunk, s: Sender, trk: seq<Entry>, a: int, sum: real)
    requires SenderReady(c, s) && -1 <= a
    ensures |MarkLoop(c, s.state, trk, s.start + 1, a).0| == c.n
    ensures var (st, trk1, reached) := MarkLoop(c, s.state, trk, s.start + 1, a);
      Advance(c, s, trk, a, sum)
      == if reached then Refilled(c, s.(state := st, start := a, cc := OnAck(s.cc, sum)), trk1)
         else AckResult(s.(state := st), trk1, [])
  {
    MarkLoopIs(c, s.state, trk, s.start + 1, a);
  }

  class SendState {
    const chunk: Chunk
    const arith: Arithmetic
    const state: array<PieceState>
    var start: int
    var end: int
    var window: int
    var ssthresh: int
    var phase: Phase
    var rate: real
    var prevAck: int
    var dupCount: int

    ghost function View(): Sender
      reads this, state
    {
      Sender(start, end, state[..], Congestion(window, ssthresh, phase, rate), prevAck, dupCount)
    }

    ghost predicate Valid()
      reads this, state
    {
      state.Length == chunk.n && SenderReady(chunk, View())
    }

    /**
     * `init_datalist`: the two fields it never sets hold what the memory held, `prev` and `count`. The machine
     * calculates with `f`.
     */
    constructor (c: Chunk, f: Arithmetic, prev: int, count: int)
      requires c.Valid()
      ensures Valid() && chunk == c && arith == f && fresh(state) && View() == InitSender(c.n, prev, count)
    {
      chunk, arith := c, f;
      start, end := -1, -1;
      window, ssthresh, phase, rate := 1, 64, SlowStart, 1.0;
      prevAck, dupCount := prev, count;
      state := new PieceState[c.n](i => Unsent);
      new;
      assert state[..] == seq(c.n, i => Unsent);
    }

    method ContentByIndex(index: int) returns (s: seq<byte>)
      requires chunk.Valid() && 0 <= index < chunk.n
      ensures s == chunk.Slice(index)
    {
      var content := new byte[chunk.p];
      var from := index * chunk.p;
      chunk.SliceBounds(index);
      for i := 0 to chunk.p
        invariant content[..i] == chunk.content[from..from + i]
      {
        content[i] := chunk.content[from + i];
      }
      s := content[..];
    }

    method ProcessPacketLoss()
      modifies this
      ensures View() == old(View()).(cc := OnLoss(old(View()).cc))
    {
      ssthresh := HalfTowardZero(window);
      window := 1;
      phase := SlowStart;
      rate := 1.0;
    }

    method CongestionControl()
      requires Valid()
      modifies this
      ensures View() == old(View()).(cc := OnAck(old(View()).cc, NextRate(arith, old(View()).cc)))
    {
      if phase == SlowStart {
        if ssthresh == window {
          phase := Avoidance;
          rate := 0.0;
        } else {
          window := window + 1;
        }
      } else {
        var curRate := arith.reciprocal(window);
        rate := arith.add(rate, curRate);
        if rate >= 1.0 {
          window := window + 1;
          rate := 0.0;
        }
      }
    }

    method CheckReturnAck(a: int) returns (third: bool)
      requires Valid()
      modifies this
      ensures Valid() && (View(), third) == CheckAck(old(View()), a)
    {
      if prevAck == a {
        dupCount := dupCount + 1;
        return dupCount >= 2;
      }
      dupCount := 0;
      prevAck := a;
      return false;
    }

    /** Fill the window; the list is built by prepending. */
    method SendData() returns (ret: seq<Packet>)
      requires state.Length == chunk.n && chunk.Valid() && -1 <= start && -1 <= end
      modifies this`end, state
      ensures View() == AfterSend(old(View())) && ret == SendList(chunk, old(View()))
    {
      ret := [];
      var diff := end - start;
      ghost var before := View();
      if diff < window && end <= chunk.n - 1 {
        var i := 0;
        while i < window - diff
          invariant 0 <= i <= window - diff && end == before.end + i <= chunk.n - 1
          invariant state[..] == MarkSent(before.state, before.end, end)
          invariant ret == Reversed(Pieces(chunk, before.end, end))
        {
          if end >= chunk.n - 1 {
            assert end == SendTarget(before);
            return;
          }
          end := end + 1;
          var content := ContentByIndex(end);
          OneMoreSent(chunk, before.state, before.end, end - 1, Packet(end + 1, content));
          state[end] := Unacked;
          ret := [Packet(end + 1, content)] + ret;
          i := i + 1;
        }
        assert end == SendTarget(before);
      }
    }

    method Retransmit(a: int, tracker: PacketTracker) returns (ret: seq<Packet>)
      requires Valid() && -1 <= a
      modifies this
      ensures AckResult(View(), tracker.View(), ret) == FastRetransmit(chunk, old(View()), tracker.View(), a)
    {
      ret := [];
      if a < chunk.n - 1 {
        var content := ContentByIndex(a + 1);
        ProcessPacketLoss();
        ret := [Packet(a + 2, content)];
      }
    }

    method AckPiece(i: int, tracker: PacketTracker)
      requires 0 <= i < state.Length && tracker.Ready()
      modifies state, tracker`nodes, tracker.repr
      ensures state[..] == old(state[..])[i := Acked] && tracker.Ready()
      ensures tracker.View() ==
              if old(state[i]) == Acked then old(tracker.View()) else Untrack(old(tracker.View()), chunk.peer, i)
    {
      if state[i] != Acked {
        state[i] := Acked;
        assert tracker.nodes != [] ==> tracker.nodes[0].entry == tracker.View()[0];
        var _ := tracker.Remove(chunk.peer, i);
      }
    }

    method MarkOne(i: int, tracker: PacketTracker, ghost next: int, ghost a: int,
                   ghost goal: (seq<PieceState>, seq<Entry>, bool))
      requires state.Length == chunk.n && 0 <= i <= a && i < chunk.n && state[i] != Unsent && tracker.Ready()
      requires next == i + 1 && MarkLoop(chunk, state[..], tracker.View(), i, a) == goal
      modifies state, tracker`nodes, tracker.repr
      ensures tracker.Ready() && MarkLoop(chunk, state[..], tracker.View(), next, a) == goal
    {
      ghost var st, trk := state[..], tracker.View();
      AckPiece(i, tracker);
      MarkNext(chunk, st, trk, i, a, state[..], tracker.View());
    }

    /** The loop of `handle_ack`; false when it meets a piece that was never sent. */
    method MarkAndUntrack(a: int, tracker: PacketTracker) returns (reached: bool)
      requires state.Length == chunk.n && -1 <= start && tracker.Ready()
      modifies state, tracker`nodes, tracker.repr
      ensures tracker.Ready()
      ensures (state[..], tracker.View(), reached)
           == MarkLoop(chunk, old(state[..]), old(tracker.View()), start + 1, a)
    {
      var i := start + 1;
      ghost var goal := MarkLoop(chunk, state[..], tracker.View(), i, a);
      while i <= a && i < chunk.n
        invariant 0 <= i && tracker.Ready()
        invariant MarkLoop(chunk, state[..], tracker.View(), i, a) == goal
      {
        if state[i] == Unsent {
          MarkStops(chunk, state[..], tracker.View(), i, a);
          return false;
        }
        var next := i + 1;
        MarkOne(i, tracker, next, a, goal);
        i := next;
      }
      MarkStops(chunk, state[..], tracker.View(), i, a);
      return true;
    }

    method Advance(a: int, tracker: PacketTracker) returns (ret: seq<Packet>)
      requires Valid() && -1 <= a && tracker.Ready()
      modifies this, state, tracker`nodes, tracker.repr
      ensures tracker.Ready()
      ensures AckResult(View(), tracker.View(), ret)
           == FlowControl.Advance(chunk, old(View()), old(tracker.View()), a, NextRate(arith, old(View()).cc))
    {
      ret := [];
      AdvanceByLoop(chunk, View(), tracker.View(), a, NextRate(arith, View().cc));
      var reached := MarkAndUntrack(a, tracker);
      if reached {
        start := a;
        CongestionControl();
        ret := SendData();
      }
    }

    /** Process the acknowledged index `a`: fast retransmission, or advance and refill the window. */
    method HandleAck(a: int, tracker: PacketTracker) returns (ret: seq<Packet>)
      requires Valid() && -1 <= a && tracker.Ready()
      modifies this, state, tracker`nodes, tracker.repr
      ensures tracker.Ready()
      ensures AckResult(View(), tracker.View(), ret)
           == FlowControl.HandleAck(chunk, old(View()), old(tracker.View()), a, NextRate(arith, old(View()).cc))
    {
      ret := [];
      if a > chunk.n {
        return;
      }
      var third := CheckReturnAck(a);
      if third {
        ret := Retransmit(a, tracker);
      } else {
        ret := Advance(a, tracker);
      }
    }
  }
}
