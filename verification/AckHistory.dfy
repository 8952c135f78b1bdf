/**
 * What the acknowledgements delivered in a run do: which of them is a third copy, and that the congestion control
 * has gone through exactly the losses and acknowledgements they mean. All runs, from any unset fields.
 */
module AckHistory {
  import opened CongestionTheorems
  import opened FloatArithmetic
  import opened FlowControl
  import opened TransferIntegrity
  import opened TransferSafety
  import opened TransferSystem
  import opened Wire

  // ---------------------------------------------------------------- third copies

  function NumberOf(e: Event): seq<int> { if e.DeliverAck? then [e.num] else [] }

  /** The numbers of the acknowledgements delivered. */
  function Numbers(es: seq<Event>): seq<int> {
    if es == [] then [] else NumberOf(es[0]) + Numbers(es[1..])
  }

  /** How many of the last elements are `x`. */
  function Trailing(nums: seq<int>, x: int): (k: nat)
    ensures k <= |nums|
  {
    if nums == [] || nums[|nums| - 1] != x then 0 else 1 + Trailing(nums[..|nums| - 1], x)
  }

  /**
   * After `nums` one more `num` is at least the third in a row; if there has been nothing else, the unset fields
   * `prev` and `count` count as `count + 1` copies of the acknowledgement of `prev`.
   */
  predicate IsThird(prev: int, count: int, nums: seq<int>, num: int) {
    var k := Trailing(nums, num);
    if k == |nums| && prev == num - 1 then count + 1 + k + 1 >= 3 else k + 1 >= 3
  }

  /** What the two fields hold after `nums`. */
  predicate Counted(s: Sender, prev: int, count: int, nums: seq<int>) {
    if nums == [] then s.prevAck == prev && s.dupCount == count
    else
      var x := nums[|nums| - 1];
      var k := Trailing(nums, x);
      s.prevAck == x - 1 && s.dupCount == if k == |nums| && prev == x - 1 then count + k else k - 1
  }

  lemma TrailingNext(nums: seq<int>, num: int)
    ensures Trailing(nums + [num], num) == Trailing(nums, num) + 1
    ensures nums != [] && nums[|nums| - 1] != num ==> Trailing(nums, num) == 0
  {
    assert (nums + [num])[..|nums|] == nums;
  }

  /** The counting of copies reports exactly the third and later ones. */
  lemma ThirdExactly(s: Sender, prev: int, count: int, nums: seq<int>, num: int)
    requires Counted(s, prev, count, nums)
    ensures CheckAck(s, num - 1).1 <==> IsThird(prev, count, nums, num)
    ensures Counted(CheckAck(s, num - 1).0, prev, count, nums + [num])
  {
    TrailingNext(nums, num);
  }

  // ---------------------------------------------------------------- one acknowledgement

  /** Some piece that the acknowledgement would mark has not been sent. */
  ghost predicate Refused(s: Sender, num: int) {
    exists i :: 0 <= i < |s.state| && s.start < i < num && s.state[i] == Unsent
  }

  lemma RefusedIs(c: Chunk, s: Sender, num: int)
    requires SenderReady(c, s) && 1 <= num <= c.n
    ensures Refused(s, num) <==> FirstUnsent(s.state, s.start + 1, AckLimit(c, num - 1)) < AckLimit(c, num - 1)
  {
    var lo, hi := s.start + 1, AckLimit(c, num - 1);
    var stop := FirstUnsent(s.state, lo, hi);
    if stop < hi { assert s.state[stop] == Unsent; }
  }

  /** A third copy sends the next piece and falls back; another copy is an acknowledgement or is refused. */
  lemma AckDoes(c: Chunk, w: World, num: int, sum: real)
    requires c.Valid() && SenderReady(c, w.snd) && Ack(num) in w.sent && 1 <= num <= c.n
    ensures Enabled(c, w, DeliverAck(num, sum))
    ensures var w' := Step(c, w, DeliverAck(num, sum)); var cc := w.snd.cc;
      if CheckAck(w.snd, num - 1).1 then
        && w'.snd.cc == (if num < c.n then Congestion(1, HalfTowardZero(cc.window), SlowStart, 1.0) else cc)
        && w'.sent == (if num < c.n then w.sent + [Data(c.PieceOf(num))] else w.sent)
        && w'.snd.start == w.snd.start && w'.snd.end == w.snd.end && w'.snd.state == w.snd.state
      else
        && w'.snd.cc == (if Refused(w.snd, num) then cc else OnAck(cc, sum))
        && w'.snd.start == (if Refused(w.snd, num) then w.snd.start else num - 1)
    ensures Step(c, w, DeliverAck(num, sum)).snd.prevAck == CheckAck(w.snd, num - 1).0.prevAck
    ensures Step(c, w, DeliverAck(num, sum)).snd.dupCount == CheckAck(w.snd, num - 1).0.dupCount
  {
    AckStepIs(c, w, num, sum);
    var r := HandleAck(c, w.snd, w.trk, num - 1, sum);
    if CheckAck(w.snd, num - 1).1 {
      if num < c.n {
        assert r.out == Pieces(c, num - 1, num);
        RespondOne(c, w, r, num);
      } else {
        RespondNone(c, w, r);
      }
    } else {
      RefusedIs(c, w.snd, num);
    }
  }

  /** Only an index beyond n is ignored; even one that is n, past the last piece, is counted. */
  lemma OnlyBeyondIgnored(c: Chunk, s: Sender, trk: seq<Entry>, a: int, sum: real)
    requires SenderReady(c, s) && -1 <= a
    ensures a > c.n ==> HandleAck(c, s, trk, a, sum) == AckResult(s, trk, [])
    ensures a <= c.n ==> HandleAck(c, s, trk, a, sum).snd.prevAck == a
  {
  }

  // ---------------------------------------------------------------- all signals of a run

  /** What an event means for the congestion control, after the acknowledgements `nums`. */
  ghost function SignalOf(c: Chunk, w: World, e: Event, prev: int, count: int, nums: seq<int>): seq<Signal> {
    match e
    case DeliverAck(num, sum) =>
      if IsThird(prev, count, nums, num) then if num < c.n then [Lost] else []
      else if Refused(w.snd, num) then []
      else [Acknowledged(sum)]
    case Loss => [Lost]
    case DeliverData(_) => []
    case Timeout(_) => []
  }

  ghost function Signals(c: Chunk, w: World, es: seq<Event>, prev: int, count: int, nums: seq<int>): seq<Signal>
    requires CanRun(c, w, es)
    decreases |es|
  {
    if es == [] then []
    else
      SignalOf(c, w, es[0], prev, count, nums) +
      Signals(c, Step(c, w, es[0]), es[1..], prev, count, nums + NumberOf(es[0]))
  }

  lemma {:induction false} AfterAllJoined(cc: Congestion, a: seq<Signal>, b: seq<Signal>)
    ensures AfterAll(cc, a + b) == AfterAll(AfterAll(cc, a), b)
    decreases |b|
  {
    if b == [] {
      assert a + b == a;
    } else {
      assert (a + b)[..|a + b| - 1] == a + b[..|b| - 1];
      AfterAllJoined(cc, a, b[..|b| - 1]);
    }
  }

  lemma OneSignal(cc: Congestion, s: Signal)
    ensures AfterAll(cc, [s]) == After(cc, s) && AfterAll(cc, []) == cc
  {
    assert [s][..0] == [];
  }

  lemma AckSignal(c: Chunk, w: World, num: int, sum: real, prev: int, count: int, nums: seq<int>)
    requires c.Valid() && Faithful(c, w) && Enabled(c, w, DeliverAck(num, sum)) && Counted(w.snd, prev, count, nums)
    ensures var w' := Step(c, w, DeliverAck(num, sum));
      && w'.snd.cc == AfterAll(w.snd.cc, SignalOf(c, w, DeliverAck(num, sum), prev, count, nums))
      && Counted(w'.snd, prev, count, nums + [num])
  {
    assert MessageOk(c, Ack(num), w.rcv, c.n - 1);
    OneSignal(w.snd.cc, Lost);
    OneSignal(w.snd.cc, Acknowledged(sum));
    AckDoes(c, w, num, sum);
    ThirdExactly(w.snd, prev, count, nums, num);
  }

  lemma StepSignals(c: Chunk, w: World, e: Event, prev: int, count: int, nums: seq<int>)
    requires c.Valid() && Faithful(c, w) && Enabled(c, w, e) && Counted(w.snd, prev, count, nums)
    ensures Step(c, w, e).snd.cc == AfterAll(w.snd.cc, SignalOf(c, w, e, prev, count, nums))
    ensures Counted(Step(c, w, e).snd, prev, count, nums + NumberOf(e))
  {
    assert nums + [] == nums;
    OneSignal(w.snd.cc, Lost);
    if e.DeliverAck? { AckSignal(c, w, e.num, e.sum, prev, count, nums); }
  }

  lemma Regroup(x: seq<int>, y: seq<int>, z: seq<int>)
    ensures (x + y) + z == x + (y + z)
  {
  }

  lemma {:induction false} RunSignals(c: Chunk, w: World, es: seq<Event>, prev: int, count: int, nums: seq<int>)
    requires c.Valid() && Faithful(c, w) && CanRun(c, w, es) && Counted(w.snd, prev, count, nums)
    ensures Run(c, w, es).snd.cc == AfterAll(w.snd.cc, Signals(c, w, es, prev, count, nums))
    ensures Counted(Run(c, w, es).snd, prev, count, nums + Numbers(es))
    decreases |es|
  {
    if es == [] {
      OneSignal(w.snd.cc, Lost);
      assert nums + [] == nums;
    } else {
      var w1, more := Step(c, w, es[0]), nums + NumberOf(es[0]);
      StepFaithful(c, w, es[0]);
      StepSignals(c, w, es[0], prev, count, nums);
      RunSignals(c, w1, es[1..], prev, count, more);
      Regroup(nums, NumberOf(es[0]), Numbers(es[1..]));
      AfterAllJoined(w.snd.cc, SignalOf(c, w, es[0], prev, count, nums),
                     Signals(c, w1, es[1..], prev, count, more));
    }
  }

  /** The signals of a run of a new transfer. */
  ghost function SignalsOf(c: Chunk, prev: int, count: int, es: seq<Event>): seq<Signal>
    requires c.Valid() && CanRun(c, Init(c, prev, count), es)
  {
    Signals(c, Init(c, prev, count), es, prev, count, [])
  }

  /**
   * After every run the congestion control of the transfer is that of a new one, window 1 and threshold 64, after
   * the run's signals: third copies below n and reported losses are losses, accepted acknowledgements count as such.
   */
  lemma RunIsHistory(c: Chunk, prev: int, count: int, es: seq<Event>)
    requires c.Valid() && CanRun(c, Init(c, prev, count), es)
    ensures Run(c, Init(c, prev, count), es).snd.cc
         == AfterAll(Congestion(1, 64, SlowStart, 1.0), SignalsOf(c, prev, count, es))
    ensures Counted(Run(c, Init(c, prev, count), es).snd, prev, count, Numbers(es))
  {
    InitWorld(c, prev, count);
    InitFaithful(c, prev, count);
    RunSignals(c, Init(c, prev, count), es, prev, count, []);
    assert [] + Numbers(es) == Numbers(es);
  }

  /**
   * After any run, an acknowledgement that is at least the third copy in a row sends the next piece and falls back
   * to window 1, half the window as threshold, and slow start; of the whole chunk it does nothing. Any other one
   * counts as an acknowledgement, unless it meets a piece that has not been sent.
   */
  lemma ThirdCopyFallsBack(c: Chunk, prev: int, count: int, es: seq<Event>, num: int, sum: real)
    requires c.Valid() && CanRun(c, Init(c, prev, count), es)
    requires Enabled(c, Run(c, Init(c, prev, count), es), DeliverAck(num, sum))
    ensures var w := Run(c, Init(c, prev, count), es); var w' := Step(c, w, DeliverAck(num, sum));
      && 1 <= num <= c.n
      && if IsThird(prev, count, Numbers(es), num) then
           && w'.snd.cc == (if num < c.n then Congestion(1, w.snd.cc.window / 2, SlowStart, 1.0) else w.snd.cc)
           && w'.sent == (if num < c.n then w.sent + [Data(c.PieceOf(num))] else w.sent)
           && w'.snd.start == w.snd.start && w'.snd.end == w.snd.end && w'.snd.state == w.snd.state
         else
           && w'.snd.cc == (if Refused(w.snd, num) then w.snd.cc else OnAck(w.snd.cc, sum))
           && w'.snd.start == (if Refused(w.snd, num) then w.snd.start else num - 1)
  {
    var w := Run(c, Init(c, prev, count), es);
    InitFaithful(c, prev, count);
    RunFaithful(c, Init(c, prev, count), es);
    RunIsHistory(c, prev, count, es);
    EveryHistory(SignalsOf(c, prev, count, es));
    assert MessageOk(c, Ack(num), w.rcv, c.n - 1);
    ThirdExactly(w.snd, prev, count, Numbers(es), num);
    AckDoes(c, w, num, sum);
  }

  // ---------------------------------------------------------------- the rate in a run

  /** Every sum is the one a machine that calculates with `f` gets. */
  ghost predicate CalculatedBy(f: Arithmetic, c: Chunk, w: World, es: seq<Event>)
    requires CanRun(c, w, es)
    decreases |es|
  {
    es == [] ||
    ((es[0].DeliverAck? ==> es[0].sum == NextRate(f, w.snd.cc)) && CalculatedBy(f, c, Step(c, w, es[0]), es[1..]))
  }

  lemma HistoryNext(f: Arithmetic, hs: seq<bool>, acked: bool)
    ensures History(f, hs + [acked]) == if acked then OneAck(f, History(f, hs)) else OnLoss(History(f, hs))
  {
    assert (hs + [acked])[..|hs|] == hs;
  }

  lemma StepHistory(f: Arithmetic, c: Chunk, w: World, e: Event, hs: seq<bool>) returns (hs': seq<bool>)
    requires c.Valid() && Faithful(c, w) && Enabled(c, w, e) && w.snd.cc == History(f, hs)
    requires e.DeliverAck? ==> e.sum == NextRate(f, w.snd.cc)
    ensures Step(c, w, e).snd.cc == History(f, hs')
  {
    HistoryNext(f, hs, true);
    HistoryNext(f, hs, false);
    hs' := hs;
    if e.DeliverAck? {
      assert MessageOk(c, Ack(e.num), w.rcv, c.n - 1);
      HistoryOk(f, hs);
      AckDoes(c, w, e.num, e.sum);
      if CheckAck(w.snd, e.num - 1).1 {
        if e.num < c.n { hs' := hs + [false]; }
      } else if !Refused(w.snd, e.num) {
        hs' := hs + [true];
      }
    } else if e.Loss? {
      hs' := hs + [false];
    }
  }

  lemma {:induction false} RunHistory(f: Arithmetic, c: Chunk, w: World, es: seq<Event>, hs: seq<bool>)
    returns (hs': seq<bool>)
    requires c.Valid() && Faithful(c, w) && CanRun(c, w, es) && CalculatedBy(f, c, w, es)
    requires w.snd.cc == History(f, hs)
    ensures Run(c, w, es).snd.cc == History(f, hs')
    decreases |es|
  {
    if es == [] {
      hs' := hs;
    } else {
      StepFaithful(c, w, es[0]);
      hs' := StepHistory(f, c, w, es[0], hs);
      hs' := RunHistory(f, c, Step(c, w, es[0]), es[1..], hs');
    }
  }

  /** After every run, in avoidance the rate is j parts of the window, up to the errors of j additions. */
  lemma RateInRun(f: Arithmetic, u: real, max: nat, c: Chunk, prev: int, count: int, es: seq<Event>)
    returns (j: nat)
    requires c.Valid() && CanRun(c, Init(c, prev, count), es) && CalculatedBy(f, c, Init(c, prev, count), es)
    requires Rounds(f, u, max)
    ensures var cc := Run(c, Init(c, prev, count), es).snd.cc;
      && (cc.phase == SlowStart ==> cc.rate == 1.0)
      && (cc.phase == Avoidance && cc.window <= max ==> InWindow(cc, cc.window, j, u))
  {
    InitWorld(c, prev, count);
    InitFaithful(c, prev, count);
    var hs := RunHistory(f, c, Init(c, prev, count), es, []);
    j := RateInHistory(f, u, max, hs);
  }
}
