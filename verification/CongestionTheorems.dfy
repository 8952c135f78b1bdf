/** The window over every history of acknowledgements and losses. */
module CongestionTheorems {
  import opened FloatArithmetic
  import opened FlowControl
  import opened TransferSafety
  import opened TransferSystem

  // ---------------------------------------------------------------- every history

  /** `sum` is what the floating-point addition of an acknowledgement returns. */
  datatype Signal = Acknowledged(sum: real) | Lost

  function After(cc: Congestion, s: Signal): Congestion {
    match s case Acknowledged(sum) => OnAck(cc, sum) case Lost => OnLoss(cc)
  }

  function AfterAll(cc: Congestion, hs: seq<Signal>): Congestion {
    if hs == [] then cc else After(AfterAll(cc, hs[..|hs| - 1]), hs[|hs| - 1])
  }

  /** Window and threshold stay in range after any history, whatever the additions return. */
  lemma {:induction false} EveryHistory(hs: seq<Signal>)
    ensures CongestionOk(AfterAll(INITIAL_CONGESTION, hs))
  {
    if hs == [] {
    } else {
      EveryHistory(hs[..|hs| - 1]);
      match hs[|hs| - 1]
      case Acknowledged(sum) => CongestionKeeps(AfterAll(INITIAL_CONGESTION, hs[..|hs| - 1]), sum);
      case Lost => CongestionKeeps(AfterAll(INITIAL_CONGESTION, hs[..|hs| - 1]), 0.0);
    }
  }

  // ---------------------------------------------------------------- one acknowledgement in avoidance

  function OneAck(f: Arithmetic, cc: Congestion): Congestion {
    OnAck(cc, NextRate(f, cc))
  }

  /** `calls` acknowledgements without a loss, on a machine that calculates with `f`. */
  function Acks(f: Arithmetic, cc: Congestion, calls: nat): Congestion {
    if calls == 0 then cc else OneAck(f, Acks(f, cc, calls - 1))
  }

  lemma AcksNext(f: Arithmetic, cc: Congestion, calls: nat, before: Congestion)
    requires 0 < calls && Acks(f, cc, calls - 1) == before
    ensures Acks(f, cc, calls) == OneAck(f, before)
  {
  }

  lemma {:induction false} AcksAdd(f: Arithmetic, cc: Congestion, first: nat, more: nat)
    ensures Acks(f, cc, first + more) == Acks(f, Acks(f, cc, first), more)
    decreases more
  {
    if more == 0 {
    } else {
      AcksAdd(f, cc, first, more - 1);
    }
  }

  /** Rounding can delay the growth of a window by one acknowledgement, exact arithmetic cannot. */
  function Late(u: real): nat { if u == 0.0 then 0 else 1 }

  /** The rate is `j` parts of size `v`, up to the errors of `j` additions. */
  predicate RateNear(rate: real, j: nat, v: real, u: real) {
    Parts(j, v) - 4.0 * Parts(j, u) <= rate <= Parts(j, v) + 4.0 * Parts(j, u)
  }

  /** In avoidance, `j` acknowledgements into a window of `w`. */
  ghost predicate InWindow(cc: Congestion, w: int, j: nat, u: real) {
    && cc.phase == Avoidance && cc.window == w && 1 <= w && j < w + Late(u)
    && 0.0 <= cc.rate < 1.0 && RateNear(cc.rate, j, 1.0 / w as real, u)
  }

  lemma {:induction false} PartsAre(j: nat, x: real)
    ensures Parts(j, x) == j as real * x
  {
    if j == 0 {
    } else {
      PartsAre(j - 1, x);
      assert j as real * x == (j - 1) as real * x + x;
    }
  }

  lemma {:induction false} PartsGrow(i: nat, j: nat, x: real)
    requires i <= j && 0.0 <= x
    ensures 0.0 <= Parts(i, x) <= Parts(j, x)
    decreases j
  {
    if j == 0 {
    } else if i < j {
      PartsGrow(i, j - 1, x);
    } else {
      PartsGrow(i - 1, j - 1, x);
    }
  }

  lemma TimesAtMost(x: real, y: real, z: real) returns (xy: real, xz: real)
    requires 0.0 <= x && y <= z
    ensures xy == x * y && xz == x * z && xy <= xz
  {
    xy, xz := x * y, x * z;
    assert x * (z - y) >= 0.0;
  }

  /** A relative error of `u` is an absolute error of at most u up to one, and 3u up to three. */
  lemma AbsoluteError(a: real, b: real, u: real)
    requires Near(a, b, u) && 0.0 <= b <= 3.0 && 0.0 <= u <= 0.25
    ensures b - 3.0 * u <= a <= b + 3.0 * u && 0.5 * b <= a
    ensures b <= 1.0 ==> b - u <= a <= b + u
  {
    var e, f := TimesAtMost(u, b, 3.0);
    assert a - b <= f && b - a <= f;
    if b <= 1.0 {
      var e1, f1 := TimesAtMost(u, b, 1.0);
      assert e1 <= u;
    }
    var g, h := TimesAtMost(b, u, 0.5);
    assert g == e;
    assert b - a <= h;
  }

  lemma Reciprocals(w: int, max: int)
    requires 1 <= w <= max
    ensures 0.0 < 1.0 / max as real <= 1.0 / w as real <= 1.0 && 0.5 / max as real == 0.5 * (1.0 / max as real)
    ensures w as real * (1.0 / w as real) == 1.0
  {
  }

  // ---------------------------------------------------------------- a window grows after w or w + 1 acknowledgements

  /** One more addition adds at most 4u to the error. */
  lemma OneMore(rate: real, j: nat, v: real, u: real, y: real, sum: real)
    requires RateNear(rate, j, v, u) && v - u <= y <= v + u && rate + y - 3.0 * u <= sum <= rate + y + 3.0 * u
    ensures RateNear(sum, j + 1, v, u)
  {
  }

  /** Fewer than `w` parts fall short of one. */
  lemma TooFew(sum: real, j: nat, w: int, u: real, v: real)
    requires j < w && 0.0 <= u && 0.0 < v && Parts(w, v) == 1.0 && 4.0 * Parts(w + 1, u) <= v
    requires RateNear(sum, j, v, u)
    ensures sum < 1.0
  {
    PartsGrow(j, w - 1, v);
    PartsGrow(j, w - 1, u);
    assert Parts(w, u) == Parts(w - 1, u) + u;
    if u == 0.0 { PartsAre(w - 1, u); }
  }

  /** `w` parts without an error make one, and one part more makes up for the errors. */
  lemma Enough(sum: real, j: nat, w: int, u: real, v: real)
    requires 1 <= w && w + Late(u) <= j <= w + 1 && 0.0 <= u && 0.0 < v
    requires Parts(w, v) == 1.0 && 4.0 * Parts(w + 1, u) <= v
    requires RateNear(sum, j, v, u)
    ensures sum >= 1.0
  {
    if u == 0.0 { PartsAre(j, u); }
  }

  lemma ErrorsAt(u: real, max: nat, w: int, v: real)
    requires 1 <= w <= max && 0.0 <= u && 4.0 * ((max + 1) as real * u) <= 1.0 / max as real && v == 1.0 / w as real
    ensures 4.0 * Parts(w + 1, u) <= v
  {
    Reciprocals(w, max);
    PartsGrow(w + 1, max + 1, u);
    PartsAre(max + 1, u);
  }

  lemma ReciprocalAt(f: Arithmetic, u: real, max: nat, w: int) returns (v: real, y: real)
    requires Rounds(f, u, max) && 1 <= w <= max
    ensures v == 1.0 / w as real && 0.0 < v <= 1.0 && Parts(w, v) == 1.0 && 0.5 / max as real <= 0.5 * v
    ensures y == f.reciprocal(w) && v - u <= y <= v + u && 0.5 * v <= y
  {
    v, y := 1.0 / w as real, f.reciprocal(w);
    Reciprocals(w, max);
    PartsAre(w, v);
    AbsoluteError(y, v, u);
  }

  lemma SumAt(f: Arithmetic, u: real, max: nat, rate: real, y: real) returns (sum: real)
    requires Rounds(f, u, max) && 0.0 <= rate < 1.0 && 0.5 / max as real <= y <= 2.0
    ensures sum == f.add(rate, y) && 0.0 <= sum && rate + y - 3.0 * u <= sum <= rate + y + 3.0 * u
  {
    sum := f.add(rate, y);
    Reciprocals(max, max);
    AbsoluteError(sum, rate + y, u);
  }

  /**
   * One acknowledgement in avoidance: another part of the window, or, not before the `w`-th and at the
   * latest at the one after it, the next window.
   */
  lemma AvoidanceStep(f: Arithmetic, u: real, max: nat, cc: Congestion, w: int, j: nat)
    requires Rounds(f, u, max) && InWindow(cc, w, j, u) && w <= max
    ensures var r := OneAck(f, cc);
      || (j + 1 < w + Late(u) && InWindow(r, w, j + 1, u))
      || (w <= j + 1 && InWindow(r, w + 1, 0, u))
  {
    var v, y := ReciprocalAt(f, u, max, w);
    var sum := SumAt(f, u, max, cc.rate, y);
    ErrorsAt(u, max, w, v);
    OneMore(cc.rate, j, v, u, y, sum);
    if j + 1 < w { TooFew(sum, j + 1, w, u, v); }
    if w + Late(u) <= j + 1 { Enough(sum, j + 1, w, u, v); }
  }

  // ---------------------------------------------------------------- growth by k windows

  /** Acknowledgements that grow a window of `w` by `k` when each window takes as many as its size. */
  function CallsToGrow(w: nat, k: nat): nat {
    if k == 0 then 0 else CallsToGrow(w, k - 1) + (w + k - 1)
  }

  lemma {:induction false} CallsToGrowIs(w: nat, k: nat)
    ensures CallsToGrow(w, k) == k * w + k * (k - 1) / 2
  {
    if k == 0 {
    } else {
      CallsToGrowIs(w, k - 1);
      assert k * (k - 1) == (k - 1) * (k - 2) + 2 * (k - 1);
      assert k * w == (k - 1) * w + w;
    }
  }

  lemma {:induction false} CallsToGrowAscends(w: nat, j: nat, k: nat)
    requires j <= k
    ensures CallsToGrow(w, j) <= CallsToGrow(w, k)
    decreases k
  {
    if j == k {
    } else {
      CallsToGrowAscends(w, j, k - 1);
    }
  }

  /** `calls` acknowledgements after entering window `w` the sender is `j` of them into window `w + m`. */
  ghost predicate Position(w: nat, m: nat, j: nat, u: real, calls: nat) {
    CallsToGrow(w, m) + j <= calls <= CallsToGrow(w, m) + m * Late(u) + j
  }

  /** Where the sender stands after `calls` acknowledgements, as long as it has not grown by `k`. */
  lemma {:induction false} Progress(f: Arithmetic, u: real, max: nat, cc: Congestion, w: nat, k: nat, calls: nat)
    returns (m: nat, j: nat)
    requires Rounds(f, u, max) && InWindow(cc, w, 0, u) && w + k <= max
    ensures var r := Acks(f, cc, calls);
      if m < k then InWindow(r, w + m, j, u) && Position(w, m, j, u, calls)
      else r.phase == Avoidance && w + k <= r.window && CallsToGrow(w, k) <= calls
    decreases calls
  {
    if calls == 0 {
      m, j := 0, 0;
    } else {
      m, j := Progress(f, u, max, cc, w, k, calls - 1);
      if m < k {
        var r := Acks(f, cc, calls - 1);
        AvoidanceStep(f, u, max, r, w + m, j);
        if OneAck(f, r).window == w + m {
          j := j + 1;
        } else {
          m, j := m + 1, 0;
        }
      }
    }
  }

  /**
   * From entry at window w: before k*w + k(k-1)/2 acknowledgements the window has not grown by k, and after k
   * more at most, one for each window, it has. With exact arithmetic none is needed.
   */
  lemma Growth(f: Arithmetic, u: real, max: nat, cc: Congestion, w: nat, k: nat, calls: nat)
    requires Rounds(f, u, max) && InWindow(cc, w, 0, u) && w + k <= max
    ensures CallsToGrow(w, k) == k * w + k * (k - 1) / 2
    ensures calls < CallsToGrow(w, k) ==> Acks(f, cc, calls).window < w + k
    ensures CallsToGrow(w, k) + k * Late(u) <= calls ==> w + k <= Acks(f, cc, calls).window
  {
    CallsToGrowIs(w, k);
    var m, j := Progress(f, u, max, cc, w, k, calls);
    if m < k { CallsToGrowAscends(w, m + 1, k); }
  }

  lemma ExactRate(rate: real, j: nat, w: int)
    requires 1 <= w && RateNear(rate, j, 1.0 / w as real, 0.0)
    ensures rate == j as real / w as real
  {
    PartsAre(j, 1.0 / w as real);
    PartsAre(j, 0.0);
  }

  lemma SamePosition(w: nat, k: nat, j: nat, m: nat, i: nat)
    requires j < w + k && i < w + m && m <= k && CallsToGrow(w, m) + i == CallsToGrow(w, k) + j
    ensures m == k && i == j
  {
    if m < k { CallsToGrowAscends(w, m + 1, k); }
  }

  lemma ExactProgress(cc: Congestion, w: nat, k: nat, j: nat, calls: nat)
    requires InWindow(cc, w, 0, 0.0) && j < w + k && calls == CallsToGrow(w, k) + j
    ensures InWindow(Acks(EXACT, cc, calls), w + k, j, 0.0)
  {
    var max := w + k + 1;
    ExactRounds(max);
    var m, i := Progress(EXACT, 0.0, max, cc, w, k + 1, calls);
    SamePosition(w, k, j, m, i);
  }

  /** With exact arithmetic, j < w+k acknowledgements into window w+k the rate is j/(w+k). */
  lemma ExactGrowth(cc: Congestion, w: nat, k: nat, j: nat)
    requires InWindow(cc, w, 0, 0.0) && j < w + k
    ensures var r := Acks(EXACT, cc, CallsToGrow(w, k) + j);
      r.phase == Avoidance && r.window == w + k && r.rate == j as real / (w + k) as real
  {
    ExactProgress(cc, w, k, j, CallsToGrow(w, k) + j);
    ExactRate(Acks(EXACT, cc, CallsToGrow(w, k) + j).rate, j, w + k);
  }

  /** In single precision every window up to 2000 takes as many acknowledgements as its size, or one more. */
  lemma SingleGrowth(cc: Congestion, w: nat, k: nat, calls: nat)
    requires cc.phase == Avoidance && cc.window == w && cc.rate == 0.0 && 1 <= w && w + k <= SINGLE_MAX
    ensures calls < k * w + k * (k - 1) / 2 ==> Acks(SINGLE, cc, calls).window < w + k
    ensures k * w + k * (k - 1) / 2 + k <= calls ==> w + k <= Acks(SINGLE, cc, calls).window
  {
    SingleRounds();
    Growth(SINGLE, UNIT_ROUNDOFF, SINGLE_MAX, cc, w, k, calls);
  }

  // ---------------------------------------------------------------- the rate in every history

  /** A new transfer after the acknowledgements (true) and losses (false) of `hs`, calculating with `f`. */
  function History(f: Arithmetic, hs: seq<bool>): Congestion {
    if hs == [] then INITIAL_CONGESTION
    else if hs[|hs| - 1] then OneAck(f, History(f, hs[..|hs| - 1]))
    else OnLoss(History(f, hs[..|hs| - 1]))
  }

  lemma {:induction false} HistoryOk(f: Arithmetic, hs: seq<bool>)
    ensures var c := History(f, hs); CongestionOk(c) && (c.phase == SlowStart ==> c.rate == 1.0)
  {
    if hs == [] {
    } else {
      var before := History(f, hs[..|hs| - 1]);
      HistoryOk(f, hs[..|hs| - 1]);
      CongestionKeeps(before, NextRate(f, before));
    }
  }

  /** The last signal of a history leaves the rate `j` parts into the window, if the one before did. */
  lemma RateKept(f: Arithmetic, u: real, max: nat, c: Congestion, i: nat) returns (j: nat)
    requires Rounds(f, u, max) && CongestionOk(c)
    requires c.phase == Avoidance && c.window <= max ==> InWindow(c, c.window, i, u)
    ensures var r := OneAck(f, c); r.phase == Avoidance && r.window <= max ==> InWindow(r, r.window, j, u)
  {
    j := 0;
    if c.phase == Avoidance && c.window <= max {
      AvoidanceStep(f, u, max, c, c.window, i);
      if OneAck(f, c).window == c.window { j := i + 1; }
    }
  }

  /**
   * After every history of acknowledgements and losses the rate is 1 in slow start, and in avoidance it is j parts
   * of the window, up to the errors of j additions, for some j below the window (at most it, with rounding).
   */
  lemma {:induction false} RateInHistory(f: Arithmetic, u: real, max: nat, hs: seq<bool>) returns (j: nat)
    requires Rounds(f, u, max)
    ensures var c := History(f, hs);
      && (c.phase == SlowStart ==> c.rate == 1.0)
      && (c.phase == Avoidance && c.window <= max ==> InWindow(c, c.window, j, u))
  {
    HistoryOk(f, hs);
    j := 0;
    if hs != [] && hs[|hs| - 1] {
      HistoryOk(f, hs[..|hs| - 1]);
      var i := RateInHistory(f, u, max, hs[..|hs| - 1]);
      j := RateKept(f, u, max, History(f, hs[..|hs| - 1]), i);
    }
  }

  /** With exact arithmetic, after every history: in avoidance the rate is j/window for some 0 <= j < window. */
  lemma ExactRateInHistory(hs: seq<bool>) returns (j: nat)
    ensures var c := History(EXACT, hs);
      c.phase == Avoidance ==> 1 <= c.window && j < c.window && c.rate == j as real / c.window as real
  {
    var c := History(EXACT, hs);
    HistoryOk(EXACT, hs);
    ExactRounds(c.window);
    j := RateInHistory(EXACT, 0.0, c.window, hs);
    if c.phase == Avoidance { ExactRate(c.rate, j, c.window); }
  }

  lemma Distribute(x: real, y: real)
    requires y != 0.0
    ensures x * (1.0 / y) == x / y
  {
  }

  lemma SmallErrors(rate: real, j: nat, w: int)
    requires 1 <= w && RateNear(rate, j, 1.0 / w as real, UNIT_ROUNDOFF)
    ensures j as real / w as real - j as real / 4194304.0 <= rate <= j as real / w as real + j as real / 4194304.0
  {
    PartsAre(j, 1.0 / w as real);
    PartsAre(j, UNIT_ROUNDOFF);
    Distribute(j as real, w as real);
  }

  /** In single precision, up to window 2000, it is within j units of 2^-22 of j/window, for some 0 <= j <= window. */
  lemma SingleRateInHistory(hs: seq<bool>) returns (j: nat)
    ensures var c := History(SINGLE, hs);
      c.phase == Avoidance && c.window <= SINGLE_MAX ==>
        && 1 <= c.window && j <= c.window && 0.0 <= c.rate < 1.0
        && j as real / c.window as real - j as real / 4194304.0 <= c.rate
        && c.rate <= j as real / c.window as real + j as real / 4194304.0
  {
    var c := History(SINGLE, hs);
    SingleRounds();
    j := RateInHistory(SINGLE, UNIT_ROUNDOFF, SINGLE_MAX, hs);
    if c.phase == Avoidance && c.window <= SINGLE_MAX { SmallErrors(c.rate, j, c.window); }
  }

  // ---------------------------------------------------------------- from a restart to avoidance

  /** Slow start at window `w` with threshold `h`. */
  function Slow(w: int, h: int): Congestion { Congestion(w, h, SlowStart, 1.0) }

  /** In slow start each acknowledgement adds one, until the window meets the threshold; threshold 0 is never met. */
  lemma {:induction false} SlowStartRun(f: Arithmetic, w: int, h: int, calls: nat)
    requires 1 <= w && (h == 0 || w + calls <= h)
    ensures Acks(f, Slow(w, h), calls) == Slow(w + calls, h)
    decreases calls
  {
    if calls == 0 {
    } else {
      SlowStartRun(f, w, h, calls - 1);
    }
  }

  /** After a loss at window w the window climbs by one with each acknowledgement, up to w/2; at window 1, for ever. */
  lemma {:induction false} ClimbAfterLoss(f: Arithmetic, cc: Congestion, calls: nat)
    requires 1 <= cc.window && (cc.window < 2 || calls < cc.window / 2)
    ensures Acks(f, OnLoss(cc), calls) == Slow(1 + calls, cc.window / 2)
  {
    SlowStartRun(f, 1, cc.window / 2, calls);
  }

  /** With threshold h >= 1, exactly h acknowledgements lead from window 1 into avoidance at window h. */
  lemma SlowStartEnds(f: Arithmetic, h: int, u: real)
    requires 1 <= h
    ensures InWindow(Acks(f, Slow(1, h), h), h, 0, u)
  {
    SlowStartRun(f, 1, h, h - 1);
  }

  /**
   * After a loss at window w, with h = w/2 >= 1: h acknowledgements of slow start, then the window grows by k
   * with k*h + k(k-1)/2 more, and at most k beyond that.
   */
  lemma WindowAfterLoss(f: Arithmetic, u: real, max: nat, cc: Congestion, k: nat, calls: nat)
    requires Rounds(f, u, max) && 2 <= cc.window && cc.window / 2 + k <= max
    ensures var h := cc.window / 2; var r := Acks(f, OnLoss(cc), h + calls);
      && (calls < CallsToGrow(h, k) ==> r.window < h + k)
      && (CallsToGrow(h, k) + k * Late(u) <= calls ==> h + k <= r.window)
  {
    var h := cc.window / 2;
    AcksAdd(f, OnLoss(cc), h, calls);
    SlowStartEnds(f, h, u);
    Growth(f, u, max, Acks(f, OnLoss(cc), h), h, k, calls);
  }

  // ---------------------------------------------------------------- a new transfer

  /** A new transfer climbs by one with each acknowledgement up to window 64, and the 64th leads into avoidance. */
  lemma NewTransferClimbs(f: Arithmetic, n: nat, prev: int, count: int, calls: nat)
    requires calls <= 64
    ensures var cc := Acks(f, InitSender(n, prev, count).cc, calls);
      if calls <= 63 then cc.phase == SlowStart && cc.window == 1 + calls
      else cc.phase == Avoidance && cc.window == 64 && cc.rate == 0.0
  {
    SlowStartRun(f, 1, 64, if calls <= 63 then calls else 63);
  }

  /** From there on the window grows by k with 64k + k(k-1)/2 more acknowledgements, and at most k beyond that. */
  lemma NewTransferGrows(f: Arithmetic, u: real, max: nat, n: nat, prev: int, count: int, k: nat, calls: nat)
    requires Rounds(f, u, max) && 64 + k <= max
    ensures var cc := Acks(f, InitSender(n, prev, count).cc, 64 + calls);
      && (calls < 64 * k + k * (k - 1) / 2 ==> cc.window < 64 + k)
      && (64 * k + k * (k - 1) / 2 + k * Late(u) <= calls ==> 64 + k <= cc.window)
  {
    var cc := InitSender(n, prev, count).cc;
    AcksAdd(f, cc, 64, calls);
    NewTransferClimbs(f, n, prev, count, 64);
    Growth(f, u, max, Acks(f, cc, 64), 64, k, calls);
  }

  // ---------------------------------------------------------------- single precision is on time at powers of two

  lemma PartAdded(f: Arithmetic, cc: Congestion, w: int, v: real, x: real, y: real)
    requires cc.phase == Avoidance && cc.window == w && cc.rate == x && f.reciprocal(w) == v && f.add(x, v) == y
    ensures OneAck(f, cc) == if y < 1.0 then cc.(rate := y) else cc.(window := w + 1, rate := 0.0)
  {
  }

  lemma {:induction false} KeptAfter(f: Arithmetic, cc: Congestion, w: int, j: nat, v: real)
    requires cc.phase == Avoidance && cc.rate == 0.0 && cc.window == w && j < w
    requires Keeps(f, w, v) && 0.0 < v && Parts(w, v) == 1.0
    ensures Acks(f, cc, j) == cc.(rate := Parts(j, v))
    decreases j
  {
    PartsGrow(j, w - 1, v);
    if j == 0 {
    } else {
      KeptAfter(f, cc, w, j - 1, v);
      PartAdded(f, cc.(rate := Parts(j - 1, v)), w, v, Parts(j - 1, v), Parts(j, v));
      AcksNext(f, cc, j, cc.(rate := Parts(j - 1, v)));
    }
  }

  lemma KeptGrows(f: Arithmetic, cc: Congestion, w: int, v: real)
    requires cc.phase == Avoidance && cc.rate == 0.0 && cc.window == w && 1 <= w
    requires Keeps(f, w, v) && 0.0 < v && Parts(w, v) == 1.0
    ensures Acks(f, cc, w) == cc.(window := w + 1, rate := 0.0)
  {
    KeptAfter(f, cc, w, w - 1, v);
    PartAdded(f, cc.(rate := Parts(w - 1, v)), w, v, Parts(w - 1, v), Parts(w, v));
    AcksNext(f, cc, w, cc.(rate := Parts(w - 1, v)));
  }

  lemma UnitShare(w: int) returns (v: real)
    requires 1 <= w
    ensures v == 1.0 / w as real && 0.0 < v && v * w as real == 1.0 && Parts(w, v) == 1.0
  {
    v := 1.0 / w as real;
    PartsAre(w, v);
  }

  lemma ShareDoubled(m: nat, w: int, v: real)
    requires w == Power(m) && v * w as real == 1.0
    ensures Doubled(v, m) == 1.0
  {
    DoubledIs(v, m);
  }

  lemma PowerShares(m: nat, w: int) returns (v: real)
    requires m <= 13 && 1 <= w == Power(m)
    ensures v == 1.0 / w as real && Keeps(SINGLE, w, v) && 0.0 < v && Parts(w, v) == 1.0
  {
    v := UnitShare(w);
    ShareDoubled(m, w, v);
    PowersKept(m, w, v);
  }

  lemma PartsOf(j: nat, w: int, v: real)
    requires 1 <= w && v == 1.0 / w as real
    ensures Parts(j, v) == j as real / w as real
  {
    PartsAre(j, v);
    Distribute(j as real, w as real);
  }

  /** In single precision a window of 2^m, m <= 13, grows after exactly 2^m acknowledgements, and the rate is exact. */
  lemma PowersAreOnTime(cc: Congestion, m: nat, w: int, j: nat)
    requires cc.phase == Avoidance && cc.rate == 0.0 && cc.window == w && m <= 13 && 1 <= w == Power(m)
    ensures j < w ==> Acks(SINGLE, cc, j) == cc.(rate := j as real / w as real)
    ensures Acks(SINGLE, cc, w) == cc.(window := w + 1, rate := 0.0)
  {
    var v := PowerShares(m, w);
    KeptGrows(SINGLE, cc, w, v);
    if j < w {
      KeptAfter(SINGLE, cc, w, j, v);
      PartsOf(j, w, v);
    }
  }

  // ---------------------------------------------------------------- single precision is late at window 12

  function Twelve(h: int, units: int): Congestion { Congestion(12, h, Avoidance, Units(units)) }

  lemma TwelveStep(h: int, units: int, k: nat, n: int, m: int)
    requires RoundsTo(units + TWELFTH, k, n, m)
    ensures OneAck(SINGLE, Twelve(h, units))
         == if m < 134217728 then Twelve(h, m) else Congestion(13, h, Avoidance, 0.0)
  {
    AddTwelfth(units, k, n, m);
  }

  /** The rate after `i` acknowledgements at window 12, in units of 2^-27. */
  function TwelfthsAdded(i: nat): int {
    match i
    case 0 => 0
    case 1 => 11184811
    case 2 => 22369622
    case 3 => 33554432
    case 4 => 44739244
    case 5 => 55924056
    case 6 => 67108864
    case 7 => 78293672
    case 8 => 89478480
    case 9 => 100663288
    case 10 => 111848096
    case 11 => 123032904
    case _ => 134217712
  }

  lemma TwelveNext(h: int, i: nat)
    requires 1 <= i <= 12
    ensures OneAck(SINGLE, Twelve(h, TwelfthsAdded(i - 1))) == Twelve(h, TwelfthsAdded(i))
  {
    match i
    case 1 => TwelveStep(h, 0, 0, 11184811, 11184811);
    case 2 => TwelveStep(h, 11184811, 1, 11184811, 22369622);
    case 3 => TwelveStep(h, 22369622, 2, 8388608, 33554432);
    case 4 => TwelveStep(h, 33554432, 2, 11184811, 44739244);
    case 5 => TwelveStep(h, 44739244, 2, 13981014, 55924056);
    case 6 => TwelveStep(h, 55924056, 3, 8388608, 67108864);
    case 7 => TwelveStep(h, 67108864, 3, 9786709, 78293672);
    case 8 => TwelveStep(h, 78293672, 3, 11184810, 89478480);
    case 9 => TwelveStep(h, 89478480, 3, 12582911, 100663288);
    case 10 => TwelveStep(h, 100663288, 3, 13981012, 111848096);
    case 11 => TwelveStep(h, 111848096, 3, 15379113, 123032904);
    case 12 => TwelveStep(h, 123032904, 3, 16777214, 134217712);
  }

  lemma {:induction false} TwelveAfter(h: int, i: nat)
    requires i <= 12
    ensures Acks(SINGLE, Twelve(h, 0), i) == Twelve(h, TwelfthsAdded(i))
  {
    if i == 0 {
    } else {
      TwelveAfter(h, i - 1);
      TwelveNext(h, i);
      AcksNext(SINGLE, Twelve(h, 0), i, Twelve(h, TwelfthsAdded(i - 1)));
    }
  }

  lemma ThirteenIsEnough(h: int)
    ensures Acks(SINGLE, Twelve(h, 0), 13) == Congestion(13, h, Avoidance, 0.0)
  {
    TwelveAfter(h, 12);
    TwelveStep(h, 134217712, 4, 9087658, 145402528);
  }

  lemma ExactTwelve(cc: Congestion)
    requires cc.phase == Avoidance && cc.window == 12 && cc.rate == 0.0
    ensures Acks(EXACT, cc, 12).window == 13
  {
    ExactGrowth(cc, 12, 1, 0);
    CallsToGrowIs(12, 1);
  }

  /** In single precision window 12 takes thirteen acknowledgements to grow, with exact arithmetic twelve. */
  lemma TwelveIsLate(cc: Congestion)
    requires cc.phase == Avoidance && cc.window == 12 && cc.rate == 0.0
    ensures forall calls: nat :: calls <= 12 ==> Acks(SINGLE, cc, calls).window == 12
    ensures Acks(SINGLE, cc, 13).window == 13 && Acks(EXACT, cc, 12).window == 13
  {
    forall calls: nat | calls <= 12 ensures Acks(SINGLE, cc, calls).window == 12 { TwelveAfter(cc.ssthresh, calls); }
    ThirteenIsEnough(cc.ssthresh);
    ExactTwelve(cc);
  }
}
