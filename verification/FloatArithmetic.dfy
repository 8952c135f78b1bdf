/** The two floating-point operations of congestion control: any that round well, and IEEE single precision. */
module FloatArithmetic {

  datatype Arithmetic = Arithmetic(add: (real, real) -> real, reciprocal: int -> real)

  /** Half a unit in the last of 24 binary places. */
  const UNIT_ROUNDOFF := 1.0 / 16777216.0

  /** `a` is `b` up to a relative error of `u`. */
  predicate Near(a: real, b: real, u: real) {
    -(u * b) <= a - b <= u * b
  }

  /**
   * Reciprocals of windows up to `max`, and sums of a rate below one and such a reciprocal, have relative
   * error at most `u`, and `max + 1` errors of 4u are less than one part in `max`.
   */
  ghost predicate Rounds(f: Arithmetic, u: real, max: nat) {
    && 1 <= max && 0.0 <= u <= UNIT_ROUNDOFF && 4.0 * ((max + 1) as real * u) <= 1.0 / max as real
    && (forall w: int :: 1 <= w <= max ==> Near(f.reciprocal(w), 1.0 / w as real, u))
    && forall x, y: real :: 0.0 <= x < 1.0 && 0.5 / max as real <= y <= 2.0 ==> Near(f.add(x, y), x + y, u)
  }

  /** `x` added up `j` times. */
  function Parts(j: nat, x: real): real {
    if j == 0 then 0.0 else Parts(j - 1, x) + x
  }

  /** No rounding at all. */
  const EXACT := Arithmetic((x, y) => x + y, w => if w == 0 then 0.0 else 1.0 / w as real)

  lemma ExactRounds(max: nat)
    requires 1 <= max
    ensures Rounds(EXACT, 0.0, max)
  {
  }

  // ---------------------------------------------------------------- single precision

  /** The nearest integer, the even one of two that are equally near. */
  function Nearest(x: real): int {
    var n := x.Floor;
    var rest := x - n as real;
    if rest < 0.5 || (rest == 0.5 && n % 2 == 0) then n else n + 1
  }

  /** It is at most half away, and even when it is exactly half away: that determines it. */
  lemma NearestRounds(x: real, n: int)
    ensures (n as real - 0.5 < x < n as real + 0.5 || (n % 2 == 0 && (x == n as real - 0.5 || x == n as real + 0.5)))
       <==> n == Nearest(x)
  {
  }

  /**
   * `x` rounded to 24 binary places, for `x` from 2^23 / 2^doublings up to 2^24: double until the places
   * before the binary point are the ones kept, round to nearest even, and halve again.
   */
  function Fl(x: real, doublings: nat): real
    decreases doublings
  {
    if doublings == 0 || x >= 8388608.0 then Nearest(x) as real else Fl(2.0 * x, doublings - 1) / 2.0
  }

  /** Enough for every number from 2^-13 on. */
  const DOUBLINGS := 36

  function Single(x: real): real { Fl(x, DOUBLINGS) }

  /** `x` doubled `k` times. */
  function Doubled(x: real, k: nat): real
    decreases k
  {
    if k == 0 then x else Doubled(2.0 * x, k - 1)
  }

  lemma {:induction false} DoubledGrows(x: real, k: nat)
    requires 0.0 <= x
    ensures x <= Doubled(x, k)
    decreases k
  {
    if k == 0 {
    } else {
      DoubledGrows(2.0 * x, k - 1);
    }
  }

  lemma {:induction false} FlNear(x: real, doublings: nat)
    requires 0.0 <= x && 8388608.0 <= Doubled(x, doublings)
    ensures Near(Fl(x, doublings), x, UNIT_ROUNDOFF)
    decreases doublings
  {
    if doublings == 0 || x >= 8388608.0 {
      assert x - 0.5 <= Nearest(x) as real <= x + 0.5;
    } else {
      FlNear(2.0 * x, doublings - 1);
    }
  }

  /** When `k` doublings give `x` 24 places before the point, the rounded value has the nearest integer there. */
  lemma {:induction false} FlIs(x: real, doublings: nat, k: nat)
    requires 0.0 <= x && k <= doublings
    requires Doubled(x, k) >= 8388608.0 && (k > 0 ==> Doubled(x, k - 1) < 8388608.0)
    ensures Doubled(Fl(x, doublings), k) == Nearest(Doubled(x, k)) as real
    decreases k
  {
    if k == 0 {
    } else {
      DoubledGrows(x, k - 1);
      FlIs(2.0 * x, doublings - 1, k - 1);
    }
  }

  /** A whole number of at most 24 places is not changed. */
  lemma {:induction false} FlWhole(n: nat, doublings: nat)
    requires n < 16777216
    ensures Fl(n as real, doublings) == n as real
    decreases doublings
  {
    if n >= 8388608 || doublings == 0 {
    } else {
      FlWhole(2 * n, doublings - 1);
    }
  }

  /** A number that `k` doublings turn into a whole one of at most 24 places is not changed. */
  lemma {:induction false} FlExact(x: real, doublings: nat, k: nat, n: nat)
    requires k <= doublings && 0.0 <= x && Doubled(x, k) == n as real && n < 16777216
    ensures Fl(x, doublings) == x
    decreases doublings
  {
    if k == 0 {
      FlWhole(n, doublings);
    } else {
      DoubledGrows(2.0 * x, k - 1);
      FlExact(2.0 * x, doublings - 1, k - 1, n);
    }
  }

  function SingleReciprocal(w: int): real {
    var d := Single(w as real);
    if d == 0.0 then 0.0 else Single(1.0 / d)
  }

  /** The program's arithmetic: `1/(float)w`, and a sum kept in a `float`. */
  const SINGLE := Arithmetic((x, y) => Single(x + y), w => SingleReciprocal(w))

  function Power(k: nat): nat {
    if k == 0 then 1 else 2 * Power(k - 1)
  }

  lemma Regroup(x: real, p: nat)
    ensures (2.0 * x) * p as real == x * (2 * p) as real
  {
  }

  lemma {:induction false} DoubledIs(x: real, k: nat)
    ensures Doubled(x, k) == x * Power(k) as real
    decreases k
  {
    if k == 0 {
    } else {
      DoubledIs(2.0 * x, k - 1);
      Regroup(x, Power(k - 1));
    }
  }

  lemma PowerOfDoublings()
    ensures Power(DOUBLINGS) == 68719476736
  {
    assert Power(12) == 4096;
    assert Power(24) == 16777216;
    assert Power(36) == 68719476736;
  }

  /** A number of at least 2^-13 is rounded with relative error at most 2^-24. */
  lemma SingleNear(x: real)
    requires 1.0 / 8192.0 <= x
    ensures Near(Single(x), x, UNIT_ROUNDOFF)
  {
    DoubledIs(x, DOUBLINGS);
    PowerOfDoublings();
    FlNear(x, DOUBLINGS);
  }

  /** Windows up to this size are small enough for single precision. */
  const SINGLE_MAX := 2000

  lemma AtLeast(w: int)
    requires 1 <= w <= SINGLE_MAX
    ensures 1.0 / w as real >= 1.0 / 8192.0
  {
  }

  lemma ReciprocalNear(w: int)
    requires 1 <= w <= SINGLE_MAX
    ensures Near(SINGLE.reciprocal(w), 1.0 / w as real, UNIT_ROUNDOFF)
  {
    FlWhole(w, DOUBLINGS);
    AtLeast(w);
    SingleNear(1.0 / w as real);
  }

  /** Single precision rounds well. */
  lemma SingleRounds()
    ensures Rounds(SINGLE, UNIT_ROUNDOFF, SINGLE_MAX)
  {
    forall w: int | 1 <= w <= SINGLE_MAX ensures Near(SINGLE.reciprocal(w), 1.0 / w as real, UNIT_ROUNDOFF) {
      ReciprocalNear(w);
    }
    forall x, y: real | 0.0 <= x < 1.0 && 0.5 / SINGLE_MAX as real <= y <= 2.0
      ensures Near(SINGLE.add(x, y), x + y, UNIT_ROUNDOFF)
    {
      SingleNear(x + y);
    }
  }

  // ---------------------------------------------------------------- windows that are powers of two

  lemma {:induction false} PowersAscend(i: nat, j: nat)
    requires i <= j
    ensures 1 <= Power(i) <= Power(j)
  {
    if j == 0 {
    } else if i < j {
      PowersAscend(i, j - 1);
    } else {
      PowersAscend(i - 1, j - 1);
    }
  }

  lemma PowersBelow(m: nat)
    requires m <= 13
    ensures 1 <= Power(m) <= 8192
  {
    assert Power(13) == 8192;
    PowersAscend(m, 13);
    PowersAscend(0, m);
  }

  lemma {:induction false} DoubledAdds(x: real, y: real, k: nat)
    ensures Doubled(x + y, k) == Doubled(x, k) + Doubled(y, k)
    decreases k
  {
    if k == 0 {
    } else {
      assert 2.0 * (x + y) == 2.0 * x + 2.0 * y;
      DoubledAdds(2.0 * x, 2.0 * y, k - 1);
    }
  }

  lemma {:induction false} DoubledParts(j: nat, v: real, m: nat)
    requires 0.0 <= v && Doubled(v, m) == 1.0
    ensures 0.0 <= Parts(j, v) && Doubled(Parts(j, v), m) == j as real
  {
    if j == 0 {
      DoubledAdds(0.0, 0.0, m);
    } else {
      DoubledParts(j - 1, v, m);
      DoubledAdds(Parts(j - 1, v), v, m);
    }
  }

  /** `j` parts of a power of two are kept exactly. */
  lemma PartsFit(m: nat, j: nat, v: real)
    requires m <= 13 && j <= Power(m) && 0.0 <= v && Doubled(v, m) == 1.0
    ensures Single(Parts(j, v)) == Parts(j, v)
  {
    PowersBelow(m);
    DoubledParts(j, v, m);
    FlExact(Parts(j, v), DOUBLINGS, m, j);
  }

  lemma ReciprocalKept(w: int, x: real)
    requires 1 <= w && x == 1.0 / w as real && Single(w as real) == w as real && Single(x) == x
    ensures SINGLE.reciprocal(w) == x
  {
  }

  lemma SumKept(x: real, y: real, z: real)
    requires x + y == z && Single(z) == z
    ensures SINGLE.add(x, y) == z
  {
  }

  /** `f` has the reciprocal `v` of `w`, and adds up `w` of them without an error. */
  ghost predicate Keeps(f: Arithmetic, w: int, v: real) {
    f.reciprocal(w) == v && forall j: nat :: j < w ==> f.add(Parts(j, v), v) == Parts(j + 1, v)
  }

  lemma PowersKept(m: nat, w: int, v: real)
    requires m <= 13 && 1 <= w == Power(m) && v == 1.0 / w as real && 0.0 <= v && Doubled(v, m) == 1.0
    ensures Keeps(SINGLE, w, v)
  {
    PowersBelow(m);
    FlExact(v, DOUBLINGS, m, 1);
    FlWhole(w, DOUBLINGS);
    ReciprocalKept(w, v);
    forall j: nat | j < w ensures SINGLE.add(Parts(j, v), v) == Parts(j + 1, v) {
      PartsFit(m, j + 1, v);
      SumKept(Parts(j, v), v, Parts(j + 1, v));
    }
  }

  // ---------------------------------------------------------------- window 12

  lemma NearestIs(x: real, n: int)
    requires n as real - 0.5 < x < n as real + 0.5
    ensures Nearest(x) == n
  {
  }

  lemma {:induction false} DoubledNext(x: real, k: nat)
    ensures Doubled(x, k + 1) == 2.0 * Doubled(x, k)
    decreases k
  {
    if k == 0 {
    } else {
      DoubledNext(2.0 * x, k - 1);
    }
  }

  /** Rounding `x` when `k` doublings give it 24 places before the point. */
  lemma SingleIs(x: real, k: nat, n: int)
    requires 1 <= k <= DOUBLINGS && x >= 0.0
    requires 8388608.0 <= Doubled(x, k) < 16777216.0 && n as real - 0.5 < Doubled(x, k) < n as real + 0.5
    ensures Doubled(Single(x), k) == n as real
  {
    DoubledNext(x, k - 1);
    NearestIs(Doubled(x, k), n);
    FlIs(x, DOUBLINGS, k);
  }

  /** A number of units of 2^-27. */
  function Units(u: int): real { u as real / 134217728.0 }

  lemma PowerOfUnits()
    ensures Power(27) == 134217728
  {
    assert Power(12) == 4096;
    assert Power(20) == 1048576;
  }

  lemma LastDoublings(x: real)
    ensures Doubled(x, 27) == 2.0 * Doubled(x, 26) == 4.0 * Doubled(x, 25)
    ensures Doubled(x, 27) == 8.0 * Doubled(x, 24) == 16.0 * Doubled(x, 23)
  {
    DoubledNext(x, 23);
    DoubledNext(x, 24);
    DoubledNext(x, 25);
    DoubledNext(x, 26);
  }

  lemma InUnits(x: real)
    ensures Doubled(x, 27) == x * 134217728.0
  {
    PowerOfUnits();
    DoubledIs(x, 27);
  }

  /** `m` is the multiple of `p` nearest to `s`, and `s` has 24 places when divided by `p`. */
  predicate Keeps24(s: int, p: int, m: int) {
    8388608 * p <= s < 16777216 * p && 2 * s - p < 2 * m < 2 * s + p
  }

  /** A sum of `s` units has 24 places and `k` more, and rounding leaves `n` times 2^k, that is `m`. */
  predicate RoundsTo(s: int, k: nat, n: int, m: int) {
    match k
    case 0 => m == n && Keeps24(s, 1, m)
    case 1 => m == 2 * n && Keeps24(s, 2, m)
    case 2 => m == 4 * n && Keeps24(s, 4, m)
    case 3 => m == 8 * n && Keeps24(s, 8, m)
    case 4 => m == 16 * n && Keeps24(s, 16, m)
    case _ => false
  }

  lemma UnitsRound(s: int, k: nat, n: int, m: int)
    requires RoundsTo(s, k, n, m)
    ensures Single(Units(s)) == Units(m)
  {
    var x := Units(s);
    InUnits(x);
    LastDoublings(x);
    SingleIs(x, 27 - k, n);
    InUnits(Single(x));
    LastDoublings(Single(x));
  }

  /** In single precision 1/12 is this many units. */
  const TWELFTH := 11184811

  lemma ReciprocalOfTwelve()
    ensures SINGLE.reciprocal(12) == Units(TWELFTH)
  {
    FlWhole(12, DOUBLINGS);
    PowerOfUnits();
    DoubledIs(1.0 / 12.0, 27);
    SingleIs(1.0 / 12.0, 27, TWELFTH);
    DoubledIs(Single(1.0 / 12.0), 27);
  }

  /** The rate after one more acknowledgement at window 12, from `u` units. */
  lemma AddTwelfth(u: int, k: nat, n: int, m: int)
    requires RoundsTo(u + TWELFTH, k, n, m)
    ensures SINGLE.add(Units(u), SINGLE.reciprocal(12)) == Units(m)
  {
    ReciprocalOfTwelve();
    assert Units(u) + Units(TWELFTH) == Units(u + TWELFTH);
    UnitsRound(u + TWELFTH, k, n, m);
  }
}
