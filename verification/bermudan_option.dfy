/** The Bermudan option: backward induction over the expiry dates with an
    abstract roll-back method, and the present value read off the time-0
    grid. */
module BermudanOption {
  import opened Common
  import opened Payoffs

  /** What the orchestrator calls on its method: `xSet(T)` and the
      four-argument `rollBack(T0, T1, x, V)`, which returns the grid and the
      values at T0. None stands for an exception raised inside the method. */
  datatype Engine = Engine(
    xSet: real -> Option<seq<real>>,
    rollBack: (real, real, seq<real>, seq<real>) -> Option<(seq<real>, seq<real>)>)

  /** `[underlying.at([state, 0.0]) for state in x]`: one exercise value per
      grid point; None when any evaluation fails. */
  function ExerciseValues(u: Payoff, x: seq<real>): (r: Option<seq<real>>)
    ensures r.Some? <==> forall j :: 0 <= j < |x| ==> At(u, [x[j], 0.0]).Some?
    ensures r.Some? ==> |r.value| == |x|
    ensures r.Some? ==> forall j :: 0 <= j < |x| ==> r.value[j] == At(u, [x[j], 0.0]).value
  {
    if forall j :: 0 <= j < |x| ==> At(u, [x[j], 0.0]).Some? then
      Some(seq(|x|, j requires 0 <= j < |x| => At(u, [x[j], 0.0]).value))
    else None
  }

  /** The exercise values of the k-th underlying (counted from 1) on x. The
      comprehension reads `underlyings[k - 1]` only for a grid point, so an
      empty grid needs no underlying at all, while a non-empty grid fails
      when the list is too short. */
  function ExerciseValuesAt(underlyings: seq<Payoff>, k: nat, x: seq<real>): (r: Option<seq<real>>)
    requires k >= 1
    ensures |x| == 0 ==> r == Some([])
    ensures |x| > 0 ==> (r.Some? <==> k - 1 < |underlyings| && ExerciseValues(underlyings[k - 1], x).Some?)
    ensures r.Some? ==> |r.value| == |x|
    ensures r.Some? && |x| > 0 ==> k - 1 < |underlyings| && r == ExerciseValues(underlyings[k - 1], x)
  {
    if |x| == 0 then Some([])
    else if k - 1 >= |underlyings| then None
    else ExerciseValues(underlyings[k - 1], x)
  }

  /** The exercise step at expiry k (counted from 1): on the grid x with
      hold values H, V[j] = max(U[j], H[j]) for the k-th underlying. */
  function Exercise(underlyings: seq<Payoff>, k: nat, x: seq<real>, H: seq<real>): (r: Option<(seq<real>, seq<real>)>)
    requires k >= 1
  {
    match ExerciseValuesAt(underlyings, k, x)
    case None => None
    case Some(u) => if |H| < |u| then None else Some((x, PointwiseMax(u, H)))
  }

  /** The grid and the values after the exercise decision at expiry k
      (counted from 1): at the last expiry on `xSet(T_n)` against all-zero
      hold values, before that on what the method rolls back from expiry
      k + 1. */
  function Stage(e: Engine, expiryTimes: seq<real>, underlyings: seq<Payoff>, k: nat): Option<(seq<real>, seq<real>)>
    requires 1 <= k <= |expiryTimes|
    decreases |expiryTimes| - k
  {
    var start :=
      if k == |expiryTimes| then
        match e.xSet(expiryTimes[k - 1])
        case None => None
        case Some(x) => Some((x, Zeros(|x|)))
      else
        match Stage(e, expiryTimes, underlyings, k + 1)
        case None => None
        case Some(later) => e.rollBack(expiryTimes[k - 1], expiryTimes[k], later.0, later.1);
    match start
    case None => None
    case Some(xh) => Exercise(underlyings, k, xh.0, xh.1)
  }

  /** The time-0 grid and values: the first expiry's stage rolled back to 0.
      Without expiries `expiryTimes[0]` raises. */
  function Price(e: Engine, expiryTimes: seq<real>, underlyings: seq<Payoff>): Option<(seq<real>, seq<real>)>
  {
    if |expiryTimes| == 0 then None
    else
      match Stage(e, expiryTimes, underlyings, 1)
      case None => None
      case Some(first) => e.rollBack(0.0, expiryTimes[0], first.0, first.1)
  }

  /** The interval of the i-th roll-back call, counted in call order: from
      the last expiry pair down to (T_1, T_2), and finally (0, T_1). */
  function CallAt(expiryTimes: seq<real>, i: nat): (real, real)
    requires i < |expiryTimes|
  {
    var n := |expiryTimes|;
    if i == n - 1 then (0.0, expiryTimes[0]) else (expiryTimes[n - 2 - i], expiryTimes[n - 1 - i])
  }

  /** `BermudanOption(expiryTimes, underlyings, method)`: the loop of the
      constructor. `calls` records the (T0, T1) of every roll-back call in
      the order they are made. */
  method Create(e: Engine, expiryTimes: seq<real>, underlyings: seq<Payoff>)
    returns (r: Option<(seq<real>, seq<real>)>, calls: seq<(real, real)>)
    ensures r == Price(e, expiryTimes, underlyings)
    ensures |calls| <= |expiryTimes|
    ensures forall i :: 0 <= i < |calls| ==> calls[i] == CallAt(expiryTimes, i)
    ensures r.Some? ==> |calls| == |expiryTimes|
  {
    calls := [];
    var n := |expiryTimes|;
    if n == 0 {
      return None, calls;
    }
    var x: seq<real> := [];
    var V: seq<real> := [];
    var k := n;
    while k >= 1
      invariant 0 <= k <= n
      invariant |calls| == if k == n then 0 else n - 1 - k
      invariant k < n ==> Stage(e, expiryTimes, underlyings, k + 1) == Some((x, V))
      invariant forall i :: 0 <= i < |calls| ==> calls[i] == CallAt(expiryTimes, i)
      decreases k
    {
      var start: Option<(seq<real>, seq<real>)>;
      if k == n {
        var grid := e.xSet(expiryTimes[k - 1]);
        start := if grid.Some? then Some((grid.value, Zeros(|grid.value|))) else None;
      } else {
        start := e.rollBack(expiryTimes[k - 1], expiryTimes[k], x, V);
        calls := calls + [(expiryTimes[k - 1], expiryTimes[k])];
      }
      var stage := if start.None? then None else Exercise(underlyings, k, start.value.0, start.value.1);
      assert stage == Stage(e, expiryTimes, underlyings, k);
      if stage.None? {
        FailureReachesPrice(e, expiryTimes, underlyings, k);
        return None, calls;
      }
      x, V := stage.value.0, stage.value.1;
      k := k - 1;
    }
    r := e.rollBack(0.0, expiryTimes[0], x, V);
    calls := calls + [(0.0, expiryTimes[0])];
  }

  /** A stage that fails makes every earlier stage, and the price, fail. */
  lemma {:induction false} FailureReachesPrice(e: Engine, expiryTimes: seq<real>, underlyings: seq<Payoff>, k: nat)
    requires 1 <= k <= |expiryTimes|
    requires Stage(e, expiryTimes, underlyings, k).None?
    ensures Price(e, expiryTimes, underlyings).None?
    decreases k
  {
    if k > 1 {
      assert Stage(e, expiryTimes, underlyings, k - 1).None?;
      FailureReachesPrice(e, expiryTimes, underlyings, k - 1);
    }
  }

  /** The calls run strictly backward over ascending positive expiries:
      every interval is non-empty and each one ends where the next begins. */
  lemma CallsRunBackward(expiryTimes: seq<real>, i: nat)
    requires Ascending(expiryTimes) && |expiryTimes| >= 1 && expiryTimes[0] > 0.0
    requires i < |expiryTimes|
    ensures CallAt(expiryTimes, i).0 < CallAt(expiryTimes, i).1
    ensures i + 1 < |expiryTimes| ==> CallAt(expiryTimes, i + 1).1 == CallAt(expiryTimes, i).0
  {
  }

  /** At the last expiry the grid is `xSet(T_n)`, the hold values are zero,
      so the values are max(U[j], 0) with one exercise value per grid
      point. */
  lemma LastExpiry(e: Engine, expiryTimes: seq<real>, underlyings: seq<Payoff>)
    requires |expiryTimes| >= 1
    ensures var n := |expiryTimes|;
      var s := Stage(e, expiryTimes, underlyings, n);
      s.Some? ==> (
        && e.xSet(expiryTimes[n - 1]) == Some(s.value.0)
        && |s.value.1| == |s.value.0|
        && ExerciseValuesAt(underlyings, n, s.value.0).Some?
        && forall j :: 0 <= j < |s.value.0| ==>
             s.value.1[j] == Max(ExerciseValuesAt(underlyings, n, s.value.0).value[j], 0.0))
  {
    var n := |expiryTimes|;
    var s := Stage(e, expiryTimes, underlyings, n);
    if s.Some? {
      var x := e.xSet(expiryTimes[n - 1]).value;
      var u := ExerciseValuesAt(underlyings, n, x).value;
      assert s == Some((x, PointwiseMax(u, Zeros(|x|))));
    }
  }

  /** Before the last expiry the stage exercises against what the method
      rolled back: V >= U, V >= H pointwise and each V[j] is one of them. */
  lemma EarlierExpiry(e: Engine, expiryTimes: seq<real>, underlyings: seq<Payoff>, k: nat)
    requires 1 <= k < |expiryTimes|
    ensures var s := Stage(e, expiryTimes, underlyings, k);
      s.Some? ==> (
        var later := Stage(e, expiryTimes, underlyings, k + 1).value;
        var rb := e.rollBack(expiryTimes[k - 1], expiryTimes[k], later.0, later.1).value;
        var u := ExerciseValuesAt(underlyings, k, rb.0).value;
        && Stage(e, expiryTimes, underlyings, k + 1).Some?
        && s.value.0 == rb.0
        && |u| == |rb.0| == |s.value.1| && |rb.1| >= |u|
        && forall j :: 0 <= j < |u| ==>
             s.value.1[j] >= u[j] && s.value.1[j] >= rb.1[j] && (s.value.1[j] == u[j] || s.value.1[j] == rb.1[j]))
  {
  }

  /** An empty exercise grid evaluates no underlying: with one expiry and
      no payoff at all the method still rolls the empty grid back to 0. */
  lemma EmptyGridNeedsNoUnderlying(e: Engine, T: real)
    requires e.xSet(T) == Some([])
    ensures Price(e, [T], []) == e.rollBack(0.0, T, [], [])
  {
  }

  /** With a single expiry no intermediate roll-back happens: the price is
      the one roll-back from T_1 to 0 of max(U, 0) on `xSet(T_1)`. */
  lemma SingleExpiry(e: Engine, T: real, u: Payoff)
    ensures var x := e.xSet(T);
      var U := if x.Some? then ExerciseValues(u, x.value) else None;
      Price(e, [T], [u]) == if U.None? then None
        else e.rollBack(0.0, T, x.value, seq(|x.value|, j requires 0 <= j < |x.value| => Max(U.value[j], 0.0)))
  {
    var x := e.xSet(T);
    if x.Some? {
      var U := ExerciseValues(u, x.value);
      if U.Some? {
        assert PointwiseMax(U.value, Zeros(|x.value|))
          == seq(|x.value|, j requires 0 <= j < |x.value| => Max(U.value[j], 0.0));
      }
    }
  }

  // ------------------------------------------------------ npv

  /** `np.interp(x0, xp, fp)`: fp[0] left of the grid, the last value right
      of it, and inside the straight line between the neighbouring points.
      The segment is the first j with x0 < xp[j + 1], which is numpy's
      binary search when xp is ascending. */
  function Interp(x0: real, xp: seq<real>, fp: seq<real>): real
    requires |xp| == |fp| >= 1
  {
    if x0 <= xp[0] then fp[0]
    else if x0 >= xp[|xp| - 1] then fp[|fp| - 1]
    else
      var j := Segment(x0, xp, 0);
      Between(x0, xp[j], xp[j + 1], fp[j], fp[j + 1])
  }

  /** The straight line through (a, fa) and (b, fb), at x0. */
  function Between(x0: real, a: real, b: real, fa: real, fb: real): real
    requires a < b
  {
    fa + (x0 - a) * (fb - fa) / (b - a)
  }

  /** The first j from `from` on with x0 < xp[j + 1]. */
  function Segment(x0: real, xp: seq<real>, from: nat): (j: nat)
    requires from + 1 < |xp| && xp[0] < x0 < xp[|xp| - 1]
    requires from == 0 || x0 >= xp[from]
    ensures from <= j && j + 1 < |xp|
    ensures xp[j] <= x0 < xp[j + 1] && xp[j] < xp[j + 1]
    ensures forall i :: from < i <= j ==> x0 >= xp[i]
    decreases |xp| - from
  {
    if x0 < xp[from + 1] then from else Segment(x0, xp, from + 1)
  }

  /** `npv()`: H[0] on a one-point grid, otherwise the time-0 values
      interpolated at state 0. numpy raises on an empty grid or when x and H
      differ in length. */
  function Npv(x: seq<real>, H: seq<real>): (r: Option<real>)
    ensures |H| == 1 ==> r == Some(H[0])
    ensures r.Some? <==> |H| == 1 || (|x| == |H| && |x| >= 1)
  {
    if |H| == 1 then Some(H[0])
    else if |x| != |H| || |x| == 0 then None
    else Some(Interp(0.0, x, H))
  }

  /** Outside the grid the value is clamped to the end values. */
  lemma NpvClamped(x: seq<real>, H: seq<real>)
    requires |x| == |H| >= 2
    ensures 0.0 <= x[0] ==> Npv(x, H) == Some(H[0])
    ensures x[0] < 0.0 && x[|x| - 1] <= 0.0 ==> Npv(x, H) == Some(H[|H| - 1])
  {
  }

  /** The present value lies between the smallest and the largest time-0
      value. */
  lemma NpvWithinValues(x: seq<real>, H: seq<real>)
    requires Npv(x, H).Some?
    ensures SeqMin(H) <= Npv(x, H).value <= SeqMax(H)
  {
    if |H| != 1 && !(0.0 <= x[0]) && !(0.0 >= x[|x| - 1]) {
      var j := Segment(0.0, x, 0);
      BetweenBounded(0.0, x[j], x[j + 1], H[j], H[j + 1]);
    }
  }

  /** Interpolation never leaves the range of its two end values. */
  lemma BetweenBounded(x0: real, a: real, b: real, fa: real, fb: real)
    requires a <= x0 <= b && a < b
    ensures Min(fa, fb) <= Between(x0, a, b, fa, fb) <= Max(fa, fb)
  {
    var w := (x0 - a) / (b - a);
    assert 0.0 <= w <= 1.0 by {
      assert w * (b - a) == x0 - a;
      assert (1.0 - w) * (b - a) == b - x0;
      NonNegativeFactor(w, b - a);
      NonNegativeFactor(1.0 - w, b - a);
    }
    assert (x0 - a) * (fb - fa) / (b - a) == w * (fb - fa);
    WeightedBetween(w, fa, fb);
  }

  lemma WeightedBetween(w: real, fa: real, fb: real)
    requires 0.0 <= w <= 1.0
    ensures Min(fa, fb) <= fa + w * (fb - fa) <= Max(fa, fb)
  {
    var d := fb - fa;
    assert w * d == d - (1.0 - w) * d;
    if fa <= fb {
      NonNegativeProduct(w, d);
      NonNegativeProduct(1.0 - w, d);
    } else {
      NonNegativeProduct(w, -d);
      NonNegativeProduct(1.0 - w, -d);
    }
  }

  /** On a strictly ascending grid the interpolation reproduces the values
      at the grid points. */
  lemma InterpAtGridPoint(xp: seq<real>, fp: seq<real>, i: nat)
    requires |xp| == |fp| >= 1 && Ascending(xp) && i < |xp|
    ensures Interp(xp[i], xp, fp) == fp[i]
  {
    var n := |xp|;
    if 0 < i < n - 1 {
      var j := Segment(xp[i], xp, 0);
      AscendingOrder(xp, j, i);
      AscendingStrictOrder(xp, i, j + 1);
    }
  }

  lemma AscendingOrder(xp: seq<real>, a: nat, b: nat)
    requires Ascending(xp) && a < |xp| && b < |xp| && xp[a] <= xp[b]
    ensures a <= b
  {
  }

  lemma AscendingStrictOrder(xp: seq<real>, a: nat, b: nat)
    requires Ascending(xp) && a < |xp| && b < |xp| && xp[a] < xp[b]
    ensures a < b
  {
  }
}
