/** The one-factor Hull-White short-rate model in the state variable x(t):
    the auxiliary functions G, G' and y, the conditional moments of x, the
    zero-coupon bond and forward rate reconstruction, and the two-dimensional
    process [x, s] used for simulation, where s integrates the short rate.

    The exponential, the square root and the yield curve are collaborators the
    model cannot see into; they are function-valued fields, and the identities
    below assume of them only what each identity needs. */
module HullWhiteModel {
  import opened Common

  /** The reference yield curve: discount factors P(0,T) and instantaneous
      forward rates f(0,T). */
  datatype Curve = Curve(discount: real -> real, forwardRate: real -> real)

  /** Model parameters plus the y-values cached on the volatility grid. */
  datatype Model = Model(
    yieldCurve: Curve,
    exp: real -> real,
    sqrt: real -> real,
    meanReversion: real,
    volatilityTimes: seq<real>,
    volatilityValues: seq<real>,
    yGrid: seq<real>)
  {
    /** Shape the source relies on: a non-zero mean reversion (it divides by
        it), at least one volatility node (y() reads the last one) and one
        value and one cached y per node. */
    predicate WellFormed()
    {
      && meanReversion != 0.0
      && |volatilityTimes| >= 1
      && |volatilityValues| == |volatilityTimes|
      && |yGrid| == |volatilityTimes|
    }
  }

  predicate ExpAtZero(exp: real -> real)
  {
    exp(0.0) == 1.0
  }

  ghost predicate ExpPositive(exp: real -> real)
  {
    forall u :: exp(u) > 0.0
  }

  predicate ExpSum(exp: real -> real, u: real, v: real)
  {
    exp(u + v) == exp(u) * exp(v)
  }

  /** exp(u + v) = exp(u) exp(v); the quantifier fires only on explicit
      mentions of ExpSum, so it cannot loop. */
  ghost predicate ExpAdditive(exp: real -> real)
  {
    forall u, v :: ExpSum(exp, u, v)
  }

  function G(m: Model, t: real, T: real): real
    requires m.meanReversion != 0.0
  {
    (1.0 - m.exp(-m.meanReversion * (T - t))) / m.meanReversion
  }

  function GPrime(m: Model, t: real, T: real): real
  {
    m.exp(-m.meanReversion * (T - t))
  }

  /** One step of the y recursion from (t0, y0) to t with volatility sigma:
      y(t) = G'(t0,t)^2 y0 + sigma^2 (1 - exp(-2a(t - t0))) / (2a). */
  function YStep(exp: real -> real, a: real, t0: real, y0: real, t: real, sigma: real): real
    requires a != 0.0
  {
    (exp(-a * (t - t0)) * exp(-a * (t - t0))) * y0
      + (sigma * sigma) * (1.0 - exp(-2.0 * a * (t - t0))) / (2.0 * a)
  }

  /** Start time of the recursion step that produces y_[i]: 0 before the first node. */
  function PrevTime(times: seq<real>, i: nat): real
    requires i < |times|
  {
    if i == 0 then 0.0 else times[i - 1]
  }

  function PrevY(ys: seq<real>, i: nat): real
    requires i < |ys|
  {
    if i == 0 then 0.0 else ys[i - 1]
  }

  /** The constructor's cache: every y_[i] is one recursion step from y_[i-1]. */
  ghost predicate Cached(m: Model)
    requires m.WellFormed()
  {
    forall i :: 0 <= i < |m.yGrid| ==> CachedAt(m.exp, m.meanReversion, m.volatilityTimes, m.volatilityValues, m.yGrid, i)
  }

  predicate CachedAt(exp: real -> real, a: real, times: seq<real>, values: seq<real>, ys: seq<real>, i: nat)
    requires a != 0.0 && i < |ys| <= |times| && |values| == |times|
  {
    ys[i] == YStep(exp, a, PrevTime(times, i), PrevY(ys, i), times[i], values[i])
  }

  /** Appending a value keeps the recursion facts about the earlier entries. */
  lemma CachedAtExtend(exp: real -> real, a: real, times: seq<real>, values: seq<real>, ys: seq<real>,
                       y: real, i: nat)
    requires a != 0.0 && i < |ys| < |times| && |values| == |times|
    ensures CachedAt(exp, a, times, values, ys + [y], i) == CachedAt(exp, a, times, values, ys, i)
  {
    assert (ys + [y])[i] == ys[i];
    assert PrevY(ys + [y], i) == PrevY(ys, i);
  }

  /** The constructor: stores the parameters and fills y_ front to back. */
  method Create(yieldCurve: Curve, exp: real -> real, sqrt: real -> real, meanReversion: real,
                volatilityTimes: seq<real>, volatilityValues: seq<real>) returns (m: Model)
    requires meanReversion != 0.0
    requires |volatilityTimes| >= 1 && |volatilityValues| == |volatilityTimes|
    ensures m.WellFormed() && Cached(m)
    ensures m.yieldCurve == yieldCurve && m.exp == exp && m.sqrt == sqrt
    ensures m.meanReversion == meanReversion
    ensures m.volatilityTimes == volatilityTimes && m.volatilityValues == volatilityValues
  {
    var n := |volatilityTimes|;
    var ys: seq<real> := [];
    var t0 := 0.0;
    var y0 := 0.0;
    var i := 0;
    while i < n
      invariant 0 <= i <= n && |ys| == i
      invariant t0 == (if i == 0 then 0.0 else volatilityTimes[i - 1])
      invariant y0 == (if i == 0 then 0.0 else ys[i - 1])
      invariant forall j :: 0 <= j < i ==> CachedAt(exp, meanReversion, volatilityTimes, volatilityValues, ys, j)
    {
      var yi := YStep(exp, meanReversion, t0, y0, volatilityTimes[i], volatilityValues[i]);
      ghost var ys0 := ys;
      ys := ys + [yi];
      forall j | 0 <= j < i
        ensures CachedAt(exp, meanReversion, volatilityTimes, volatilityValues, ys, j)
      {
        CachedAtExtend(exp, meanReversion, volatilityTimes, volatilityValues, ys0, yi, j);
      }
      assert CachedAt(exp, meanReversion, volatilityTimes, volatilityValues, ys, i);
      t0 := volatilityTimes[i];
      y0 := yi;
      i := i + 1;
    }
    m := Model(yieldCurve, exp, sqrt, meanReversion, volatilityTimes, volatilityValues, ys);
    assert m.yGrid == ys && m.exp == exp && m.meanReversion == meanReversion;
  }

  /** The index search of y(): scanning i = n..1 downwards, idx becomes i-1
      whenever t < times[i-1]. */
  function IndexScan(times: seq<real>, t: real, i: nat, idx: int): int
    requires i <= |times|
  {
    if i == 0 then idx
    else IndexScan(times, t, i - 1, if t < times[i - 1] then i - 1 else idx)
  }

  function YIndex(times: seq<real>, t: real): (idx: int)
    requires |times| >= 1
    ensures 0 <= idx < |times|
  {
    IndexScanInRange(times, t, |times|, |times| - 1);
    IndexScan(times, t, |times|, |times| - 1)
  }

  lemma {:induction false} IndexScanInRange(times: seq<real>, t: real, i: nat, idx: int)
    requires i <= |times| && 0 <= idx < |times|
    ensures 0 <= IndexScan(times, t, i, idx) < |times|
  {
    if i > 0 {
      IndexScanInRange(times, t, i - 1, if t < times[i - 1] then i - 1 else idx);
    }
  }

  /** With no node time above t among the first i, the scan keeps idx. */
  lemma {:induction false} IndexScanKeeps(times: seq<real>, t: real, i: nat, idx: int)
    requires i <= |times|
    requires forall j :: 0 <= j < i ==> t >= times[j]
    ensures IndexScan(times, t, i, idx) == idx
  {
    if i > 0 {
      IndexScanKeeps(times, t, i - 1, idx);
    }
  }

  /** The downward scan ends at the first index whose time exceeds t. */
  lemma {:induction false} IndexScanFindsFirst(times: seq<real>, t: real, i: nat, idx: int, k: nat)
    requires k < i <= |times| && t < times[k]
    requires forall j :: 0 <= j < k ==> t >= times[j]
    ensures IndexScan(times, t, i, idx) == k
  {
    var idx' := if t < times[i - 1] then i - 1 else idx;
    if i - 1 == k {
      IndexScanKeeps(times, t, k, k);
    } else {
      IndexScanFindsFirst(times, t, i - 1, idx', k);
    }
  }

  /** y()'s bracket: the smallest j with t < volatilityTimes[j], or the last
      index when t is at or beyond every node (the comment in the source
      states t[idx-1] <= t < t[idx]). */
  lemma YIndexIsFirstAbove(times: seq<real>, t: real)
    requires |times| >= 1
    ensures var idx := YIndex(times, t);
      && ((exists j :: 0 <= j < |times| && t < times[j]) ==>
            t < times[idx] && forall j :: 0 <= j < idx ==> t >= times[j])
      && ((forall j :: 0 <= j < |times| ==> t >= times[j]) ==> idx == |times| - 1)
  {
    if exists j :: 0 <= j < |times| && t < times[j] {
      IndexScanFindsFirst(times, t, |times|, |times| - 1, FirstAbove(times, t));
    } else {
      IndexScanKeeps(times, t, |times|, |times| - 1);
    }
  }

  function FirstAbove(times: seq<real>, t: real): (k: nat)
    requires exists j :: 0 <= j < |times| && t < times[j]
    ensures k < |times| && t < times[k] && forall j :: 0 <= j < k ==> t >= times[j]
  {
    if t < times[0] then 0
    else
      assert exists j :: 0 <= j < |times[1..]| && t < times[1..][j] by {
        var j :| 0 <= j < |times| && t < times[j];
        assert j >= 1 && times[1..][j - 1] == times[j];
      }
      1 + FirstAbove(times[1..], t)
  }

  /** y(t): one recursion step from the cached node volatilityTimes[idx] (the
      right end of t's bracket) with the volatility of the next node. */
  function Y(m: Model, t: real): real
    requires m.WellFormed()
  {
    var n := |m.volatilityTimes|;
    var idx := YIndex(m.volatilityTimes, t);
    var t0 := m.volatilityTimes[idx];
    var y0 := m.yGrid[idx];
    var s1 := m.volatilityValues[if idx + 1 < n - 1 then idx + 1 else n - 1];
    YStep(m.exp, m.meanReversion, t0, y0, t, s1)
  }

  /** Conditional mean of x(T) given x(t) = xt in the T-forward measure. */
  function ExpectationX(m: Model, t: real, xt: real, T: real): real
    requires m.WellFormed()
  {
    GPrime(m, t, T) * (xt + G(m, t, T) * Y(m, t))
  }

  function VarianceX(m: Model, t: real, T: real): real
    requires m.WellFormed()
  {
    Y(m, T) - (GPrime(m, t, T) * GPrime(m, t, T)) * Y(m, t)
  }

  /** P(t,T) given x(t) = xt. */
  function ZeroBond(m: Model, t: real, xt: real, T: real): real
    requires m.WellFormed() && m.yieldCurve.discount(t) != 0.0
  {
    var g := G(m, t, T);
    m.yieldCurve.discount(T) / m.yieldCurve.discount(t) * m.exp(-g * xt - 0.5 * (g * g) * Y(m, t))
  }

  /** f(t,T) given x(t) = xt. */
  function ForwardRate(m: Model, t: real, xt: real, T: real): real
    requires m.WellFormed()
  {
    m.yieldCurve.forwardRate(T) + GPrime(m, t, T) * (xt + G(m, t, T) * Y(m, t))
  }

  /** Risk-neutral mean of x(T): G'(t,T) xt plus Simpson's rule for
      the integral of G'(u,T) y(u) over [t, T]. */
  function RiskNeutralExpectationX(m: Model, t: real, xt: real, T: real): real
    requires m.WellFormed()
  {
    var f0 := GPrime(m, t, T) * Y(m, t);
    var fm := GPrime(m, (t + T) / 2.0, T) * Y(m, (t + T) / 2.0);
    var f1 := GPrime(m, T, T) * Y(m, T);
    GPrime(m, t, T) * xt + (T - t) / 6.0 * (f0 + 4.0 * fm + f1)
  }

  // stochastic process interface: X = [x, s] with s the integrated short rate

  function Size(): nat { 2 }

  function Factors(): nat { 1 }

  /** The process starts at x(0) = 0 with nothing accrued, s(0) = 0. */
  function InitialValues(): (X: seq<real>)
    ensures |X| == Size()
    ensures X == [0.0, 0.0]
  {
    [0.0, 0.0]
  }

  function ZeroBondPayoff(m: Model, X: seq<real>, t: real, T: real): real
    requires m.WellFormed() && m.yieldCurve.discount(t) != 0.0
    requires |X| >= 1
  {
    ZeroBond(m, t, X[0], T)
  }

  function Numeraire(m: Model, X: seq<real>): real
    requires |X| >= 2
  {
    m.exp(X[1])
  }

  /** One simulation step X(t0) -> X(t0 + dt) driven by the increment dW[0]:
      x moves to its risk-neutral mean plus the conditional standard deviation
      times dW[0]; s integrates r = f(0,t) + x(t) by the trapezoidal rule. */
  function Evolve(m: Model, t0: real, X0: seq<real>, dt: real, dW: seq<real>): (X1: seq<real>)
    requires m.WellFormed()
    requires |X0| >= 2 && |dW| >= 1
    ensures |X1| == Size()
    ensures X1[0] == RiskNeutralExpectationX(m, t0, X0[0], t0 + dt)
                     + m.sqrt(VarianceX(m, t0, t0 + dt)) * dW[0]
    ensures ExpAtZero(m.exp) ==> X1[1] - X0[1] == AccruedShortRate(m, t0, X0[0], t0 + dt, X1[0])
  {
    var x1 := RiskNeutralExpectationX(m, t0, X0[0], t0 + dt);
    var nu := m.sqrt(VarianceX(m, t0, t0 + dt));
    var x1 := x1 + nu * dW[0];
    var r0 := m.yieldCurve.forwardRate(t0) + X0[0];
    var r1 := m.yieldCurve.forwardRate(t0 + dt) + x1;
    var s1 := X0[1] + (r0 + r1) * dt / 2.0;
    ShortRateIsInstantForward(m, t0, X0[0]);
    ShortRateIsInstantForward(m, t0 + dt, x1);
    [x1, s1]
  }

  /** Under exp(0) = 1 the short rate f(0,t) + x(t) is the model's
      instantaneous forward rate f(t,x;t). */
  lemma ShortRateIsInstantForward(m: Model, t: real, xt: real)
    requires m.WellFormed()
    ensures ExpAtZero(m.exp) ==> ForwardRate(m, t, xt, t) == m.yieldCurve.forwardRate(t) + xt
  {
    if ExpAtZero(m.exp) {
      ForwardRateAtSameTime(m, t, xt);
    }
  }

  /** The numeraire exp(s) is the discretised bank account: one step
      multiplies it by exp of the trapezoidal integral of the short rate
      f(t,x;t) over [t0, t0 + dt]. */
  lemma EvolveGrowsNumeraire(m: Model, t0: real, X0: seq<real>, dt: real, dW: seq<real>)
    requires m.WellFormed() && ExpAtZero(m.exp) && ExpAdditive(m.exp)
    requires |X0| >= 2 && |dW| >= 1
    ensures var X1 := Evolve(m, t0, X0, dt, dW);
      Numeraire(m, X1) == Numeraire(m, X0) * m.exp(AccruedShortRate(m, t0, X0[0], t0 + dt, X1[0]))
  {
    var X1 := Evolve(m, t0, X0, dt, dW);
    NumeraireOfIncrement(m, X0, X1, AccruedShortRate(m, t0, X0[0], t0 + dt, X1[0]));
  }

  /** exp(s0 + step) = exp(s0) exp(step) for the s component. */
  lemma NumeraireOfIncrement(m: Model, X0: seq<real>, X1: seq<real>, step: real)
    requires ExpAdditive(m.exp) && |X0| >= 2 && |X1| >= 2 && X1[1] - X0[1] == step
    ensures Numeraire(m, X1) == Numeraire(m, X0) * m.exp(step)
  {
    assert X1[1] == X0[1] + step;
    assert ExpSum(m.exp, X0[1], step);
  }

  /** The trapezoidal integral over [t0, t1] of the short rate
      r(t) = f(t,x;t), the model's instantaneous forward rate. */
  function AccruedShortRate(m: Model, t0: real, x0: real, t1: real, x1: real): real
    requires m.WellFormed()
  {
    (ForwardRate(m, t0, x0, t0) + ForwardRate(m, t1, x1, t1)) * (t1 - t0) / 2.0
  }

  // identities at T = t

  lemma GAtSameTime(m: Model, t: real)
    requires m.meanReversion != 0.0 && ExpAtZero(m.exp)
    ensures G(m, t, t) == 0.0 && GPrime(m, t, t) == 1.0
  {
    assert -m.meanReversion * (t - t) == 0.0;
  }

  /** Over a zero horizon x does not move: its mean is the current state and
      its variance vanishes. */
  lemma MomentsAtSameTime(m: Model, t: real, xt: real)
    requires m.WellFormed() && ExpAtZero(m.exp)
    ensures ExpectationX(m, t, xt, t) == xt
    ensures VarianceX(m, t, t) == 0.0
    ensures RiskNeutralExpectationX(m, t, xt, t) == xt
  {
    GAtSameTime(m, t);
  }

  /** A bond at its own maturity is worth one unit in every state. */
  lemma ZeroBondAtMaturity(m: Model, t: real, xt: real)
    requires m.WellFormed() && ExpAtZero(m.exp) && m.yieldCurve.discount(t) != 0.0
    ensures ZeroBond(m, t, xt, t) == 1.0
  {
    GAtSameTime(m, t);
    var g := G(m, t, t);
    assert -g * xt - 0.5 * (g * g) * Y(m, t) == 0.0;
  }

  /** The short rate is the curve's forward rate shifted by the state. */
  lemma ForwardRateAtSameTime(m: Model, t: real, xt: real)
    requires m.WellFormed() && ExpAtZero(m.exp)
    ensures ForwardRate(m, t, xt, t) == m.yieldCurve.forwardRate(t) + xt
  {
    GAtSameTime(m, t);
  }

  /** The bond payoff reads only the x component of the process state. */
  lemma ZeroBondPayoffReadsOnlyX(m: Model, X: seq<real>, X': seq<real>, t: real, T: real)
    requires m.WellFormed() && m.yieldCurve.discount(t) != 0.0
    requires |X| >= 1 && |X'| >= 1 && X[0] == X'[0]
    ensures ZeroBondPayoff(m, X, t, T) == ZeroBondPayoff(m, X', t, T)
       == ZeroBond(m, t, X[0], T)
  {
  }

  /** The simulation starts at x = s = 0, where the numeraire is one. */
  lemma NumeraireAtStart(m: Model)
    requires ExpAtZero(m.exp)
    ensures InitialValues()[0] == 0.0
    ensures Numeraire(m, InitialValues()) == 1.0
  {
  }

  /** A zero time step leaves the process state unchanged. */
  lemma EvolveZeroStep(m: Model, t0: real, X0: seq<real>, dW: seq<real>)
    requires m.WellFormed() && ExpAtZero(m.exp) && m.sqrt(0.0) == 0.0
    requires |X0| == 2 && |dW| >= 1
    ensures Evolve(m, t0, X0, 0.0, dW) == X0
  {
    MomentsAtSameTime(m, t0, X0[0]);
    assert t0 + 0.0 == t0;
  }

  // y(t) on and beyond the volatility grid

  /** For ascending node times and t at or after the last node, y()
      extrapolates from the last cached value with the last volatility, and
      reproduces that cached value at the last node itself. */
  lemma YBeyondLastNode(m: Model, t: real)
    requires m.WellFormed() && Ascending(m.volatilityTimes)
    requires t >= m.volatilityTimes[|m.volatilityTimes| - 1]
    ensures var n := |m.volatilityTimes|;
      Y(m, t) == YStep(m.exp, m.meanReversion, m.volatilityTimes[n - 1], m.yGrid[n - 1], t,
                       m.volatilityValues[n - 1])
    ensures ExpAtZero(m.exp) && t == m.volatilityTimes[|m.volatilityTimes| - 1]
      ==> Y(m, t) == m.yGrid[|m.yGrid| - 1]
  {
    var n := |m.volatilityTimes|;
    assert forall j :: 0 <= j < n ==> t >= m.volatilityTimes[j] by {
      forall j | 0 <= j < n ensures t >= m.volatilityTimes[j] {
        if j < n - 1 {
          assert m.volatilityTimes[j] < m.volatilityTimes[n - 1];
        }
      }
    }
    YIndexIsFirstAbove(m.volatilityTimes, t);
    if ExpAtZero(m.exp) && t == m.volatilityTimes[n - 1] {
      GAtSameTime(m, t);
      assert -2.0 * m.meanReversion * (t - t) == 0.0;
    }
  }

  /** Inside the grid, y() starts its step at the RIGHT end of t's bracket:
      for times[j-1] <= t < times[j] it steps backwards from (times[j], y_[j])
      with the volatility of node j+1 (of the last node when j is last). */
  lemma YStartsAtRightBracketEnd(m: Model, t: real, j: nat)
    requires m.WellFormed() && Ascending(m.volatilityTimes)
    requires j < |m.volatilityTimes| && t < m.volatilityTimes[j]
    requires j == 0 || m.volatilityTimes[j - 1] <= t
    ensures var n := |m.volatilityTimes|;
      Y(m, t) == YStep(m.exp, m.meanReversion, m.volatilityTimes[j], m.yGrid[j], t,
                       m.volatilityValues[if j + 1 < n - 1 then j + 1 else n - 1])
  {
    YIndexIsFirstAbove(m.volatilityTimes, t);
    var idx := YIndex(m.volatilityTimes, t);
    assert t < m.volatilityTimes[idx];
    assert idx == j;
  }

  // flat volatility: the cached recursion is exact

  /** Closed form of y for a constant volatility sigma. */
  function FlatY(exp: real -> real, a: real, sigma: real, t: real): real
    requires a != 0.0
  {
    (sigma * sigma) * (1.0 - exp(-2.0 * a * t)) / (2.0 * a)
  }

  /** (x y) / z = (x / z) y over the reals. */
  lemma MulDiv(x: real, y: real, z: real)
    requires z != 0.0
    ensures (x * y) / z == (x / z) * y
  {
    var q := x / z;
    assert q * z == x;
    assert (q * y) * z == x * y;
  }

  /** The first recursion step, from y = 0 at time 0, lands on the closed form. */
  lemma YStepFromOrigin(exp: real -> real, a: real, sigma: real, t: real)
    requires a != 0.0
    ensures YStep(exp, a, 0.0, 0.0, t, sigma) == FlatY(exp, a, sigma, t)
  {
    assert -2.0 * a * (t - 0.0) == -2.0 * a * t;
  }

  /** One recursion step carries the closed form from t0 to any t. */
  lemma YStepKeepsFlatY(exp: real -> real, a: real, sigma: real, t0: real, t: real)
    requires a != 0.0 && ExpAdditive(exp)
    ensures YStep(exp, a, t0, FlatY(exp, a, sigma, t0), t, sigma) == FlatY(exp, a, sigma, t)
  {
    var u := -a * (t - t0);
    var wd := -2.0 * a * (t - t0);
    var w0 := -2.0 * a * t0;
    var wt := -2.0 * a * t;
    assert ExpSum(exp, u, u);
    assert u + u == wd;
    assert ExpSum(exp, wd, w0);
    assert wd + w0 == wt;
    var ed, e0, et := exp(wd), exp(w0), exp(wt);
    assert exp(u) * exp(u) == ed;
    assert et == ed * e0;
    var s2 := sigma * sigma;
    var d := 2.0 * a;
    var k := s2 / d;
    MulDiv(s2, 1.0 - e0, d);
    MulDiv(s2, 1.0 - ed, d);
    MulDiv(s2, 1.0 - et, d);
    calc {
      ed * (k * (1.0 - e0)) + k * (1.0 - ed);
      k * (ed * (1.0 - e0) + (1.0 - ed));
      k * (1.0 - ed * e0);
      k * (1.0 - et);
    }
  }

  /** With one volatility value on every node, the cached y_ values are the
      closed form at the node times, and y(t) equals the closed form at every
      t: starting the step from the right end of the bracket costs nothing. */
  lemma {:induction false} FlatVolatilityIsExact(m: Model, sigma: real, t: real)
    requires m.WellFormed() && Cached(m) && ExpAdditive(m.exp)
    requires forall i :: 0 <= i < |m.volatilityValues| ==> m.volatilityValues[i] == sigma
    ensures forall i :: 0 <= i < |m.yGrid| ==>
      m.yGrid[i] == FlatY(m.exp, m.meanReversion, sigma, m.volatilityTimes[i])
    ensures Y(m, t) == FlatY(m.exp, m.meanReversion, sigma, t)
  {
    CachedIsFlat(m, sigma, |m.yGrid|);
    var idx := YIndex(m.volatilityTimes, t);
    YStepKeepsFlatY(m.exp, m.meanReversion, sigma, m.volatilityTimes[idx], t);
  }

  lemma {:induction false} CachedIsFlat(m: Model, sigma: real, n: nat)
    requires m.WellFormed() && Cached(m) && ExpAdditive(m.exp)
    requires forall i :: 0 <= i < |m.volatilityValues| ==> m.volatilityValues[i] == sigma
    requires n <= |m.yGrid|
    ensures forall i :: 0 <= i < n ==>
      m.yGrid[i] == FlatY(m.exp, m.meanReversion, sigma, m.volatilityTimes[i])
  {
    if n > 0 {
      CachedIsFlat(m, sigma, n - 1);
      var i := n - 1;
      var ti := m.volatilityTimes[i];
      assert CachedAt(m.exp, m.meanReversion, m.volatilityTimes, m.volatilityValues, m.yGrid, i);
      assert m.yGrid[i] == YStep(m.exp, m.meanReversion, PrevTime(m.volatilityTimes, i),
                                 PrevY(m.yGrid, i), ti, sigma);
      if i == 0 {
        YStepFromOrigin(m.exp, m.meanReversion, sigma, ti);
      } else {
        YStepKeepsFlatY(m.exp, m.meanReversion, sigma, m.volatilityTimes[i - 1], ti);
      }
    }
  }
}
