/** The American Monte Carlo roll-back engine: on simulated paths it
    decides per path between exercising (U1) and holding (H1), with the
    decision taken from a regression fitted on a training subset of the
    paths, and discounts each path with its own numeraire. At time 0 the
    result is averaged over the paths outside the training set. */
module AmcSolver {
  import opened Common
  import opened ModelView
  import opened Regression

  /** The simulation the solver reads: the model (for its numeraire), the
      simulation times, and X[i][j], the state of path i at times[j]. */
  datatype Simulation = Simulation(model: View, times: seq<real>, nPaths: nat, X: seq<seq<seq<real>>>)
  {
    /** The shape numpy gives X: nPaths paths, one state per simulation
        time, every state with at least one component. */
    predicate Shaped()
    {
      |X| == nPaths
        && (forall i :: 0 <= i < nPaths ==> |X[i]| == |times|)
        && (forall i, j :: 0 <= i < nPaths && 0 <= j < |X[i]| ==> |X[i][j]| >= 1)
    }
  }

  datatype Solver = Solver(sim: Simulation, finalMaturity: real, maxPolynomialDegree: nat,
                           minSampleIdx: int, lstsq: LeastSquares)

  /** `AMCSolver(hwMcSimulation, finalMaturity, maxPolynomialDegree,
      splitRatio)`: the first int(splitRatio * nPaths) paths train the
      regression. */
  function NewSolver(sim: Simulation, finalMaturity: real, maxPolynomialDegree: nat, splitRatio: real,
                     lstsq: LeastSquares): (s: Solver)
    ensures s.sim == sim && s.maxPolynomialDegree == maxPolynomialDegree
    ensures splitRatio >= 0.0 ==> 0 <= s.minSampleIdx
    ensures splitRatio >= 0.0 ==> s.minSampleIdx as real <= splitRatio * sim.nPaths as real < s.minSampleIdx as real + 1.0
  {
    Solver(sim, finalMaturity, maxPolynomialDegree, Trunc(splitRatio * sim.nPaths as real), lstsq)
  }

  /** A split ratio in [0, 1] never asks for more training paths than there
      are paths. */
  lemma SplitWithinPaths(sim: Simulation, finalMaturity: real, maxPolynomialDegree: nat, splitRatio: real,
                         lstsq: LeastSquares)
    requires 0.0 <= splitRatio <= 1.0
    ensures var s := NewSolver(sim, finalMaturity, maxPolynomialDegree, splitRatio, lstsq);
      0 <= s.minSampleIdx <= sim.nPaths
  {
    AtMostWhole(splitRatio, sim.nPaths as real);
  }

  lemma AtMostWhole(r: real, n: real)
    requires 0.0 <= r <= 1.0 && n >= 0.0
    ensures r * n <= n
  {
    assert n - r * n == (1.0 - r) * n;
    NonNegativeProduct(1.0 - r, n);
  }

  // ------------------------------------------------------ time lookup

  /** Distance below which a simulation time counts as the requested one. */
  const Tolerance: real := 0.00000001

  predicate Near(s: real, t: real)
  {
    Abs(s - t) < Tolerance
  }

  /** `getIndexWithTolerance(t)`: the first index whose time is within the
      tolerance of t; None where numpy's `[0][0]` finds nothing. */
  function IndexWithTolerance(times: seq<real>, t: real): (r: Option<nat>)
    ensures r.Some? ==> r.value < |times| && Near(times[r.value], t)
    ensures r.Some? ==> forall j :: 0 <= j < r.value ==> !Near(times[j], t)
    ensures r.None? ==> forall j :: 0 <= j < |times| ==> !Near(times[j], t)
  {
    FirstNearFrom(times, t, 0)
  }

  function FirstNearFrom(times: seq<real>, t: real, from: nat): (r: Option<nat>)
    requires from <= |times|
    requires forall j :: 0 <= j < from ==> !Near(times[j], t)
    ensures r.Some? ==> from <= r.value < |times| && Near(times[r.value], t)
    ensures r.Some? ==> forall j :: 0 <= j < r.value ==> !Near(times[j], t)
    ensures r.None? ==> forall j :: 0 <= j < |times| ==> !Near(times[j], t)
    decreases |times| - from
  {
    if from == |times| then None
    else if Near(times[from], t) then Some(from)
    else FirstNearFrom(times, t, from + 1)
  }

  /** `xSet(expiryTime)`: the first state component of every path at the
      simulation time of the expiry. */
  function XSet(s: Solver, expiryTime: real): (x: Option<seq<real>>)
    requires s.sim.Shaped()
    ensures x.Some? <==> IndexWithTolerance(s.sim.times, expiryTime).Some?
    ensures x.Some? ==> |x.value| == s.sim.nPaths
    ensures x.Some? ==> (var idx := IndexWithTolerance(s.sim.times, expiryTime).value;
      forall i :: 0 <= i < s.sim.nPaths ==> x.value[i] == s.sim.X[i][idx][0])
  {
    match IndexWithTolerance(s.sim.times, expiryTime)
    case None => None
    case Some(idx) => Some(FirstComponents(s.sim.X, idx))
  }

  /** `X[:, idx, 0]`. */
  function FirstComponents(X: seq<seq<seq<real>>>, idx: nat): (x: seq<real>)
    requires forall i :: 0 <= i < |X| ==> idx < |X[i]| && |X[i][idx]| >= 1
    ensures |x| == |X| && forall i :: 0 <= i < |X| ==> x[i] == X[i][idx][0]
  {
    if |X| == 0 then []
    else FirstComponents(X[..|X| - 1], idx) + [X[|X| - 1][idx][0]]
  }

  // ------------------------------------------------------ the decision

  /** How `rollBack` decides between exercising and holding. */
  datatype Decision = LookAhead | Regressed(fit: Fit)

  /** The training data: the first minSampleIdx grid states as one-column
      controls, against U1 - H1 on the same paths. */
  function TrainingControls(s: Solver, x1: seq<real>): (c: seq<seq<real>>)
    requires s.minSampleIdx > 0
    ensures |c| == |PyPrefix(x1, s.minSampleIdx)|
    ensures forall k :: 0 <= k < |c| ==> c[k] == [x1[k]]
  {
    var xs := PyPrefix(x1, s.minSampleIdx);
    seq(|xs|, k requires 0 <= k < |xs| => [xs[k]])
  }

  /** The decision of `rollBack`: a regression of U1 - H1 on the first
      minSampleIdx paths when minSampleIdx > 0, looking at U1 - H1 itself
      otherwise. None when the slices do not match or the regression
      cannot be fitted (numpy and lstsq raise). */
  function DecisionFor(s: Solver, x1: seq<real>, U1: seq<real>, H1: seq<real>): (d: Option<Decision>)
    ensures s.minSampleIdx <= 0 ==> d == Some(LookAhead)
    ensures d.Some? && s.minSampleIdx > 0 ==> d.value.Regressed?
  {
    if s.minSampleIdx <= 0 then Some(LookAhead)
    else
      var m := s.minSampleIdx;
      var us := PyPrefix(U1, m);
      var hs := PyPrefix(H1, m);
      var controls := TrainingControls(s, x1);
      if |us| != |hs| || |controls| != |us| then None
      else
        match NewRegression(controls, Subtract(us, hs), s.maxPolynomialDegree, s.lstsq)
        case None => None
        case Some(f) => Some(Regressed(f))
  }

  /** Only the training paths enter the decision: two roll-backs whose
      first minSampleIdx grid states, exercise and hold values agree take
      the same decision, whatever the out-of-sample paths hold. */
  lemma DecisionIgnoresOutOfSample(s: Solver, x1: seq<real>, U1: seq<real>, H1: seq<real>,
                                   x1': seq<real>, U1': seq<real>, H1': seq<real>)
    requires s.minSampleIdx > 0
    requires PyPrefix(x1, s.minSampleIdx) == PyPrefix(x1', s.minSampleIdx)
    requires PyPrefix(U1, s.minSampleIdx) == PyPrefix(U1', s.minSampleIdx)
    requires PyPrefix(H1, s.minSampleIdx) == PyPrefix(H1', s.minSampleIdx)
    ensures DecisionFor(s, x1, U1, H1) == DecisionFor(s, x1', U1', H1')
  {
  }

  /** The exercise indicator of path i: U1[i] - H1[i], or the regression at
      the path's state. */
  function Indicator(d: Decision, x1: seq<real>, U1: seq<real>, H1: seq<real>, i: nat): Option<real>
    requires i < |x1| && i < |U1| && i < |H1|
  {
    match d
    case LookAhead => Some(U1[i] - H1[i])
    case Regressed(f) => Value(f, [x1[i]])
  }

  /** The value of path i at T0 in units of its numeraire: U1[i] when the
      indicator is positive, H1[i] otherwise, times N(T0) / N(T1) on that
      path. None where the indicator fails or N(T1) is 0. */
  function PathValue(s: Solver, d: Decision, T0idx: nat, T1idx: nat,
                     x1: seq<real>, U1: seq<real>, H1: seq<real>, i: nat): (v: Option<real>)
    requires s.sim.Shaped() && T0idx < |s.sim.times| && T1idx < |s.sim.times|
    requires i < |x1| && i < |U1| && i < |H1| && i < s.sim.nPaths
    ensures v.Some? ==> Indicator(d, x1, U1, H1, i).Some? && s.sim.model.numeraire(s.sim.X[i][T1idx]) != 0.0
    ensures v.Some? ==> var I := Indicator(d, x1, U1, H1, i).value;
      v.value * s.sim.model.numeraire(s.sim.X[i][T1idx])
        == s.sim.model.numeraire(s.sim.X[i][T0idx]) * (if I > 0.0 then U1[i] else H1[i])
  {
    var N0 := s.sim.model.numeraire(s.sim.X[i][T0idx]);
    var N1 := s.sim.model.numeraire(s.sim.X[i][T1idx]);
    var I := Indicator(d, x1, U1, H1, i);
    if I.None? || N1 == 0.0 then None
    else
      var V := if I.value > 0.0 then U1[i] else H1[i];
      DivMul(N0 * V, N1);
      Some(N0 * V / N1)
  }

  /** Without a regression each path takes the larger of its exercise and
      hold value before discounting. */
  lemma LookAheadTakesMax(U1: seq<real>, H1: seq<real>, x1: seq<real>, i: nat)
    requires i < |x1| && i < |U1| && i < |H1|
    ensures var I := Indicator(LookAhead, x1, U1, H1, i).value;
      (if I > 0.0 then U1[i] else H1[i]) == Max(U1[i], H1[i])
  {
  }

  /** The first path of the averaged slice at T0 = 0. */
  function SampleIdx(s: Solver): int
  {
    if s.minSampleIdx < s.sim.nPaths then s.minSampleIdx else 0
  }

  /** `np.sum(v) / v.shape[0]`. */
  function Mean(v: seq<real>): real
    requires |v| > 0
  {
    Sum(v) / |v| as real
  }

  /** Everything `rollBack` needs to succeed: both times simulated, a
      decision, one path per grid state with U1 and H1 values, every path
      value defined, and at T0 = 0 a non-empty slice to average. */
  predicate RollBackDefined(s: Solver, T0: real, T1: real, x1: seq<real>, U1: seq<real>, H1: seq<real>)
    requires s.sim.Shaped()
  {
    var T0idx := IndexWithTolerance(s.sim.times, T0);
    var T1idx := IndexWithTolerance(s.sim.times, T1);
    var d := DecisionFor(s, x1, U1, H1);
    && T0idx.Some? && T1idx.Some? && d.Some?
    && |x1| <= s.sim.nPaths && |x1| <= |U1| && |x1| <= |H1|
    && (forall i :: 0 <= i < |x1| ==> PathValue(s, d.value, T0idx.value, T1idx.value, x1, U1, H1, i).Some?)
    && (T0 == 0.0 ==> |PySuffix(x1, SampleIdx(s))| > 0)
  }

  /** `rollBack(T0, T1, x1, U1, H1)`. V0 holds the discounted path values;
      at T0 = 0 the result is the single state 0 with the mean of V0 over
      the paths from SampleIdx on, otherwise xSet(T0) with V0. */
  method RollBack(s: Solver, T0: real, T1: real, x1: seq<real>, U1: seq<real>, H1: seq<real>)
    returns (r: Option<(seq<real>, seq<real>)>, V0: seq<real>)
    requires s.sim.Shaped()
    ensures r.Some? <==> RollBackDefined(s, T0, T1, x1, U1, H1)
    ensures r.Some? ==> |V0| == |x1|
    ensures r.Some? ==> (var T0idx := IndexWithTolerance(s.sim.times, T0).value;
      var T1idx := IndexWithTolerance(s.sim.times, T1).value;
      var d := DecisionFor(s, x1, U1, H1).value;
      forall i :: 0 <= i < |x1| ==> PathValue(s, d, T0idx, T1idx, x1, U1, H1, i) == Some(V0[i]))
    ensures r.Some? && T0 == 0.0 ==> r.value == ([0.0], [Mean(PySuffix(V0, SampleIdx(s)))])
    ensures r.Some? && T0 != 0.0 ==> r.value == (XSet(s, T0).value, V0)
  {
    V0 := [];
    var T0idx := IndexWithTolerance(s.sim.times, T0);
    var T1idx := IndexWithTolerance(s.sim.times, T1);
    var d := DecisionFor(s, x1, U1, H1);
    if T0idx.None? || T1idx.None? || d.None? || |x1| > s.sim.nPaths || |x1| > |U1| || |x1| > |H1| {
      return None, V0;
    }
    var ok;
    ok, V0 := PathValues(s, d.value, T0idx.value, T1idx.value, x1, U1, H1);
    if !ok {
      return None, V0;
    }
    if T0 == 0.0 {
      var tail := PySuffix(V0, SampleIdx(s));
      assert |tail| == |PySuffix(x1, SampleIdx(s))|;
      if |tail| == 0 {
        return None, V0;
      }
      return Some(([0.0], [Mean(tail)])), V0;
    }
    return Some((XSet(s, T0).value, V0)), V0;
  }

  /** The loop of `rollBack` over the paths: every path value, or false at
      the first one that is not defined. */
  method PathValues(s: Solver, d: Decision, T0idx: nat, T1idx: nat, x1: seq<real>, U1: seq<real>, H1: seq<real>)
    returns (ok: bool, V0: seq<real>)
    requires s.sim.Shaped() && T0idx < |s.sim.times| && T1idx < |s.sim.times|
    requires |x1| <= s.sim.nPaths && |x1| <= |U1| && |x1| <= |H1|
    ensures ok <==> forall i :: 0 <= i < |x1| ==> PathValue(s, d, T0idx, T1idx, x1, U1, H1, i).Some?
    ensures ok ==> |V0| == |x1|
    ensures ok ==> forall i :: 0 <= i < |x1| ==> PathValue(s, d, T0idx, T1idx, x1, U1, H1, i) == Some(V0[i])
  {
    V0 := [];
    var i := 0;
    while i < |x1|
      invariant 0 <= i <= |x1| && |V0| == i
      invariant forall j :: 0 <= j < i ==> PathValue(s, d, T0idx, T1idx, x1, U1, H1, j) == Some(V0[j])
    {
      var v := PathValue(s, d, T0idx, T1idx, x1, U1, H1, i);
      if v.None? {
        return false, V0;
      }
      V0 := V0 + [v.value];
      i := i + 1;
    }
    return true, V0;
  }

  /** With at least one path and one grid state per path, the averaged
      slice at T0 = 0 is never empty. */
  lemma AveragedSliceNonEmpty(s: Solver, V0: seq<real>)
    requires s.sim.nPaths > 0 && |V0| == s.sim.nPaths
    ensures |PySuffix(V0, SampleIdx(s))| > 0
  {
  }

  /** The time-0 value lies between the smallest and the largest path value
      it averages. */
  lemma MeanWithinRange(v: seq<real>)
    requires |v| > 0
    ensures SeqMin(v) <= Mean(v) <= SeqMax(v)
  {
    MeanBetween(v, SeqMin(v), SeqMax(v));
  }

  /** Bounds on every path value bound their mean. */
  lemma MeanBetween(v: seq<real>, lo: real, hi: real)
    requires |v| > 0
    requires forall j :: 0 <= j < |v| ==> lo <= v[j] <= hi
    ensures lo <= Mean(v) <= hi
  {
    SumBounds(v, |v|, lo, hi);
    QuotientBounds(SumPrefix(v, |v|), |v|, lo, hi);
  }

  lemma {:induction false} SumBounds(v: seq<real>, k: nat, lo: real, hi: real)
    requires k <= |v|
    requires forall j :: 0 <= j < |v| ==> lo <= v[j] <= hi
    ensures (k as real) * lo <= SumPrefix(v, k) <= (k as real) * hi
  {
    if k > 0 {
      SumBounds(v, k - 1, lo, hi);
      assert (k as real) * lo == ((k - 1) as real) * lo + lo;
      assert (k as real) * hi == ((k - 1) as real) * hi + hi;
    }
  }

  lemma QuotientBounds(sum: real, k: nat, lo: real, hi: real)
    requires k > 0 && (k as real) * lo <= sum <= (k as real) * hi
    ensures lo <= sum / k as real <= hi
  {
    var n := k as real;
    var q := sum / n;
    assert q * n == sum;
    assert (q - lo) * n == sum - n * lo;
    assert (hi - q) * n == n * hi - sum;
    NonNegativeFactor(q - lo, n);
    NonNegativeFactor(hi - q, n);
  }
}
