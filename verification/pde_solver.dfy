/** The finite-difference roll-back engine: a state grid of equally spaced
    points, a uniform backward time grid, and per time step a tridiagonal
    discretisation of the Hull-White pricing operator
      M v = -(sigma^2 / 2) v'' - (y - a x) v' + (f + x) v
    with curvature-based boundary rows, advanced by one theta step.

    The solver sees its model through ModelView.View. */
module PdeSolver {
  import opened Common
  import opened ModelView
  import opened ThetaMethod

  datatype Solver = Solver(
    model: View,
    nGridPoints: nat,
    stdDevs: real,
    theta: real,
    timeStepSize: real,
    lambda0N: Option<real>)

  /** Standard deviation of x at the expiry, seen from time 0. */
  function StdDev(s: Solver, expiryTime: real): real
  {
    s.model.sqrt(s.model.varianceX(0.0, expiryTime))
  }

  /** Half the width of the state grid: stdDevs standard deviations. */
  function HalfWidth(s: Solver, expiryTime: real): real
  {
    s.stdDevs * StdDev(s, expiryTime)
  }

  /** `xSet(expiryTime)`: nGridPoints equally spaced states spanning plus and
      minus stdDevs standard deviations. */
  function XSet(s: Solver, expiryTime: real): (x: seq<real>)
    ensures |x| == s.nGridPoints
    ensures |x| >= 1 ==> x[0] == -HalfWidth(s, expiryTime)
    ensures |x| >= 2 ==> x[|x| - 1] == HalfWidth(s, expiryTime)
  {
    Linspace(-HalfWidth(s, expiryTime), HalfWidth(s, expiryTime), s.nGridPoints)
  }

  /** The grid is symmetric about 0 and equally spaced. */
  lemma XSetSymmetric(s: Solver, expiryTime: real)
    ensures var x := XSet(s, expiryTime);
      |x| >= 2 ==> forall i :: 0 <= i < |x| ==> x[i] + x[|x| - 1 - i] == 0.0
    ensures var x := XSet(s, expiryTime);
      forall i :: 0 < i < |x| ==> x[i] - x[i - 1] == x[1] - x[0]
  {
    LinspaceSymmetric(HalfWidth(s, expiryTime), s.nGridPoints);
    LinspaceEquallySpaced(-HalfWidth(s, expiryTime), HalfWidth(s, expiryTime), s.nGridPoints);
  }

  /** A zero standard deviation does not shrink the grid: all nGridPoints
      points are kept, and all of them are 0. */
  lemma XSetWithoutDeviation(s: Solver, expiryTime: real)
    requires StdDev(s, expiryTime) == 0.0
    ensures |XSet(s, expiryTime)| == s.nGridPoints
    ensures forall i :: 0 <= i < s.nGridPoints ==> XSet(s, expiryTime)[i] == 0.0
  {
    var x := XSet(s, expiryTime);
    assert HalfWidth(s, expiryTime) == 0.0;
    if s.nGridPoints >= 2 {
      assert forall i :: 0 <= i < s.nGridPoints ==> x[i] == 0.0 + (i as real) * 0.0;
    }
  }

  // ---------------------------------------------------------------- time grid

  /** Number of full steps `int((T1 - T0) / timeStepSize)`. */
  function StepCount(h: real, T0: real, T1: real): int
    requires h != 0.0
  {
    Trunc((T1 - T0) / h)
  }

  /** `linspace(T1, T1 - M h, M + 1)`; numpy rejects a negative number of
      samples, and an empty grid fails at `tGrid[-1]`. */
  function TimeGrid(h: real, T0: real, T1: real): (g: Option<seq<real>>)
    requires h != 0.0
    ensures g.Some? <==> StepCount(h, T0, T1) >= 0
    ensures g.Some? ==> |g.value| == StepCount(h, T0, T1) + 1
    ensures g.Some? ==> forall k :: 0 <= k < |g.value| ==> g.value[k] == T1 - (k as real) * h
  {
    var m := StepCount(h, T0, T1);
    if m < 0 then None
    else
      var g := Linspace(T1, T1 - (m as real) * h, m + 1);
      assert forall k :: 0 <= k < |g| ==> g[k] == T1 - (k as real) * h by {
        if m >= 1 {
          assert (T1 - (m as real) * h - T1) / (m as real) == -h;
        }
      }
      Some(g)
  }

  /** For a forward interval and a positive step the grid runs backwards from
      T1 in steps of h and stops within one step above T0: the remainder
      [T0, T1 - M h] is shorter than a step. */
  lemma TimeGridCoversInterval(h: real, T0: real, T1: real)
    requires h > 0.0 && T0 <= T1
    ensures TimeGrid(h, T0, T1).Some?
    ensures var g := TimeGrid(h, T0, T1).value;
      g[0] == T1 && T0 <= g[|g| - 1] && g[|g| - 1] - T0 < h
    ensures var g := TimeGrid(h, T0, T1).value;
      forall k :: 0 < k < |g| ==> g[k - 1] - g[k] == h
  {
    var m := StepCount(h, T0, T1);
    StepBounds(T1 - T0, h, m);
    var g := TimeGrid(h, T0, T1).value;
    assert |g| - 1 == m;
    assert g[|g| - 1] == T1 - (m as real) * h;
  }

  /** m = int(d / h) full steps of length h fit into d, and the rest is
      shorter than a step. */
  lemma StepBounds(d: real, h: real, m: int)
    requires h > 0.0 && d >= 0.0 && m == Trunc(d / h)
    ensures (m as real) * h <= d < (m as real) * h + h
  {
    var q := d / h;
    assert q * h == d;
    PositiveProduct(-q, h);
    assert (-q) * h == -d;
    assert q >= 0.0;
    BelowQuotient(d, h, m as real);
    AboveQuotient(d, h, q, m as real + 1.0);
    SplitProduct(d, h, m as real);
  }

  lemma BelowQuotient(d: real, h: real, r: real)
    requires h > 0.0 && r <= d / h
    ensures r * h <= d
  {
  }

  lemma AboveQuotient(d: real, h: real, q: real, e: real)
    requires h > 0.0 && q * h == d && q < e
    ensures d < e * h
  {
    StrictScale(q, h, e);
  }

  lemma StrictScale(q: real, h: real, e: real)
    requires h > 0.0 && q < e
    ensures q * h < e * h
  {
  }

  lemma SplitProduct(d: real, h: real, r: real)
    requires h > 0.0 && d < (r + 1.0) * h
    ensures d < r * h + h
  {
  }

  /** An interval shorter than one step gives the single-point grid [T1]. */
  lemma ShortIntervalHasNoStep(h: real, T0: real, T1: real)
    requires h > 0.0 && 0.0 <= T1 - T0 < h
    ensures TimeGrid(h, T0, T1) == Some([T1])
  {
    var q := (T1 - T0) / h;
    assert q * h == T1 - T0;
    NonNegativeProduct(q - 1.0, h);
    assert (q - 1.0) * h == T1 - T0 - h;
    assert 0.0 <= q < 1.0;
    assert StepCount(h, T0, T1) == 0;
    var g := TimeGrid(h, T0, T1).value;
    assert |g| == 1 && g[0] == T1 - 0.0 * h;
    assert g == [T1];
  }

  // --------------------------------------------------------------- operator

  /** Weight of the implicit part: t = theta T0 + (1 - theta) T1. */
  function EvaluationTime(theta: real, T0: real, T1: real): real
  {
    theta * T0 + (1.0 - theta) * T1
  }

  /** For 0 <= theta <= 1 the evaluation time lies in the step [T0, T1]; the
      explicit scheme evaluates at T1, the fully implicit one at T0. */
  lemma EvaluationTimeInStep(theta: real, T0: real, T1: real)
    ensures var t := EvaluationTime(theta, T0, T1);
      0.0 <= theta <= 1.0 && T0 <= T1 ==> T0 <= t <= T1
    ensures theta == 0.0 ==> EvaluationTime(theta, T0, T1) == T1
    ensures theta == 1.0 ==> EvaluationTime(theta, T0, T1) == T0
  {
    var t := EvaluationTime(theta, T0, T1);
    assert t - T0 == (1.0 - theta) * (T1 - T0);
    assert T1 - t == theta * (T1 - T0);
    NonNegativeProduct(1.0 - theta, T1 - T0);
    NonNegativeProduct(theta, T1 - T0);
  }

  /** The model quantities the operator is built from, all at one time. */
  datatype Coefficients = Coefficients(f: real, sigma: real, y: real, a: real)

  function CoefficientsAt(s: Solver, t: real): (co: Coefficients)
    ensures co.a == s.model.meanReversion && co.sigma == s.model.sigma(t)
  {
    Coefficients(s.model.forwardRate(0.0, 0.0, t), s.model.sigma(t), s.model.y(t), s.model.meanReversion)
  }

  /** Spacing of a grid assumed equidistant, from its end points. */
  function Spacing(x: seq<real>): real
    requires |x| >= 2
  {
    (x[|x| - 1] - x[0]) / (|x| - 1) as real
  }

  /** The boundary curvature ratio lambda = V'' / V' from central differences
      at the three values nearest a boundary; 0 when |V'| is at most 1e-8. */
  function CurvatureRatio(v0: real, v1: real, v2: real, hx: real): real
    requires hx != 0.0
  {
    var d1 := (v2 - v0) / 2.0 / hx;
    var d2 := (v2 - 2.0 * v1 + v0) / hx / hx;
    if Abs(d1) > 0.00000001 then d2 / d1 else 0.0
  }

  /** lambda V' = V'' where the first difference is significant, and the
      fallback 0 elsewhere. */
  lemma CurvatureRatioSolves(v0: real, v1: real, v2: real, hx: real)
    requires hx != 0.0
    ensures var d1 := (v2 - v0) / 2.0 / hx;
      Abs(d1) > 0.00000001 ==> CurvatureRatio(v0, v1, v2, hx) * d1 == (v2 - 2.0 * v1 + v0) / hx / hx
    ensures Abs((v2 - v0) / 2.0 / hx) <= 0.00000001 ==> CurvatureRatio(v0, v1, v2, hx) == 0.0
  {
  }

  /** Values without curvature at the boundary give lambda = 0. */
  lemma StraightBoundaryHasZeroRatio(v0: real, v1: real, v2: real, hx: real)
    requires hx != 0.0 && v2 - 2.0 * v1 + v0 == 0.0
    ensures CurvatureRatio(v0, v1, v2, hx) == 0.0
  {
    var d1 := (v2 - v0) / 2.0 / hx;
    assert (v2 - 2.0 * v1 + v0) / hx / hx == 0.0;
    CurvatureRatioSolves(v0, v1, v2, hx);
    if Abs(d1) > 0.00000001 {
      assert CurvatureRatio(v0, v1, v2, hx) * d1 == 0.0;
    }
  }

  /** Whether lambda0 and lambdaN can be formed: a user value needs nothing,
      the curvature estimate reads three values at each end. */
  predicate HasLambdas(lambda0N: Option<real>, V: seq<real>)
  {
    lambda0N.Some? || |V| >= 3
  }

  /** (lambda0, lambdaN): the user's lambda0N at both ends when given,
      otherwise the curvature ratios at the lower and upper end. */
  function Lambdas(lambda0N: Option<real>, V: seq<real>, hx: real): (r: (real, real))
    requires hx != 0.0 && HasLambdas(lambda0N, V)
    ensures lambda0N.Some? ==> r.0 == lambda0N.value && r.1 == lambda0N.value
    ensures lambda0N.None? ==> r.0 == CurvatureRatio(V[0], V[1], V[2], hx)
    ensures lambda0N.None? ==> r.1 == CurvatureRatio(V[|V| - 3], V[|V| - 2], V[|V| - 1], hx)
  {
    match lambda0N
    case Some(l) => (l, l)
    case None =>
      var n := |V|;
      (CurvatureRatio(V[0], V[1], V[2], hx), CurvatureRatio(V[n - 3], V[n - 2], V[n - 1], hx))
  }

  /** The boundary-row coefficient 2 (y - a xb + lambda sigma^2 / 2) / (2 + lambda hx) / hx;
      it needs 2 + lambda hx to be non-zero. */
  function BoundaryFlux(co: Coefficients, xb: real, lambda: real, hx: real): real
    requires hx != 0.0 && 2.0 + lambda * hx != 0.0
  {
    2.0 * (co.y - co.a * xb + lambda * (co.sigma * co.sigma) / 2.0) / (2.0 + lambda * hx) / hx
  }

  predicate BoundaryDefined(lambda0: real, lambdaN: real, hx: real)
  {
    hx != 0.0 && 2.0 + lambda0 * hx != 0.0 && 2.0 + lambdaN * hx != 0.0
  }

  /** Interior coefficients of the central-difference scheme. */
  function Diffusion(co: Coefficients, hx: real): real
    requires hx != 0.0
  {
    -(co.sigma * co.sigma) / 2.0 / (hx * hx)
  }

  function Drift(co: Coefficients, hx: real, xi: real): real
    requires hx != 0.0
  {
    (1.0 / 2.0 / hx) * (co.y - co.a * xi)
  }

  /** The three diagonals handed to the theta step. */
  datatype Operator = Operator(sub: seq<real>, diag: seq<real>, sup: seq<real>)
  {
    predicate Valid()
    {
      Tridiagonal(sub, diag, sup)
    }
  }

  /** `l`, `c`, `u` over the whole grid with the boundary entries
      overwritten, then diags([l[1:], c, u[:-1]], [-1, 0, 1]). */
  function Discretisation(co: Coefficients, x: seq<real>, hx: real, lambda0: real, lambdaN: real): (op: Operator)
    requires |x| >= 2 && BoundaryDefined(lambda0, lambdaN, hx)
    ensures op.Valid() && |op.diag| == |x|
  {
    var n := |x|;
    var b0 := BoundaryFlux(co, x[0], lambda0, hx);
    var bN := BoundaryFlux(co, x[n - 1], lambdaN, hx);
    var c := seq(n, i requires 0 <= i < n =>
      if i == n - 1 then -bN + x[n - 1] + co.f
      else if i == 0 then b0 + x[0] + co.f
      else (co.sigma * co.sigma / (hx * hx) + co.f) + x[i]);
    var l := seq(n, i requires 0 <= i < n =>
      if i == n - 1 then bN else Diffusion(co, hx) + Drift(co, hx, x[i]));
    var u := seq(n, i requires 0 <= i < n =>
      if i == 0 then -b0 else Diffusion(co, hx) - Drift(co, hx, x[i]));
    Operator(l[1..], c, u[..n - 1])
  }

  /** Sum of the entries of row i. */
  function RowSum(op: Operator, i: nat): real
    requires op.Valid() && i < |op.diag|
  {
    (if i > 0 then op.sub[i - 1] else 0.0) + op.diag[i]
      + (if i < |op.diag| - 1 then op.sup[i] else 0.0)
  }

  lemma NonZeroSquare(h: real)
    requires h != 0.0
    ensures h * h != 0.0
  {
    if h > 0.0 { PositiveProduct(h, h); } else { PositiveProduct(-h, -h); }
  }

  lemma DiffusionCancels(q: real, H: real)
    requires H != 0.0
    ensures -q / 2.0 / H + -q / 2.0 / H + q / H == 0.0
  {
    assert -q / 2.0 / H == -(q / H) / 2.0;
  }

  /** Every row of the operator sums to the short rate f + x_i: interior
      rows l + c + u, the first row c + u and the last row l + c. So M maps
      a constant vector K to (f + x) K, the discounting of a constant. */
  lemma RowSums(co: Coefficients, x: seq<real>, hx: real, lambda0: real, lambdaN: real, i: nat)
    requires |x| >= 2 && BoundaryDefined(lambda0, lambdaN, hx) && i < |x|
    ensures RowSum(Discretisation(co, x, hx, lambda0, lambdaN), i) == co.f + x[i]
  {
    var n := |x|;
    if 0 < i < n - 1 {
      NonZeroSquare(hx);
      DiffusionCancels(co.sigma * co.sigma, hx * hx);
    }
  }

  lemma ConstantIsDiscounted(co: Coefficients, x: seq<real>, hx: real, lambda0: real, lambdaN: real, k: real, i: nat)
    requires |x| >= 2 && BoundaryDefined(lambda0, lambdaN, hx) && i < |x|
    ensures var op := Discretisation(co, x, hx, lambda0, lambdaN);
      TriRow(op.sub, op.diag, op.sup, Constant(|x|, k), i) == (co.f + x[i]) * k
  {
    var op := Discretisation(co, x, hx, lambda0, lambdaN);
    RowSums(co, x, hx, lambda0, lambdaN, i);
    var lo := if i > 0 then op.sub[i - 1] else 0.0;
    var hi := if i < |x| - 1 then op.sup[i] else 0.0;
    assert lo * k + op.diag[i] * k + hi * k == (lo + op.diag[i] + hi) * k;
  }

  /** One interior row of l, c, u against (v[i-1], v[i], v[i+1]), with
      s2 = sigma^2 and d = y - a x_i. */
  lemma CentralDifference(s2: real, d: real, f: real, xi: real, hx: real, vm: real, v0: real, vp: real,
                           l: real, c: real, u: real)
    requires hx != 0.0
    requires l == -s2 / 2.0 / (hx * hx) + (1.0 / 2.0 / hx) * d
    requires c == (s2 / (hx * hx) + f) + xi
    requires u == -s2 / 2.0 / (hx * hx) - (1.0 / 2.0 / hx) * d
    ensures l * vm + c * v0 + u * vp
        == -(s2 / 2.0) * ((vp - 2.0 * v0 + vm) / (hx * hx)) - d * ((vp - vm) / (2.0 * hx)) + (f + xi) * v0
  {
    NonZeroSquare(hx);
    var p := s2 / (hx * hx);
    var q := 1.0 / 2.0 / hx;
    HalfQuotient(s2, hx * hx);
    ScaledQuotient(s2, hx * hx, vp - 2.0 * v0 + vm);
    HalfReciprocal(hx, vp - vm);
    RowExpansion(p, q, d, f, xi, vm, v0, vp);
  }

  lemma HalfQuotient(a: real, b: real)
    requires b != 0.0
    ensures -a / 2.0 / b == -(a / b) / 2.0
  {
  }

  lemma ScaledQuotient(a: real, b: real, w: real)
    requires b != 0.0
    ensures (a / 2.0) * (w / b) == ((a / b) / 2.0) * w
  {
  }

  lemma HalfReciprocal(h: real, w: real)
    requires h != 0.0
    ensures w / (2.0 * h) == (1.0 / 2.0 / h) * w
  {
  }

  /** The row identity with p = sigma^2 / hx^2 and q = 1 / (2 hx) abstracted. */
  lemma RowExpansion(p: real, q: real, d: real, f: real, xi: real, vm: real, v0: real, vp: real)
    ensures (-p / 2.0 + q * d) * vm + ((p + f) + xi) * v0 + (-p / 2.0 - q * d) * vp
      == -(p / 2.0) * (vp - 2.0 * v0 + vm) - d * (q * (vp - vm)) + (f + xi) * v0
  {
  }

  /** -(s2 / 2) v'' - d v' + r v0 with central differences of step hx. */
  function CentralForm(s2: real, d: real, r: real, hx: real, vm: real, v0: real, vp: real): real
    requires hx != 0.0
  {
    -(s2 / 2.0) * ((vp - 2.0 * v0 + vm) / (hx * hx)) - d * ((vp - vm) / (2.0 * hx)) + r * v0
  }

  lemma CentralRow(sub: seq<real>, diag: seq<real>, sup: seq<real>, v: seq<real>, i: nat,
                   s2: real, d: real, f: real, xi: real, hx: real)
    requires Tridiagonal(sub, diag, sup) && |v| == |diag| && 0 < i < |diag| - 1 && hx != 0.0
    requires sub[i - 1] == -s2 / 2.0 / (hx * hx) + (1.0 / 2.0 / hx) * d
    requires diag[i] == (s2 / (hx * hx) + f) + xi
    requires sup[i] == -s2 / 2.0 / (hx * hx) - (1.0 / 2.0 / hx) * d
    ensures TriRow(sub, diag, sup, v, i) == CentralForm(s2, d, f + xi, hx, v[i - 1], v[i], v[i + 1])
  {
    CentralDifference(s2, d, f, xi, hx, v[i - 1], v[i], v[i + 1], sub[i - 1], diag[i], sup[i]);
  }

  /** Interior rows apply the central-difference form of the pricing
      operator: (M v)_i = -(sigma^2 / 2) v''_i - (y - a x_i) v'_i + (f + x_i) v_i. */
  lemma InteriorRowIsCentralDifference(co: Coefficients, x: seq<real>, hx: real, lambda0: real, lambdaN: real,
                                       v: seq<real>, i: nat)
    requires |x| >= 2 && BoundaryDefined(lambda0, lambdaN, hx) && |v| == |x| && 0 < i < |x| - 1
    ensures var op := Discretisation(co, x, hx, lambda0, lambdaN);
      TriRow(op.sub, op.diag, op.sup, v, i)
        == CentralForm(co.sigma * co.sigma, co.y - co.a * x[i], co.f + x[i], hx, v[i - 1], v[i], v[i + 1])
  {
    var op := Discretisation(co, x, hx, lambda0, lambdaN);
    CentralRow(op.sub, op.diag, op.sup, v, i, co.sigma * co.sigma, co.y - co.a * x[i], co.f, x[i], hx);
  }

  // ------------------------------------------------------------ time stepping

  /** The operator of the step from T1 back to T0, or None where the source
      fails before the solve: fewer than two grid points (the spacing is
      not finite), values not matching the grid, a zero spacing, too few
      values for the curvature estimate, or a zero boundary denominator. */
  function StepOperator(s: Solver, T0: real, T1: real, x: seq<real>, V: seq<real>): (op: Option<Operator>)
    ensures op.Some? <==>
      && |x| >= 2 && |V| == |x| && Spacing(x) != 0.0 && HasLambdas(s.lambda0N, V)
      && var lambdas := Lambdas(s.lambda0N, V, Spacing(x));
         BoundaryDefined(lambdas.0, lambdas.1, Spacing(x))
    ensures op.Some? ==> op.value.Valid() && |op.value.diag| == |x|
  {
    if |x| < 2 || |V| != |x| || Spacing(x) == 0.0 || !HasLambdas(s.lambda0N, V) then None
    else
      var hx := Spacing(x);
      var lambdas := Lambdas(s.lambda0N, V, hx);
      if !BoundaryDefined(lambdas.0, lambdas.1, hx) then None
      else
        var co := CoefficientsAt(s, EvaluationTime(s.theta, T0, T1));
        Some(Discretisation(co, x, hx, lambdas.0, lambdas.1))
  }

  /** Each step's operator is evaluated at the theta-weighted time, and its
      rows sum to the short rate f(0, t) + x_i there. */
  lemma StepOperatorRowSums(s: Solver, T0: real, T1: real, x: seq<real>, V: seq<real>, i: nat)
    requires StepOperator(s, T0, T1, x, V).Some? && i < |x|
    ensures RowSum(StepOperator(s, T0, T1, x, V).value, i)
      == s.model.forwardRate(0.0, 0.0, EvaluationTime(s.theta, T0, T1)) + x[i]
  {
    var hx := Spacing(x);
    var lambdas := Lambdas(s.lambda0N, V, hx);
    var co := CoefficientsAt(s, EvaluationTime(s.theta, T0, T1));
    RowSums(co, x, hx, lambdas.0, lambdas.1, i);
  }

  /** The theta step can be taken with operator op: it exists and, unless
      the step is explicit, the implicit matrix I + ht theta M factorises. */
  predicate Steppable(op: Option<Operator>, ht: real, theta: real)
  {
    op.Some? && op.value.Valid() && Factorisable(op.value.sub, op.value.diag, op.value.sup, ht, theta)
  }

  /** W is the theta-scheme image of V under operator op over a step of
      length ht: (W + ht theta M W)_i = (V - ht (1 - theta) M V)_i. */
  predicate SteppedTo(op: Option<Operator>, ht: real, theta: real, V: seq<real>, W: seq<real>)
  {
    Steppable(op, ht, theta) && |V| == |op.value.diag|
      && ThetaSolves(op.value.sub, op.value.diag, op.value.sup, V, ht, theta, W)
  }

  /** The theta step over [T0, T1] can be taken. */
  predicate StepDefined(s: Solver, T0: real, T1: real, x: seq<real>, V: seq<real>)
  {
    Steppable(StepOperator(s, T0, T1, x, V), T1 - T0, s.theta)
  }

  /** W is the theta-scheme image of V over [T0, T1]. */
  predicate StepSolves(s: Solver, T0: real, T1: real, x: seq<real>, V: seq<real>, W: seq<real>)
  {
    SteppedTo(StepOperator(s, T0, T1, x, V), T1 - T0, s.theta, V, W)
  }

  /** `thetaStep(l[1:], c, u[:-1], V, ht, theta)` with a given operator, or
      None where there is no operator or a zero pivot makes the implicit
      solve non-finite. */
  method StepWith(op: Option<Operator>, V: seq<real>, ht: real, theta: real) returns (r: Option<seq<real>>)
    requires op.Some? ==> op.value.Valid() && |V| == |op.value.diag|
    ensures r.Some? <==> Steppable(op, ht, theta)
    ensures r.Some? ==> SteppedTo(op, ht, theta, V, r.value)
  {
    if !Steppable(op, ht, theta) {
      return None;
    }
    var o := op.value;
    var W := ThetaStep(o.sub, o.diag, o.sup, V, ht, theta);
    return Some(W);
  }

  /** `rollBackOneStep(T0, T1, x, V)`. */
  method RollBackOneStep(s: Solver, T0: real, T1: real, x: seq<real>, V: seq<real>) returns (r: Option<seq<real>>)
    ensures r.Some? <==> StepDefined(s, T0, T1, x, V)
    ensures r.Some? ==> StepSolves(s, T0, T1, x, V, r.value)
  {
    r := StepWith(StepOperator(s, T0, T1, x, V), V, T1 - T0, s.theta);
  }

  // --------------------------------------------------------------- roll back

  /** Step k of a roll-back along grid g took values[k] at g[k] to
      values[k + 1] at g[k + 1]. */
  predicate StepAt(s: Solver, x: seq<real>, g: seq<real>, values: seq<seq<real>>, k: nat)
    requires k + 1 < |values| <= |g|
  {
    StepDefined(s, g[k + 1], g[k], x, values[k]) && StepSolves(s, g[k + 1], g[k], x, values[k], values[k + 1])
  }

  /** values is a roll-back trace along g from V: it starts at V and each
      entry is the theta step of the one before. */
  predicate Trace(s: Solver, x: seq<real>, g: seq<real>, V: seq<real>, values: seq<seq<real>>)
  {
    1 <= |values| <= |g| && values[0] == V
      && forall k :: 0 <= k < |values| - 1 ==> StepAt(s, x, g, values, k)
  }

  /** The loop of `rollBack` over a given descending time grid g: one
      `rollBackOneStep(g[k + 1], g[k], x, V)` for each k. The trace of the
      values is returned with the result; on failure it ends at the value
      from which the step could not be taken. */
  method RollBackOnGrid(s: Solver, x: seq<real>, V0: seq<real>, g: seq<real>)
    returns (r: Option<seq<real>>, values: seq<seq<real>>)
    requires |g| >= 1
    ensures Trace(s, x, g, V0, values)
    ensures r.Some? <==> |values| == |g|
    ensures r.Some? ==> r.value == values[|g| - 1]
    ensures r.None? ==> |values| < |g|
    ensures r.None? ==> !StepDefined(s, g[|values|], g[|values| - 1], x, values[|values| - 1])
  {
    values := [V0];
    var V := V0;
    var k := 0;
    while k < |g| - 1
      invariant 0 <= k < |g| && |values| == k + 1 && values[k] == V
      invariant Trace(s, x, g, V0, values)
    {
      var W := RollBackOneStep(s, g[k + 1], g[k], x, V);
      if W.None? {
        return None, values;
      }
      ghost var before := values;
      values := values + [W.value];
      forall j | 0 <= j < |values| - 1
        ensures StepAt(s, x, g, values, j)
      {
        if j < k {
          assert StepAt(s, x, g, before, j);
        }
      }
      V := W.value;
      k := k + 1;
    }
    r := Some(V);
  }

  /** `rollBack(T0, T1, x1, U1, H1)`: start from max(U1, H1) and step along
      TimeGrid(h, T0, T1). The grid ends at T1 - M h; the remainder down to
      T0 is not stepped. The state grid is handed back unchanged. */
  method RollBack(s: Solver, T0: real, T1: real, x1: seq<real>, U1: seq<real>, H1: seq<real>)
    returns (r: Option<(seq<real>, seq<real>)>, values: seq<seq<real>>)
    ensures r.Some? ==> r.value.0 == x1
    ensures |H1| < |U1| || s.timeStepSize == 0.0 ==> r.None?
    ensures |H1| >= |U1| && s.timeStepSize != 0.0 && TimeGrid(s.timeStepSize, T0, T1).None? ==> r.None?
    ensures |H1| >= |U1| && s.timeStepSize != 0.0 && TimeGrid(s.timeStepSize, T0, T1).Some? ==>
      var g := TimeGrid(s.timeStepSize, T0, T1).value;
      && Trace(s, x1, g, PointwiseMax(U1, H1), values)
      && (r.Some? <==> |values| == |g|)
      && (r.Some? ==> r.value.1 == values[|g| - 1])
    ensures |H1| >= |U1| && s.timeStepSize > 0.0 && 0.0 <= T1 - T0 < s.timeStepSize ==>
      r == Some((x1, PointwiseMax(U1, H1)))
  {
    values := [];
    if |H1| < |U1| || s.timeStepSize == 0.0 {
      return None, values;
    }
    var V := PointwiseMax(U1, H1);
    var tGrid := TimeGrid(s.timeStepSize, T0, T1);
    if tGrid.None? {
      return None, values;
    }
    if s.timeStepSize > 0.0 && 0.0 <= T1 - T0 < s.timeStepSize {
      ShortIntervalHasNoStep(s.timeStepSize, T0, T1);
    }
    var W;
    W, values := RollBackOnGrid(s, x1, V, tGrid.value);
    if W.None? {
      return None, values;
    }
    r := Some((x1, W.value));
  }

  // ------------------------------------- the grid `rollBack` evidently meant

  /** The grid as written stops short of T0: with h = 1 the interval
      [0, 1.5] gives the grid [1.5, 0.5], whose last point is not T0. */
  lemma GridStopsShortOfT0()
    ensures TimeGrid(1.0, 0.0, 1.5) == Some([1.5, 0.5])
  {
    assert StepCount(1.0, 0.0, 1.5) == 1;
    var g := TimeGrid(1.0, 0.0, 1.5).value;
    assert |g| == 2 && g[0] == 1.5 && g[1] == 1.5 - 1.0 * 1.0;
    assert g == [1.5, 0.5];
  }

  /** TimeGrid with T0 appended when its last point lies above T0, which is
      what the discarded `np.append` was meant to do. */
  function IntendedTimeGrid(h: real, T0: real, T1: real): (g: Option<seq<real>>)
    requires h != 0.0
    ensures g.Some? <==> TimeGrid(h, T0, T1).Some?
  {
    match TimeGrid(h, T0, T1)
    case None => None
    case Some(g) => if g[|g| - 1] > T0 then Some(g + [T0]) else Some(g)
  }

  /** For a forward interval and a positive step the intended grid runs from
      T1 down to exactly T0, in steps that are positive and at most h. */
  lemma IntendedTimeGridReachesT0(h: real, T0: real, T1: real)
    requires h > 0.0 && T0 <= T1
    ensures IntendedTimeGrid(h, T0, T1).Some?
    ensures var g := IntendedTimeGrid(h, T0, T1).value;
      g[0] == T1 && g[|g| - 1] == T0
    ensures var g := IntendedTimeGrid(h, T0, T1).value;
      forall k :: 0 < k < |g| ==> 0.0 < g[k - 1] - g[k] <= h
  {
    TimeGridCoversInterval(h, T0, T1);
    var t := TimeGrid(h, T0, T1).value;
    var g := IntendedTimeGrid(h, T0, T1).value;
    if t[|t| - 1] > T0 {
      assert g == t + [T0];
      forall k | 0 < k < |g|
        ensures 0.0 < g[k - 1] - g[k] <= h
      {
        if k < |t| {
          assert g[k - 1] - g[k] == t[k - 1] - t[k];
        }
      }
    }
  }

  /** `rollBack` along the intended grid: the values it returns belong to T0. */
  method IntendedRollBack(s: Solver, T0: real, T1: real, x1: seq<real>, U1: seq<real>, H1: seq<real>)
    returns (r: Option<(seq<real>, seq<real>)>, values: seq<seq<real>>)
    ensures r.Some? ==> r.value.0 == x1
    ensures |H1| < |U1| || s.timeStepSize == 0.0 ==> r.None?
    ensures |H1| >= |U1| && s.timeStepSize != 0.0 && IntendedTimeGrid(s.timeStepSize, T0, T1).Some? ==>
      var g := IntendedTimeGrid(s.timeStepSize, T0, T1).value;
      && Trace(s, x1, g, PointwiseMax(U1, H1), values)
      && (r.Some? <==> |values| == |g|)
      && (r.Some? ==> r.value.1 == values[|g| - 1])
    ensures r.Some? && s.timeStepSize > 0.0 && T0 <= T1 ==>
      IntendedTimeGrid(s.timeStepSize, T0, T1).value[|values| - 1] == T0
  {
    values := [];
    if |H1| < |U1| || s.timeStepSize == 0.0 {
      return None, values;
    }
    var tGrid := IntendedTimeGrid(s.timeStepSize, T0, T1);
    if tGrid.None? {
      return None, values;
    }
    if s.timeStepSize > 0.0 && T0 <= T1 {
      IntendedTimeGridReachesT0(s.timeStepSize, T0, T1);
    }
    var W;
    W, values := RollBackOnGrid(s, x1, PointwiseMax(U1, H1), tGrid.value);
    if W.None? {
      return None, values;
    }
    r := Some((x1, W.value));
  }
}
