/** The density-integration roll-back engines. Each concrete engine values
    max(U1, H1) at T1 on the grid x1 by integrating it against the Gaussian
    transition density of x and discounting with the model's zero bond; they
    differ only in the quadrature rule, which is a parameter here. The
    break-even decorator splits the grid at the first exercise boundary
    before delegating. */
module DensityIntegrations {
  import opened Common
  import opened ModelView

  /** `DensityIntegration(hwModel, nGridPoints, stdDevs)`. */
  datatype Integration = Integration(model: View, nGridPoints: nat, stdDevs: real)

  /** Standard deviation of x at the expiry, seen from time 0. */
  function StdDev(d: Integration, expiryTime: real): real
  {
    d.model.sqrt(d.model.varianceX(0.0, expiryTime))
  }

  function HalfWidth(d: Integration, expiryTime: real): real
  {
    d.stdDevs * StdDev(d, expiryTime)
  }

  /** `xSet(expiryTime)`: the single state 0 when x is deterministic at the
      expiry, otherwise nGridPoints equally spaced states spanning plus and
      minus stdDevs standard deviations. */
  function XSet(d: Integration, expiryTime: real): (x: seq<real>)
    ensures StdDev(d, expiryTime) == 0.0 ==> x == [0.0]
    ensures StdDev(d, expiryTime) != 0.0 ==> |x| == d.nGridPoints
    ensures StdDev(d, expiryTime) != 0.0 && |x| >= 1 ==> x[0] == -HalfWidth(d, expiryTime)
    ensures StdDev(d, expiryTime) != 0.0 && |x| >= 2 ==> x[|x| - 1] == HalfWidth(d, expiryTime)
  {
    if StdDev(d, expiryTime) == 0.0 then [0.0]
    else Linspace(-HalfWidth(d, expiryTime), HalfWidth(d, expiryTime), d.nGridPoints)
  }

  /** With a non-degenerate deviation and at least two points the grid is
      symmetric about 0 and equally spaced. */
  lemma XSetSymmetric(d: Integration, expiryTime: real)
    requires StdDev(d, expiryTime) != 0.0 && d.nGridPoints >= 2
    ensures var x := XSet(d, expiryTime);
      forall i :: 0 <= i < |x| ==> x[i] + x[|x| - 1 - i] == 0.0
    ensures var x := XSet(d, expiryTime);
      forall i :: 0 < i < |x| ==> x[i] - x[i - 1] == x[1] - x[0]
  {
    LinspaceSymmetric(HalfWidth(d, expiryTime), d.nGridPoints);
    LinspaceEquallySpaced(-HalfWidth(d, expiryTime), HalfWidth(d, expiryTime), d.nGridPoints);
  }

  // ------------------------------------------------------ concrete engines

  /** A quadrature rule: from the nodes x1 and values V, the integral of V
      against the normal density with mean mu and deviation sigma; None when
      the rule raises or its result is not finite. Simpson's rule on x1,
      Gauss-Hermite on a spline of V and exact spline moments are three such
      rules. */
  type Rule = (seq<real>, seq<real>, real, real) -> Option<real>

  /** What an engine builds before its loop over x0: Simpson's rule works
      on the nodes directly, the Hermite and exact-spline engines first fit
      `CubicSpline(x1, V)`. */
  datatype Prefit = NoFit | SplineFit

  /** `CubicSpline(x, y)` accepts its data: at least two strictly
      increasing nodes and one value per node (scipy raises otherwise). */
  predicate SplineFits(x: seq<real>, y: seq<real>)
  {
    |y| == |x| && |x| >= 2 && Ascending(x)
  }

  /** The engine's up-front fit succeeds on (x1, V). */
  predicate Prefits(prefit: Prefit, x1: seq<real>, V: seq<real>)
  {
    prefit.SplineFit? ==> SplineFits(x1, V)
  }

  /** The value at state xi of time T0: the zero bond P(T0, T1; xi) times
      the integral of V over the distribution of x(T1) given x(T0) = xi. */
  function DiscountedIntegral(d: Integration, rule: Rule, T0: real, T1: real, x1: seq<real>,
                              V: seq<real>, xi: real): Option<real>
  {
    var I := rule(x1, V, d.model.expectationX(T0, xi, T1), d.model.sqrt(d.model.varianceX(T0, T1)));
    if I.None? then None else Some(d.model.zeroBond(T0, xi, T1) * I.value)
  }

  /** The integral is defined at every point of grid x0. */
  predicate IntegralsDefined(d: Integration, rule: Rule, T0: real, T1: real, x1: seq<real>,
                             V: seq<real>, x0: seq<real>)
  {
    forall i :: 0 <= i < |x0| ==> DiscountedIntegral(d, rule, T0, T1, x1, V, x0[i]).Some?
  }

  /** The `rollBack(T0, T1, x1, U1, H1)` the Simpson, Hermite and
      exact-spline engines share: x0 = xSet(T0), V = max(U1, H1), the
      engine's up-front fit on (x1, V), and per state of x0 the discounted
      integral of V. */
  function IntegrationRollBack(d: Integration, prefit: Prefit, rule: Rule, T0: real, T1: real,
                               x1: seq<real>, U1: seq<real>, H1: seq<real>): (r: Option<(seq<real>, seq<real>)>)
    ensures r.Some? <==> |H1| >= |U1| && Prefits(prefit, x1, PointwiseMax(U1, H1))
                         && IntegralsDefined(d, rule, T0, T1, x1, PointwiseMax(U1, H1), XSet(d, T0))
    ensures r.Some? ==> r.value.0 == XSet(d, T0) && |r.value.1| == |r.value.0|
    ensures r.Some? ==> forall i :: 0 <= i < |r.value.0| ==>
      r.value.1[i] == DiscountedIntegral(d, rule, T0, T1, x1, PointwiseMax(U1, H1), r.value.0[i]).value
  {
    if |H1| < |U1| then None
    else
      var x0 := XSet(d, T0);
      var V := PointwiseMax(U1, H1);
      if !Prefits(prefit, x1, V) || !IntegralsDefined(d, rule, T0, T1, x1, V, x0) then None
      else Some((x0, seq(|x0|, i requires 0 <= i < |x0| => DiscountedIntegral(d, rule, T0, T1, x1, V, x0[i]).value)))
  }

  /** A sure payoff c, never below the continuation value, is worth c zero
      bonds when the rule integrates constants exactly:
      V0[i] = P(T0, T1; x0[i]) c. */
  lemma SurePayoffIsDiscounted(d: Integration, prefit: Prefit, rule: Rule, T0: real, T1: real, x1: seq<real>,
                               U1: seq<real>, H1: seq<real>, c: real)
    requires |H1| >= |U1| && Prefits(prefit, x1, Constant(|U1|, c))
    requires forall k :: 0 <= k < |U1| ==> U1[k] == c && H1[k] <= c
    requires forall mu, sigma :: rule(x1, Constant(|U1|, c), mu, sigma) == Some(c)
    ensures var r := IntegrationRollBack(d, prefit, rule, T0, T1, x1, U1, H1);
      r.Some? && forall i :: 0 <= i < |r.value.0| ==> r.value.1[i] == d.model.zeroBond(T0, r.value.0[i], T1) * c
  {
    SurePayoffIsConstant(U1, H1, c);
    SureValuesOnGrid(d, rule, T0, T1, x1, PointwiseMax(U1, H1), XSet(d, T0), c);
  }

  lemma SurePayoffIsConstant(U1: seq<real>, H1: seq<real>, c: real)
    requires |H1| >= |U1|
    requires forall k :: 0 <= k < |U1| ==> U1[k] == c && H1[k] <= c
    ensures PointwiseMax(U1, H1) == Constant(|U1|, c)
  {
  }

  /** The sure payoff's value at every state of a grid x0. */
  lemma SureValuesOnGrid(d: Integration, rule: Rule, T0: real, T1: real, x1: seq<real>, V: seq<real>,
                         x0: seq<real>, c: real)
    requires forall mu, sigma :: rule(x1, V, mu, sigma) == Some(c)
    ensures IntegralsDefined(d, rule, T0, T1, x1, V, x0)
    ensures forall i :: 0 <= i < |x0| ==>
      DiscountedIntegral(d, rule, T0, T1, x1, V, x0[i]).value == d.model.zeroBond(T0, x0[i], T1) * c
  {
    forall i | 0 <= i < |x0|
      ensures DiscountedIntegral(d, rule, T0, T1, x1, V, x0[i]).Some?
      ensures DiscountedIntegral(d, rule, T0, T1, x1, V, x0[i]).value == d.model.zeroBond(T0, x0[i], T1) * c
    {
      SureValueAt(d, rule, T0, T1, x1, V, x0[i], c);
    }
  }

  lemma SureValueAt(d: Integration, rule: Rule, T0: real, T1: real, x1: seq<real>, V: seq<real>, xi: real, c: real)
    requires forall mu, sigma :: rule(x1, V, mu, sigma) == Some(c)
    ensures DiscountedIntegral(d, rule, T0, T1, x1, V, xi).Some?
    ensures DiscountedIntegral(d, rule, T0, T1, x1, V, xi).value == d.model.zeroBond(T0, xi, T1) * c
  {
    RuleAt(rule, x1, V, c, d.model.expectationX(T0, xi, T1), d.model.sqrt(d.model.varianceX(T0, T1)));
  }

  lemma RuleAt(rule: Rule, x1: seq<real>, V: seq<real>, c: real, mu: real, sigma: real)
    requires forall mu', sigma' :: rule(x1, V, mu', sigma') == Some(c)
    ensures rule(x1, V, mu, sigma) == Some(c)
  {
  }

  /** The spline engines fail on fewer than two nodes even when xSet(T0)
      is empty and no integral is taken; Simpson's rule then returns the
      empty grid with no values. */
  lemma SplineFitComesFirst(d: Integration, rule: Rule, T0: real, T1: real,
                            x1: seq<real>, U1: seq<real>, H1: seq<real>)
    requires |x1| < 2 && |H1| >= |U1|
    ensures IntegrationRollBack(d, SplineFit, rule, T0, T1, x1, U1, H1).None?
    ensures XSet(d, T0) == [] ==> IntegrationRollBack(d, NoFit, rule, T0, T1, x1, U1, H1) == Some(([], []))
  {
  }

  /** A monotone rule and non-negative zero bonds make the roll-back
      monotone: larger exercise values never give a smaller value. */
  lemma IntegrationIsMonotone(d: Integration, prefit: Prefit, rule: Rule, T0: real, T1: real, x1: seq<real>,
                              U1: seq<real>, H1: seq<real>, U1': seq<real>, H1': seq<real>)
    requires |H1| >= |U1| && |H1'| >= |U1'| && |U1| == |U1'|
    requires prefit.SplineFit? ==> |x1| == |U1| && |x1| >= 2 && Ascending(x1)
    requires forall k :: 0 <= k < |U1| ==> U1[k] <= U1'[k] && H1[k] <= H1'[k]
    requires forall mu, sigma :: (rule(x1, PointwiseMax(U1, H1), mu, sigma).Some?
      && rule(x1, PointwiseMax(U1', H1'), mu, sigma).Some?
      && rule(x1, PointwiseMax(U1, H1), mu, sigma).value <= rule(x1, PointwiseMax(U1', H1'), mu, sigma).value)
    requires forall xi :: d.model.zeroBond(T0, xi, T1) >= 0.0
    ensures var r := IntegrationRollBack(d, prefit, rule, T0, T1, x1, U1, H1);
      var r' := IntegrationRollBack(d, prefit, rule, T0, T1, x1, U1', H1');
      r.Some? && r'.Some? && forall i :: 0 <= i < |r.value.1| ==> r.value.1[i] <= r'.value.1[i]
  {
    MonotoneOnGrid(d, rule, T0, T1, x1, PointwiseMax(U1, H1), PointwiseMax(U1', H1'), XSet(d, T0));
  }

  /** The order of two integrands carries over to their values at every
      state of a grid x0. */
  lemma MonotoneOnGrid(d: Integration, rule: Rule, T0: real, T1: real, x1: seq<real>,
                       V: seq<real>, V': seq<real>, x0: seq<real>)
    requires forall mu, sigma :: (rule(x1, V, mu, sigma).Some? && rule(x1, V', mu, sigma).Some?
      && rule(x1, V, mu, sigma).value <= rule(x1, V', mu, sigma).value)
    requires forall xi :: d.model.zeroBond(T0, xi, T1) >= 0.0
    ensures IntegralsDefined(d, rule, T0, T1, x1, V, x0) && IntegralsDefined(d, rule, T0, T1, x1, V', x0)
    ensures forall i :: 0 <= i < |x0| ==>
      DiscountedIntegral(d, rule, T0, T1, x1, V, x0[i]).value <= DiscountedIntegral(d, rule, T0, T1, x1, V', x0[i]).value
  {
    var sigma := d.model.sqrt(d.model.varianceX(T0, T1));
    forall i | 0 <= i < |x0|
      ensures DiscountedIntegral(d, rule, T0, T1, x1, V, x0[i]).Some?
      ensures DiscountedIntegral(d, rule, T0, T1, x1, V', x0[i]).Some?
      ensures DiscountedIntegral(d, rule, T0, T1, x1, V, x0[i]).value
        <= DiscountedIntegral(d, rule, T0, T1, x1, V', x0[i]).value
    {
      var mu := d.model.expectationX(T0, x0[i], T1);
      RuleOrderAt(rule, x1, V, V', mu, sigma);
      BondAt(d.model, T0, T1, x0[i]);
      ScaledOrder(d.model.zeroBond(T0, x0[i], T1), rule(x1, V, mu, sigma).value, rule(x1, V', mu, sigma).value);
    }
  }

  lemma BondAt(m: View, T0: real, T1: real, xi: real)
    requires forall xi' :: m.zeroBond(T0, xi', T1) >= 0.0
    ensures m.zeroBond(T0, xi, T1) >= 0.0
  {
  }

  lemma RuleOrderAt(rule: Rule, x1: seq<real>, V: seq<real>, V': seq<real>, mu: real, sigma: real)
    requires forall mu', sigma' :: (rule(x1, V, mu', sigma').Some? && rule(x1, V', mu', sigma').Some?
      && rule(x1, V, mu', sigma').value <= rule(x1, V', mu', sigma').value)
    ensures rule(x1, V, mu, sigma).Some? && rule(x1, V', mu, sigma).Some?
    ensures rule(x1, V, mu, sigma).value <= rule(x1, V', mu, sigma).value
  {
  }

  lemma ScaledOrder(p: real, a: real, b: real)
    requires p >= 0.0 && a <= b
    ensures p * a <= p * b
  {
  }

  // ---------------------------------------------------- break-even decorator

  /** A five-argument `rollBack(T0, T1, x1, U1, H1)` returning [x0, V0], or
      None where it raises. */
  type RollBack = (real, real, seq<real>, seq<real>, seq<real>) -> Option<(seq<real>, seq<real>)>

  /** `DensityIntegrationWithBreakEven(method)`: the wrapped engine's grid
      settings and roll-back, and the spline operations it needs: the roots
      of the cubic spline through (x1, d) on [x1[0], x1[-1]], and the value of
      the spline through (x1, U1) at a point. */
  datatype BreakEven = BreakEven(
    settings: Integration,
    wrapped: RollBack,
    roots: (seq<real>, seq<real>) -> seq<real>,
    spline: (seq<real>, seq<real>, real) -> real)

  /** The constructor copies hwModel, nGridPoints and stdDevs from the
      wrapped engine, so the decorator's grid is the wrapped engine's. */
  function NewBreakEven(inner: Integration, rollBack: RollBack,
                        roots: (seq<real>, seq<real>) -> seq<real>,
                        spline: (seq<real>, seq<real>, real) -> real): (b: BreakEven)
    ensures forall T :: XSet(b.settings, T) == XSet(inner, T)
    ensures b.wrapped == rollBack
  {
    BreakEven(Integration(inner.model, inner.nGridPoints, inner.stdDevs), rollBack, roots, spline)
  }

  /** `x < c` for the lower side, `x > c` for the upper side. */
  predicate OnSide(v: real, c: real, below: bool)
  {
    if below then v < c else v > c
  }

  /** `np.where(x < c)[0]` (below) or `np.where(x > c)[0]` (above): the
      indices of the points strictly on that side, in ascending order. */
  function IndicesWhere(x: seq<real>, c: real, below: bool): (ix: seq<nat>)
    ensures forall j :: 0 <= j < |ix| ==> ix[j] < |x| && OnSide(x[ix[j]], c, below)
    ensures forall j, k :: 0 <= j < k < |ix| ==> ix[j] < ix[k]
    ensures forall k :: 0 <= k < |x| && OnSide(x[k], c, below) ==> k in ix
  {
    if |x| == 0 then []
    else
      var rest := IndicesWhere(x[..|x| - 1], c, below);
      assert forall j :: 0 <= j < |rest| ==> x[rest[j]] == x[..|x| - 1][rest[j]];
      rest + (if OnSide(x[|x| - 1], c, below) then [|x| - 1] else [])
  }

  /** The entries of s at the indices ix. */
  function Gather(s: seq<real>, ix: seq<nat>): (r: seq<real>)
    requires forall j :: 0 <= j < |ix| ==> ix[j] < |s|
    ensures |r| == |ix| && forall j :: 0 <= j < |ix| ==> r[j] == s[ix[j]]
  {
    seq(|ix|, j requires 0 <= j < |ix| => s[ix[j]])
  }

  /** The lower integrand: the points of x1 strictly below xStar with their
      U1 and H1 values, then xStar where both values are VStar. */
  function LowerPart(x1: seq<real>, U1: seq<real>, H1: seq<real>, xStar: real, VStar: real)
    : (p: (seq<real>, seq<real>, seq<real>))
    requires |U1| == |x1| && |H1| == |x1|
    ensures |p.0| == |p.1| == |p.2| >= 1
    ensures p.0[|p.0| - 1] == xStar && p.1[|p.1| - 1] == VStar && p.2[|p.2| - 1] == VStar
  {
    var ix := IndicesWhere(x1, xStar, true);
    (Gather(x1, ix) + [xStar], Gather(U1, ix) + [VStar], Gather(H1, ix) + [VStar])
  }

  /** The upper integrand: xStar with value VStar, then the points of x1
      strictly above xStar with their U1 and H1 values. */
  function UpperPart(x1: seq<real>, U1: seq<real>, H1: seq<real>, xStar: real, VStar: real)
    : (p: (seq<real>, seq<real>, seq<real>))
    requires |U1| == |x1| && |H1| == |x1|
    ensures |p.0| == |p.1| == |p.2| >= 1
    ensures p.0[0] == xStar && p.1[0] == VStar && p.2[0] == VStar
  {
    var ix := IndicesWhere(x1, xStar, false);
    ([xStar] + Gather(x1, ix), [VStar] + Gather(U1, ix), [VStar] + Gather(H1, ix))
  }

  /** The spline of U1 - H1 can be built: U1 and H1 match the grid and the
      grid has at least two strictly increasing points (CubicSpline raises
      otherwise). */
  predicate SplineDefined(x1: seq<real>, U1: seq<real>, H1: seq<real>)
  {
    |H1| == |x1| && SplineFits(x1, U1)
  }

  /** `DensityIntegrationWithBreakEven.rollBack(T0, T1, x1, U1, H1)`. */
  function BreakEvenRollBack(b: BreakEven, T0: real, T1: real, x1: seq<real>, U1: seq<real>, H1: seq<real>)
    : (r: Option<(seq<real>, seq<real>)>)
    ensures !SplineDefined(x1, U1, H1) ==> r.None?
  {
    if !SplineDefined(x1, U1, H1) then None
    else
      var rs := b.roots(x1, Subtract(U1, H1));
      if |rs| == 0 then b.wrapped(T0, T1, x1, U1, H1)
      else
        var xStar := rs[0];
        var VStar := b.spline(x1, U1, xStar);
        var lower := LowerPart(x1, U1, H1, xStar, VStar);
        var upper := UpperPart(x1, U1, H1, xStar, VStar);
        var lo := b.wrapped(T0, T1, lower.0, lower.1, lower.2);
        var up := b.wrapped(T0, T1, upper.0, upper.1, upper.2);
        if lo.None? || up.None? || |lo.value.1| != |up.value.1| then None
        else Some((up.value.0, Add(lo.value.1, up.value.1)))
  }

  /** Without a break-even point the wrapped engine runs on the unchanged
      inputs. */
  lemma NoBreakEvenDelegates(b: BreakEven, T0: real, T1: real, x1: seq<real>, U1: seq<real>, H1: seq<real>)
    requires SplineDefined(x1, U1, H1) && |b.roots(x1, Subtract(U1, H1))| == 0
    ensures BreakEvenRollBack(b, T0, T1, x1, U1, H1) == b.wrapped(T0, T1, x1, U1, H1)
  {
  }

  /** With a break-even point the wrapped engine runs on the lower and the
      upper integrand, built around the first root only; the result is the
      upper run's grid with the sum of both runs' values. */
  lemma BreakEvenCombines(b: BreakEven, T0: real, T1: real, x1: seq<real>, U1: seq<real>, H1: seq<real>)
    requires SplineDefined(x1, U1, H1) && |b.roots(x1, Subtract(U1, H1))| > 0
    ensures var xStar := b.roots(x1, Subtract(U1, H1))[0];
      var VStar := b.spline(x1, U1, xStar);
      var lower := LowerPart(x1, U1, H1, xStar, VStar);
      var upper := UpperPart(x1, U1, H1, xStar, VStar);
      var lo := b.wrapped(T0, T1, lower.0, lower.1, lower.2);
      var up := b.wrapped(T0, T1, upper.0, upper.1, upper.2);
      var r := BreakEvenRollBack(b, T0, T1, x1, U1, H1);
      && (r.Some? <==> lo.Some? && up.Some? && |lo.value.1| == |up.value.1|)
      && (r.Some? ==> r.value.0 == up.value.0 && |r.value.1| == |up.value.1|
                      && forall i :: 0 <= i < |r.value.1| ==> r.value.1[i] == lo.value.1[i] + up.value.1[i])
  {
  }

  /** The number of points of x exactly at c. */
  function CountAt(x: seq<real>, c: real): nat
  {
    if |x| == 0 then 0 else CountAt(x[..|x| - 1], c) + (if x[|x| - 1] == c then 1 else 0)
  }

  /** Every point of x is below, above or at c, so the two index lists and
      the points at c account for all of x. */
  lemma {:induction false} SidesPartition(x: seq<real>, c: real)
    ensures |IndicesWhere(x, c, true)| + |IndicesWhere(x, c, false)| + CountAt(x, c) == |x|
  {
    if |x| > 0 {
      SidesPartition(x[..|x| - 1], c);
    }
  }

  /** For an ascending grid the two integrands are ascending, they share
      only xStar, and points of x1 equal to xStar are dropped: together they
      hold |x1| + 2 points less the ones at xStar. */
  lemma SplitAtBreakEven(x1: seq<real>, U1: seq<real>, H1: seq<real>, xStar: real, VStar: real)
    requires |U1| == |x1| && |H1| == |x1| && Ascending(x1)
    ensures var lower := LowerPart(x1, U1, H1, xStar, VStar);
      var upper := UpperPart(x1, U1, H1, xStar, VStar);
      && Ascending(lower.0) && Ascending(upper.0)
      && (forall j :: 0 <= j < |lower.0| - 1 ==> lower.0[j] < xStar)
      && (forall j :: 0 < j < |upper.0| ==> upper.0[j] > xStar)
      && |lower.0| + |upper.0| == |x1| + 2 - CountAt(x1, xStar)
  {
    var lix := IndicesWhere(x1, xStar, true);
    var uix := IndicesWhere(x1, xStar, false);
    SidesPartition(x1, xStar);
    var below := Gather(x1, lix);
    var above := Gather(x1, uix);
    GatherAscending(x1, lix);
    GatherAscending(x1, uix);
    AppendAscending(below, xStar);
    PrependAscending(xStar, above);
    assert LowerPart(x1, U1, H1, xStar, VStar).0 == below + [xStar];
    assert UpperPart(x1, U1, H1, xStar, VStar).0 == [xStar] + above;
  }

  /** Gathering an ascending sequence at increasing indices keeps it ascending. */
  lemma GatherAscending(x: seq<real>, ix: seq<nat>)
    requires Ascending(x)
    requires forall j :: 0 <= j < |ix| ==> ix[j] < |x|
    requires forall j, k :: 0 <= j < k < |ix| ==> ix[j] < ix[k]
    ensures Ascending(Gather(x, ix))
  {
    var g := Gather(x, ix);
    forall j, k | 0 <= j < k < |g|
      ensures g[j] < g[k]
    {
      assert ix[j] < ix[k];
    }
  }

  lemma AppendAscending(a: seq<real>, c: real)
    requires Ascending(a) && forall j :: 0 <= j < |a| ==> a[j] < c
    ensures Ascending(a + [c])
  {
  }

  lemma PrependAscending(c: real, a: seq<real>)
    requires Ascending(a) && forall j :: 0 <= j < |a| ==> a[j] > c
    ensures Ascending([c] + a)
  {
    var s := [c] + a;
    forall j, k | 0 <= j < k < |s|
      ensures s[j] < s[k]
    {
      if j > 0 {
        assert s[j] == a[j - 1] && s[k] == a[k - 1];
      }
    }
  }

  /** The lower integrand holds exactly the points of x1 below xStar, the
      upper one exactly those above, each with its own U1 and H1 values. */
  lemma SplitKeepsPoints(x1: seq<real>, U1: seq<real>, H1: seq<real>, xStar: real, VStar: real, k: nat)
    requires |U1| == |x1| && |H1| == |x1| && k < |x1|
    ensures var lower := LowerPart(x1, U1, H1, xStar, VStar);
      x1[k] < xStar ==> exists j :: (0 <= j < |lower.0| - 1
        && lower.0[j] == x1[k] && lower.1[j] == U1[k] && lower.2[j] == H1[k])
    ensures var upper := UpperPart(x1, U1, H1, xStar, VStar);
      x1[k] > xStar ==> exists j :: (0 < j < |upper.0|
        && upper.0[j] == x1[k] && upper.1[j] == U1[k] && upper.2[j] == H1[k])
  {
    if x1[k] < xStar {
      LowerKeepsPoint(x1, U1, H1, xStar, VStar, k);
    }
    if x1[k] > xStar {
      UpperKeepsPoint(x1, U1, H1, xStar, VStar, k);
    }
  }

  lemma LowerKeepsPoint(x1: seq<real>, U1: seq<real>, H1: seq<real>, xStar: real, VStar: real, k: nat)
    requires |U1| == |x1| && |H1| == |x1| && k < |x1| && x1[k] < xStar
    ensures var lower := LowerPart(x1, U1, H1, xStar, VStar);
      exists j :: (0 <= j < |lower.0| - 1
        && lower.0[j] == x1[k] && lower.1[j] == U1[k] && lower.2[j] == H1[k])
  {
    var lix := IndicesWhere(x1, xStar, true);
    assert OnSide(x1[k], xStar, true);
    var j :| 0 <= j < |lix| && lix[j] == k;
    var lower := LowerPart(x1, U1, H1, xStar, VStar);
    BeforeTail(Gather(x1, lix), xStar, j);
    BeforeTail(Gather(U1, lix), VStar, j);
    BeforeTail(Gather(H1, lix), VStar, j);
    assert lower.0[j] == x1[k] && lower.1[j] == U1[k] && lower.2[j] == H1[k];
  }

  lemma UpperKeepsPoint(x1: seq<real>, U1: seq<real>, H1: seq<real>, xStar: real, VStar: real, k: nat)
    requires |U1| == |x1| && |H1| == |x1| && k < |x1| && x1[k] > xStar
    ensures var upper := UpperPart(x1, U1, H1, xStar, VStar);
      exists j :: (0 < j < |upper.0|
        && upper.0[j] == x1[k] && upper.1[j] == U1[k] && upper.2[j] == H1[k])
  {
    var uix := IndicesWhere(x1, xStar, false);
    assert OnSide(x1[k], xStar, false);
    var j :| 0 <= j < |uix| && uix[j] == k;
    var upper := UpperPart(x1, U1, H1, xStar, VStar);
    AfterHead(xStar, Gather(x1, uix), j);
    AfterHead(VStar, Gather(U1, uix), j);
    AfterHead(VStar, Gather(H1, uix), j);
    assert upper.0[j + 1] == x1[k] && upper.1[j + 1] == U1[k] && upper.2[j + 1] == H1[k];
  }

  lemma BeforeTail(g: seq<real>, a: real, j: nat)
    requires j < |g|
    ensures (g + [a])[j] == g[j]
  {
  }

  lemma AfterHead(a: real, g: seq<real>, j: nat)
    requires j < |g|
    ensures ([a] + g)[j + 1] == g[j]
  {
  }
}
