# Bermudan option pricing under one-factor Hull-White — a Dafny model

This project is a model of the numerical core of QuantLibWrapper. That library prices Bermudan options (options exercisable on any of several fixed dates) under the one-factor Hull-White short-rate model. It does so by backward induction: starting from the last exercise date, the value is rolled back towards time 0 by one of three engines.

The model covers:

- **`BermudanOption`**: the backward-induction orchestrator and the interpolated NPV.
- **The three roll-back engines:**
  - `PdeSolver`: a theta-method finite-difference solver with curvature boundary conditions.
  - `DensityIntegrations`: Gaussian density integration and the break-even grid split.
  - `AmcSolver`: regression Monte Carlo.
- **`ThetaMethod`**: the Thomas tridiagonal solver and the theta step.
- **`Regression`**: the multi-index enumeration and the polynomial basis.
- **`Payoffs`**: the composable payoffs.
- **`SplineInterpolation`**: Hermite cubic coefficients.
- **`HullWhiteModel`**: the model's analytic functions and simulation process.
- **`TerminalSwapRate`**: the linear terminal-swap-rate annuity mapping.
- **`ModelView`**: the methods the engines call on their model.

Each of these source files has its own Dafny module. Two further modules are shared helpers with no source file of their own: `Common` (the `Option` type and numpy-style sequence operations) and `ModelView` (the model methods the engines call).

Everything is over `real`. Collaborators the code cannot see into are function-valued fields or parameters, and each lemma assumes only what it needs of them. These are:

- the exponential and the square root;
- the yield curve's discount factors and forward rates;
- quadrature rules, spline roots and spline evaluation;
- `lstsq`;
- the model's `sigma(t)`.

In the engines, the payoffs, the regression and the orchestrator, a Python exception, a division by zero and a non-finite numpy result are all modelled as `None` of `Common.Option`. `HullWhiteModel` is the exception: its functions state preconditions instead.

- Every function requires the constructor's conditions (`Model.WellFormed`; see `HullWhiteModel.Create` under Left out).
- `ZeroBond` and `ZeroBondPayoff` require a non-zero discount factor at the observation time, because the code divides by it.
- `ZeroBondPayoff` requires a state with at least one component, `Numeraire` one with at least two, and `Evolve` both a two-component state and at least one Brownian increment. The code raises an `IndexError` on shorter arrays.

Their callers check these conditions first: `Payoffs.BondsDefined` before the bond payoffs, and `ModelView.HullWhiteView` answers 0 outside them.

Points where the code behaves in a way a reader might not expect, all modelled as written:

- **Orchestrator arity.** `QuantLibWrapper/BermudanOption.py:22,25` calls a four-argument `rollBack(T0, T1, x, V)`, while `QuantLibWrapper/DensityIntegrations.py:30`, `QuantLibWrapper/PDESolver.py:23` and `QuantLibWrapper/AMCSolver.py:23` take five arguments (`T0, T1, x1, U1, H1`). `BermudanOption` is therefore written against an abstract four-argument `Engine`, and the engines are not claimed to compose with it.
- **The PDE time grid.** `QuantLibWrapper/PDESolver.py:27-28` builds the grid `T1, T1 - h, ..., T1 - M*h` with `M = int((T1 - T0)/h)`. Line 29 discards the result of `np.append`, so the remainder `[T0, T1 - M*h]` is never stepped. See Findings.
- **`y(t)` start point.** `QuantLibWrapper/HullWhiteModel.py:38-43` starts the recursion from `volatilityTimes[idx]`, the right end of the bracket holding `t`, and uses the volatility after it. The model reproduces this (`HullWhiteModel.YStartsAtRightBracketEnd`). It agrees with the exact recursion only for flat volatility (`HullWhiteModel.FlatVolatilityIsExact`).
- **AMC regression at time 0.** `QuantLibWrapper/AMCSolver.py:26` fits and uses the regression whenever `minSampleIdx > 0`, whatever `T0` is, including the final roll to time 0. Line 41 averages over all paths when `minSampleIdx >= nPaths`. The model does both.
- **`sigma(t)`.** The PDE solver calls `hwModel.sigma(t)`, which `HullWhiteModel.py` does not define. In `ModelView.View` it is a separate parameter.

## Model

| member | source | states |
|---|---|---|
| HullWhiteModel.Create | QuantLibWrapper/HullWhiteModel.py:10-26 | the constructor keeps every parameter and caches y on each volatility time by the recursion y_i = G'(t_{i-1}, t_i)^2 y_{i-1} + sigma_i^2 (1 - exp(-2a(t_i - t_{i-1})))/(2a), starting from t = y = 0 |
| HullWhiteModel.YIndex | QuantLibWrapper/HullWhiteModel.py:37-40 | the bracket search in y() always lands on a valid volatility index |
| HullWhiteModel.YIndexIsFirstAbove | QuantLibWrapper/HullWhiteModel.py:37-40 | the index is the first volatility time strictly above t, or the last index when t is at or beyond every time |
| HullWhiteModel.YBeyondLastNode | QuantLibWrapper/HullWhiteModel.py:38-47 | beyond the last volatility time, y extrapolates from the last cached value with the last volatility; at that time itself it equals the cached value |
| HullWhiteModel.YStartsAtRightBracketEnd | QuantLibWrapper/HullWhiteModel.py:41-47 | inside a bracket, y starts from the right end of the bracket and uses the volatility after it, as written |
| HullWhiteModel.FlatVolatilityIsExact | QuantLibWrapper/HullWhiteModel.py:16-47 | with one volatility everywhere and an additive exp, the cached values and y(t) equal the closed form sigma^2 (1 - exp(-2at))/(2a) |
| HullWhiteModel.GAtSameTime | QuantLibWrapper/HullWhiteModel.py:30-34 | given exp(0) = 1, G(t, t) = 0 and G'(t, t) = 1 |
| HullWhiteModel.MomentsAtSameTime | QuantLibWrapper/HullWhiteModel.py:49-64 | over an empty horizon the expectations of x return xt and the variance is 0 |
| HullWhiteModel.ZeroBondAtMaturity | QuantLibWrapper/HullWhiteModel.py:66-69 | a zero bond at its maturity is worth 1 whenever the discount factor is non-zero |
| HullWhiteModel.ForwardRateAtSameTime | QuantLibWrapper/HullWhiteModel.py:91-92 | the instantaneous forward rate at T = t is the curve's forward rate plus the state |
| HullWhiteModel.InitialValues | QuantLibWrapper/HullWhiteModel.py:96-103 | the initial state has the process dimension, size() = 2, and is x(0) = 0 with nothing accrued, s(0) = 0 |
| HullWhiteModel.ZeroBondPayoffReadsOnlyX | QuantLibWrapper/HullWhiteModel.py:105-106 | the zero-bond payoff depends only on the first state component, and is the zero bond at it |
| HullWhiteModel.NumeraireAtStart | QuantLibWrapper/HullWhiteModel.py:102-109 | the initial x is 0 and the numeraire of the initial state is exp(0) = 1 |
| HullWhiteModel.Evolve | QuantLibWrapper/HullWhiteModel.py:113-123 | the new x is the risk-neutral mean plus the conditional standard deviation times dW[0]; s grows by the trapezoidal integral of the model's own short rate f(t,x;t), the forward rate at T = t |
| HullWhiteModel.ShortRateIsInstantForward | QuantLibWrapper/HullWhiteModel.py:91-120 | the short rate f(0,t) + x used for s is the model's forward rate f(t,x;T) at T = t |
| HullWhiteModel.EvolveGrowsNumeraire | QuantLibWrapper/HullWhiteModel.py:108-123 | the numeraire exp(s) is a discretised bank account: one step multiplies it by exp of the accrued short rate |
| HullWhiteModel.EvolveZeroStep | QuantLibWrapper/HullWhiteModel.py:113-123 | a step of length 0 leaves the state unchanged |
| ModelView.HullWhiteView | QuantLibWrapper/HullWhiteModel.py:60-109 | the engine-facing view carries the model's square root, mean reversion and the supplied sigma |
| ModelView.HullWhiteViewAgrees | QuantLibWrapper/HullWhiteModel.py:36-109 | every method of the view agrees with the model's own method wherever that method is defined |
| ThetaMethod.Factorise | QuantLibWrapper/ThetaMethod.py:13-15 | the in-place LU sweep yields exactly the Thomas pivots and multipliers of the matrix |
| ThetaMethod.ForwardSubstitute | QuantLibWrapper/ThetaMethod.py:17-20 | z[0] = y[0] and z[i] = y[i] - l[i-1] z[i-1] at every index |
| ThetaMethod.BackSubstitute | QuantLibWrapper/ThetaMethod.py:22-25 | the last unknown is z over its pivot and each earlier one is (z - sup x_next) over its pivot |
| ThetaMethod.SolveTDS | QuantLibWrapper/ThetaMethod.py:7-25 | with non-zero pivots the result x solves the tridiagonal system: A x = y |
| ThetaMethod.ExplicitPart | QuantLibWrapper/ThetaMethod.py:31-34 | b = (I - k M) r, row by row |
| ThetaMethod.ImplicitPart | QuantLibWrapper/ThetaMethod.py:37-39 | v solves (I + k M) v = b, row by row |
| ThetaMethod.ThetaStep | QuantLibWrapper/ThetaMethod.py:28-39 | the step solves (I + h theta M) v = (I - h (1 - theta) M) r, with no solve when theta = 0 |
| ThetaMethod.ExplicitThetaStep | QuantLibWrapper/ThetaMethod.py:35-36 | with theta = 0 the step is the explicit Euler update v = r - h M r |
| PdeSolver.XSet | QuantLibWrapper/PDESolver.py:19-21 | exactly nGridPoints points from -stdDevs*sigma to +stdDevs*sigma, with no single-point collapse |
| PdeSolver.XSetSymmetric | QuantLibWrapper/PDESolver.py:19-21 | the grid is symmetric about 0 and equally spaced |
| PdeSolver.XSetWithoutDeviation | QuantLibWrapper/PDESolver.py:19-21 | with zero variance every one of the nGridPoints points is 0 |
| PdeSolver.TimeGrid | QuantLibWrapper/PDESolver.py:27-29 | M = int((T1 - T0)/h) steps over the descending grid T1, T1 - h, ..., T1 - M h; a negative M makes numpy raise |
| PdeSolver.TimeGridCoversInterval | QuantLibWrapper/PDESolver.py:27-28 | for T0 <= T1 the grid starts at T1, steps down by h, and stops within one step above T0 |
| PdeSolver.ShortIntervalHasNoStep | QuantLibWrapper/PDESolver.py:27-33 | an interval shorter than one step gives the one-point grid [T1], so no step runs |
| PdeSolver.EvaluationTimeInStep | QuantLibWrapper/PDESolver.py:40 | the theta-weighted time lies in the step and is T1 for explicit and T0 for implicit Euler |
| PdeSolver.CurvatureRatioSolves | QuantLibWrapper/PDESolver.py:55-60 | the boundary lambda solves lambda * V' = V'' for central differences, and falls back to 0 when abs(V') <= 1e-8 |
| PdeSolver.StraightBoundaryHasZeroRatio | QuantLibWrapper/PDESolver.py:55-60 | values on a straight line at the boundary give lambda = 0 |
| PdeSolver.Lambdas | QuantLibWrapper/PDESolver.py:51-60 | a user lambda0N is used at both ends; otherwise each end gets its own curvature ratio from its three outermost values |
| PdeSolver.Discretisation | QuantLibWrapper/PDESolver.py:46-69 | the operator has a diagonal of one entry per grid point, and off-diagonals one shorter (l[1:], u[:-1]) |
| PdeSolver.RowSums | QuantLibWrapper/PDESolver.py:46-66 | every row of the operator, interior or boundary, sums to f + x_i |
| PdeSolver.ConstantIsDiscounted | QuantLibWrapper/PDESolver.py:46-66 | the operator maps a constant k to (f + x_i) k |
| PdeSolver.InteriorRowIsCentralDifference | QuantLibWrapper/PDESolver.py:46-48 | an interior row applies -sigma^2/2 V'' - (y - a x) V' + (f + x) V with central differences |
| PdeSolver.StepOperator | QuantLibWrapper/PDESolver.py:35-66 | the one-step operator exists exactly when the grid has two points, V matches it, the spacing is non-zero, the lambdas exist and no boundary denominator vanishes |
| PdeSolver.StepOperatorRowSums | QuantLibWrapper/PDESolver.py:40-66 | the rows of the step operator sum to the model's forward rate at the theta-weighted time plus x_i |
| PdeSolver.StepWith | QuantLibWrapper/PDESolver.py:69 | the theta step on a built operator succeeds exactly when it is factorisable, and then solves the theta equation |
| PdeSolver.RollBackOneStep | QuantLibWrapper/PDESolver.py:35-70 | one step succeeds exactly when operator and solve are defined, and its result solves the theta scheme for that operator |
| PdeSolver.RollBackOnGrid | QuantLibWrapper/PDESolver.py:30-32 | the loop steps from g[k] to g[k+1] in order, and fails at the first step that is not defined |
| PdeSolver.RollBack | QuantLibWrapper/PDESolver.py:23-33 | returns x1 unchanged and starts from max(U1, H1); it steps only over the as-written grid; for T1 - T0 < h it returns max(U1, H1) untouched |
| PdeSolver.GridStopsShortOfT0 | QuantLibWrapper/PDESolver.py:27-29 | h = 1, T0 = 0, T1 = 1.5 gives the grid [1.5, 0.5]: [0, 0.5] is never stepped |
| PdeSolver.IntendedTimeGrid | QuantLibWrapper/PDESolver.py:28-29 | the corrected grid, with T0 appended, exists exactly when the as-written one does |
| PdeSolver.IntendedTimeGridReachesT0 | QuantLibWrapper/PDESolver.py:27-29 | the corrected grid runs from T1 down to T0 exactly, with steps in (0, h] |
| PdeSolver.IntendedRollBack | QuantLibWrapper/PDESolver.py:23-33 | the corrected roll-back steps over the corrected grid, and a success ends at T0 |
| DensityIntegrations.XSet | QuantLibWrapper/DensityIntegrations.py:16-20 | [0.0] when the standard deviation is 0, otherwise nGridPoints points from -stdDevs*sigma to +stdDevs*sigma |
| DensityIntegrations.XSetSymmetric | QuantLibWrapper/DensityIntegrations.py:16-20 | the non-degenerate grid is symmetric about 0 and equally spaced |
| DensityIntegrations.IntegrationRollBack | QuantLibWrapper/DensityIntegrations.py:59-104 | integrates max(U1, H1); returns xSet(T0) with one value per point, zeroBond(T0, x0[i], T1) times the integral; fails exactly when the values are shorter than U1, when the spline engines' up-front CubicSpline(x1, V) is rejected, or when an integral fails |
| DensityIntegrations.SplineFitComesFirst | QuantLibWrapper/DensityIntegrations.py:79-104 | the Hermite and exact-spline engines fail on fewer than two nodes even when xSet(T0) is empty; Simpson's engine then returns the empty grid |
| DensityIntegrations.SurePayoffIsDiscounted | QuantLibWrapper/DensityIntegrations.py:59-69 | a constant payoff that the rule integrates exactly comes back as the zero bond times the constant |
| DensityIntegrations.IntegrationIsMonotone | QuantLibWrapper/DensityIntegrations.py:59-69 | larger exercise and hold values give larger rolled-back values, for an order-preserving rule and non-negative bonds |
| DensityIntegrations.NewBreakEven | QuantLibWrapper/DensityIntegrations.py:26-28 | the decorator's grid is the wrapped engine's grid at every time |
| DensityIntegrations.IndicesWhere | QuantLibWrapper/DensityIntegrations.py:38-44 | np.where: exactly the indices on the requested side, in increasing order |
| DensityIntegrations.LowerPart | QuantLibWrapper/DensityIntegrations.py:38-41 | the lower integrand ends at xStar with U = H = VStar |
| DensityIntegrations.UpperPart | QuantLibWrapper/DensityIntegrations.py:44-47 | the upper integrand starts at xStar with U = H = VStar |
| DensityIntegrations.BreakEvenRollBack | QuantLibWrapper/DensityIntegrations.py:30-50 | fails when the spline of U1 - H1 cannot be built |
| DensityIntegrations.NoBreakEvenDelegates | QuantLibWrapper/DensityIntegrations.py:32-34 | without a root the result is the wrapped roll-back on unchanged inputs |
| DensityIntegrations.BreakEvenCombines | QuantLibWrapper/DensityIntegrations.py:35-50 | with a root only the first is used, and the result is the upper call's grid with the sum of the lower and upper values |
| DensityIntegrations.SidesPartition | QuantLibWrapper/DensityIntegrations.py:38-47 | points below, above and at xStar together account for the whole grid |
| DensityIntegrations.SplitAtBreakEven | QuantLibWrapper/DensityIntegrations.py:38-47 | for an ascending grid both halves are ascending, share only xStar, and drop points equal to xStar |
| DensityIntegrations.SplitKeepsPoints | QuantLibWrapper/DensityIntegrations.py:38-47 | every point strictly below (above) xStar appears in the lower (upper) integrand with its own U1 and H1 |
| AmcSolver.NewSolver | QuantLibWrapper/AMCSolver.py:10-14 | minSampleIdx = int(splitRatio * nPaths), the floor for a non-negative ratio |
| AmcSolver.SplitWithinPaths | QuantLibWrapper/AMCSolver.py:14 | for a ratio in [0, 1] the split index lies in [0, nPaths] |
| AmcSolver.IndexWithTolerance | QuantLibWrapper/AMCSolver.py:16-17 | the first index within 1e-8 of t, and failure when there is none |
| AmcSolver.XSet | QuantLibWrapper/AMCSolver.py:19-21 | the first state component of every path at the time index: one entry per path |
| AmcSolver.DecisionFor | QuantLibWrapper/AMCSolver.py:26-31 | no regression when minSampleIdx <= 0; otherwise a regression fitted on the training paths |
| AmcSolver.DecisionIgnoresOutOfSample | QuantLibWrapper/AMCSolver.py:26-29 | the decision depends only on the first minSampleIdx grid states, exercise values and hold values |
| AmcSolver.PathValue | QuantLibWrapper/AMCSolver.py:33-39 | each path takes U1 when its indicator is positive, else H1, scaled by its numeraire ratio N0/N1 |
| AmcSolver.LookAheadTakesMax | QuantLibWrapper/AMCSolver.py:36-38 | without regression the pre-discount value is max(U1[i], H1[i]) |
| AmcSolver.PathValues | QuantLibWrapper/AMCSolver.py:32-39 | the loop succeeds exactly when every path value is defined, and returns them in path order |
| AmcSolver.RollBack | QuantLibWrapper/AMCSolver.py:23-43 | one value per path from the path rule; at T0 = 0 the single state 0.0 with the mean over the out-of-sample slice; otherwise xSet(T0) and V0 |
| AmcSolver.AveragedSliceNonEmpty | QuantLibWrapper/AMCSolver.py:40-42 | the averaged slice is never empty when there are paths |
| AmcSolver.MeanWithinRange | QuantLibWrapper/AMCSolver.py:40-42 | the time-0 average lies between the smallest and largest path value |
| Regression.MultiIndexSetSound | QuantLibWrapper/Regression.py:6-8 | every tuple has length n and entry sum at most k - 1 |
| Regression.MultiIndexSetComplete | QuantLibWrapper/Regression.py:6-8 | every tuple of length n and entry sum at most k - 1 is enumerated |
| Regression.MultiIndexSetMembership | QuantLibWrapper/Regression.py:6-8 | membership holds exactly for the length-n tuples of degree below k |
| Regression.MultiIndexSetAscending | QuantLibWrapper/Regression.py:6-8 | tuples come in strictly ascending lexicographic order |
| Regression.MultiIndexSetDistinct | QuantLibWrapper/Regression.py:6-8 | no tuple appears twice |
| Regression.MultiIndexSetSize | QuantLibWrapper/Regression.py:6-8 | the set has binomial(n + k - 1, n) elements |
| Regression.MultiIndexSetStartsAtZero | QuantLibWrapper/Regression.py:6-8 | the first tuple is all zeros, the constant basis function |
| Regression.MultiIndexSetTwoThree | QuantLibWrapper/Regression.py:6-8 | MultiIndexSet(2, 3) = [[0,0],[0,1],[0,2],[1,0],[1,1],[2,0]] |
| Regression.Monomials | QuantLibWrapper/Regression.py:20-25 | entry i is the product over j of control[j]^idx[i][j], one per basis tuple |
| Regression.NewRegression | QuantLibWrapper/Regression.py:13-18 | defined exactly for non-empty rectangular controls with one observation per row; the basis is every tuple of total degree at most maxPolynomialDegree |
| Regression.FittedValueDefined | QuantLibWrapper/Regression.py:17-28 | a fit whose lstsq coefficients match the basis evaluates on every control at least as wide as the training controls |
| Regression.FirstBasisIsConstant | QuantLibWrapper/Regression.py:15-25 | the first basis function is the constant 1, so beta[0] is the intercept |
| Regression.ValueLinearInBeta | QuantLibWrapper/Regression.py:27-28 | the fitted value is linear in the coefficients |
| Payoffs.NewPay | QuantLibWrapper/Payoffs.py:5-12 | defined exactly when the wrapped payoff has an observation time; copies its observation time and model |
| Payoffs.PayIsTransparent | QuantLibWrapper/Payoffs.py:5-14 | Pay returns the wrapped value whatever the pay time, and copies both attributes |
| Payoffs.ConstantPayoffs | QuantLibWrapper/Payoffs.py:16-22 | Zero is 0 and One is 1 in every state |
| Payoffs.MaximumDominates | QuantLibWrapper/Payoffs.py:24-31 | Max is at least each operand and equals one of them |
| Payoffs.NewVanillaOption | QuantLibWrapper/Payoffs.py:34-42 | inherits the underlying's observation time and model, and fails without them |
| Payoffs.VanillaOptionIntrinsic | QuantLibWrapper/Payoffs.py:34-44 | the value is non-negative, at least the intrinsic callOrPut (u - strike), and equals it or 0 |
| Payoffs.AttributesTogether | QuantLibWrapper/Payoffs.py:5-68 | a payoff has an observation time exactly when it has a model |
| Payoffs.CouponBondEmpty | QuantLibWrapper/Payoffs.py:55-59 | an empty schedule is worth 0 |
| Payoffs.CouponBondLinear | QuantLibWrapper/Payoffs.py:55-59 | the bond is linear in its cash flows |
| Payoffs.CouponBondSingleCashFlow | QuantLibWrapper/Payoffs.py:55-59 | a single unit cash flow is the zero-bond payoff |
| Payoffs.NewSwapRate | QuantLibWrapper/Payoffs.py:61-72 | construction fails exactly when int(endTime - startTime) + 1 leaves the schedule empty |
| Payoffs.AnnuityTimesDefined | QuantLibWrapper/Payoffs.py:70-72 | the annuity grid exists exactly when endTime - startTime > -1 |
| Payoffs.AnnuityTimesShape | QuantLibWrapper/Payoffs.py:70-72 | for endTime >= startTime the grid starts at startTime, ends at endTime, and is ascending with gaps in (0, 1] |
| Payoffs.AnnuityOfUnitBonds | QuantLibWrapper/Payoffs.py:77-78 | with unit bonds the annuity telescopes to the covered span |
| Payoffs.SwapRateAt | QuantLibWrapper/Payoffs.py:75-81 | the rate times the annuity is P(start) - P(end), and the rate fails exactly when the annuity is 0 |
| Payoffs.SwapRateOfEmptySwap | QuantLibWrapper/Payoffs.py:70-81 | a swap from t to t has the one-point grid and a zero annuity, so the rate fails |
| BermudanOption.ExerciseValues | QuantLibWrapper/BermudanOption.py:23 | one exercise value per grid point, each the payoff at [x_j, 0.0] |
| BermudanOption.ExerciseValuesAt | QuantLibWrapper/BermudanOption.py:23 | an empty grid gives no exercise values without reading any underlying; a non-empty grid fails when there is no k-th underlying, otherwise it gives the k-th underlying's exercise values |
| BermudanOption.Create | QuantLibWrapper/BermudanOption.py:14-27 | the loop computes the backward-induction price, calling rollBack on (T_{k-1}, T_k) for k = n-1 down to 1 and then on (0, T_1); an empty grid needs no underlyings |
| BermudanOption.EmptyGridNeedsNoUnderlying | QuantLibWrapper/BermudanOption.py:18-25 | with one expiry, no underlyings and an empty grid from xSet, the price is the roll-back of the empty grid from T to 0 |
| BermudanOption.FailureReachesPrice | QuantLibWrapper/BermudanOption.py:16-25 | a failure at any stage aborts the whole valuation |
| BermudanOption.CallsRunBackward | QuantLibWrapper/BermudanOption.py:16-25 | for ascending positive expiries each call is a forward interval, and each call ends where the previous one started |
| BermudanOption.LastExpiry | QuantLibWrapper/BermudanOption.py:18-24 | at the last expiry the grid is xSet(T_n), H is zero, and V = max(U, 0) |
| BermudanOption.EarlierExpiry | QuantLibWrapper/BermudanOption.py:21-24 | at earlier expiries the grid is the roll-back's grid, and V = max(U, H) is at least each and equal to one |
| BermudanOption.SingleExpiry | QuantLibWrapper/BermudanOption.py:16-25 | with one expiry the only roll-back is from T to 0 on max(U, 0) |
| BermudanOption.Npv | QuantLibWrapper/BermudanOption.py:30-33 | H[0] on a one-point grid, otherwise the interpolation at 0; fails on an empty or mismatched grid |
| BermudanOption.NpvClamped | QuantLibWrapper/BermudanOption.py:33 | outside the grid the value is clamped to the end values |
| BermudanOption.NpvWithinValues | QuantLibWrapper/BermudanOption.py:33 | the NPV lies between min(H) and max(H) |
| BermudanOption.InterpAtGridPoint | QuantLibWrapper/BermudanOption.py:33 | on an ascending grid the interpolation returns the node value at a node |
| SplineInterpolation.Piece | QuantLibWrapper/SplineInterpolation.py:13-19 | the linear and constant coefficients are the left slope and value |
| SplineInterpolation.Interpolation | QuantLibWrapper/SplineInterpolation.py:7-20 | one cubic per interval, defined exactly for at least two strictly monotone knots with matching data |
| SplineInterpolation.PieceOf | QuantLibWrapper/SplineInterpolation.py:13-19 | interval i holds the Hermite cubic of its two knots |
| SplineInterpolation.PieceInterpolates | QuantLibWrapper/SplineInterpolation.py:13-19 | each cubic takes the knot values and slopes at both ends |
| SplineInterpolation.Interpolates | QuantLibWrapper/SplineInterpolation.py:7-20 | every interval meets the Hermite conditions: p(0) = y_i, p(dx) = y_{i+1}, p'(0) = g_i, p'(dx) = g_{i+1} |
| SplineInterpolation.PiecesJoin | QuantLibWrapper/SplineInterpolation.py:7-20 | neighbouring pieces agree in value and slope at every inner knot |
| SplineInterpolation.LinearDataReproduced | QuantLibWrapper/SplineInterpolation.py:15-16 | straight-line data with its slope gives zero quadratic and cubic terms and reproduces the line |
| TerminalSwapRate.Times | QuantLibWrapper/HullWhiteModel2F.py:66 | the schedule ends at dT |
| TerminalSwapRate.TimesShape | QuantLibWrapper/HullWhiteModel2F.py:66 | for dT > 0 the schedule starts at 0, has ceil(dT) + 1 points, and has accruals in (0, 1] |
| TerminalSwapRate.AccrualTelescopes | QuantLibWrapper/HullWhiteModel2F.py:69-70 | the accruals over any prefix sum to its span |
| TerminalSwapRate.AccrualsSumToTenor | QuantLibWrapper/HullWhiteModel2F.py:66-70 | the accruals sum to dT |
| TerminalSwapRate.WeightedSumLinear | QuantLibWrapper/HullWhiteModel2F.py:69-70 | accrual-weighted sums are linear in the summand |
| TerminalSwapRate.WeightedSumPositive | QuantLibWrapper/HullWhiteModel2F.py:69-70 | positive accruals of positive values give a positive sum |
| TerminalSwapRate.FwdRate | QuantLibWrapper/HullWhiteModel2F.py:72-74 | the forward rate times the annuity is 1 - P(T + dT), and the rate fails exactly when the annuity is 0 |
| TerminalSwapRate.AnnuityPositive | QuantLibWrapper/HullWhiteModel2F.py:68-74 | positive discount factors give a positive annuity and a defined forward rate |
| TerminalSwapRate.Slope | QuantLibWrapper/HullWhiteModel2F.py:77-81 | the slope is defined exactly when dT is non-zero |
| TerminalSwapRate.SlopeAffine | QuantLibWrapper/HullWhiteModel2F.py:77-81 | the slope is affine in Tp with gradient -1/dT, equal to 1 + v at T and to v at T + dT |
| TerminalSwapRate.Alpha | QuantLibWrapper/HullWhiteModel2F.py:84-85 | alpha is defined exactly when dT and the annuity are non-zero |
| TerminalSwapRate.AlphaAtForward | QuantLibWrapper/HullWhiteModel2F.py:84-85 | at the forward rate, alpha(Tp) = P(Tp)/annuity |
| TerminalSwapRate.ConvexityAdjustmentFactor | QuantLibWrapper/HullWhiteModel2F.py:88-89 | the factor times P(Tp) is slope(Tp) times the annuity, and it fails exactly when dT or P(Tp) is 0 |
| TerminalSwapRate.SlopesCancel | QuantLibWrapper/HullWhiteModel2F.py:77-81 | the accrual-weighted slopes on the schedule sum to 0 |
| TerminalSwapRate.AlphasSumToOne | QuantLibWrapper/HullWhiteModel2F.py:77-85 | the accrual-weighted alphas on the schedule sum to 1 for every swap rate s |

## Left out

- **numpy arrays.** These are sequences. Elementwise operations on equal-length arrays, slicing with negative bounds, `np.where` and `np.linspace` are written out in `Common` and the modules. Broadcasting a length-1 operand is not modelled: an elementwise operation requires equal lengths or fails.
- **In-place mutation.** `solveTDS` overwrites its diagonals and right-hand side. The model returns new sequences with the same values, and the result is what `thetaStep` returns.
- **Floating point.** Rounding, `inf` and `nan` are not modelled. A division by zero, whether it raises or yields `inf`/`nan` in numpy, is a failure (`None`).
- **Numeric internals.** The Simpson and Gauss-Hermite rules and the exact-spline moment recursion of the density engines are one abstract `Rule`. Nothing is claimed about their accuracy. What the engines differ in before their loop is modelled as `DensityIntegrations.Prefit`: the spline engines fit `CubicSpline(x1, V)` first, and that fit fails unless there are at least two strictly increasing nodes and one value per node. scipy's rejection of non-finite data is not modelled.
- **Spline collaborators.** scipy's `CubicSpline` fit, its roots and its evaluation are abstract collaborators of the break-even decorator. `PPoly`'s own checks are modelled as the requirement of strictly monotone knots.
- **`lstsq`.** It is an abstract function, and nothing is fixed about its result, not even its length. The shape check scipy makes is modelled: `Regression.NewRegression` fails unless there is one observation per row of controls. `Regression.FittedValueDefined` states that a fit can be evaluated once `lstsq` returns one coefficient per basis function.
- **Monte Carlo.** Path simulation, random draws and `dW` are inputs: the simulated states are a given three-dimensional sequence.
- **`riskNeutralExpectationX`.** It is written out with its Simpson rule. Nothing is stated about its accuracy.
- **`zeroBondOption` and `couponBondOption`.** Not modelled. They rest on Black/Bachelier formulas and `brentq`.
- **`HullWhiteModel2F.py` beyond `TerminalSwapRateModel`.** The two-factor model and `Hw2fTsrModel` are matrix formulas and plotting, and are not modelled.
- **`DensityIntegration.py`.** This superseded engine is not part of this model.
- **Prints and progress output.** Not modelled.
- **`np.interp` on a grid that is not ascending.** The model uses the first segment that brackets 0. numpy's result is unspecified there.
- **Engine composition.** The orchestrator's engine is abstract. The four-argument call is not matched to the five-argument engines.
- **`sigma(t)`.** The PDE solver's `hwModel.sigma(t)` is a supplied function, since `HullWhiteModel.py` does not define it.
- HullWhiteModel.Create: requires a non-zero mean reversion, at least one volatility time and exactly as many volatility values as times, where `QuantLibWrapper/HullWhiteModel.py:10-26` does not always fail. With a = 0, numpy divides by zero and caches `nan`. With no volatility times nothing is cached, and `y(t)` (lines 36-47) starts from t = y = 0 with the first volatility value. With more volatility values than times, line 43 reads `volatilityValues[min(idx + 1, len - 1)]`. With n volatility times, the first extra value, `values[n]`, then sets `y(t)` for every t >= times[n-2] (for every t when n = 1). The cached y_ ignores the extra values. The equal-length requirement rules this case out. Fewer values than times raise an `IndexError`, which is not modelled as `None` here.
- ModelView.HullWhiteView: where the model's own method would raise (a zero discount factor at the observation time, a state shorter than two components), the view answers 0. Its contract is stated only where the model method is defined.
- PdeSolver.Discretisation: its contract states the operator's shape. The contents are stated by `PdeSolver.RowSums` and `PdeSolver.InteriorRowIsCentralDifference`; the boundary rows are stated only through their row sums.
- AmcSolver.DecisionFor: states that a regression is fitted when minSampleIdx > 0. The coefficients are whatever the abstract `lstsq` returns. That only the training paths matter is stated by `AmcSolver.DecisionIgnoresOutOfSample`.
- SplineInterpolation.Interpolation: the coefficient a3/dx^3 is written as repeated division by dx. This is the same real number.
- DensityIntegrations.BreakEvenRollBack: its own contract states only the failure of the spline. The success cases are in `DensityIntegrations.NoBreakEvenDelegates` and `DensityIntegrations.BreakEvenCombines`. It requires `|U1| == |H1| == |x1|` before anything runs, so numpy's broadcast of a length-1 `U1` or `H1` in `U1-H1` (`QuantLibWrapper/DensityIntegrations.py:32`) is not modelled. Where the source broadcasts and then delegates without a root, the model fails instead. An example is `x1 = [0, 1]`, `U1 = [5]`, `H1 = [0, 1]`.

## Findings

| source | as written | input that shows it | evidently intended | confidence | as-written member | corrected member |
|---|---|---|---|---|---|---|
| QuantLibWrapper/PDESolver.py:29 | the result of `np.append(tGrid, [T0])` is discarded, so the grid ends at T1 - M*h and `[T0, T1 - M*h]` is never rolled back | timeStepSize = 1, T0 = 0, T1 = 1.5: the grid is [1.5, 0.5] and the values are returned at 0.5 as if at 0 | `tGrid = np.append(tGrid, [T0])`, so the roll-back reaches T0 | high; not executed | PdeSolver.GridStopsShortOfT0 | PdeSolver.IntendedTimeGridReachesT0 |
