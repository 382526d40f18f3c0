/** Composable payoffs evaluated on a Hull-White state X = [x, s]. The
    source's classes become one datatype; the Python exceptions an evaluation
    can raise (a missing attribute, an index out of range, a division by zero)
    and numpy's non-finite quotients all become None. */
module Payoffs {
  import opened Common
  import opened HullWhiteModel

  datatype Payoff =
    | Zero
    | One
      /** The class `Max`: the larger of two payoffs. */
    | Maximum(first: Payoff, second: Payoff)
      /** A payoff settled at payTime; the time is recorded only. */
    | Pay(payoff: Payoff, payTime: real)
    | VanillaOption(underlying: Payoff, strike: real, callOrPut: real)
    | CouponBond(model: Model, observationTime: real, payTimes: seq<real>, cashFlows: seq<real>)
    | SwapRate(model: Model, observationTime: real, startTime: real, endTime: real)

  /** The `observationTime` attribute; Zero, One and Max have none. */
  function ObservationTime(p: Payoff): Option<real>
  {
    match p
    case Zero => None
    case One => None
    case Maximum(_, _) => None
    case Pay(q, _) => ObservationTime(q)
    case VanillaOption(u, _, _) => ObservationTime(u)
    case CouponBond(_, obs, _, _) => Some(obs)
    case SwapRate(_, obs, _, _) => Some(obs)
  }

  /** The `model` attribute; Zero, One and Max have none. */
  function ModelOf(p: Payoff): Option<Model>
  {
    match p
    case Zero => None
    case One => None
    case Maximum(_, _) => None
    case Pay(q, _) => ModelOf(q)
    case VanillaOption(u, _, _) => ModelOf(u)
    case CouponBond(m, _, _, _) => Some(m)
    case SwapRate(m, _, _, _) => Some(m)
  }

  /** `Pay(payoff, payTime)`: the constructor copies the wrapped payoff's
      observation time and model and fails when it has none. */
  function NewPay(payoff: Payoff, payTime: real): (r: Option<Payoff>)
    ensures r.Some? <==> ObservationTime(payoff).Some?
    ensures r.Some? ==> r.value.Pay? && r.value.payoff == payoff && r.value.payTime == payTime
    ensures r.Some? ==> ObservationTime(r.value) == ObservationTime(payoff)
                        && ModelOf(r.value) == ModelOf(payoff)
  {
    AttributesTogether(payoff);
    if ObservationTime(payoff).Some? then Some(Pay(payoff, payTime)) else None
  }

  /** `VanillaOption(underlying, strike, callOrPut)`: inherits the
      underlying's observation time and model, and fails without them. */
  function NewVanillaOption(underlying: Payoff, strike: real, callOrPut: real): (r: Option<Payoff>)
    ensures r.Some? <==> ObservationTime(underlying).Some?
    ensures r.Some? ==> ObservationTime(r.value) == ObservationTime(underlying)
                        && ModelOf(r.value) == ModelOf(underlying)
  {
    AttributesTogether(underlying);
    if ObservationTime(underlying).Some? then Some(VanillaOption(underlying, strike, callOrPut))
    else None
  }

  /** `SwapRate(model, observationTime, startTime, endTime)`: the constructor
      builds the annuity grid and fails when it cannot. */
  function NewSwapRate(m: Model, observationTime: real, startTime: real, endTime: real): (r: Option<Payoff>)
    ensures r.Some? <==> endTime - startTime > -1.0
    ensures r.Some? ==> ObservationTime(r.value) == Some(observationTime) && ModelOf(r.value) == Some(m)
  {
    AnnuityTimesDefined(startTime, endTime);
    if AnnuityTimes(startTime, endTime).Some? then Some(SwapRate(m, observationTime, startTime, endTime))
    else None
  }

  /** Every payoff class sets both attributes or neither. */
  lemma {:induction false} AttributesTogether(p: Payoff)
    ensures ObservationTime(p).Some? <==> ModelOf(p).Some?
  {
    match p
    case Pay(q, _) => AttributesTogether(q);
    case VanillaOption(u, _, _) => AttributesTogether(u);
    case _ =>
  }

  /** The annuity grid `[start + k for k in range(int(end - start) + 1)]`,
      with end appended when the last point falls short of it; None when the
      range is empty and `tmp[-1]` raises. */
  function AnnuityTimes(startTime: real, endTime: real): Option<seq<real>>
  {
    var n := Trunc(endTime - startTime) + 1;
    if n <= 0 then None
    else
      var tmp := seq(n, k requires 0 <= k < n => startTime + k as real);
      Some(if tmp[n - 1] < endTime then tmp + [endTime] else tmp)
  }

  /** The grid exists exactly when end - start exceeds -1. */
  lemma AnnuityTimesDefined(startTime: real, endTime: real)
    ensures AnnuityTimes(startTime, endTime).Some? <==> endTime - startTime > -1.0
  {
  }

  /** For endTime >= startTime the grid starts at startTime, ends exactly at
      endTime, and climbs in steps of one with a final step in (0, 1]. */
  lemma AnnuityTimesShape(startTime: real, endTime: real)
    requires endTime >= startTime
    ensures AnnuityTimes(startTime, endTime).Some?
    ensures var g := AnnuityTimes(startTime, endTime).value;
      && |g| >= 1 && g[0] == startTime && g[|g| - 1] == endTime
      && Ascending(g)
      && (forall i :: 1 <= i < |g| ==> 0.0 < g[i] - g[i - 1] <= 1.0)
  {
    var d := endTime - startTime;
    var n := Trunc(d) + 1;
    var tmp := seq(n, k requires 0 <= k < n => startTime + k as real);
    var g := AnnuityTimes(startTime, endTime).value;
    assert g == if tmp[n - 1] < endTime then tmp + [endTime] else tmp;
    assert tmp[n - 1] <= endTime;
    forall i | 1 <= i < |g|
      ensures 0.0 < g[i] - g[i - 1] <= 1.0
    {
      if i < n {
        assert g[i] - g[i - 1] == 1.0;
      } else {
        assert g[i] == endTime && g[i - 1] == tmp[n - 1];
      }
    }
    GapsAscending(g);
  }

  /** A sequence whose every step is positive is ascending. */
  lemma {:induction false} GapsAscending(g: seq<real>)
    requires forall i :: 1 <= i < |g| ==> g[i] - g[i - 1] > 0.0
    ensures Ascending(g)
  {
    if |g| > 1 {
      var h := g[..|g| - 1];
      assert forall i :: 1 <= i < |h| ==> h[i] - h[i - 1] > 0.0;
      GapsAscending(h);
      forall i, j | 0 <= i < j < |g|
        ensures g[i] < g[j]
      {
        if j < |g| - 1 {
          assert h[i] < h[j];
        } else if i < |g| - 2 {
          assert h[i] < h[|g| - 2];
        }
      }
    }
  }

  /** The conditions under which the model's zeroBondPayoff can be called at
      observation time obs on the state X. */
  predicate BondsDefined(m: Model, obs: real, X: seq<real>)
  {
    m.WellFormed() && m.yieldCurve.discount(obs) != 0.0 && |X| >= 1
  }

  /** Zero bond prices P(obs, T_i) for every pay time, on state X. */
  function ZeroBonds(m: Model, obs: real, X: seq<real>, times: seq<real>): (zb: seq<real>)
    requires BondsDefined(m, obs, X)
    ensures |zb| == |times|
    ensures forall i :: 0 <= i < |times| ==> zb[i] == ZeroBondPayoff(m, X, obs, times[i])
  {
    seq(|times|, i requires 0 <= i < |times| => ZeroBondPayoff(m, X, obs, times[i]))
  }

  /** Sum over i >= 1 of (T_i - T_{i-1}) P(obs, T_i), accumulated left to right. */
  function Annuity(m: Model, obs: real, X: seq<real>, g: seq<real>): real
    requires BondsDefined(m, obs, X)
  {
    AnnuityPrefix(m, obs, X, g, |g|)
  }

  function AnnuityPrefix(m: Model, obs: real, X: seq<real>, g: seq<real>, n: nat): real
    requires BondsDefined(m, obs, X) && n <= |g|
  {
    if n <= 1 then 0.0
    else AnnuityPrefix(m, obs, X, g, n - 1) + (g[n - 1] - g[n - 2]) * ZeroBondPayoff(m, X, obs, g[n - 1])
  }

  /** `at(x)` of every payoff class. */
  function At(p: Payoff, X: seq<real>): Option<real>
  {
    match p
    case Zero => Some(0.0)
    case One => Some(1.0)
    case Maximum(a, b) =>
      var u := At(a, X);
      var v := At(b, X);
      if u.Some? && v.Some? then Some(Common.Max(u.value, v.value)) else None
    case Pay(q, _) => At(q, X)
    case VanillaOption(u, strike, callOrPut) =>
      var v := At(u, X);
      if v.Some? then Some(Common.Max(callOrPut * (v.value - strike), 0.0)) else None
    case CouponBond(m, obs, payTimes, cashFlows) =>
      if |payTimes| == 0 then Some(0.0)
      else if !BondsDefined(m, obs, X) || |cashFlows| < |payTimes| then None
      else Some(Dot(ZeroBonds(m, obs, X, payTimes), cashFlows[..|payTimes|]))
    case SwapRate(m, obs, startTime, endTime) =>
      var g := AnnuityTimes(startTime, endTime);
      if g.None? || !BondsDefined(m, obs, X) then None
      else
        var annuity := Annuity(m, obs, X, g.value);
        if annuity == 0.0 then None
        else Some((ZeroBondPayoff(m, X, obs, startTime) - ZeroBondPayoff(m, X, obs, endTime)) / annuity)
  }

  // properties of the payoff algebra

  /** Zero and One do not depend on the state. */
  lemma ConstantPayoffs(X: seq<real>, X': seq<real>)
    ensures At(Zero, X) == At(Zero, X') == Some(0.0)
    ensures At(One, X) == At(One, X') == Some(1.0)
  {
  }

  /** Max is defined when both operands are, is at least each of them and
      equals one of them. */
  lemma MaximumDominates(a: Payoff, b: Payoff, X: seq<real>)
    ensures At(Maximum(a, b), X).Some? <==> At(a, X).Some? && At(b, X).Some?
    ensures At(Maximum(a, b), X).Some? ==>
      var v := At(Maximum(a, b), X).value;
      v >= At(a, X).value && v >= At(b, X).value
      && (v == At(a, X).value || v == At(b, X).value)
  {
  }

  /** A vanilla option is never negative, is the intrinsic value
      callOrPut (S - K) when that is positive, and is zero otherwise. */
  lemma VanillaOptionIntrinsic(u: Payoff, strike: real, callOrPut: real, X: seq<real>)
    ensures At(VanillaOption(u, strike, callOrPut), X).Some? <==> At(u, X).Some?
    ensures At(u, X).Some? ==>
      var v := At(VanillaOption(u, strike, callOrPut), X).value;
      var intrinsic := callOrPut * (At(u, X).value - strike);
      v >= 0.0 && v >= intrinsic && (v == intrinsic || v == 0.0)
  {
  }

  /** Pay leaves the value unchanged whatever its pay time. */
  lemma PayIsTransparent(p: Payoff, payTime: real, payTime': real, X: seq<real>)
    ensures At(Pay(p, payTime), X) == At(Pay(p, payTime'), X) == At(p, X)
    ensures ObservationTime(Pay(p, payTime)) == ObservationTime(p)
    ensures ModelOf(Pay(p, payTime)) == ModelOf(p)
  {
  }

  /** A bond with no pay times is worth zero. */
  lemma CouponBondEmpty(m: Model, obs: real, cashFlows: seq<real>, X: seq<real>)
    ensures At(CouponBond(m, obs, [], cashFlows), X) == Some(0.0)
  {
  }

  /** The bond value is linear in its cash flows: the bond paying cf + k cf'
      is worth the cf bond plus k times the cf' bond. */
  lemma CouponBondLinear(m: Model, obs: real, payTimes: seq<real>, cf: seq<real>, cf': seq<real>,
                         k: real, X: seq<real>)
    requires |cf| == |cf'| == |payTimes| >= 1 && BondsDefined(m, obs, X)
    ensures var v := At(CouponBond(m, obs, payTimes, Add(cf, Scale(k, cf'))), X);
      var v1 := At(CouponBond(m, obs, payTimes, cf), X);
      var v2 := At(CouponBond(m, obs, payTimes, cf'), X);
      v.Some? && v1.Some? && v2.Some? && v.value == v1.value + k * v2.value
  {
    var n := |payTimes|;
    var zb := ZeroBonds(m, obs, X, payTimes);
    var c := Add(cf, Scale(k, cf'));
    assert c[..n] == c && cf[..n] == cf && cf'[..n] == cf';
    DotLinear(zb, cf, cf', k);
  }

  /** A bond paying one unit at a single time T is the zero bond P(obs, T). */
  lemma CouponBondSingleCashFlow(m: Model, obs: real, T: real, X: seq<real>)
    requires BondsDefined(m, obs, X)
    ensures At(CouponBond(m, obs, [T], [1.0]), X) == Some(ZeroBondPayoff(m, X, obs, T))
  {
    var zb := ZeroBonds(m, obs, X, [T]);
    assert [1.0][..1] == [1.0];
    assert Dot(zb, [1.0]) == DotPrefix(zb, [1.0], 0) + zb[0] * 1.0;
  }

  /** With every zero bond on the grid worth one, the annuity collapses to
      the grid's length endTime - startTime (the accrual fractions telescope). */
  lemma {:induction false} AnnuityOfUnitBonds(m: Model, obs: real, X: seq<real>, g: seq<real>, n: nat)
    requires BondsDefined(m, obs, X) && 1 <= n <= |g|
    requires forall i :: 0 <= i < |g| ==> ZeroBondPayoff(m, X, obs, g[i]) == 1.0
    ensures AnnuityPrefix(m, obs, X, g, n) == g[n - 1] - g[0]
  {
    if n > 1 {
      AnnuityOfUnitBonds(m, obs, X, g, n - 1);
    }
  }

  /** The swap rate is defined for endTime >= startTime exactly when its
      annuity does not vanish, and is then the float leg over the annuity. */
  lemma SwapRateAt(m: Model, obs: real, startTime: real, endTime: real, X: seq<real>)
    requires endTime >= startTime && BondsDefined(m, obs, X)
    ensures var g := AnnuityTimes(startTime, endTime).value;
      var annuity := Annuity(m, obs, X, g);
      && (At(SwapRate(m, obs, startTime, endTime), X).Some? <==> annuity != 0.0)
      && (annuity != 0.0 ==>
            At(SwapRate(m, obs, startTime, endTime), X).value * annuity
              == ZeroBondPayoff(m, X, obs, startTime) - ZeroBondPayoff(m, X, obs, endTime))
  {
    AnnuityTimesShape(startTime, endTime);
  }

  /** A swap whose start and end coincide has the one-point grid [start] and
      an empty annuity, so its rate is a division by zero. */
  lemma SwapRateOfEmptySwap(m: Model, obs: real, t: real, X: seq<real>)
    ensures AnnuityTimes(t, t) == Some([t])
    ensures At(SwapRate(m, obs, t, t), X).None?
  {
    var tmp := seq(1, k requires 0 <= k < 1 => t + k as real);
    assert tmp == [t];
  }
}
