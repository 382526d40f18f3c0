/** The linear terminal swap rate model: a swap rate fixing at T over a
    tenor dT with annual accruals, and the affine annuity mapping
    alpha(s, Tp) = slope(Tp) (s - S0) + P(Tp) / A that expresses a discount
    bond in terms of the swap rate s. */
module TerminalSwapRate {
  import opened Common

  /** `TerminalSwapRateModel(yieldCurve, T, dT)`; only the curve's
      `discount` is used. */
  datatype Tsr = Tsr(discount: real -> real, T: real, dT: real)

  /** `list(range(ceil(dT))) + [dT]`: the whole years before dT, then dT. */
  function Times(dT: real): (ts: seq<real>)
    ensures |ts| >= 1 && ts[|ts| - 1] == dT
  {
    var n := if Ceil(dT) > 0 then Ceil(dT) else 0;
    seq(n, k requires 0 <= k < n => k as real) + [dT]
  }

  /** The accrual fraction of period k of the grid. */
  function Tau(ts: seq<real>, k: nat): real
    requires 1 <= k < |ts|
  {
    ts[k] - ts[k - 1]
  }

  /** For dT > 0 the grid starts at 0, ends at dT and rises in steps of at
      most one year. */
  lemma TimesShape(dT: real)
    requires dT > 0.0
    ensures var ts := Times(dT);
      && ts[0] == 0.0 && ts[|ts| - 1] == dT
      && |ts| == Ceil(dT) + 1
      && (forall k :: 1 <= k < |ts| ==> 0.0 < Tau(ts, k) <= 1.0)
  {
    var ts := Times(dT);
    var n := Ceil(dT);
    assert n >= 1;
    forall k | 1 <= k < |ts|
      ensures 0.0 < Tau(ts, k) <= 1.0
    {
      if k < n {
        assert ts[k] == k as real && ts[k - 1] == (k - 1) as real;
      } else {
        assert ts[k] == dT && ts[k - 1] == (n - 1) as real;
      }
    }
  }

  // ------------------------------------------------------ sums over the accruals

  /** sum of tau_k f(t_k) for k = 1 .. n-1: every sum of the model is one. */
  function WeightedSum(ts: seq<real>, n: nat, f: real -> real): real
    requires 1 <= n <= |ts|
  {
    if n == 1 then 0.0 else WeightedSum(ts, n - 1, f) + Tau(ts, n - 1) * f(ts[n - 1])
  }

  /** The integrands of the model's sums, as named curves in the grid time. */
  function Unit(): real -> real
  {
    t => 1.0
  }

  function DiscountCurve(m: Tsr): real -> real
  {
    t => m.discount(m.T + t)
  }

  function Distance(dT: real): real -> real
  {
    t => dT - t
  }

  /** F = a G + b H, kept behind a name so that the sums' proofs do not
      expand the products. */
  predicate Lin(F: real, a: real, G: real, b: real, H: real)
  {
    F == a * G + b * H
  }

  /** A weighted sum is linear in its integrand. */
  lemma {:induction false} WeightedSumLinear(ts: seq<real>, n: nat, f: real -> real, g: real -> real, h: real -> real, a: real, b: real)
    requires 1 <= n <= |ts|
    requires forall k :: 0 <= k < |ts| ==> Lin(f(ts[k]), a, g(ts[k]), b, h(ts[k]))
    ensures Lin(WeightedSum(ts, n, f), a, WeightedSum(ts, n, g), b, WeightedSum(ts, n, h))
  {
    if n == 1 {
      LinearStep(0.0, 0.0, 0.0, 0.0, 0.0, 0.0, 0.0, 0.0, 0.0, 0.0, a, b);
    } else {
      WeightedSumLinear(ts, n - 1, f, g, h, a, b);
      LinearStep(WeightedSum(ts, n, f), WeightedSum(ts, n, g), WeightedSum(ts, n, h),
                 WeightedSum(ts, n - 1, f), WeightedSum(ts, n - 1, g), WeightedSum(ts, n - 1, h),
                 Tau(ts, n - 1), f(ts[n - 1]), g(ts[n - 1]), h(ts[n - 1]), a, b);
    }
  }

  /** One step of the induction: adding tau (a g + b h) to a G + b H. */
  lemma LinearStep(F': real, G': real, H': real, F: real, G: real, H: real,
                   tau: real, f: real, g: real, h: real, a: real, b: real)
    requires Lin(F, a, G, b, H) && Lin(f, a, g, b, h)
    requires F' == F + tau * f && G' == G + tau * g && H' == H + tau * h
    ensures Lin(F', a, G', b, H')
  {
  }

  /** Positive accruals and a positive integrand give a positive sum. */
  lemma {:induction false} WeightedSumPositive(ts: seq<real>, n: nat, f: real -> real)
    requires 2 <= n <= |ts|
    requires forall k :: 1 <= k < |ts| ==> Tau(ts, k) > 0.0
    requires forall k :: 0 <= k < |ts| ==> f(ts[k]) > 0.0
    ensures WeightedSum(ts, n, f) > 0.0
  {
    PositiveProduct(Tau(ts, n - 1), f(ts[n - 1]));
    if n > 2 {
      WeightedSumPositive(ts, n - 1, f);
    }
  }

  /** `annuity()`: sum of tau_k P(T + t_k). */
  function Annuity(m: Tsr): real
  {
    WeightedSum(Times(m.dT), |Times(m.dT)|, DiscountCurve(m))
  }

  /** `fwdRate()`: float leg over annuity; a zero annuity raises. */
  function FwdRate(m: Tsr): (r: Option<real>)
    ensures r.Some? <==> Annuity(m) != 0.0
    ensures r.Some? ==> r.value * Annuity(m) == 1.0 - m.discount(m.T + m.dT)
  {
    if Annuity(m) == 0.0 then None else Some((1.0 - m.discount(m.T + m.dT)) / Annuity(m))
  }

  /** The accruals telescope to the length of the grid. */
  lemma {:induction false} AccrualTelescopes(ts: seq<real>, n: nat)
    requires 1 <= n <= |ts|
    ensures WeightedSum(ts, n, Unit()) == ts[n - 1] - ts[0]
  {
    if n > 1 {
      AccrualTelescopes(ts, n - 1);
    }
  }

  /** The accrual fractions add up to the tenor. */
  lemma AccrualsSumToTenor(dT: real)
    requires dT > 0.0
    ensures WeightedSum(Times(dT), |Times(dT)|, Unit()) == dT
  {
    TimesShape(dT);
    AccrualTelescopes(Times(dT), |Times(dT)|);
  }

  /** With positive discount factors the annuity is positive, so the forward
      swap rate is defined. */
  lemma AnnuityPositive(m: Tsr)
    requires m.dT > 0.0
    requires forall k :: 0 <= k < |Times(m.dT)| ==> m.discount(m.T + Times(m.dT)[k]) > 0.0
    ensures Annuity(m) > 0.0 && FwdRate(m).Some?
  {
    var ts := Times(m.dT);
    TimesShape(m.dT);
    forall k | 0 <= k < |ts|
      ensures DiscountCurve(m)(ts[k]) > 0.0
    {
    }
    WeightedSumPositive(ts, |ts|, DiscountCurve(m));
  }

  // ------------------------------------------------------ slope and alpha

  /** v = - sum tau_k (dT - t_k) / dT^2 (the square written as two
      divisions). */
  function SlopeOffset(m: Tsr): real
    requires m.dT != 0.0
  {
    -(WeightedSum(Times(m.dT), |Times(m.dT)|, Distance(m.dT)) / m.dT / m.dT)
  }

  /** `slope(Tp)` where it is defined. */
  function SlopeAt(m: Tsr, Tp: real): real
    requires m.dT != 0.0
  {
    (1.0 / m.dT) * (m.T + m.dT - Tp) + SlopeOffset(m)
  }

  /** `slope(Tp)`: 1 / dT raises for dT = 0. */
  function Slope(m: Tsr, Tp: real): (r: Option<real>)
    ensures r.Some? <==> m.dT != 0.0
    ensures r.Some? ==> r.value == SlopeAt(m, Tp)
  {
    if m.dT == 0.0 then None else Some(SlopeAt(m, Tp))
  }

  /** The slope falls by 1/dT per unit of Tp: it is affine with value
      v + 1 at the fixing time and v at the end of the swap. */
  lemma SlopeAffine(m: Tsr, Tp: real, Tq: real)
    requires m.dT != 0.0
    ensures SlopeAt(m, Tp) - SlopeAt(m, Tq) == (Tq - Tp) / m.dT
    ensures SlopeAt(m, m.T) == 1.0 + SlopeOffset(m)
    ensures SlopeAt(m, m.T + m.dT) == SlopeOffset(m)
  {
    assert (1.0 / m.dT) * (m.T + m.dT - Tp) - (1.0 / m.dT) * (m.T + m.dT - Tq) == (1.0 / m.dT) * (Tq - Tp);
    assert (1.0 / m.dT) * m.dT == 1.0;
  }

  /** `alpha(s, Tp)` where it is defined. */
  function AlphaAt(m: Tsr, s: real, Tp: real): real
    requires m.dT != 0.0 && Annuity(m) != 0.0
  {
    SlopeAt(m, Tp) * (s - FwdRate(m).value) + m.discount(Tp) / Annuity(m)
  }

  /** `alpha(s, Tp)`: fails where slope or fwdRate divide by zero. */
  function Alpha(m: Tsr, s: real, Tp: real): (r: Option<real>)
    ensures r.Some? <==> m.dT != 0.0 && Annuity(m) != 0.0
    ensures r.Some? ==> r.value == AlphaAt(m, s, Tp)
  {
    if m.dT == 0.0 || Annuity(m) == 0.0 then None else Some(AlphaAt(m, s, Tp))
  }

  /** At the forward swap rate the mapping is the bond over the annuity. */
  lemma AlphaAtForward(m: Tsr, Tp: real)
    requires m.dT != 0.0 && Annuity(m) != 0.0
    ensures Alpha(m, FwdRate(m).value, Tp).Some?
    ensures Alpha(m, FwdRate(m).value, Tp).value == m.discount(Tp) / Annuity(m)
  {
    ZeroSpread(SlopeAt(m, Tp), FwdRate(m).value);
  }

  lemma ZeroSpread(sigma: real, F: real)
    ensures sigma * (F - F) == 0.0
  {
  }

  /** `convexityAdjustmentFactor(Tp)`: slope times annuity over the bond;
      None where the bond is 0 or slope fails. */
  function ConvexityAdjustmentFactor(m: Tsr, Tp: real): (r: Option<real>)
    ensures r.Some? <==> m.dT != 0.0 && m.discount(Tp) != 0.0
    ensures r.Some? ==> r.value * m.discount(Tp) == SlopeAt(m, Tp) * Annuity(m)
  {
    if m.dT == 0.0 || m.discount(Tp) == 0.0 then None
    else
      DivMul(SlopeAt(m, Tp) * Annuity(m), m.discount(Tp));
      Some(SlopeAt(m, Tp) * Annuity(m) / m.discount(Tp))
  }

  /** slope(T + t) and alpha(s, T + t) as curves in the grid time. */
  function SlopeCurve(m: Tsr): real -> real
    requires m.dT != 0.0
  {
    t => SlopeAt(m, m.T + t)
  }

  function AlphaCurve(m: Tsr, s: real): real -> real
    requires m.dT != 0.0 && Annuity(m) != 0.0
  {
    t => AlphaAt(m, s, m.T + t)
  }

  /** The slopes weighted by the accruals cancel: the annuity mapping does
      not move the annuity itself. */
  lemma SlopesCancel(m: Tsr)
    requires m.dT > 0.0
    ensures WeightedSum(Times(m.dT), |Times(m.dT)|, SlopeCurve(m)) == 0.0
  {
    var ts := Times(m.dT);
    var n := |ts|;
    forall k | 0 <= k < |ts|
      ensures Lin(SlopeCurve(m)(ts[k]), 1.0 / m.dT, Distance(m.dT)(ts[k]), SlopeOffset(m), Unit()(ts[k]))
    {
      SlopeOnGrid(m, ts[k]);
    }
    WeightedSumLinear(ts, n, SlopeCurve(m), Distance(m.dT), Unit(), 1.0 / m.dT, SlopeOffset(m));
    AccrualsSumToTenor(m.dT);
    OffsetCancels(WeightedSum(ts, n, SlopeCurve(m)), WeightedSum(ts, n, Distance(m.dT)),
                  WeightedSum(ts, n, Unit()), m.dT);
  }

  /** slope(T + t) is 1/dT times the time left to the swap's end, plus v. */
  lemma SlopeOnGrid(m: Tsr, t: real)
    requires m.dT != 0.0
    ensures Lin(SlopeAt(m, m.T + t), 1.0 / m.dT, m.dT - t, SlopeOffset(m), 1.0)
  {
    assert m.T + m.dT - (m.T + t) == m.dT - t;
  }

  lemma OffsetCancels(S: real, W: real, C: real, dT: real)
    requires dT != 0.0 && C == dT && Lin(S, 1.0 / dT, W, -(W / dT / dT), C)
    ensures S == 0.0
  {
    assert (W / dT / dT) * dT == W / dT;
    assert (1.0 / dT) * W == W / dT;
  }

  /** The mapping weights sum to one whatever the swap rate: the annuity
      maps to itself. */
  lemma AlphasSumToOne(m: Tsr, s: real)
    requires m.dT > 0.0 && Annuity(m) != 0.0
    ensures WeightedSum(Times(m.dT), |Times(m.dT)|, AlphaCurve(m, s)) == 1.0
  {
    var ts := Times(m.dT);
    var n := |ts|;
    var c := s - FwdRate(m).value;
    forall k | 0 <= k < |ts|
      ensures Lin(AlphaCurve(m, s)(ts[k]), c, SlopeCurve(m)(ts[k]), 1.0 / Annuity(m), DiscountCurve(m)(ts[k]))
    {
      Regrouped(SlopeAt(m, m.T + ts[k]), c, m.discount(m.T + ts[k]), Annuity(m));
    }
    WeightedSumLinear(ts, n, AlphaCurve(m, s), SlopeCurve(m), DiscountCurve(m), c, 1.0 / Annuity(m));
    SlopesCancel(m);
    Normalised(WeightedSum(ts, n, AlphaCurve(m, s)), c, WeightedSum(ts, n, SlopeCurve(m)),
               WeightedSum(ts, n, DiscountCurve(m)), Annuity(m));
  }

  lemma Regrouped(sigma: real, c: real, p: real, A: real)
    requires A != 0.0
    ensures Lin(sigma * c + p / A, c, sigma, 1.0 / A, p)
  {
  }

  lemma Normalised(S: real, c: real, Z: real, B: real, A: real)
    requires A != 0.0 && Z == 0.0 && B == A && Lin(S, c, Z, 1.0 / A, B)
    ensures S == 1.0
  {
  }
}
