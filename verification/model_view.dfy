/** The part of a short-rate model object that the roll-back engines call.
    The engines only ever call these methods on their model (Python duck
    typing), so they are written against this record of functions; the
    Hull-White model is one instance of it. */
module ModelView {
  import opened Common
  import opened HullWhiteModel

  datatype View = View(
    sqrt: real -> real,
    /** varianceX(t, T) */
    varianceX: (real, real) -> real,
    /** expectationX(t, xt, T) */
    expectationX: (real, real, real) -> real,
    /** zeroBond(t, xt, T) */
    zeroBond: (real, real, real) -> real,
    /** forwardRate(t, xt, T) */
    forwardRate: (real, real, real) -> real,
    y: real -> real,
    /** The local volatility sigma(t); HullWhiteModel has no such method, so
        it is supplied separately. */
    sigma: real -> real,
    meanReversion: real,
    /** numeraire(X) of a simulated state X */
    numeraire: seq<real> -> real)

  /** The Hull-White model seen through the interface. Where the model's
      own method would fail (a zero discount factor at the observation time,
      a state with fewer than two components) the view answers 0. */
  function HullWhiteView(m: Model, sigma: real -> real): (v: View)
    requires m.WellFormed()
    ensures v.sqrt == m.sqrt && v.sigma == sigma && v.meanReversion == m.meanReversion
  {
    View(
      m.sqrt,
      (t: real, T: real) => VarianceX(m, t, T),
      (t: real, xt: real, T: real) => ExpectationX(m, t, xt, T),
      (t: real, xt: real, T: real) => if m.yieldCurve.discount(t) != 0.0 then ZeroBond(m, t, xt, T) else 0.0,
      (t: real, xt: real, T: real) => ForwardRate(m, t, xt, T),
      (t: real) => Y(m, t),
      sigma,
      m.meanReversion,
      (X: seq<real>) => if |X| >= 2 then Numeraire(m, X) else 0.0)
  }

  /** The view's methods are the model's, wherever the model's are defined. */
  lemma HullWhiteViewAgrees(m: Model, sigma: real -> real, t: real, xt: real, T: real, X: seq<real>)
    requires m.WellFormed()
    ensures var v := HullWhiteView(m, sigma);
      && v.varianceX(t, T) == VarianceX(m, t, T)
      && v.expectationX(t, xt, T) == ExpectationX(m, t, xt, T)
      && v.forwardRate(t, xt, T) == ForwardRate(m, t, xt, T)
      && v.y(t) == Y(m, t)
      && (m.yieldCurve.discount(t) != 0.0 ==> v.zeroBond(t, xt, T) == ZeroBond(m, t, xt, T))
      && (|X| >= 2 ==> v.numeraire(X) == Numeraire(m, X))
  {
  }
}
