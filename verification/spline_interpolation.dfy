/** Hermite cubic interpolation: `SplineInterpolation(x, y, g)` builds the
    piecewise cubic through the knots (x[i], y[i]) with slope g[i] at each
    knot, in scipy's PPoly form: on [x[i], x[i+1]] the polynomial
    c0 s^3 + c1 s^2 + c2 s + c3 in s = x - x[i]. */
module SplineInterpolation {
  import opened Common

  /** The four PPoly coefficients of one interval, highest power first. */
  datatype Cubic = Cubic(c0: real, c1: real, c2: real, c3: real)

  /** The cubic at offset s from the left knot. */
  function Eval(p: Cubic, s: real): real
  {
    ((p.c0 * s + p.c1) * s + p.c2) * s + p.c3
  }

  /** Its derivative at offset s. */
  function Slope(p: Cubic, s: real): real
  {
    (3.0 * p.c0 * s + 2.0 * p.c1) * s + p.c2
  }

  /** The knots are strictly increasing or strictly decreasing, as PPoly
      requires; equal neighbours would divide by zero. */
  predicate Monotone(x: seq<real>)
  {
    (forall i :: 0 <= i < |x| - 1 ==> x[i] < x[i + 1])
      || (forall i :: 0 <= i < |x| - 1 ==> x[i] > x[i + 1])
  }

  /** The quadratic and cubic coefficients in the unit variable t = s / dx,
      for dy = y[i+1] - y[i] and dx = x[i+1] - x[i]. */
  function A2(dy: real, dx: real, g0: real, g1: real): real
  {
    3.0 * dy - (2.0 * g0 + g1) * dx
  }

  function A3(dy: real, dx: real, g0: real, g1: real): real
  {
    -2.0 * dy + (g0 + g1) * dx
  }

  /** The cubic on interval i: a2 and a3 rescaled to s by dividing by dx^2
      and dx^3 (written as repeated division). */
  function Piece(x0: real, x1: real, y0: real, y1: real, g0: real, g1: real): (p: Cubic)
    requires x1 != x0
    ensures p.c2 == g0 && p.c3 == y0
  {
    var dx := x1 - x0;
    Cubic(A3(y1 - y0, dx, g0, g1) / dx / dx / dx, A2(y1 - y0, dx, g0, g1) / dx / dx, g0, y0)
  }

  /** `SplineInterpolation(x, y, g)`: one cubic per interval. None where
      numpy or PPoly raise: fewer than two knots, arrays of different
      lengths, knots that are not strictly monotone. */
  function Interpolation(x: seq<real>, y: seq<real>, g: seq<real>): (r: Option<seq<Cubic>>)
    ensures r.Some? <==> |x| >= 2 && |y| == |x| && |g| == |x| && Monotone(x)
    ensures r.Some? ==> |r.value| == |x| - 1
    ensures r.Some? ==> forall i :: 0 <= i < |x| - 1 ==> r.value[i].c3 == y[i] && r.value[i].c2 == g[i]
  {
    if |x| >= 2 && |y| == |x| && |g| == |x| && Monotone(x) then
      Some(seq(|x| - 1, i requires 0 <= i < |x| - 1 =>
        Piece(x[i], x[i + 1], y[i], y[i + 1], g[i], g[i + 1])))
    else None
  }

  /** Interval i of a successful interpolation. */
  lemma PieceOf(x: seq<real>, y: seq<real>, g: seq<real>, i: nat)
    requires Interpolation(x, y, g).Some? && i < |x| - 1
    ensures x[i + 1] != x[i]
    ensures Interpolation(x, y, g).value[i] == Piece(x[i], x[i + 1], y[i], y[i + 1], g[i], g[i + 1])
  {
    KnotsDistinct(x, i);
  }

  lemma KnotsDistinct(x: seq<real>, i: nat)
    requires Monotone(x) && i < |x| - 1
    ensures x[i + 1] != x[i]
  {
    assert x[i] < x[i + 1] || x[i] > x[i + 1];
  }

  /** The Hermite conditions on one interval: the cubic takes the knot
      values and the knot slopes at both ends. */
  lemma PieceInterpolates(x0: real, x1: real, y0: real, y1: real, g0: real, g1: real)
    requires x1 != x0
    ensures var p := Piece(x0, x1, y0, y1, g0, g1);
      && Eval(p, 0.0) == y0
      && Eval(p, x1 - x0) == y1
      && Slope(p, 0.0) == g0
      && Slope(p, x1 - x0) == g1
  {
    var dx := x1 - x0;
    var a2 := A2(y1 - y0, dx, g0, g1);
    var a3 := A3(y1 - y0, dx, g0, g1);
    var p := Piece(x0, x1, y0, y1, g0, g1);
    AtRightKnot(p, a3, a2, dx);
    assert a3 + a2 + g0 * dx + y0 == y1;
    assert 3.0 * a3 + 2.0 * a2 + g0 * dx == g1 * dx;
    CancelFactor(Slope(p, dx), g1, dx);
  }

  /** At the right knot the rescaling undoes itself: the cubic is
      a3 + a2 + c2 dx + c3, and dx times its slope is 3 a3 + 2 a2 + c2 dx. */
  lemma AtRightKnot(p: Cubic, a3: real, a2: real, dx: real)
    requires dx != 0.0 && p.c0 == a3 / dx / dx / dx && p.c1 == a2 / dx / dx
    ensures Eval(p, dx) == a3 + a2 + p.c2 * dx + p.c3
    ensures Slope(p, dx) * dx == 3.0 * a3 + 2.0 * a2 + p.c2 * dx
  {
    var c0, c1, c2 := p.c0, p.c1, p.c2;
    Rescaled(a3 / dx / dx, dx);
    Rescaled(a3 / dx, dx);
    Rescaled(a3, dx);
    Rescaled(a2 / dx, dx);
    Rescaled(a2, dx);
    assert c0 * dx == a3 / dx / dx;
    assert (c0 * dx + c1) * dx == a3 / dx + a2 / dx;
    assert ((c0 * dx + c1) * dx + c2) * dx == a3 + a2 + c2 * dx;
    assert 3.0 * c0 * dx == 3.0 * (a3 / dx / dx);
    assert (3.0 * c0 * dx + 2.0 * c1) * dx == 3.0 * (a3 / dx) + 2.0 * (a2 / dx);
    assert ((3.0 * c0 * dx + 2.0 * c1) * dx + c2) * dx == 3.0 * a3 + 2.0 * a2 + c2 * dx;
  }

  lemma Rescaled(a: real, d: real)
    requires d != 0.0
    ensures (a / d) * d == a
  {
  }

  lemma CancelFactor(a: real, b: real, d: real)
    requires d != 0.0 && a * d == b * d
    ensures a == b
  {
    assert (a - b) * d == 0.0;
  }

  /** Neighbouring pieces meet: the spline is continuous with a continuous
      derivative at every inner knot. */
  lemma PiecesJoin(x: seq<real>, y: seq<real>, g: seq<real>, i: nat)
    requires Interpolation(x, y, g).Some? && i + 2 < |x|
    ensures var c := Interpolation(x, y, g).value;
      && Eval(c[i], x[i + 1] - x[i]) == Eval(c[i + 1], 0.0)
      && Slope(c[i], x[i + 1] - x[i]) == Slope(c[i + 1], 0.0)
  {
    PieceOf(x, y, g, i);
    PieceOf(x, y, g, i + 1);
    PieceInterpolates(x[i], x[i + 1], y[i], y[i + 1], g[i], g[i + 1]);
    PieceInterpolates(x[i + 1], x[i + 2], y[i + 1], y[i + 2], g[i + 1], g[i + 2]);
  }

  /** Every interval of the interpolation satisfies the Hermite conditions. */
  lemma Interpolates(x: seq<real>, y: seq<real>, g: seq<real>, i: nat)
    requires Interpolation(x, y, g).Some? && i < |x| - 1
    ensures var p := Interpolation(x, y, g).value[i];
      && Eval(p, 0.0) == y[i]
      && Eval(p, x[i + 1] - x[i]) == y[i + 1]
      && Slope(p, 0.0) == g[i]
      && Slope(p, x[i + 1] - x[i]) == g[i + 1]
  {
    PieceOf(x, y, g, i);
    PieceInterpolates(x[i], x[i + 1], y[i], y[i + 1], g[i], g[i + 1]);
  }

  /** Data on a straight line with its slope at every knot gives pieces
      without quadratic or cubic term, reproducing the line exactly. */
  lemma LinearDataReproduced(x0: real, x1: real, alpha: real, beta: real, s: real)
    requires x1 != x0
    ensures var p := Piece(x0, x1, alpha + beta * x0, alpha + beta * x1, beta, beta);
      p.c0 == 0.0 && p.c1 == 0.0 && Eval(p, s) == alpha + beta * (x0 + s)
  {
    var dx := x1 - x0;
    var dy := (alpha + beta * x1) - (alpha + beta * x0);
    assert dy == beta * dx;
    var a2, a3 := A2(dy, dx, beta, beta), A3(dy, dx, beta, beta);
    assert a2 == 0.0 && a3 == 0.0;
    ZeroOver(a3, dx);
    ZeroOver(a3 / dx, dx);
    ZeroOver(a3 / dx / dx, dx);
    ZeroOver(a2, dx);
    ZeroOver(a2 / dx, dx);
  }

  lemma ZeroOver(a: real, d: real)
    requires a == 0.0 && d != 0.0
    ensures a / d == 0.0
  {
  }
}
