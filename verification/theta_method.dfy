/** The tridiagonal linear algebra of the PDE solver: the Thomas algorithm
    (an LU factorisation without pivoting, then forward and back
    substitution) and one theta-scheme time step built on it.

    A tridiagonal matrix of size n is given by its three diagonals: `sub`
    (entries (i, i-1), length n-1), `diag` (length n) and `sup` (entries
    (i, i+1), length n-1), the layout of scipy's diags([l, c, u], [-1, 0, 1]). */
module ThetaMethod {
  import opened Common

  predicate Tridiagonal(sub: seq<real>, diag: seq<real>, sup: seq<real>)
  {
    |diag| >= 1 && |sub| == |diag| - 1 && |sup| == |diag| - 1
  }

  /** Row i of the product A x. */
  function TriRow(sub: seq<real>, diag: seq<real>, sup: seq<real>, x: seq<real>, i: nat): real
    requires Tridiagonal(sub, diag, sup) && |x| == |diag| && i < |diag|
  {
    (if i > 0 then sub[i - 1] * x[i - 1] else 0.0)
      + diag[i] * x[i]
      + (if i < |diag| - 1 then sup[i] * x[i + 1] else 0.0)
  }

  /** The matrix-vector product A x, the reference the solver is measured by. */
  function TriMul(sub: seq<real>, diag: seq<real>, sup: seq<real>, x: seq<real>): (r: seq<real>)
    requires Tridiagonal(sub, diag, sup) && |x| == |diag|
    ensures |r| == |diag|
    ensures forall i :: 0 <= i < |diag| ==> r[i] == TriRow(sub, diag, sup, x, i)
  {
    seq(|diag|, i requires 0 <= i < |diag| => TriRow(sub, diag, sup, x, i))
  }

  /** The pivots of Gaussian elimination without row exchanges:
      p_0 = diag[0], p_i = diag[i] - sup[i-1] m_{i-1}, with the multipliers
      m_j = sub[j] / p_j. A zero pivot stops the recurrence (what follows it
      is irrelevant, since the solver requires every pivot to be non-zero). */
  function Pivot(sub: seq<real>, diag: seq<real>, sup: seq<real>, i: nat): real
    requires Tridiagonal(sub, diag, sup) && i < |diag|
    decreases i, 1
  {
    if i == 0 then diag[0] else diag[i] - sup[i - 1] * Multiplier(sub, diag, sup, i - 1)
  }

  function Multiplier(sub: seq<real>, diag: seq<real>, sup: seq<real>, j: nat): real
    requires Tridiagonal(sub, diag, sup) && j < |sub|
    decreases j, 2
  {
    var p := Pivot(sub, diag, sup, j);
    if p == 0.0 then 0.0 else sub[j] / p
  }

  /** The source performs no check: every pivot must be non-zero for the
      factorisation to exist. */
  predicate PivotsNonZero(sub: seq<real>, diag: seq<real>, sup: seq<real>)
    requires Tridiagonal(sub, diag, sup)
  {
    forall i :: 0 <= i < |diag| ==> Pivot(sub, diag, sup, i) != 0.0
  }

  /** Row i of A x = y, from the substitution relations around it: with
      the multiplier l = a / p' and the pivot p = d - c' l, forward
      substitution gives z = y - l z' and back substitution gives
      p x + c xp = z and p' xm + c' x = z'. */
  lemma RowFromSubstitution(a: real, d: real, c: real, c': real, p': real, l: real,
                            xm: real, x: real, xp: real, z': real, z: real, y: real)
    requires l * p' == a
    requires z == y - l * z'
    requires (d - c' * l) * x + c * xp == z
    requires p' * xm + c' * x == z'
    ensures a * xm + d * x + c * xp == y
  {
    calc {
      y;
      z + l * z';
      (d - c' * l) * x + c * xp + l * (p' * xm + c' * x);
      d * x + c * xp + (l * p') * xm;
    }
  }

  /** The factorisation loop of solveTDS: for i = 1..n-1 the multiplier
      sub[i-1] / p_{i-1} overwrites sub[i-1] and the pivot p_i overwrites
      diag[i]; sup is not modified. */
  method Factorise(sub: seq<real>, diag: seq<real>, sup: seq<real>) returns (l: seq<real>, p: seq<real>)
    requires Tridiagonal(sub, diag, sup) && PivotsNonZero(sub, diag, sup)
    ensures |l| == |sub| && |p| == |diag|
    ensures forall j :: 0 <= j < |diag| ==> p[j] == Pivot(sub, diag, sup, j)
    ensures forall j :: 0 <= j < |sub| ==> l[j] == Multiplier(sub, diag, sup, j)
  {
    var n := |diag|;
    l, p := sub, diag;
    var i := 1;
    while i < n
      invariant 1 <= i <= n && |l| == n - 1 && |p| == n
      invariant forall j :: 0 <= j < i ==> p[j] == Pivot(sub, diag, sup, j)
      invariant forall j :: i <= j < n ==> p[j] == diag[j]
      invariant forall j :: 0 <= j < i - 1 ==> l[j] == Multiplier(sub, diag, sup, j)
      invariant forall j :: i - 1 <= j < n - 1 ==> l[j] == sub[j]
    {
      assert p[i - 1] == Pivot(sub, diag, sup, i - 1) != 0.0;
      l := l[i - 1 := l[i - 1] / p[i - 1]];
      p := p[i := p[i] - sup[i - 1] * l[i - 1]];
      i := i + 1;
    }
  }

  /** Row j of the forward substitution L z = y. */
  predicate ForwardAt(l: seq<real>, y: seq<real>, z: seq<real>, j: nat)
    requires |y| == |z| && |l| == |y| - 1 && j < |y|
  {
    if j == 0 then z[0] == y[0] else z[j] == y[j] - l[j - 1] * z[j - 1]
  }

  /** Row j of the back substitution U x = z, U with the pivots on its
      diagonal and sup above it. */
  predicate BackAt(p: seq<real>, sup: seq<real>, z: seq<real>, x: seq<real>, j: nat)
    requires |p| == |z| == |x| && |sup| == |p| - 1 && j < |p|
  {
    if j == |p| - 1 then p[j] * x[j] == z[j] else p[j] * x[j] + sup[j] * x[j + 1] == z[j]
  }

  /** Forward substitution: z_0 = y_0, z_i = y_i - l_{i-1} z_{i-1}. */
  method ForwardSubstitute(l: seq<real>, y: seq<real>) returns (z: seq<real>)
    requires |y| >= 1 && |l| == |y| - 1
    ensures |z| == |y|
    ensures forall j :: 0 <= j < |y| ==> ForwardAt(l, y, z, j)
  {
    var n := |y|;
    z := y;
    var i := 1;
    while i < n
      invariant 1 <= i <= n && |z| == n
      invariant forall j :: 0 <= j < i ==> ForwardAt(l, y, z, j)
      invariant forall j :: i <= j < n ==> z[j] == y[j]
    {
      ghost var before := z;
      z := z[i := y[i] - l[i - 1] * z[i - 1]];
      forall j | 0 <= j < i
        ensures ForwardAt(l, y, z, j)
      {
        assert ForwardAt(l, y, before, j);
      }
      i := i + 1;
    }
  }

  /** Back substitution: x_{n-1} = z_{n-1} / p_{n-1} and
      x_{i-1} = (z_{i-1} - sup_{i-1} x_i) / p_{i-1}. */
  method BackSubstitute(p: seq<real>, sup: seq<real>, z: seq<real>) returns (x: seq<real>)
    requires |p| >= 1 && |z| == |p| && |sup| == |p| - 1
    requires forall j :: 0 <= j < |p| ==> p[j] != 0.0
    ensures |x| == |p|
    ensures forall j :: 0 <= j < |p| ==> BackAt(p, sup, z, x, j)
  {
    var n := |p|;
    x := z[n - 1 := z[n - 1] / p[n - 1]];
    DivMul(z[n - 1], p[n - 1]);
    var i := n - 1;
    while i > 0
      invariant 0 <= i <= n - 1 && |x| == n
      invariant forall j :: i <= j < n ==> BackAt(p, sup, z, x, j)
    {
      ghost var before := x;
      x := x[i - 1 := (z[i - 1] - sup[i - 1] * x[i]) / p[i - 1]];
      DivMul(z[i - 1] - sup[i - 1] * x[i], p[i - 1]);
      forall j | i <= j < n
        ensures BackAt(p, sup, z, x, j)
      {
        assert BackAt(p, sup, z, before, j);
      }
      i := i - 1;
    }
  }

  /** `solveTDS(A, y)`: solves A x = y by the three phases above. The
      solution is handed back in place of the right-hand side. */
  method SolveTDS(sub: seq<real>, diag: seq<real>, sup: seq<real>, y: seq<real>) returns (x: seq<real>)
    requires Tridiagonal(sub, diag, sup) && |y| == |diag|
    requires PivotsNonZero(sub, diag, sup)
    ensures |x| == |diag|
    ensures TriMul(sub, diag, sup, x) == y
  {
    var l, p := Factorise(sub, diag, sup);
    var z := ForwardSubstitute(l, y);
    x := BackSubstitute(p, sup, z);
    forall r | 0 <= r < |diag|
      ensures TriRow(sub, diag, sup, x, r) == y[r]
    {
      if r > 0 {
        assert p[r - 1] == Pivot(sub, diag, sup, r - 1) != 0.0;
        assert l[r - 1] == Multiplier(sub, diag, sup, r - 1);
        assert p[r] == Pivot(sub, diag, sup, r);
      } else {
        assert p[0] == Pivot(sub, diag, sup, 0);
      }
      RowSolved(sub, diag, sup, l, p, z, x, y, r);
    }
  }

  /** Row r of A x = y, from the factorisation and both substitutions. */
  lemma RowSolved(sub: seq<real>, diag: seq<real>, sup: seq<real>, l: seq<real>, p: seq<real>,
                  z: seq<real>, x: seq<real>, y: seq<real>, r: nat)
    requires Tridiagonal(sub, diag, sup)
    requires |l| == |sub| && |p| == |z| == |x| == |y| == |diag| && r < |diag|
    requires r > 0 ==> p[r - 1] != 0.0
    requires r > 0 ==> l[r - 1] == sub[r - 1] / p[r - 1] && p[r] == diag[r] - sup[r - 1] * l[r - 1]
    requires r == 0 ==> p[0] == diag[0]
    requires ForwardAt(l, y, z, r) && BackAt(p, sup, z, x, r)
    requires r > 0 ==> BackAt(p, sup, z, x, r - 1)
    ensures TriRow(sub, diag, sup, x, r) == y[r]
  {
    var n := |diag|;
    var xp := if r < n - 1 then x[r + 1] else 0.0;
    var c := if r < n - 1 then sup[r] else 0.0;
    assert p[r] * x[r] + c * xp == z[r];
    if r > 0 {
      DivMul(sub[r - 1], p[r - 1]);
      RowFromSubstitution(sub[r - 1], diag[r], c, sup[r - 1], p[r - 1], l[r - 1],
                          x[r - 1], x[r], xp, z[r - 1], z[r], y[r]);
    }
  }

  /** 1 + k c for every diagonal entry. */
  function ShiftedDiagonal(k: real, c: seq<real>): (d: seq<real>)
    ensures |d| == |c| && forall i :: 0 <= i < |c| ==> d[i] == 1.0 + k * c[i]
  {
    seq(|c|, i requires 0 <= i < |c| => 1.0 + k * c[i])
  }

  /** One row of (I + k M) x against x + k (M x). */
  lemma ScaledRow(k: real, lo: real, d: real, x: real, hi: real)
    ensures k * lo + (1.0 + k * d) * x + k * hi == x + k * (lo + d * x + hi)
  {
  }

  lemma ScaledTriRow(l: seq<real>, c: seq<real>, u: seq<real>, k: real, x: seq<real>, i: nat)
    requires Tridiagonal(l, c, u) && |x| == |c| && i < |c|
    ensures Tridiagonal(Scale(k, l), ShiftedDiagonal(k, c), Scale(k, u))
    ensures TriRow(Scale(k, l), ShiftedDiagonal(k, c), Scale(k, u), x, i) == x[i] + k * TriRow(l, c, u, x, i)
  {
    var n := |c|;
    var lo := if i > 0 then l[i - 1] * x[i - 1] else 0.0;
    var hi := if i < n - 1 then u[i] * x[i + 1] else 0.0;
    if i > 0 {
      assert (k * l[i - 1]) * x[i - 1] == k * lo;
    }
    if i < n - 1 {
      assert (k * u[i]) * x[i + 1] == k * hi;
    }
    ScaledRow(k, lo, c[i], x[i], hi);
  }

  /** Row i of a solution of (I + k M) v = b. */
  lemma SolvedRow(l: seq<real>, c: seq<real>, u: seq<real>, k: real, v: seq<real>, b: seq<real>, i: nat)
    requires Tridiagonal(l, c, u) && |v| == |c| && i < |c|
    requires Tridiagonal(Scale(k, l), ShiftedDiagonal(k, c), Scale(k, u))
    requires TriMul(Scale(k, l), ShiftedDiagonal(k, c), Scale(k, u), v) == b
    ensures v[i] + k * TriRow(l, c, u, v, i) == b[i]
  {
    ScaledTriRow(l, c, u, k, v, i);
  }

  /** Row i of the explicit half: b = r - k (M r). */
  predicate ExplicitAt(l: seq<real>, c: seq<real>, u: seq<real>, k: real, r: seq<real>, b: seq<real>, i: nat)
    requires Tridiagonal(l, c, u) && |r| == |b| == |c| && i < |c|
  {
    b[i] == r[i] - k * TriRow(l, c, u, r, i)
  }

  /** Row i of the implicit half: v + k (M v) = b. */
  predicate ImplicitAt(l: seq<real>, c: seq<real>, u: seq<real>, k: real, v: seq<real>, b: seq<real>, i: nat)
    requires Tridiagonal(l, c, u) && |v| == |b| == |c| && i < |c|
  {
    v[i] + k * TriRow(l, c, u, v, i) == b[i]
  }

  /** `(I - k M).dot(r)`: the matrix I - k M is formed and applied to r;
      row by row this is r - k (M r). */
  method ExplicitPart(l: seq<real>, c: seq<real>, u: seq<real>, r: seq<real>, k: real) returns (b: seq<real>)
    requires Tridiagonal(l, c, u) && |r| == |c|
    ensures |b| == |c|
    ensures forall i :: 0 <= i < |c| ==> ExplicitAt(l, c, u, k, r, b, i)
  {
    b := TriMul(Scale(-k, l), ShiftedDiagonal(-k, c), Scale(-k, u), r);
    forall i | 0 <= i < |c|
      ensures ExplicitAt(l, c, u, k, r, b, i)
    {
      ScaledTriRow(l, c, u, -k, r, i);
    }
  }

  /** `solveTDS` applied to I + k M: solves v + k (M v) = b. */
  method ImplicitPart(l: seq<real>, c: seq<real>, u: seq<real>, b: seq<real>, k: real) returns (v: seq<real>)
    requires Tridiagonal(l, c, u) && |b| == |c|
    requires PivotsNonZero(Scale(k, l), ShiftedDiagonal(k, c), Scale(k, u))
    ensures |v| == |c|
    ensures forall i :: 0 <= i < |c| ==> ImplicitAt(l, c, u, k, v, b, i)
  {
    v := SolveTDS(Scale(k, l), ShiftedDiagonal(k, c), Scale(k, u), b);
    forall i | 0 <= i < |c|
      ensures ImplicitAt(l, c, u, k, v, b, i)
    {
      SolvedRow(l, c, u, k, v, b, i);
    }
  }

  /** Row i of the theta scheme: (v + h theta M v)_i = (r - h (1 - theta) M r)_i. */
  predicate ThetaRow(l: seq<real>, c: seq<real>, u: seq<real>, r: seq<real>, h: real, theta: real,
                     v: seq<real>, i: nat)
    requires Tridiagonal(l, c, u) && |r| == |v| == |c| && i < |c|
  {
    v[i] + (h * theta) * TriRow(l, c, u, v, i) == r[i] - (h * (1.0 - theta)) * TriRow(l, c, u, r, i)
  }

  /** The implicit matrix I + h theta M of a step with theta != 0 has
      non-zero pivots; an explicit step needs no solve. */
  predicate Factorisable(l: seq<real>, c: seq<real>, u: seq<real>, h: real, theta: real)
    requires Tridiagonal(l, c, u)
  {
    theta != 0.0 ==> PivotsNonZero(Scale(h * theta, l), ShiftedDiagonal(h * theta, c), Scale(h * theta, u))
  }

  /** v solves the theta scheme against r in every row. */
  predicate ThetaSolves(l: seq<real>, c: seq<real>, u: seq<real>, r: seq<real>, h: real, theta: real, v: seq<real>)
    requires Tridiagonal(l, c, u) && |r| == |c|
  {
    |v| == |c| && forall i :: 0 <= i < |c| ==> ThetaRow(l, c, u, r, h, theta, v, i)
  }

  /** `thetaStep(l, c, u, r, h, theta)`: v = [I + h theta M]^-1 [I - h (1 - theta) M] r
      for M = diags([l, c, u], [-1, 0, 1]), stated row by row; for theta = 0
      (explicit Euler) the right-hand side is returned without a solve. The
      implicit matrix must admit the factorisation, which the source does
      not check. */
  method ThetaStep(l: seq<real>, c: seq<real>, u: seq<real>, r: seq<real>, h: real, theta: real)
    returns (v: seq<real>)
    requires Tridiagonal(l, c, u) && |r| == |c|
    requires Factorisable(l, c, u, h, theta)
    ensures |v| == |c|
    ensures ThetaSolves(l, c, u, r, h, theta, v)
  {
    var b := ExplicitPart(l, c, u, r, h * (1.0 - theta));
    if theta == 0.0 {
      v := b;
      forall i | 0 <= i < |c|
        ensures ThetaRow(l, c, u, r, h, theta, v, i)
      {
        assert ExplicitAt(l, c, u, h * (1.0 - theta), r, b, i);
        assert h * (1.0 - theta) == h && h * theta == 0.0;
      }
      return;
    }
    v := ImplicitPart(l, c, u, b, h * theta);
    forall i | 0 <= i < |c|
      ensures ThetaRow(l, c, u, r, h, theta, v, i)
    {
      assert ExplicitAt(l, c, u, h * (1.0 - theta), r, b, i);
      assert ImplicitAt(l, c, u, h * theta, v, b, i);
    }
  }

  /** With theta = 0 the scheme is explicit Euler: v = r - h M r. */
  lemma ExplicitThetaStep(l: seq<real>, c: seq<real>, u: seq<real>, r: seq<real>, h: real, v: seq<real>)
    requires Tridiagonal(l, c, u) && |r| == |c|
    requires ThetaSolves(l, c, u, r, h, 0.0, v)
    ensures forall i :: 0 <= i < |c| ==> v[i] == r[i] - h * TriRow(l, c, u, r, i)
  {
    forall i | 0 <= i < |c|
      ensures v[i] == r[i] - h * TriRow(l, c, u, r, i)
    {
      assert ThetaRow(l, c, u, r, h, 0.0, v, i);
    }
  }
}
