/** Shared vocabulary of the model: an Option for the source's failure paths,
    Python/numpy conventions written out over `real` (int() truncation, ceil,
    slicing with negative bounds, linspace), and the elementwise sequence
    operations every component uses. */
module Common {

  /** `None` stands for a Python exception or a non-finite numpy result. */
  datatype Option<+T> = None | Some(value: T)

  /** Python's two-argument `max`. */
  function Max(a: real, b: real): (r: real)
    ensures r >= a && r >= b
    ensures r == a || r == b
  {
    if b > a then b else a
  }

  function Min(a: real, b: real): (r: real)
    ensures r <= a && r <= b
    ensures r == a || r == b
  {
    if b < a then b else a
  }

  function Abs(a: real): (r: real)
    ensures r >= 0.0
    ensures r == a || r == -a
  {
    if a < 0.0 then -a else a
  }

  /** Python's `int(r)` on a float: truncation toward zero. */
  function Trunc(r: real): (n: int)
    ensures r >= 0.0 ==> n >= 0 && n as real <= r < n as real + 1.0
    ensures r < 0.0 ==> n <= 0 && n as real - 1.0 < r <= n as real
  {
    if r >= 0.0 then r.Floor else -((-r).Floor)
  }

  /** `math.ceil(r)`: the least integer not below r. */
  function Ceil(r: real): (n: int)
    ensures n as real - 1.0 < r <= n as real
  {
    -((-r).Floor)
  }

  /** Sum accumulated left to right, as Python's `sum` and `+=` loops do. */
  function Sum(s: seq<real>): real
  {
    SumPrefix(s, |s|)
  }

  function SumPrefix(s: seq<real>, n: nat): real
    requires n <= |s|
  {
    if n == 0 then 0.0 else SumPrefix(s, n - 1) + s[n - 1]
  }

  /** Inner product `a.dot(b)` accumulated left to right. */
  function Dot(a: seq<real>, b: seq<real>): real
    requires |a| == |b|
  {
    DotPrefix(a, b, |a|)
  }

  /** The inner product of the first n entries. */
  function DotPrefix(a: seq<real>, b: seq<real>, n: nat): real
    requires n <= |a| == |b|
  {
    if n == 0 then 0.0 else DotPrefix(a, b, n - 1) + a[n - 1] * b[n - 1]
  }

  function Scale(k: real, s: seq<real>): (r: seq<real>)
    ensures |r| == |s| && forall i :: 0 <= i < |s| ==> r[i] == k * s[i]
  {
    seq(|s|, i requires 0 <= i < |s| => k * s[i])
  }

  function Add(a: seq<real>, b: seq<real>): (r: seq<real>)
    requires |a| == |b|
    ensures |r| == |a| && forall i :: 0 <= i < |a| ==> r[i] == a[i] + b[i]
  {
    seq(|a|, i requires 0 <= i < |a| => a[i] + b[i])
  }

  function Subtract(a: seq<real>, b: seq<real>): (r: seq<real>)
    requires |a| == |b|
    ensures |r| == |a| && forall i :: 0 <= i < |a| ==> r[i] == a[i] - b[i]
  {
    seq(|a|, i requires 0 <= i < |a| => a[i] - b[i])
  }

  /** `np.zeros(n)`. */
  function Zeros(n: nat): (r: seq<real>)
    ensures |r| == n && forall i :: 0 <= i < n ==> r[i] == 0.0
  {
    seq(n, _ => 0.0)
  }

  /** n copies of k. */
  function Constant(n: nat, k: real): (r: seq<real>)
    ensures |r| == n && forall i :: 0 <= i < n ==> r[i] == k
  {
    seq(n, _ => k)
  }

  /** `[max(U[j], H[j]) for j in range(len(U))]`: the value of holding the
      better of exercising and continuing, one entry per exercise value. */
  function PointwiseMax(u: seq<real>, h: seq<real>): (v: seq<real>)
    requires |h| >= |u|
    ensures |v| == |u|
    ensures forall j :: 0 <= j < |u| ==> v[j] >= u[j] && v[j] >= h[j]
    ensures forall j :: 0 <= j < |u| ==> v[j] == u[j] || v[j] == h[j]
  {
    seq(|u|, j requires 0 <= j < |u| => Max(u[j], h[j]))
  }

  /** `np.linspace(lo, hi, n)` over the reals: n points from lo, with the last
      one equal to hi when n >= 2. */
  function Linspace(lo: real, hi: real, n: nat): (r: seq<real>)
    ensures |r| == n
    ensures n >= 1 ==> r[0] == lo
    ensures n >= 2 ==> r[n - 1] == hi
    ensures n >= 2 ==> forall i :: 0 <= i < n - 1 ==> r[i + 1] - r[i] == (hi - lo) / (n - 1) as real
  {
    if n <= 1 then seq(n, _ => lo)
    else
      var step := (hi - lo) / (n - 1) as real;
      var r := seq(n, i requires 0 <= i < n => lo + (i as real) * step);
      assert r[n - 1] == hi by {
        assert (n - 1) as real * step == hi - lo;
      }
      r
  }

  /** lo plus i of the n - 1 equal steps from lo to hi. */
  function GridPoint(lo: real, hi: real, n: nat, i: nat): real
    requires 2 <= n
  {
    lo + (i as real) * ((hi - lo) / (n - 1) as real)
  }

  /** Point i of `Linspace` is the grid point i. */
  lemma LinspaceAt(lo: real, hi: real, n: nat, i: nat)
    requires 2 <= n && i < n
    ensures Linspace(lo, hi, n)[i] == GridPoint(lo, hi, n, i)
  {
  }

  /** Consecutive points of `Linspace` are one step apart. */
  lemma LinspaceEquallySpaced(lo: real, hi: real, n: nat)
    ensures var x := Linspace(lo, hi, n);
      forall i :: 0 < i < n ==> x[i] - x[i - 1] == x[1] - x[0]
  {
  }

  /** `Linspace(-w, w, n)` is symmetric about 0 for n >= 2. */
  lemma LinspaceSymmetric(width: real, n: nat)
    ensures var x := Linspace(-width, width, n);
      n >= 2 ==> forall i :: 0 <= i < n ==> x[i] + x[n - 1 - i] == 0.0
  {
    var x := Linspace(-width, width, n);
    if n >= 2 {
      forall i | 0 <= i < n
        ensures x[i] + x[n - 1 - i] == 0.0
      {
        LinspaceMirror(width, n, i);
      }
    }
  }

  lemma LinspaceMirror(width: real, n: nat, i: nat)
    requires 2 <= n && i < n
    ensures Linspace(-width, width, n)[i] + Linspace(-width, width, n)[n - 1 - i] == 0.0
  {
    LinspaceAt(-width, width, n, i);
    LinspaceAt(-width, width, n, n - 1 - i);
    MirroredPoints(width, n, i);
  }

  lemma MirroredPoints(width: real, n: nat, i: nat)
    requires 2 <= n && i < n
    ensures GridPoint(-width, width, n, i) + GridPoint(-width, width, n, n - 1 - i) == 0.0
  {
    var step := (width - -width) / (n - 1) as real;
    assert (i as real) * step + ((n - 1 - i) as real) * step == ((n - 1) as real) * step;
    assert ((n - 1) as real) * step == width - -width;
  }

  predicate Ascending(s: seq<real>)
  {
    forall i, j :: 0 <= i < j < |s| ==> s[i] < s[j]
  }

  predicate NonDecreasing(s: seq<real>)
  {
    forall i, j :: 0 <= i < j < |s| ==> s[i] <= s[j]
  }

  /** Python slice `s[i:]`, including negative i counted from the end. */
  function PySuffix<T>(s: seq<T>, i: int): (r: seq<T>)
    ensures i >= 0 ==> r == s[if i <= |s| then i else |s|..]
    ensures i < 0 ==> r == s[if -i <= |s| then |s| + i else 0..]
  {
    if i >= 0 then s[if i <= |s| then i else |s|..]
    else s[if -i <= |s| then |s| + i else 0..]
  }

  /** Python slice `s[:i]` for i >= 0. */
  function PyPrefix<T>(s: seq<T>, i: nat): (r: seq<T>)
    ensures |r| == (if i <= |s| then i else |s|)
    ensures forall k :: 0 <= k < |r| ==> r[k] == s[k]
  {
    s[..if i <= |s| then i else |s|]
  }

  function SeqMin(s: seq<real>): (m: real)
    requires |s| > 0
    ensures forall i :: 0 <= i < |s| ==> m <= s[i]
    ensures exists i :: 0 <= i < |s| && m == s[i]
  {
    if |s| == 1 then s[0]
    else
      var m := Min(SeqMin(s[..|s| - 1]), s[|s| - 1]);
      assert forall i :: 0 <= i < |s| - 1 ==> s[..|s| - 1][i] == s[i];
      m
  }

  function SeqMax(s: seq<real>): (m: real)
    requires |s| > 0
    ensures forall i :: 0 <= i < |s| ==> m >= s[i]
    ensures exists i :: 0 <= i < |s| && m == s[i]
  {
    if |s| == 1 then s[0]
    else
      var m := Max(SeqMax(s[..|s| - 1]), s[|s| - 1]);
      assert forall i :: 0 <= i < |s| - 1 ==> s[..|s| - 1][i] == s[i];
      m
  }

  /** The inner product is linear in its second argument; every linear
      combination the source forms (bond cash flows, regression
      coefficients) inherits this. */
  lemma DotLinear(a: seq<real>, b: seq<real>, c: seq<real>, k: real)
    requires |a| == |b| == |c|
    ensures Dot(a, Add(b, Scale(k, c))) == Dot(a, b) + k * Dot(a, c)
  {
    DotPrefixLinear(a, b, c, k, |a|);
  }

  lemma {:induction false} DotPrefixLinear(a: seq<real>, b: seq<real>, c: seq<real>, k: real, n: nat)
    requires n <= |a| == |b| == |c|
    ensures DotPrefix(a, Add(b, Scale(k, c)), n) == DotPrefix(a, b, n) + k * DotPrefix(a, c, n)
  {
    if n > 0 {
      DotPrefixLinear(a, b, c, k, n - 1);
      var i := n - 1;
      assert a[i] * (b[i] + k * c[i]) == a[i] * b[i] + k * (a[i] * c[i]);
    }
  }

  /** An inner product against all zeros vanishes. */
  lemma DotZeros(a: seq<real>)
    ensures Dot(a, Zeros(|a|)) == 0.0
  {
    DotPrefixZeros(a, |a|);
  }

  lemma {:induction false} DotPrefixZeros(a: seq<real>, n: nat)
    requires n <= |a|
    ensures DotPrefix(a, Zeros(|a|), n) == 0.0
  {
    if n > 0 {
      DotPrefixZeros(a, n - 1);
    }
  }

  // real-arithmetic facts the solver does not find on its own

  lemma NonNegativeProduct(a: real, b: real)
    ensures a >= 0.0 && b >= 0.0 ==> a * b >= 0.0
  {
  }

  lemma PositiveProduct(a: real, b: real)
    ensures a > 0.0 && b > 0.0 ==> a * b > 0.0
  {
  }

  lemma NonNegativeFactor(a: real, n: real)
    requires n > 0.0 && a * n >= 0.0
    ensures a >= 0.0
  {
  }

  lemma DivMul(a: real, b: real)
    requires b != 0.0
    ensures (a / b) * b == a
  {
  }
}
