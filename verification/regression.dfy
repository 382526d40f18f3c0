/** Polynomial regression used by the Monte Carlo solver for its exercise
    decision: the enumeration of multi-indices of bounded total degree, the
    monomial basis they define, and the fitted value. The least-squares fit
    itself is a collaborator passed in as a function. */
module Regression {
  import opened Common

  /** `MultiIndexSet(n, k)`: all length-n tuples of naturals whose entries sum
      to at most k - 1, the first entry running over range(k) outermost and
      the rest enumerated recursively with the remaining budget. */
  function MultiIndexSet(n: nat, k: nat): seq<seq<nat>>
    requires n >= 1
    decreases n, 1, 0
  {
    if n == 1 then seq(k, i requires 0 <= i < k => [i])
    else MultiIndexSetFrom(n, k, 0)
  }

  /** The part of MultiIndexSet(n, k), n >= 2, whose first entry is at least i. */
  function MultiIndexSetFrom(n: nat, k: nat, i: nat): seq<seq<nat>>
    requires n >= 2
    decreases n, 0, k - i
  {
    if i >= k then []
    else Prepend(i, MultiIndexSet(n - 1, k - i)) + MultiIndexSetFrom(n, k, i + 1)
  }

  /** `[[i] + s for s in ss]`. */
  function Prepend(i: nat, ss: seq<seq<nat>>): (r: seq<seq<nat>>)
    ensures |r| == |ss| && forall j :: 0 <= j < |ss| ==> r[j] == [i] + ss[j]
  {
    seq(|ss|, j requires 0 <= j < |ss| => [i] + ss[j])
  }

  /** Total degree of a multi-index. */
  function Degree(t: seq<nat>): nat
  {
    if |t| == 0 then 0 else t[0] + Degree(t[1..])
  }

  /** Strict lexicographic order on tuples. */
  predicate LexLess(a: seq<nat>, b: seq<nat>)
  {
    |a| > 0 && |b| > 0 && (a[0] < b[0] || (a[0] == b[0] && LexLess(a[1..], b[1..])))
  }

  predicate LexAscending(s: seq<seq<nat>>)
  {
    forall i, j :: 0 <= i < j < |s| ==> LexLess(s[i], s[j])
  }

  function Binomial(a: nat, b: nat): nat
  {
    if b == 0 then 1
    else if a == 0 then 0
    else Binomial(a - 1, b - 1) + Binomial(a - 1, b)
  }

  // membership: exactly the tuples of length n and degree below k

  lemma {:induction false} MultiIndexSetSound(n: nat, k: nat, t: seq<nat>)
    requires n >= 1 && t in MultiIndexSet(n, k)
    ensures |t| == n && Degree(t) < k
    decreases n, 1, 0
  {
    if n == 1 {
      var i :| 0 <= i < k && t == [i];
      assert t[1..] == [];
    } else {
      MultiIndexSetFromSound(n, k, 0, t);
    }
  }

  lemma {:induction false} MultiIndexSetFromSound(n: nat, k: nat, i: nat, t: seq<nat>)
    requires n >= 2 && t in MultiIndexSetFrom(n, k, i)
    ensures |t| == n && Degree(t) < k && t[0] >= i
    decreases n, 0, k - i
  {
    var head := Prepend(i, MultiIndexSet(n - 1, k - i));
    if t in head {
      var j :| 0 <= j < |head| && head[j] == t;
      var s := MultiIndexSet(n - 1, k - i)[j];
      MultiIndexSetSound(n - 1, k - i, s);
      assert t[1..] == s;
    } else {
      MultiIndexSetFromSound(n, k, i + 1, t);
    }
  }

  lemma {:induction false} MultiIndexSetComplete(n: nat, k: nat, t: seq<nat>)
    requires n >= 1 && |t| == n && Degree(t) < k
    ensures t in MultiIndexSet(n, k)
    decreases n, 1, 0
  {
    if n == 1 {
      assert t[1..] == [];
      assert MultiIndexSet(1, k)[t[0]] == t;
    } else {
      assert t[0] < k;
      MultiIndexSetFromComplete(n, k, 0, t);
    }
  }

  lemma {:induction false} MultiIndexSetFromComplete(n: nat, k: nat, i: nat, t: seq<nat>)
    requires n >= 2 && |t| == n && Degree(t) < k && i <= t[0]
    ensures t in MultiIndexSetFrom(n, k, i)
    decreases n, 0, k - i
  {
    if t[0] == i {
      var s := t[1..];
      MultiIndexSetComplete(n - 1, k - i, s);
      var ss := MultiIndexSet(n - 1, k - i);
      var j :| 0 <= j < |ss| && ss[j] == s;
      assert Prepend(i, ss)[j] == [i] + s == t;
    } else {
      MultiIndexSetFromComplete(n, k, i + 1, t);
    }
  }

  /** A tuple belongs to MultiIndexSet(n, k) exactly when it has length n and
      total degree at most k - 1. */
  lemma MultiIndexSetMembership(n: nat, k: nat, t: seq<nat>)
    requires n >= 1
    ensures t in MultiIndexSet(n, k) <==> |t| == n && Degree(t) < k
  {
    if t in MultiIndexSet(n, k) {
      MultiIndexSetSound(n, k, t);
    }
    if |t| == n && Degree(t) < k {
      MultiIndexSetComplete(n, k, t);
    }
  }

  // order and uniqueness

  lemma LexLessIrreflexive(a: seq<nat>)
    ensures !LexLess(a, a)
  {
    if |a| > 0 {
      LexLessIrreflexive(a[1..]);
    }
  }

  lemma {:induction false} MultiIndexSetAscending(n: nat, k: nat)
    requires n >= 1
    ensures LexAscending(MultiIndexSet(n, k))
    decreases n, 1, 0
  {
    if n == 1 {
      var s := MultiIndexSet(1, k);
      forall i, j | 0 <= i < j < |s|
        ensures LexLess(s[i], s[j])
      {
        assert s[i][0] == i && s[j][0] == j;
      }
    } else {
      MultiIndexSetFromAscending(n, k, 0);
    }
  }

  lemma {:induction false} MultiIndexSetFromAscending(n: nat, k: nat, i: nat)
    requires n >= 2
    ensures LexAscending(MultiIndexSetFrom(n, k, i))
    decreases n, 0, k - i
  {
    if i < k {
      var inner := MultiIndexSet(n - 1, k - i);
      var head := Prepend(i, inner);
      var rest := MultiIndexSetFrom(n, k, i + 1);
      var s := head + rest;
      MultiIndexSetAscending(n - 1, k - i);
      MultiIndexSetFromAscending(n, k, i + 1);
      forall p, q | 0 <= p < q < |s|
        ensures LexLess(s[p], s[q])
      {
        if q < |head| {
          assert s[p] == [i] + inner[p] && s[q] == [i] + inner[q];
          assert s[p][1..] == inner[p] && s[q][1..] == inner[q];
          MultiIndexSetSound(n - 1, k - i, inner[p]);
          MultiIndexSetSound(n - 1, k - i, inner[q]);
        } else if p < |head| {
          assert s[q] == rest[q - |head|] && s[q] in rest;
          MultiIndexSetFromSound(n, k, i + 1, s[q]);
          assert s[p] == [i] + inner[p];
        } else {
          assert s[p] == rest[p - |head|] && s[q] == rest[q - |head|];
        }
      }
    }
  }

  /** MultiIndexSet(n, k) comes in strictly ascending lexicographic order,
      so no tuple appears twice. */
  lemma MultiIndexSetDistinct(n: nat, k: nat)
    requires n >= 1
    ensures LexAscending(MultiIndexSet(n, k))
    ensures var s := MultiIndexSet(n, k);
      forall i, j :: 0 <= i < j < |s| ==> s[i] != s[j]
  {
    MultiIndexSetAscending(n, k);
    var s := MultiIndexSet(n, k);
    forall i, j | 0 <= i < j < |s|
      ensures s[i] != s[j]
    {
      LexLessIrreflexive(s[i]);
    }
  }

  // size

  lemma {:induction false} BinomialBelow(a: nat, b: nat)
    requires a < b
    ensures Binomial(a, b) == 0
  {
    if a > 0 {
      BinomialBelow(a - 1, b - 1);
      BinomialBelow(a - 1, b);
    }
  }

  lemma {:induction false} BinomialOne(a: nat)
    ensures Binomial(a, 1) == a
  {
    if a > 0 {
      BinomialOne(a - 1);
    }
  }

  /** MultiIndexSet(n, k) has binomial(n + k - 1, n) elements. */
  lemma {:induction false} MultiIndexSetSize(n: nat, k: nat)
    requires n >= 1
    ensures |MultiIndexSet(n, k)| == Binomial(n + k - 1, n)
    decreases n, 1, 0
  {
    if n == 1 {
      BinomialOne(k);
    } else {
      MultiIndexSetFromSize(n, k, 0);
    }
  }

  lemma {:induction false} MultiIndexSetFromSize(n: nat, k: nat, i: nat)
    requires n >= 2 && i <= k
    ensures |MultiIndexSetFrom(n, k, i)| == Binomial(n + k - i - 1, n)
    decreases n, 0, k - i
  {
    if i == k {
      BinomialBelow(n - 1, n);
    } else {
      MultiIndexSetSize(n - 1, k - i);
      MultiIndexSetFromSize(n, k, i + 1);
      assert n + k - i - 1 - 1 == (n - 1) + (k - i) - 1 == n + k - (i + 1) - 1;
    }
  }

  /** The first tuple is all zeros whenever the set is not empty. */
  lemma {:induction false} MultiIndexSetStartsAtZero(n: nat, k: nat)
    requires n >= 1 && k >= 1
    ensures |MultiIndexSet(n, k)| >= 1 && MultiIndexSet(n, k)[0] == seq(n, _ => 0)
    decreases n
  {
    if n > 1 {
      MultiIndexSetStartsAtZero(n - 1, k);
      assert MultiIndexSetFrom(n, k, 0)[0] == [0] + seq(n - 1, _ => 0);
    }
  }

  /** The example of the source's test script: MultiIndexSet(2, 3). */
  lemma MultiIndexSetTwoThree()
    ensures MultiIndexSet(2, 3) == [[0, 0], [0, 1], [0, 2], [1, 0], [1, 1], [2, 0]]
  {
    var s1, s2, s3 := MultiIndexSet(1, 1), MultiIndexSet(1, 2), MultiIndexSet(1, 3);
    assert s1 == [[0]] && s2 == [[0], [1]] && s3 == [[0], [1], [2]];
    var p2, p1, p0 := Prepend(2, s1), Prepend(1, s2), Prepend(0, s3);
    assert p2 == [[2, 0]] by {
      assert [2] + [0] == [2, 0];
      assert p2[0] == [2, 0];
    }
    assert p1 == [[1, 0], [1, 1]] by {
      assert [1] + [0] == [1, 0] && [1] + [1] == [1, 1];
      assert p1[0] == [1, 0] && p1[1] == [1, 1];
    }
    assert p0 == [[0, 0], [0, 1], [0, 2]] by {
      assert [0] + [0] == [0, 0] && [0] + [1] == [0, 1] && [0] + [2] == [0, 2];
      assert p0[0] == [0, 0] && p0[1] == [0, 1] && p0[2] == [0, 2];
    }
    assert MultiIndexSetFrom(2, 3, 3) == [];
    assert MultiIndexSetFrom(2, 3, 2) == p2;
    assert MultiIndexSetFrom(2, 3, 1) == p1 + p2;
    assert MultiIndexSetFrom(2, 3, 0) == p0 + (p1 + p2);
  }

  // the monomial basis

  function Power(b: real, e: nat): real
  {
    if e == 0 then 1.0 else Power(b, e - 1) * b
  }

  /** control[0]^idx[0] * ... * control[j-1]^idx[j-1], multiplied up from 1. */
  function MonomialPrefix(control: seq<real>, idx: seq<nat>, j: nat): real
    requires j <= |idx| <= |control|
  {
    if j == 0 then 1.0 else MonomialPrefix(control, idx, j - 1) * Power(control[j - 1], idx[j - 1])
  }

  /** The monomial prod_j control[j]^idx[j]. */
  function Monomial(control: seq<real>, idx: seq<nat>): real
    requires |idx| <= |control|
  {
    MonomialPrefix(control, idx, |idx|)
  }

  predicate Rectangular(multiIdxSet: seq<seq<nat>>, width: nat)
  {
    forall i :: 0 <= i < |multiIdxSet| ==> |multiIdxSet[i]| == width
  }

  /** `monomials(control)`: starts from ones and multiplies in one factor per
      entry of each multi-index. */
  method Monomials(multiIdxSet: seq<seq<nat>>, width: nat, control: seq<real>) returns (x: seq<real>)
    requires Rectangular(multiIdxSet, width) && |control| >= width
    ensures |x| == |multiIdxSet|
    ensures forall i :: 0 <= i < |x| ==> x[i] == Monomial(control, multiIdxSet[i])
  {
    x := seq(|multiIdxSet|, _ => 1.0);
    var i := 0;
    while i < |multiIdxSet|
      invariant 0 <= i <= |multiIdxSet| && |x| == |multiIdxSet|
      invariant forall p :: 0 <= p < i ==> x[p] == Monomial(control, multiIdxSet[p])
      invariant forall p :: i <= p < |x| ==> x[p] == 1.0
    {
      var j := 0;
      while j < width
        invariant 0 <= j <= width && |x| == |multiIdxSet|
        invariant x[i] == MonomialPrefix(control, multiIdxSet[i], j)
        invariant forall p :: 0 <= p < i ==> x[p] == Monomial(control, multiIdxSet[p])
        invariant forall p :: i < p < |x| ==> x[p] == 1.0
      {
        x := x[i := x[i] * Power(control[j], multiIdxSet[i][j])];
        j := j + 1;
      }
      i := i + 1;
    }
  }

  /** The basis as a function: one monomial per multi-index. */
  function MonomialsOf(multiIdxSet: seq<seq<nat>>, width: nat, control: seq<real>): (x: seq<real>)
    requires Rectangular(multiIdxSet, width) && |control| >= width
    ensures |x| == |multiIdxSet|
  {
    seq(|multiIdxSet|, i requires 0 <= i < |multiIdxSet| => Monomial(control, multiIdxSet[i]))
  }

  /** The all-zero multi-index gives the constant basis function 1. */
  lemma {:induction false} MonomialOfZeros(control: seq<real>, n: nat, j: nat)
    requires j <= n <= |control|
    ensures MonomialPrefix(control, seq(n, _ => 0), j) == 1.0
  {
    if j > 0 {
      MonomialOfZeros(control, n, j - 1);
    }
  }

  // the fitted regression

  /** `lstsq(A, b)`: a least-squares solver the model does not look into. */
  type LeastSquares = (seq<seq<real>>, seq<real>) -> seq<real>

  datatype Fit = Fit(maxPolynomialDegree: nat, width: nat, multiIdxSet: seq<seq<nat>>, beta: seq<real>)

  /** `Regression(controls, observations, maxPolynomialDegree)`: basis of
      total degree up to maxPolynomialDegree in as many variables as controls
      has columns, coefficients from lstsq on the design matrix. None when
      controls has no rows or no columns, or ragged rows (numpy cannot form
      the matrix or the enumeration does not terminate), and when the
      observations do not match the rows (lstsq raises). */
  function NewRegression(controls: seq<seq<real>>, observations: seq<real>, maxPolynomialDegree: nat,
                         lstsq: LeastSquares): (r: Option<Fit>)
    ensures r.Some? <==> |controls| >= 1 && |controls[0]| >= 1
                         && (forall c :: 0 <= c < |controls| ==> |controls[c]| == |controls[0]|)
                         && |observations| == |controls|
    ensures r.Some? ==> var n := |controls[0]|;
      && r.value.width == n
      && r.value.multiIdxSet == MultiIndexSet(n, maxPolynomialDegree + 1)
      && (forall t :: t in r.value.multiIdxSet <==> |t| == n && Degree(t) <= maxPolynomialDegree)
  {
    if |controls| == 0 || |controls[0]| == 0 then None
    else if exists c :: 0 <= c < |controls| && |controls[c]| != |controls[0]| then None
    else if |observations| != |controls| then None
    else
      var n := |controls[0]|;
      var mis := MultiIndexSet(n, maxPolynomialDegree + 1);
      assert Rectangular(mis, n) by {
        forall i | 0 <= i < |mis| ensures |mis[i]| == n {
          MultiIndexSetSound(n, maxPolynomialDegree + 1, mis[i]);
        }
      }
      assert forall t :: t in mis <==> |t| == n && Degree(t) <= maxPolynomialDegree by {
        forall t ensures t in mis <==> |t| == n && Degree(t) <= maxPolynomialDegree {
          MultiIndexSetMembership(n, maxPolynomialDegree + 1, t);
        }
      }
      var A := seq(|controls|, c requires 0 <= c < |controls| => MonomialsOf(mis, n, controls[c]));
      Some(Fit(maxPolynomialDegree, n, mis, lstsq(A, observations)))
  }

  /** `value(control)`: the basis at control against the coefficients. None
      when control is too short or beta does not match the basis (numpy
      raises). */
  function Value(f: Fit, control: seq<real>): Option<real>
  {
    if !Rectangular(f.multiIdxSet, f.width) || |control| < f.width || |f.beta| != |f.multiIdxSet| then None
    else Some(Dot(MonomialsOf(f.multiIdxSet, f.width, control), f.beta))
  }

  /** A fitted regression evaluates on every wide enough control as soon
      as lstsq returns one coefficient per basis function. */
  lemma FittedValueDefined(controls: seq<seq<real>>, observations: seq<real>, maxPolynomialDegree: nat,
                           lstsq: LeastSquares, control: seq<real>)
    requires NewRegression(controls, observations, maxPolynomialDegree, lstsq).Some?
    requires var f := NewRegression(controls, observations, maxPolynomialDegree, lstsq).value;
      |f.beta| == |f.multiIdxSet|
    requires |control| >= |controls[0]|
    ensures var f := NewRegression(controls, observations, maxPolynomialDegree, lstsq).value;
      Value(f, control) == Some(Dot(MonomialsOf(f.multiIdxSet, f.width, control), f.beta))
  {
  }

  /** The first basis function of a regression is the constant 1, so beta[0]
      is the intercept. */
  lemma FirstBasisIsConstant(controls: seq<seq<real>>, observations: seq<real>, maxPolynomialDegree: nat,
                             lstsq: LeastSquares, control: seq<real>)
    requires NewRegression(controls, observations, maxPolynomialDegree, lstsq).Some?
    requires |control| >= |controls[0]|
    ensures var f := NewRegression(controls, observations, maxPolynomialDegree, lstsq).value;
      |f.multiIdxSet| >= 1 && Rectangular(f.multiIdxSet, f.width)
      && MonomialsOf(f.multiIdxSet, f.width, control)[0] == 1.0
  {
    var n := |controls[0]|;
    var f := NewRegression(controls, observations, maxPolynomialDegree, lstsq).value;
    MultiIndexSetStartsAtZero(n, maxPolynomialDegree + 1);
    assert Rectangular(f.multiIdxSet, f.width) by {
      forall i | 0 <= i < |f.multiIdxSet| ensures |f.multiIdxSet[i]| == n {
        MultiIndexSetSound(n, maxPolynomialDegree + 1, f.multiIdxSet[i]);
      }
    }
    MonomialOfZeros(control, n, n);
  }

  /** The fitted value is linear in the coefficients. */
  lemma ValueLinearInBeta(f: Fit, beta1: seq<real>, beta2: seq<real>, k: real, control: seq<real>)
    requires Rectangular(f.multiIdxSet, f.width) && |control| >= f.width
    requires |beta1| == |beta2| == |f.multiIdxSet|
    ensures var v := Value(f.(beta := Add(beta1, Scale(k, beta2))), control);
      var v1 := Value(f.(beta := beta1), control);
      var v2 := Value(f.(beta := beta2), control);
      v.Some? && v1.Some? && v2.Some? && v.value == v1.value + k * v2.value
  {
    DotLinear(MonomialsOf(f.multiIdxSet, f.width, control), beta1, beta2, k);
  }
}
