/** Polynomials with integer coefficients modulo x^n + 1 (class IntegerRingArithmetic's values).

    The definitions mirror `RealPoly`.  Coefficient-wise embedding into the reals is injective and
    respects every operation, so each ring law is inherited rather than proved a second time. */
module IntPoly {
  import R = RealPoly

  type ZPoly = seq<int>

  function Zero(n: nat): (r: ZPoly)
    ensures |r| == n
  {
    seq(n, _ => 0)
  }

  /** The constant polynomial c. */
  function Const(c: int, n: nat): (r: ZPoly)
    ensures |r| == n
  {
    seq(n, i => if i == 0 then c else 0)
  }

  function Add(u: ZPoly, v: ZPoly): (r: ZPoly)
    requires |u| == |v|
    ensures |r| == |u|
  {
    seq(|u|, i requires 0 <= i < |u| => u[i] + v[i])
  }

  function Scale(c: int, u: ZPoly): (r: ZPoly)
    ensures |r| == |u|
  {
    seq(|u|, i requires 0 <= i < |u| => c * u[i])
  }

  function Neg(u: ZPoly): (r: ZPoly)
    ensures |r| == |u|
  {
    Scale(-1, u)
  }

  function Sub(u: ZPoly, v: ZPoly): (r: ZPoly)
    requires |u| == |v|
    ensures |r| == |u|
  {
    seq(|u|, i requires 0 <= i < |u| => u[i] - v[i])
  }

  function TimesX(u: ZPoly): (r: ZPoly)
    ensures |r| == |u|
  {
    seq(|u|, i requires 0 <= i < |u| => if i == 0 then -u[|u| - 1] else u[i - 1])
  }

  function TimesXPow(k: nat, u: ZPoly): (r: ZPoly)
    ensures |r| == |u|
  {
    if k == 0 then u else TimesX(TimesXPow(k - 1, u))
  }

  /** The product a * v modulo x^|v| + 1, by Horner's rule in a. */
  function Act(a: ZPoly, v: ZPoly): (r: ZPoly)
    ensures |r| == |v|
  {
    if a == [] then Zero(|v|) else Add(Scale(a[0], v), TimesX(Act(a[1..], v)))
  }

  // ----- embedding into the reals -----

  function ToReal(u: ZPoly): (r: R.RPoly)
    ensures |r| == |u|
  {
    seq(|u|, i requires 0 <= i < |u| => u[i] as real)
  }

  lemma {:induction false} ToRealInjective(u: ZPoly, v: ZPoly)
    requires ToReal(u) == ToReal(v)
    ensures u == v
  {
    assert |u| == |ToReal(u)| == |v|;
    forall i | 0 <= i < |u| ensures u[i] == v[i] {
      assert ToReal(u)[i] == ToReal(v)[i];
    }
  }

  lemma {:induction false} LiftAdd(u: ZPoly, v: ZPoly)
    requires |u| == |v|
    ensures ToReal(Add(u, v)) == R.Add(ToReal(u), ToReal(v))
  {
  }

  lemma {:induction false} RealProduct(c: int, d: int)
    ensures (c * d) as real == c as real * d as real
  {
  }

  lemma {:induction false} LiftScale(c: int, u: ZPoly)
    ensures ToReal(Scale(c, u)) == R.Scale(c as real, ToReal(u))
  {
    var l, r := ToReal(Scale(c, u)), R.Scale(c as real, ToReal(u));
    forall i | 0 <= i < |u| ensures l[i] == r[i] {
      RealProduct(c, u[i]);
    }
  }

  lemma {:induction false} LiftTimesX(u: ZPoly)
    ensures ToReal(TimesX(u)) == R.TimesX(ToReal(u))
  {
  }

  lemma {:induction false} LiftAct(a: ZPoly, v: ZPoly)
    ensures ToReal(Act(a, v)) == R.Act(ToReal(a), ToReal(v))
  {
    if a == [] {
      assert ToReal(a) == [];
    } else {
      assert ToReal(a)[1..] == ToReal(a[1..]);
      LiftAct(a[1..], v);
      LiftScale(a[0], v);
      LiftTimesX(Act(a[1..], v));
      LiftAdd(Scale(a[0], v), TimesX(Act(a[1..], v)));
    }
  }

  lemma {:induction false} LiftTimesXPow(k: nat, v: ZPoly)
    ensures ToReal(TimesXPow(k, v)) == R.TimesXPow(k, ToReal(v))
  {
    if k > 0 {
      LiftTimesXPow(k - 1, v);
      LiftTimesX(TimesXPow(k - 1, v));
    }
  }

  // ----- ring laws, inherited -----

  lemma {:induction false} ActAdd(a: ZPoly, u: ZPoly, v: ZPoly)
    requires |u| == |v|
    ensures Act(a, Add(u, v)) == Add(Act(a, u), Act(a, v))
  {
    LiftAct(a, Add(u, v));
    LiftAdd(u, v);
    LiftAct(a, u);
    LiftAct(a, v);
    LiftAdd(Act(a, u), Act(a, v));
    R.ActAdd(ToReal(a), ToReal(u), ToReal(v));
    ToRealInjective(Act(a, Add(u, v)), Add(Act(a, u), Act(a, v)));
  }

  lemma {:induction false} ActScale(a: ZPoly, c: int, v: ZPoly)
    ensures Act(a, Scale(c, v)) == Scale(c, Act(a, v))
  {
    LiftAct(a, Scale(c, v));
    LiftScale(c, v);
    LiftAct(a, v);
    LiftScale(c, Act(a, v));
    R.ActScale(ToReal(a), c as real, ToReal(v));
    ToRealInjective(Act(a, Scale(c, v)), Scale(c, Act(a, v)));
  }

  lemma {:induction false} PolyAdd(a: ZPoly, b: ZPoly, v: ZPoly)
    requires |a| == |b|
    ensures Act(Add(a, b), v) == Add(Act(a, v), Act(b, v))
  {
    LiftAct(Add(a, b), v);
    LiftAdd(a, b);
    LiftAct(a, v);
    LiftAct(b, v);
    LiftAdd(Act(a, v), Act(b, v));
    R.PolyAdd(ToReal(a), ToReal(b), ToReal(v));
    ToRealInjective(Act(Add(a, b), v), Add(Act(a, v), Act(b, v)));
  }

  lemma {:induction false} PolyScale(c: int, a: ZPoly, v: ZPoly)
    ensures Act(Scale(c, a), v) == Scale(c, Act(a, v))
  {
    LiftAct(Scale(c, a), v);
    LiftScale(c, a);
    LiftAct(a, v);
    LiftScale(c, Act(a, v));
    R.PolyScale(c as real, ToReal(a), ToReal(v));
    ToRealInjective(Act(Scale(c, a), v), Scale(c, Act(a, v)));
  }

  lemma {:induction false} MulAssoc(a: ZPoly, b: ZPoly, v: ZPoly)
    requires |b| == |v|
    ensures Act(Act(a, b), v) == Act(a, Act(b, v))
  {
    LiftAct(Act(a, b), v);
    LiftAct(a, b);
    LiftAct(b, v);
    LiftAct(a, Act(b, v));
    R.MulAssoc(ToReal(a), ToReal(b), ToReal(v));
    ToRealInjective(Act(Act(a, b), v), Act(a, Act(b, v)));
  }

  lemma {:induction false} MulComm(a: ZPoly, b: ZPoly)
    requires |a| == |b|
    ensures Act(a, b) == Act(b, a)
  {
    LiftAct(a, b);
    LiftAct(b, a);
    R.MulComm(ToReal(a), ToReal(b));
    ToRealInjective(Act(a, b), Act(b, a));
  }

  lemma {:induction false} MulConst(a: ZPoly, c: int)
    requires |a| > 0
    ensures Act(a, Const(c, |a|)) == Scale(c, a) == Act(Const(c, |a|), a)
  {
    var n := |a|;
    MulComm(a, Const(c, n));
    assert Const(c, n) == Scale(c, Const(1, n)) by {
      forall i | 0 <= i < n ensures Const(c, n)[i] == Scale(c, Const(1, n))[i] {}
    }
    ActScale(a, c, Const(1, n));
    assert ToReal(Const(1, n)) == R.One(n);
    LiftAct(a, Const(1, n));
    R.MulOne(ToReal(a));
    ToRealInjective(Act(a, Const(1, n)), a);
  }

  lemma {:induction false} ActSnoc(a: ZPoly, c: int, v: ZPoly)
    ensures Act(a + [c], v) == Add(Act(a, v), Scale(c, TimesXPow(|a|, v)))
  {
    LiftAct(a + [c], v);
    assert ToReal(a + [c]) == ToReal(a) + [c as real];
    LiftAct(a, v);
    LiftTimesXPow(|a|, v);
    LiftScale(c, TimesXPow(|a|, v));
    LiftAdd(Act(a, v), Scale(c, TimesXPow(|a|, v)));
    R.ActSnoc(ToReal(a), c as real, ToReal(v));
    ToRealInjective(Act(a + [c], v), Add(Act(a, v), Scale(c, TimesXPow(|a|, v))));
  }

  lemma {:induction false} TimesXPowAt(k: nat, u: ZPoly, i: nat)
    requires k <= |u| && i < |u|
    ensures TimesXPow(k, u)[i] == if i >= k then u[i - k] else -u[i - k + |u|]
  {
    if k > 0 {
      TimesXPowAt(k - 1, u, if i == 0 then |u| - 1 else i - 1);
    }
  }

  lemma {:induction false} ActTimesXPow(k: nat, a: ZPoly, v: ZPoly)
    ensures Act(a, TimesXPow(k, v)) == TimesXPow(k, Act(a, v))
  {
    hide TimesX, Act, ToReal, R.TimesX, R.Act;
    if k > 0 {
      ActTimesXPow(k - 1, a, v);
      var w := TimesXPow(k - 1, v);
      LiftAct(a, TimesX(w));
      LiftTimesX(w);
      LiftAct(a, w);
      LiftTimesX(Act(a, w));
      R.ActTimesX(ToReal(a), ToReal(w));
      ToRealInjective(Act(a, TimesX(w)), TimesX(Act(a, w)));
    }
  }

  // ----- subtraction -----

  lemma {:induction false} SubIsAdd(u: ZPoly, v: ZPoly)
    requires |u| == |v|
    ensures Sub(u, v) == Add(u, Scale(-1, v))
  {
  }

  /** a (b c) = b (a c). */
  lemma {:induction false} MulSwap(a: ZPoly, b: ZPoly, c: ZPoly)
    requires |a| == |b| == |c|
    ensures Act(a, Act(b, c)) == Act(b, Act(a, c))
  {
    MulAssoc(a, b, c);
    MulAssoc(b, a, c);
    MulComm(a, b);
  }

  // ----- the product, coefficient by coefficient -----

  function Dot(a: seq<int>, b: seq<int>): (r: int)
    requires |a| == |b|
  {
    if |a| == 0 then 0 else Dot(a[..|a| - 1], b[..|b| - 1]) + a[|a| - 1] * b[|b| - 1]
  }

  lemma {:induction false} DotComm(u: seq<int>, v: seq<int>)
    requires |u| == |v|
    ensures Dot(u, v) == Dot(v, u)
  {
    if |u| > 0 {
      DotComm(u[..|u| - 1], v[..|v| - 1]);
    }
  }

  lemma {:induction false} CoefficientWithinNorm(a: ZPoly, i: int)
    ensures Dot(a, a) >= 0
    ensures 0 <= i < |a| ==> a[i] * a[i] <= Dot(a, a)
  {
    if a != [] {
      var m := |a| - 1;
      CoefficientWithinNorm(a[..m], i);
      assert Dot(a, a) == Dot(a[..m], a[..m]) + a[m] * a[m];
      assert a[m] * a[m] >= 0;
    }
  }

  lemma {:induction false} DotScale(c: int, u: seq<int>, y: seq<int>)
    requires |u| == |y|
    ensures Dot(Scale(c, u), y) == c * Dot(u, y)
  {
    if |u| > 0 {
      var m := |u| - 1;
      assert Scale(c, u)[..m] == Scale(c, u[..m]) by {
        forall i | 0 <= i < m ensures Scale(c, u)[..m][i] == Scale(c, u[..m])[i] {}
      }
      DotScale(c, u[..m], y[..m]);
      assert Scale(c, u)[m] * y[m] == c * (u[m] * y[m]);
      assert c * Dot(u, y) == c * Dot(u[..m], y[..m]) + c * (u[m] * y[m]);
    }
  }

  lemma {:induction false} DotAdd(u: seq<int>, v: seq<int>, y: seq<int>)
    requires |u| == |v| == |y|
    ensures Dot(Add(u, v), y) == Dot(u, y) + Dot(v, y)
  {
    if |u| > 0 {
      var m := |u| - 1;
      assert Add(u, v)[..m] == Add(u[..m], v[..m]);
      DotAdd(u[..m], v[..m], y[..m]);
      assert Add(u, v)[m] * y[m] == u[m] * y[m] + v[m] * y[m];
    }
  }

  /** The coefficients of x^k in v, x v, x^2 v, ..., x^(m-1) v: entry i is v's coefficient k - i, with
      a change of sign when that index is negative and wraps around. */
  function Wrapped(v: ZPoly, k: nat, m: nat): (r: seq<int>)
    requires k < |v| && m <= |v|
    ensures |r| == m
  {
    seq(m, i requires 0 <= i < m => if k >= i then v[k - i] else -v[k - i + |v|])
  }

  /** Coefficient k of a * v is the sum of a_i v_j over i + j = k, minus the sum over i + j = k + n. */
  lemma {:induction false} ActCoefficient(a: ZPoly, v: ZPoly, k: nat)
    requires k < |v| && |a| <= |v|
    ensures Act(a, v)[k] == Dot(a, Wrapped(v, k, |a|))
  {
    if |a| > 0 {
      hide Act, Dot;
      var m := |a| - 1;
      var d, c, w := a[..m], a[m], Wrapped(v, k, |a|);
      assert a == d + [c];
      ActCoefficient(d, v, k);
      ActSnocAt(d, c, v, k, w[m]);
      assert w[..m] == Wrapped(v, k, m);
      DotLast(a, w);
    }
  }

  lemma {:induction false} ActSnocAt(d: ZPoly, c: int, v: ZPoly, k: nat, w: int)
    requires k < |v| && |d| < |v| && w == if k >= |d| then v[k - |d|] else -v[k - |d| + |v|]
    ensures Act(d + [c], v)[k] == Act(d, v)[k] + c * w
  {
    hide Act;
    ActSnoc(d, c, v);
    TimesXPowAt(|d|, v, k);
  }

  lemma {:induction false} DotLast(u: seq<int>, v: seq<int>)
    requires |u| == |v| > 0
    ensures Dot(u, v) == Dot(u[..|u| - 1], v[..|v| - 1]) + u[|u| - 1] * v[|v| - 1]
  {
  }
}
