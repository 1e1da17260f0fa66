/** The Hermitian adjoint a*(x) = a(1/x) in R[x]/(x^n + 1) and the inner product it is adjoint for. */
module RealAdjoint {
  import opened RealPoly

  function Adj(a: RPoly): (r: RPoly)
    ensures |r| == |a|
  {
    seq(|a|, i requires 0 <= i < |a| => if i == 0 then a[0] else -a[|a| - i])
  }

  /** Division by x modulo x^n + 1. */
  function OverX(u: RPoly): (r: RPoly)
    ensures |r| == |u|
  {
    seq(|u|, i requires 0 <= i < |u| => if i == |u| - 1 then -u[0] else u[i + 1])
  }

  /** The polynomial a applied to the operator "divide by x". */
  function ActInv(a: RPoly, v: RPoly): (r: RPoly)
    ensures |r| == |v|
  {
    if a == [] then Zero(|v|) else Add(Scale(a[0], v), OverX(ActInv(a[1..], v)))
  }

  function Inner(u: RPoly, v: RPoly): (r: real)
    requires |u| == |v|
  {
    if |u| == 0 then 0.0 else Inner(u[..|u| - 1], v[..|v| - 1]) + u[|u| - 1] * v[|v| - 1]
  }

  // ----- the adjoint is a ring homomorphism -----

  lemma {:induction false} OverXTimesX(u: RPoly)
    ensures OverX(TimesX(u)) == u && TimesX(OverX(u)) == u
  {
  }

  lemma {:induction false} OverXAdd(u: RPoly, v: RPoly)
    requires |u| == |v|
    ensures OverX(Add(u, v)) == Add(OverX(u), OverX(v))
  {
  }

  lemma {:induction false} OverXScale(c: real, u: RPoly)
    ensures OverX(Scale(c, u)) == Scale(c, OverX(u))
  {
    var l, r := OverX(Scale(c, u)), Scale(c, OverX(u));
    forall i | 0 <= i < |u| ensures l[i] == r[i] {
      assert c * -u[0] == -(c * u[0]);
    }
  }

  lemma {:induction false} AdjAdd(u: RPoly, v: RPoly)
    requires |u| == |v|
    ensures Adj(Add(u, v)) == Add(Adj(u), Adj(v))
  {
  }

  lemma {:induction false} AdjScale(c: real, u: RPoly)
    ensures Adj(Scale(c, u)) == Scale(c, Adj(u))
  {
    var l, r := Adj(Scale(c, u)), Scale(c, Adj(u));
    forall i | 0 <= i < |u| ensures l[i] == r[i] {
      if i > 0 {
        assert c * -u[|u| - i] == -(c * u[|u| - i]);
      }
    }
  }

  lemma {:induction false} AdjTimesX(u: RPoly)
    ensures Adj(TimesX(u)) == OverX(Adj(u))
  {
  }

  lemma {:induction false} AdjAdj(u: RPoly)
    ensures Adj(Adj(u)) == u
  {
  }

  lemma {:induction false} AdjOne(n: nat)
    ensures Adj(One(n)) == One(n)
  {
  }

  lemma {:induction false} AdjAct(a: RPoly, v: RPoly)
    ensures Adj(Act(a, v)) == ActInv(a, Adj(v))
  {
    if a == [] {
    } else {
      var t := Act(a[1..], v);
      AdjAct(a[1..], v);
      AdjAdd(Scale(a[0], v), TimesX(t));
      AdjScale(a[0], v);
      AdjTimesX(t);
    }
  }

  lemma {:induction false} OverXAct(b: RPoly, v: RPoly)
    ensures OverX(Act(b, v)) == Act(b, OverX(v))
  {
    ActTimesX(b, OverX(v));
    OverXTimesX(v);
    OverXTimesX(Act(b, OverX(v)));
  }

  lemma {:induction false} ActInvCommute(a: RPoly, b: RPoly, v: RPoly)
    ensures ActInv(a, Act(b, v)) == Act(b, ActInv(a, v))
  {
    if a == [] {
      ActZero(b, |v|);
    } else {
      var t := ActInv(a[1..], v);
      ActInvCommute(a[1..], b, v);
      ActAdd(b, Scale(a[0], v), OverX(t));
      ActScale(b, a[0], v);
      OverXAct(b, t);
    }
  }

  /** Dividing by x in a polynomial is multiplying by its adjoint. */
  lemma {:induction false} ActInvIsAdj(a: RPoly, v: RPoly)
    requires |a| == |v|
    ensures ActInv(a, v) == Act(Adj(a), v)
  {
    var n := |a|;
    MulOne(a);
    AdjAct(a, One(n));
    AdjOne(n);
    MulOne(v);
    ActInvCommute(a, v, One(n));
    MulComm(v, Adj(a));
  }

  lemma {:induction false} AdjMul(a: RPoly, b: RPoly)
    requires |a| == |b|
    ensures Adj(Act(a, b)) == Act(Adj(a), Adj(b))
  {
    AdjAct(a, b);
    ActInvIsAdj(a, Adj(b));
  }

  // ----- the inner product -----

  lemma {:induction false} InnerComm(u: RPoly, v: RPoly)
    requires |u| == |v|
    ensures Inner(u, v) == Inner(v, u)
  {
    if |u| > 0 {
      InnerComm(u[..|u| - 1], v[..|v| - 1]);
    }
  }

  lemma {:induction false} InnerAdd(u: RPoly, v: RPoly, w: RPoly)
    requires |u| == |v| == |w|
    ensures Inner(Add(u, v), w) == Inner(u, w) + Inner(v, w)
  {
    if |u| > 0 {
      var m := |u| - 1;
      assert Add(u, v)[..m] == Add(u[..m], v[..m]);
      InnerAdd(u[..m], v[..m], w[..m]);
      assert (u[m] + v[m]) * w[m] == u[m] * w[m] + v[m] * w[m];
    }
  }

  lemma {:induction false} ScalePrefix(c: real, u: RPoly, m: nat)
    requires m <= |u|
    ensures Scale(c, u)[..m] == Scale(c, u[..m])
  {
    var l, r := Scale(c, u)[..m], Scale(c, u[..m]);
    forall i | 0 <= i < m ensures l[i] == r[i] {
      assert l[i] == c * u[i];
    }
  }

  lemma {:induction false} InnerScale(c: real, u: RPoly, w: RPoly)
    requires |u| == |w|
    ensures Inner(Scale(c, u), w) == c * Inner(u, w)
  {
    if |u| > 0 {
      var m := |u| - 1;
      ScalePrefix(c, u, m);
      InnerScale(c, u[..m], w[..m]);
      assert (c * u[m]) * w[m] == c * (u[m] * w[m]);
      assert c * (Inner(u[..m], w[..m]) + u[m] * w[m]) == c * Inner(u[..m], w[..m]) + c * (u[m] * w[m]);
    }
  }

  lemma {:induction false} InnerAddRight(w: RPoly, u: RPoly, v: RPoly)
    requires |u| == |v| == |w|
    ensures Inner(w, Add(u, v)) == Inner(w, u) + Inner(w, v)
  {
    InnerComm(w, Add(u, v));
    InnerComm(w, u);
    InnerComm(w, v);
    InnerAdd(u, v, w);
  }

  lemma {:induction false} InnerScaleRight(w: RPoly, c: real, u: RPoly)
    requires |u| == |w|
    ensures Inner(w, Scale(c, u)) == c * Inner(w, u)
  {
    InnerComm(w, Scale(c, u));
    InnerComm(w, u);
    InnerScale(c, u, w);
  }

  lemma {:induction false} InnerZero(u: RPoly)
    ensures Inner(Zero(|u|), u) == 0.0 && Inner(u, Zero(|u|)) == 0.0
  {
    InnerComm(u, Zero(|u|));
    if |u| > 0 {
      var m := |u| - 1;
      assert Zero(|u|)[..m] == Zero(m);
      InnerZero(u[..m]);
    }
  }

  lemma {:induction false} InnerCons(a: real, u: RPoly, b: real, v: RPoly)
    requires |u| == |v|
    ensures Inner([a] + u, [b] + v) == a * b + Inner(u, v)
  {
    var m := |u|;
    if m == 0 {
      assert ([a] + u)[..0] == [] && ([b] + v)[..0] == [];
    } else {
      assert ([a] + u)[..m] == [a] + u[..m - 1] && ([b] + v)[..m] == [b] + v[..m - 1];
      InnerCons(a, u[..m - 1], b, v[..m - 1]);
    }
  }

  lemma {:induction false} InnerSnoc(u: RPoly, a: real, v: RPoly, b: real)
    requires |u| == |v|
    ensures Inner(u + [a], v + [b]) == Inner(u, v) + a * b
  {
    assert (u + [a])[..|u|] == u && (v + [b])[..|v|] == v;
  }

  lemma {:induction false} InnerTimesX(u: RPoly, v: RPoly)
    requires |u| == |v|
    ensures Inner(TimesX(u), v) == Inner(u, OverX(v))
  {
    if |u| > 0 {
      var m := |u| - 1;
      var d, c := u[..m], u[m];
      var h, t := v[0], v[1..];
      assert u == d + [c] && v == [h] + t;
      assert TimesX(u) == [-c] + d;
      assert OverX(v) == t + [-h];
      InnerCons(-c, d, h, t);
      InnerSnoc(d, c, t, -h);
      assert -c * h == c * -h;
    }
  }

  lemma {:induction false} InnerBalance(c: real, u: RPoly, p: RPoly, v: RPoly, w: RPoly)
    requires |u| == |p| == |v| == |w| && Inner(p, v) == Inner(u, w)
    ensures Inner(Add(Scale(c, u), p), v) == Inner(u, Add(Scale(c, v), w))
  {
    InnerAdd(Scale(c, u), p, v);
    InnerScale(c, u, v);
    InnerAddRight(u, Scale(c, v), w);
    InnerScaleRight(u, c, v);
  }

  lemma {:induction false} InnerActInv(a: RPoly, u: RPoly, v: RPoly)
    requires |u| == |v|
    ensures Inner(Act(a, u), v) == Inner(u, ActInv(a, v))
  {
    if a == [] {
      InnerZero(u);
      InnerZero(v);
    } else {
      InnerActInv(a[1..], u, OverX(v));
      InnerTimesX(Act(a[1..], u), v);
      ActInvOverX(a[1..], v);
      InnerBalance(a[0], u, TimesX(Act(a[1..], u)), v, OverX(ActInv(a[1..], v)));
    }
  }

  lemma {:induction false} ActInvOverX(a: RPoly, v: RPoly)
    ensures ActInv(a, OverX(v)) == OverX(ActInv(a, v))
  {
    if a == [] {
    } else {
      ActInvOverX(a[1..], v);
      OverXScale(a[0], v);
      OverXAdd(Scale(a[0], v), OverX(ActInv(a[1..], v)));
    }
  }

  /** <a u, v> = <u, a* v>. */
  lemma {:induction false} InnerAdjoint(a: RPoly, u: RPoly, v: RPoly)
    requires |a| == |u| == |v|
    ensures Inner(Act(a, u), v) == Inner(u, Act(Adj(a), v))
  {
    InnerActInv(a, u, v);
    ActInvIsAdj(a, v);
  }

  lemma {:induction false} PositiveProduct(x: real, y: real, p: real)
    requires x > 0.0 && y > 0.0 && p == x * y
    ensures p > 0.0
  {
  }

  lemma {:induction false} SquareSign(x: real, s: real)
    requires s == x * x
    ensures s >= 0.0
    ensures x == 0.0 || s > 0.0
  {
    var y := -x;
    if x > 0.0 {
      PositiveProduct(x, x, s);
    } else if x < 0.0 {
      assert s == y * y;
      PositiveProduct(y, y, s);
    }
  }

  lemma {:induction false} InnerSelf(u: RPoly)
    ensures Inner(u, u) >= 0.0
    ensures Inner(u, u) == 0.0 ==> u == Zero(|u|)
  {
    if |u| > 0 {
      var m := |u| - 1;
      InnerSelf(u[..m]);
      SquareSign(u[m], Inner(u, u) - Inner(u[..m], u[..m]));
      if Inner(u, u) == 0.0 {
        assert u == u[..m] + [u[m]];
        assert Zero(m) + [0.0] == Zero(|u|);
      }
    }
  }
}
