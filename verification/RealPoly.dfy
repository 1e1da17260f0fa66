/** Polynomials with real coefficients modulo x^n + 1, and the ring laws of their product.

    A polynomial of degree bound n is its coefficient sequence, lowest power first.  The product is
    defined by Horner's rule: `Act(a, v)` is the polynomial a applied to the operator "multiply by x
    modulo x^n + 1" acting on v.  Every ring law then follows from that operator being linear and from
    its n-th power being negation. */
module RealPoly {

  type RPoly = seq<real>

  function Zero(n: nat): (r: RPoly)
    ensures |r| == n
  {
    seq(n, _ => 0.0)
  }

  /** The constant polynomial 1. */
  function One(n: nat): (r: RPoly)
    ensures |r| == n
  {
    seq(n, i => if i == 0 then 1.0 else 0.0)
  }

  function Add(u: RPoly, v: RPoly): (r: RPoly)
    requires |u| == |v|
    ensures |r| == |u|
  {
    seq(|u|, i requires 0 <= i < |u| => u[i] + v[i])
  }

  function Scale(c: real, u: RPoly): (r: RPoly)
    ensures |r| == |u|
  {
    seq(|u|, i requires 0 <= i < |u| => c * u[i])
  }

  function Sub(u: RPoly, v: RPoly): (r: RPoly)
    requires |u| == |v|
    ensures |r| == |u|
  {
    Add(u, Scale(-1.0, v))
  }

  /** Multiplication by x modulo x^n + 1. */
  function TimesX(u: RPoly): (r: RPoly)
    ensures |r| == |u|
  {
    seq(|u|, i requires 0 <= i < |u| => if i == 0 then -u[|u| - 1] else u[i - 1])
  }

  function TimesXPow(k: nat, u: RPoly): (r: RPoly)
    ensures |r| == |u|
  {
    if k == 0 then u else TimesX(TimesXPow(k - 1, u))
  }

  /** The product of the polynomial a (of any length) and v modulo x^|v| + 1. */
  function Act(a: RPoly, v: RPoly): (r: RPoly)
    ensures |r| == |v|
  {
    if a == [] then Zero(|v|) else Add(Scale(a[0], v), TimesX(Act(a[1..], v)))
  }

  // ----- the coefficient module -----

  lemma {:induction false} AddComm(u: RPoly, v: RPoly)
    requires |u| == |v|
    ensures Add(u, v) == Add(v, u)
  {
  }

  lemma {:induction false} AddAssoc(u: RPoly, v: RPoly, w: RPoly)
    requires |u| == |v| == |w|
    ensures Add(Add(u, v), w) == Add(u, Add(v, w))
  {
  }

  lemma {:induction false} AddSwap(p: RPoly, q: RPoly, r: RPoly, s: RPoly)
    requires |p| == |q| == |r| == |s|
    ensures Add(Add(p, q), Add(r, s)) == Add(Add(p, r), Add(q, s))
  {
  }

  lemma {:induction false} AddZero(u: RPoly)
    ensures Add(u, Zero(|u|)) == u && Add(Zero(|u|), u) == u
  {
  }

  lemma {:induction false} ScaleAdd(c: real, u: RPoly, v: RPoly)
    requires |u| == |v|
    ensures Scale(c, Add(u, v)) == Add(Scale(c, u), Scale(c, v))
  {
    var l, r := Scale(c, Add(u, v)), Add(Scale(c, u), Scale(c, v));
    forall i | 0 <= i < |u| ensures l[i] == r[i] {
      assert c * (u[i] + v[i]) == c * u[i] + c * v[i];
    }
  }

  lemma {:induction false} AddScale(c: real, d: real, u: RPoly)
    ensures Scale(c + d, u) == Add(Scale(c, u), Scale(d, u))
  {
  }

  lemma {:induction false} ScaleScale(c: real, d: real, cd: real, u: RPoly)
    requires cd == c * d
    ensures Scale(c, Scale(d, u)) == Scale(cd, u)
  {
    var l, r := Scale(c, Scale(d, u)), Scale(cd, u);
    forall i | 0 <= i < |u| ensures l[i] == r[i] {
      assert c * (d * u[i]) == (c * d) * u[i];
    }
  }

  lemma {:induction false} ScaleSwap(c: real, d: real, u: RPoly)
    ensures Scale(c, Scale(d, u)) == Scale(d, Scale(c, u))
  {
    ScaleScale(c, d, c * d, u);
    ScaleScale(d, c, c * d, u);
  }

  lemma {:induction false} TimesXAdd(u: RPoly, v: RPoly)
    requires |u| == |v|
    ensures TimesX(Add(u, v)) == Add(TimesX(u), TimesX(v))
  {
  }

  lemma {:induction false} TimesXScale(c: real, u: RPoly)
    ensures TimesX(Scale(c, u)) == Scale(c, TimesX(u))
  {
    var l, r := TimesX(Scale(c, u)), Scale(c, TimesX(u));
    forall i | 0 <= i < |u| ensures l[i] == r[i] {
      assert c * -u[|u| - 1] == -(c * u[|u| - 1]);
    }
  }

  // ----- the action is linear in its second argument and commutes with x -----

  lemma {:induction false} ActAdd(a: RPoly, u: RPoly, v: RPoly)
    requires |u| == |v|
    ensures Act(a, Add(u, v)) == Add(Act(a, u), Act(a, v))
  {
    if a == [] {
      AddZero(Zero(|u|));
    } else {
      ActAdd(a[1..], u, v);
      ScaleAdd(a[0], u, v);
      TimesXAdd(Act(a[1..], u), Act(a[1..], v));
      AddSwap(Scale(a[0], u), Scale(a[0], v), TimesX(Act(a[1..], u)), TimesX(Act(a[1..], v)));
    }
  }

  lemma {:induction false} ActScale(a: RPoly, c: real, v: RPoly)
    ensures Act(a, Scale(c, v)) == Scale(c, Act(a, v))
  {
    if a == [] {
    } else {
      ActScale(a[1..], c, v);
      ScaleSwap(a[0], c, v);
      TimesXScale(c, Act(a[1..], v));
      ScaleAdd(c, Scale(a[0], v), TimesX(Act(a[1..], v)));
    }
  }

  lemma {:induction false} ActTimesX(a: RPoly, v: RPoly)
    ensures Act(a, TimesX(v)) == TimesX(Act(a, v))
  {
    if a == [] {
    } else {
      ActTimesX(a[1..], v);
      TimesXScale(a[0], v);
      TimesXAdd(Scale(a[0], v), TimesX(Act(a[1..], v)));
    }
  }

  lemma {:induction false} ActCommute(a: RPoly, b: RPoly, v: RPoly)
    ensures Act(a, Act(b, v)) == Act(b, Act(a, v))
  {
    if b == [] {
      ActZero(a, |v|);
    } else {
      ActCommute(a, b[1..], v);
      ActAdd(a, Scale(b[0], v), TimesX(Act(b[1..], v)));
      ActScale(a, b[0], v);
      ActTimesX(a, Act(b[1..], v));
    }
  }

  lemma {:induction false} ActZero(a: RPoly, n: nat)
    ensures Act(a, Zero(n)) == Zero(n)
  {
    if a != [] {
      ActZero(a[1..], n);
    }
  }

  // ----- and linear in its first -----

  lemma {:induction false} PolyAdd(a: RPoly, b: RPoly, v: RPoly)
    requires |a| == |b|
    ensures Act(Add(a, b), v) == Add(Act(a, v), Act(b, v))
  {
    if a == [] {
      AddZero(Zero(|v|));
    } else {
      assert Add(a, b)[1..] == Add(a[1..], b[1..]);
      PolyAdd(a[1..], b[1..], v);
      AddScale(a[0], b[0], v);
      TimesXAdd(Act(a[1..], v), Act(b[1..], v));
      AddSwap(Scale(a[0], v), Scale(b[0], v), TimesX(Act(a[1..], v)), TimesX(Act(b[1..], v)));
    }
  }

  lemma {:induction false} PolyScale(c: real, a: RPoly, v: RPoly)
    ensures Act(Scale(c, a), v) == Scale(c, Act(a, v))
  {
    var s := Scale(c, a);
    if a == [] {
      assert s == [];
    } else {
      assert s[1..] == Scale(c, a[1..]) by {
        forall i | 0 <= i < |a| - 1 ensures s[1..][i] == Scale(c, a[1..])[i] {
          assert s[1..][i] == s[i + 1];
        }
      }
      PolyScale(c, a[1..], v);
      ScaleScale(c, a[0], s[0], v);
      TimesXScale(c, Act(a[1..], v));
      ScaleAdd(c, Scale(a[0], v), TimesX(Act(a[1..], v)));
    }
  }

  lemma {:induction false} PolyZero(k: nat, v: RPoly)
    ensures Act(Zero(k), v) == Zero(|v|)
  {
    if k > 0 {
      assert Zero(k)[1..] == Zero(k - 1);
      PolyZero(k - 1, v);
    }
  }

  // ----- powers of x -----

  /** Coefficient i of x^k u: the coefficient k places below, negated when it wraps around. */
  lemma {:induction false} TimesXPowAt(k: nat, u: RPoly, i: nat)
    requires k <= |u| && i < |u|
    ensures TimesXPow(k, u)[i] == if i >= k then u[i - k] else -u[i - k + |u|]
  {
    if k > 0 {
      TimesXPowAt(k - 1, u, if i == 0 then |u| - 1 else i - 1);
    }
  }

  lemma {:induction false} TimesXPowFull(u: RPoly)
    ensures TimesXPow(|u|, u) == Scale(-1.0, u)
  {
    var l, r := TimesXPow(|u|, u), Scale(-1.0, u);
    forall i | 0 <= i < |u| ensures l[i] == r[i] {
      TimesXPowAt(|u|, u, i);
    }
  }

  lemma {:induction false} TimesXPowInner(k: nat, u: RPoly)
    ensures TimesXPow(k, TimesX(u)) == TimesXPow(k + 1, u)
  {
    hide TimesX;
    if k > 0 {
      TimesXPowInner(k - 1, u);
    }
  }

  lemma {:induction false} ActSnoc(a: RPoly, c: real, v: RPoly)
    ensures Act(a + [c], v) == Add(Act(a, v), Scale(c, TimesXPow(|a|, v)))
  {
    if a == [] {
      assert ([] + [c])[1..] == [];
      assert TimesX(Zero(|v|)) == Zero(|v|);
      AddZero(Scale(c, v));
    } else {
      assert (a + [c])[1..] == a[1..] + [c];
      ActSnoc(a[1..], c, v);
      TimesXAdd(Act(a[1..], v), Scale(c, TimesXPow(|a| - 1, v)));
      TimesXScale(c, TimesXPow(|a| - 1, v));
      AddAssoc(Scale(a[0], v), TimesX(Act(a[1..], v)), Scale(c, TimesXPow(|a|, v)));
    }
  }

  lemma {:induction false} ActCons(h: real, d: RPoly, v: RPoly)
    ensures Act([h] + d, v) == Add(Scale(h, v), TimesX(Act(d, v)))
  {
    assert ([h] + d)[1..] == d;
  }

  lemma {:induction false} TimesXSplit(d: RPoly, c: real)
    ensures TimesX(d + [c]) == [-c] + d
  {
  }

  lemma {:induction false} WrapLast(c: real, v: RPoly, k: nat)
    requires k + 1 == |v|
    ensures TimesX(Scale(c, TimesXPow(k, v))) == Scale(-c, v)
  {
    TimesXScale(c, TimesXPow(k, v));
    TimesXPowFull(v);
    ScaleScale(c, -1.0, -c, v);
  }

  lemma {:induction false} TimesXOfSum(a: RPoly, p: RPoly)
    requires |a| == |p|
    ensures TimesX(Add(a, p)) == Add(TimesX(p), TimesX(a))
  {
  }

  lemma {:induction false} ShiftedSnoc(d: RPoly, c: real, v: RPoly)
    requires |d| + 1 == |v|
    ensures TimesX(Act(d + [c], v)) == Act([-c] + d, v)
  {
    ActSnoc(d, c, v);
    TimesXOfSum(Act(d, v), Scale(c, TimesXPow(|d|, v)));
    WrapLast(c, v, |d|);
    ActCons(-c, d, v);
  }

  lemma {:induction false} ShiftedPoly(b: RPoly, v: RPoly)
    requires |b| == |v| > 0
    ensures Act(TimesX(b), v) == TimesX(Act(b, v))
  {
    var c, d := b[|b| - 1], b[..|b| - 1];
    assert b == d + [c];
    TimesXSplit(d, c);
    ShiftedSnoc(d, c, v);
  }

  // ----- ring laws -----

  lemma {:induction false} MulAssoc(a: RPoly, b: RPoly, v: RPoly)
    requires |b| == |v|
    ensures Act(Act(a, b), v) == Act(a, Act(b, v))
  {
    if a == [] {
      PolyZero(|b|, v);
    } else if |b| == 0 {
    } else {
      PolyAdd(Scale(a[0], b), TimesX(Act(a[1..], b)), v);
      PolyScale(a[0], b, v);
      ShiftedPoly(Act(a[1..], b), v);
      MulAssoc(a[1..], b, v);
    }
  }

  /** a with zeros appended up to length n. */
  function Pad(a: RPoly, n: nat): (r: RPoly)
    requires |a| <= n
    ensures |r| == n
  {
    seq(n, i => if 0 <= i < |a| then a[i] else 0.0)
  }

  lemma {:induction false} ActOne(a: RPoly, n: nat)
    requires |a| <= n
    ensures Act(a, One(n)) == Pad(a, n)
  {
    if a != [] {
      ActOne(a[1..], n);
      var l, r := Act(a, One(n)), Pad(a, n);
      forall i | 0 <= i < n ensures l[i] == r[i] {
        assert l[i] == Scale(a[0], One(n))[i] + TimesX(Pad(a[1..], n))[i];
      }
    }
  }

  lemma {:induction false} MulOne(a: RPoly)
    ensures Act(a, One(|a|)) == a && Act(One(|a|), a) == a
  {
    ActOne(a, |a|);
    assert Pad(a, |a|) == a;
    if |a| > 0 {
      MulComm(a, One(|a|));
    }
  }

  lemma {:induction false} MulComm(a: RPoly, b: RPoly)
    requires |a| == |b|
    ensures Act(a, b) == Act(b, a)
  {
    ActOne(a, |a|);
    ActOne(b, |b|);
    assert Pad(a, |a|) == a && Pad(b, |b|) == b;
    ActCommute(a, b, One(|a|));
  }
}
