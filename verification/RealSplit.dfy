/** Splitting a polynomial into its even and odd halves and merging them back: f(x) = f0(x^2) + x f1(x^2). */
module RealSplit {
  import opened RealPoly
  import opened RealAdjoint

  function Even(f: RPoly): (r: RPoly)
    ensures |r| == |f| / 2
  {
    seq(|f| / 2, i requires 0 <= i < |f| / 2 => f[2 * i])
  }

  function Odd(f: RPoly): (r: RPoly)
    ensures |r| == |f| / 2
  {
    seq(|f| / 2, i requires 0 <= i < |f| / 2 => f[2 * i + 1])
  }

  function Merge(f0: RPoly, f1: RPoly): (r: RPoly)
    requires |f0| == |f1|
    ensures |r| == 2 * |f0|
  {
    seq(2 * |f0|, i requires 0 <= i < 2 * |f0| => if i % 2 == 0 then f0[i / 2] else f1[i / 2])
  }

  lemma {:induction false} MergeSplit(f: RPoly)
    requires |f| % 2 == 0
    ensures Merge(Even(f), Odd(f)) == f
  {
    var r := Merge(Even(f), Odd(f));
    forall i | 0 <= i < |f| ensures r[i] == f[i] {
      assert i == 2 * (i / 2) + i % 2;
    }
  }

  lemma {:induction false} SplitMerge(f0: RPoly, f1: RPoly)
    requires |f0| == |f1|
    ensures Even(Merge(f0, f1)) == f0 && Odd(Merge(f0, f1)) == f1
  {
  }

  lemma {:induction false} MergeAdd(u0: RPoly, u1: RPoly, v0: RPoly, v1: RPoly)
    requires |u0| == |u1| == |v0| == |v1|
    ensures Add(Merge(u0, u1), Merge(v0, v1)) == Merge(Add(u0, v0), Add(u1, v1))
  {
  }

  lemma {:induction false} MergeScale(c: real, u0: RPoly, u1: RPoly)
    requires |u0| == |u1|
    ensures Scale(c, Merge(u0, u1)) == Merge(Scale(c, u0), Scale(c, u1))
  {
    var l, r := Scale(c, Merge(u0, u1)), Merge(Scale(c, u0), Scale(c, u1));
    forall i | 0 <= i < |l| ensures l[i] == r[i] {
    }
  }

  /** x (u0(x^2) + x u1(x^2)) = y u1(y) + x u0(y) at y = x^2. */
  lemma {:induction false} MergeTimesX(u0: RPoly, u1: RPoly)
    requires |u0| == |u1|
    ensures TimesX(Merge(u0, u1)) == Merge(TimesX(u1), u0)
  {
    var l, r := TimesX(Merge(u0, u1)), Merge(TimesX(u1), u0);
    forall i | 0 <= i < |l| ensures l[i] == r[i] {
      if i > 0 {
        assert i % 2 == 0 ==> (i - 1) % 2 == 1 && (i - 1) / 2 == i / 2 - 1;
        assert i % 2 == 1 ==> (i - 1) % 2 == 0 && (i - 1) / 2 == i / 2;
      }
    }
  }

  lemma {:induction false} MergeTail(e: RPoly, o: RPoly)
    requires |e| == |o| > 0
    ensures Merge(e, o)[0] == e[0] && Merge(e, o)[1..][0] == o[0]
    ensures Merge(e, o)[1..][1..] == Merge(e[1..], o[1..])
  {
    var l, r := Merge(e, o)[1..][1..], Merge(e[1..], o[1..]);
    forall i | 0 <= i < |r| ensures l[i] == r[i] {
      assert l[i] == Merge(e, o)[i + 2];
      assert (i + 2) % 2 == i % 2 && (i + 2) / 2 == i / 2 + 1;
    }
  }

  lemma {:induction false} ActTwice(a: RPoly, v: RPoly)
    requires |a| >= 2
    ensures Act(a, v) == Add(Scale(a[0], v), TimesX(Add(Scale(a[1..][0], v), TimesX(Act(a[1..][1..], v)))))
  {
  }

  /** Two Horner steps on a merged operand, seen in the halves. */
  lemma {:induction false} MergeHorner(c: real, d: real, w0: RPoly, w1: RPoly, p: RPoly, q: RPoly)
    requires |w0| == |w1| == |p| == |q|
    ensures Add(Scale(c, Merge(w0, w1)), TimesX(Add(Scale(d, Merge(w0, w1)), TimesX(Merge(p, q)))))
         == Merge(Add(Scale(c, w0), TimesX(Add(Scale(d, w1), p))), Add(Scale(c, w1), Add(Scale(d, w0), TimesX(q))))
  {
    MergeTimesX(p, q);
    MergeScale(d, w0, w1);
    MergeAdd(Scale(d, w0), Scale(d, w1), TimesX(q), p);
    MergeTimesX(Add(Scale(d, w0), TimesX(q)), Add(Scale(d, w1), p));
    MergeScale(c, w0, w1);
    MergeAdd(Scale(c, w0), Scale(c, w1), TimesX(Add(Scale(d, w1), p)), Add(Scale(d, w0), TimesX(q)));
  }

  function HalfEven(e: RPoly, o: RPoly, w0: RPoly, w1: RPoly): (r: RPoly)
    requires |w0| == |w1|
    ensures |r| == |w0|
  {
    Add(Act(e, w0), TimesX(Act(o, w1)))
  }

  function HalfOdd(e: RPoly, o: RPoly, w0: RPoly, w1: RPoly): (r: RPoly)
    requires |w0| == |w1|
    ensures |r| == |w0|
  {
    Add(Act(o, w0), Act(e, w1))
  }

  lemma {:induction false} HalfEvenStep(e: RPoly, o: RPoly, w0: RPoly, w1: RPoly)
    requires |e| == |o| > 0 && |w0| == |w1|
    ensures HalfEven(e, o, w0, w1)
         == Add(Scale(e[0], w0), TimesX(Add(Scale(o[0], w1), HalfEven(e[1..], o[1..], w0, w1))))
  {
    var a, b := Act(e[1..], w0), TimesX(Act(o[1..], w1));
    TimesXAdd(Scale(o[0], w1), Add(a, b));
    TimesXAdd(a, b);
    TimesXAdd(Scale(o[0], w1), b);
    Rearrange(Scale(e[0], w0), TimesX(a), TimesX(Scale(o[0], w1)), TimesX(b));
  }

  lemma {:induction false} Rearrange(p: RPoly, a: RPoly, s: RPoly, b: RPoly)
    requires |p| == |a| == |s| == |b|
    ensures Add(Add(p, a), Add(s, b)) == Add(p, Add(s, Add(a, b)))
  {
  }

  lemma {:induction false} HalfOddStep(e: RPoly, o: RPoly, w0: RPoly, w1: RPoly)
    requires |e| == |o| > 0 && |w0| == |w1|
    ensures HalfOdd(e, o, w0, w1)
         == Add(Scale(e[0], w1), Add(Scale(o[0], w0), TimesX(HalfOdd(e[1..], o[1..], w0, w1))))
  {
    var a, b := Act(o[1..], w0), Act(e[1..], w1);
    TimesXAdd(a, b);
    RearrangeOdd(Scale(o[0], w0), TimesX(a), Scale(e[0], w1), TimesX(b));
  }

  lemma {:induction false} RearrangeOdd(p: RPoly, a: RPoly, s: RPoly, b: RPoly)
    requires |p| == |a| == |s| == |b|
    ensures Add(Add(p, a), Add(s, b)) == Add(s, Add(p, Add(a, b)))
  {
  }

  /** The product of merged polynomials: (e + x o)(w0 + x w1) = (e w0 + y o w1) + x (o w0 + e w1), y = x^2. */
  lemma {:induction false} MergeMul(e: RPoly, o: RPoly, w0: RPoly, w1: RPoly)
    requires |e| == |o| && |w0| == |w1|
    ensures Act(Merge(e, o), Merge(w0, w1)) == Merge(HalfEven(e, o, w0, w1), HalfOdd(e, o, w0, w1))
  {
    if |e| == 0 {
      assert Merge(e, o) == [];
      assert Zero(2 * |w0|) == Merge(Zero(|w0|), Zero(|w0|));
      assert TimesX(Zero(|w0|)) == Zero(|w0|);
      AddZero(Zero(|w0|));
    } else {
      MergeTail(e, o);
      ActTwice(Merge(e, o), Merge(w0, w1));
      MergeMul(e[1..], o[1..], w0, w1);
      MergeHorner(e[0], o[0], w0, w1, HalfEven(e[1..], o[1..], w0, w1), HalfOdd(e[1..], o[1..], w0, w1));
      HalfEvenStep(e, o, w0, w1);
      HalfOddStep(e, o, w0, w1);
    }
  }

  // ----- adjoint and inner product through the halves -----

  /** The halves of a self-adjoint polynomial: the even half is self-adjoint, the odd half satisfies o* = y o. */
  lemma {:induction false} SelfAdjointEven(d: RPoly)
    requires |d| % 2 == 0 && Adj(d) == d
    ensures Adj(Even(d)) == Even(d)
  {
    var m := |d| / 2;
    forall i | 0 <= i < m ensures Adj(Even(d))[i] == Even(d)[i] {
      if i > 0 {
        assert Adj(d)[2 * i] == -d[2 * (m - i)];
      }
    }
  }

  lemma {:induction false} SelfAdjointOdd(d: RPoly)
    requires |d| % 2 == 0 && Adj(d) == d
    ensures Adj(Odd(d)) == TimesX(Odd(d))
  {
    var m := |d| / 2;
    forall i | 0 <= i < m ensures Adj(Odd(d))[i] == TimesX(Odd(d))[i] {
      if i == 0 {
        assert Adj(d)[1] == -d[2 * (m - 1) + 1];
      } else {
        assert Adj(d)[2 * (i - 1) + 1] == -d[2 * (m - i) + 1];
      }
    }
  }

  lemma {:induction false} SelfAdjointHalves(d: RPoly)
    requires |d| % 2 == 0 && Adj(d) == d
    ensures Adj(Even(d)) == Even(d) && Adj(Odd(d)) == TimesX(Odd(d))
  {
    SelfAdjointEven(d);
    SelfAdjointOdd(d);
  }

  lemma {:induction false} InnerLastTwo(u: RPoly, v: RPoly, k: nat, u': RPoly, v': RPoly)
    requires |u| == |v| == k + 2 && u' == u[..k] && v' == v[..k]
    ensures Inner(u, v) == Inner(u', v') + u[k] * v[k] + u[k + 1] * v[k + 1]
  {
    assert u[..k + 1][..k] == u' && v[..k + 1][..k] == v';
  }

  lemma {:induction false} MergePrefix(u0: RPoly, u1: RPoly, m: nat)
    requires |u0| == |u1| == m + 1
    ensures Merge(u0, u1)[..2 * m] == Merge(u0[..m], u1[..m])
    ensures Merge(u0, u1)[2 * m] == u0[m] && Merge(u0, u1)[2 * m + 1] == u1[m]
  {
  }

  lemma {:induction false} InnerMergeLast(u0: RPoly, u1: RPoly, v0: RPoly, v1: RPoly, m: nat)
    requires |u0| == |u1| == |v0| == |v1| == m + 1
    ensures Inner(Merge(u0, u1), Merge(v0, v1))
         == Inner(Merge(u0[..m], u1[..m]), Merge(v0[..m], v1[..m])) + u0[m] * v0[m] + u1[m] * v1[m]
  {
    MergePrefix(u0, u1, m);
    MergePrefix(v0, v1, m);
    InnerLastTwo(Merge(u0, u1), Merge(v0, v1), 2 * m, Merge(u0[..m], u1[..m]), Merge(v0[..m], v1[..m]));
  }

  lemma {:induction false} InnerMerge(u0: RPoly, u1: RPoly, v0: RPoly, v1: RPoly)
    requires |u0| == |u1| == |v0| == |v1|
    ensures Inner(Merge(u0, u1), Merge(v0, v1)) == Inner(u0, v0) + Inner(u1, v1)
  {
    if |u0| > 0 {
      var m := |u0| - 1;
      InnerMergeLast(u0, u1, v0, v1, m);
      InnerMerge(u0[..m], u1[..m], v0[..m], v1[..m]);
    }
  }
}
