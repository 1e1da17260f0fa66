/** The map x -> -x on Z[x]/(x^n + 1), the embedding p(y) -> p(x^2) of the half-size ring, and the field
    norm N(a)(x^2) = a(x) a(-x) that relates the two. */
module Galois {
  import opened IntPoly

  function Conj(a: ZPoly): (r: ZPoly)
    ensures |r| == |a|
  {
    seq(|a|, i requires 0 <= i < |a| => if i % 2 == 0 then a[i] else -a[i])
  }

  function Embed(h: ZPoly): (r: ZPoly)
    ensures |r| == 2 * |h|
  {
    seq(2 * |h|, i requires 0 <= i < 2 * |h| => if i % 2 == 0 then h[i / 2] else 0)
  }

  /** The even-indexed coefficients. */
  function Evens(a: ZPoly): (r: ZPoly)
    ensures |r| == |a| / 2
  {
    seq(|a| / 2, i requires 0 <= i < |a| / 2 => a[2 * i])
  }

  function FieldNorm(a: ZPoly): (r: ZPoly)
    ensures |r| == |a| / 2
  {
    Evens(Act(a, Conj(a)))
  }

  // ----- x -> -x respects products -----

  lemma {:induction false} ConjAdd(u: ZPoly, v: ZPoly)
    requires |u| == |v|
    ensures Conj(Add(u, v)) == Add(Conj(u), Conj(v))
  {
  }

  lemma {:induction false} ConjScale(c: int, u: ZPoly)
    ensures Conj(Scale(c, u)) == Scale(c, Conj(u))
  {
    var l, r := Conj(Scale(c, u)), Scale(c, Conj(u));
    forall i | 0 <= i < |u| ensures l[i] == r[i] {
      assert c * -u[i] == -(c * u[i]);
    }
  }

  lemma {:induction false} ConjTimesX(u: ZPoly)
    requires |u| % 2 == 0
    ensures Conj(TimesX(u)) == Scale(-1, TimesX(Conj(u)))
  {
    var l, r := Conj(TimesX(u)), Scale(-1, TimesX(Conj(u)));
    forall i | 0 <= i < |u| ensures l[i] == r[i] {
      if i > 0 {
        assert (i % 2 == 0) != ((i - 1) % 2 == 0);
      }
    }
  }

  lemma {:induction false} ConjTail(a: ZPoly)
    requires a != []
    ensures Conj(a)[0] == a[0] && Conj(a)[1..] == Scale(-1, Conj(a[1..]))
  {
    var l, r := Conj(a)[1..], Scale(-1, Conj(a[1..]));
    forall i | 0 <= i < |l| ensures l[i] == r[i] {
      assert (i % 2 == 0) != ((i + 1) % 2 == 0);
    }
  }

  lemma {:induction false} TimesXScale(c: int, u: ZPoly)
    ensures TimesX(Scale(c, u)) == Scale(c, TimesX(u))
  {
    var l, r := TimesX(Scale(c, u)), Scale(c, TimesX(u));
    forall i | 0 <= i < |u| ensures l[i] == r[i] {
      assert c * -u[|u| - 1] == -(c * u[|u| - 1]);
    }
  }

  lemma {:induction false} ConjMul(a: ZPoly, v: ZPoly)
    requires |v| % 2 == 0
    ensures Conj(Act(a, v)) == Act(Conj(a), Conj(v))
  {
    if a == [] {
    } else {
      var t := Act(a[1..], v);
      ConjAdd(Scale(a[0], v), TimesX(t));
      ConjScale(a[0], v);
      ConjTimesX(t);
      ConjMul(a[1..], v);
      ConjTail(a);
      PolyScale(-1, Conj(a[1..]), Conj(v));
      TimesXScale(-1, Conj(t));
    }
  }

  lemma {:induction false} ConjConj(a: ZPoly)
    ensures Conj(Conj(a)) == a
  {
  }

  // ----- p(y) -> p(x^2) respects products -----

  lemma {:induction false} EmbedTimesX(u: ZPoly)
    ensures Embed(TimesX(u)) == TimesX(TimesX(Embed(u)))
  {
    var l, r := Embed(TimesX(u)), TimesX(TimesX(Embed(u)));
    forall i | 0 <= i < 2 * |u| ensures l[i] == r[i] {
      if i >= 2 {
        assert r[i] == Embed(u)[i - 2];
        assert i % 2 == (i - 2) % 2 && (i - 2) / 2 == i / 2 - 1;
      }
    }
  }

  lemma {:induction false} EmbedAdd(u: ZPoly, v: ZPoly)
    requires |u| == |v|
    ensures Embed(Add(u, v)) == Add(Embed(u), Embed(v))
  {
  }

  lemma {:induction false} EmbedSub(u: ZPoly, v: ZPoly)
    requires |u| == |v|
    ensures Embed(Sub(u, v)) == Sub(Embed(u), Embed(v))
  {
  }

  lemma {:induction false} EmbedScale(c: int, u: ZPoly)
    ensures Embed(Scale(c, u)) == Scale(c, Embed(u))
  {
    var l, r := Embed(Scale(c, u)), Scale(c, Embed(u));
    forall i | 0 <= i < 2 * |u| ensures l[i] == r[i] {
    }
  }

  lemma {:induction false} EmbedTail(a: ZPoly)
    requires a != []
    ensures Embed(a)[0] == a[0] && Embed(a)[1..][0] == 0 && Embed(a)[1..][1..] == Embed(a[1..])
  {
    var l, r := Embed(a)[1..][1..], Embed(a[1..]);
    forall i | 0 <= i < |r| ensures l[i] == r[i] {
      assert l[i] == Embed(a)[i + 2];
      assert (i + 2) % 2 == i % 2 && (i + 2) / 2 == i / 2 + 1;
    }
  }

  lemma {:induction false} SkipZero(b: ZPoly, v: ZPoly)
    requires b != [] && b[0] == 0
    ensures Act(b, v) == TimesX(Act(b[1..], v))
  {
  }

  lemma {:induction false} EmbedMul(a: ZPoly, v: ZPoly)
    ensures Embed(Act(a, v)) == Act(Embed(a), Embed(v))
  {
    if a == [] {
    } else {
      var t := Act(a[1..], v);
      EmbedAdd(Scale(a[0], v), TimesX(t));
      EmbedScale(a[0], v);
      EmbedTimesX(t);
      EmbedMul(a[1..], v);
      EmbedTail(a);
      SkipZero(Embed(a)[1..], Embed(v));
    }
  }

  lemma {:induction false} EmbedConst(c: int, m: nat)
    ensures Embed(Const(c, m)) == Const(c, 2 * m)
  {
  }

  // ----- the field norm -----

  /** a(x) a(-x) has no odd coefficient. */
  lemma {:induction false} NormHasNoOddPart(a: ZPoly, i: nat)
    requires |a| % 2 == 0 && i < |a| && i % 2 == 1
    ensures Act(a, Conj(a))[i] == 0
  {
    var p := Act(a, Conj(a));
    ConjMul(a, Conj(a));
    ConjConj(a);
    MulComm(Conj(a), a);
    assert Conj(p) == p;
    assert Conj(p)[i] == -p[i];
  }

  /** N(a)(x^2) = a(x) a(-x). */
  lemma {:induction false} EmbedFieldNorm(a: ZPoly)
    requires |a| % 2 == 0
    ensures Embed(FieldNorm(a)) == Act(a, Conj(a))
  {
    var l, p := Embed(FieldNorm(a)), Act(a, Conj(a));
    forall i | 0 <= i < |a| ensures l[i] == p[i] {
      if i % 2 == 1 {
        NormHasNoOddPart(a, i);
      } else {
        assert 2 * (i / 2) == i;
      }
    }
  }

  lemma {:induction false} EmbedInjective(u: ZPoly, v: ZPoly)
    requires Embed(u) == Embed(v)
    ensures u == v
  {
    assert 2 * |u| == |Embed(u)| == |Embed(v)| == 2 * |v|;
    forall i | 0 <= i < |u| ensures u[i] == v[i] {
      assert Embed(u)[2 * i] == Embed(v)[2 * i];
    }
  }

  /** The field norm is multiplicative. */
  lemma {:induction false} FieldNormMul(a: ZPoly, b: ZPoly)
    requires |a| == |b| && |a| % 2 == 0
    ensures FieldNorm(Act(a, b)) == Act(FieldNorm(a), FieldNorm(b))
  {
    var ca, cb := Conj(a), Conj(b);
    EmbedFieldNorm(Act(a, b));
    EmbedFieldNorm(a);
    EmbedFieldNorm(b);
    EmbedMul(FieldNorm(a), FieldNorm(b));
    ConjMul(a, b);
    calc {
      Act(Act(a, b), Act(ca, cb));
      { MulAssoc(a, b, Act(ca, cb)); MulSwap(b, ca, cb); }
      Act(a, Act(ca, Act(b, cb)));
      { MulAssoc(a, ca, Act(b, cb)); }
      Act(Act(a, ca), Act(b, cb));
    }
    EmbedInjective(FieldNorm(Act(a, b)), Act(FieldNorm(a), FieldNorm(b)));
  }
}
