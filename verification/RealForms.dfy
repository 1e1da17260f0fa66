/** Positive definite polynomials and two-by-two Gram matrices over R[x]/(x^n + 1), and why definiteness
    passes through an LDL decomposition and through splitting into halves. */
module RealForms {
  import opened RealPoly
  import opened RealAdjoint
  import opened RealSplit

  datatype GramMatrix = GramMatrix(g00: RPoly, g01: RPoly, g10: RPoly, g11: RPoly)

  ghost predicate Shape(g: GramMatrix, n: nat)
  {
    |g.g00| == |g.g01| == |g.g10| == |g.g11| == n
  }

  ghost function Energy(d: RPoly, v: RPoly): (r: real)
    requires |d| == |v|
  {
    Inner(v, Act(d, v))
  }

  ghost predicate PosDef(d: RPoly)
  {
    && Adj(d) == d
    && forall v: RPoly :: |v| == |d| && v != Zero(|d|) ==> Energy(d, v) > 0.0
  }

  /** The quadratic form of the matrix at the pair (u, v). */
  ghost function Form(g: GramMatrix, u: RPoly, v: RPoly): (r: real)
    requires Shape(g, |u|) && |u| == |v|
  {
    Energy(g.g00, u) + 2.0 * Inner(v, Act(g.g10, u)) + Energy(g.g11, v)
  }

  ghost predicate PosDef2(g: GramMatrix, n: nat)
  {
    && Shape(g, n)
    && Adj(g.g00) == g.g00 && Adj(g.g11) == g.g11
    && forall u: RPoly, v: RPoly :: |u| == |v| == n && (u != Zero(n) || v != Zero(n)) ==> Form(g, u, v) > 0.0
  }

  // ----- an LDL step -----

  /** <a v, w> = <v, a w> for a self-adjoint a. */
  lemma {:induction false} SelfAdjointMoves(a: RPoly, v: RPoly, w: RPoly)
    requires |a| == |v| == |w| && Adj(a) == a
    ensures Inner(v, Act(a, w)) == Inner(w, Act(a, v))
  {
    InnerAdjoint(a, v, w);
    InnerComm(Act(a, v), w);
  }

  lemma {:induction false} EnergyOfSum(d: RPoly, u: RPoly, t: RPoly)
    requires |d| == |u| == |t| && Adj(d) == d
    ensures Energy(d, Add(u, t)) == Energy(d, u) + 2.0 * Inner(t, Act(d, u)) + Energy(d, t)
  {
    ActAdd(d, u, t);
    InnerAdd(u, t, Add(Act(d, u), Act(d, t)));
    InnerAddRight(u, Act(d, u), Act(d, t));
    InnerAddRight(t, Act(d, u), Act(d, t));
    SelfAdjointMoves(d, u, t);
  }

  /** <l* v, w> = <v, l w>. */
  lemma {:induction false} AdjointMoves(l: RPoly, v: RPoly, w: RPoly)
    requires |l| == |v| == |w|
    ensures Inner(Act(Adj(l), v), w) == Inner(v, Act(l, w))
  {
    InnerAdjoint(Adj(l), v, w);
    AdjAdj(l);
  }

  function Correction(l: RPoly, d: RPoly): (r: RPoly)
    requires |l| == |d|
    ensures |r| == |d|
  {
    Act(Act(l, Adj(l)), d)
  }

  /** <l* v, d l* v> = <v, l l* d v>. */
  lemma {:induction false} CorrectionEnergy(l: RPoly, d: RPoly, v: RPoly)
    requires |l| == |d| == |v|
    ensures Energy(d, Act(Adj(l), v)) == Energy(Correction(l, d), v)
  {
    var t := Act(Adj(l), v);
    AdjointMoves(l, v, Act(d, t));
    ActCommute(d, Adj(l), v);
    MulAssoc(Act(l, Adj(l)), d, v);
    MulAssoc(l, Adj(l), Act(d, v));
  }

  lemma {:induction false} CorrectionSelfAdjoint(l: RPoly, d: RPoly)
    requires |l| == |d| && Adj(d) == d
    ensures Adj(Correction(l, d)) == Correction(l, d)
  {
    AdjMul(Act(l, Adj(l)), d);
    AdjMul(l, Adj(l));
    AdjAdj(l);
    MulComm(l, Adj(l));
  }

  lemma {:induction false} EnergyOfDifference(a: RPoly, b: RPoly, v: RPoly)
    requires |a| == |b| == |v|
    ensures Energy(Sub(a, b), v) == Energy(a, v) - Energy(b, v)
  {
    PolyAdd(a, Scale(-1.0, b), v);
    PolyScale(-1.0, b, v);
    InnerAddRight(v, Act(a, v), Scale(-1.0, Act(b, v)));
    InnerScaleRight(v, -1.0, Act(b, v));
  }

  /** Completing the square: the form is that of the diagonal D after a change of variable. */
  lemma {:induction false} CompleteSquare(g: GramMatrix, l: RPoly, u: RPoly, v: RPoly)
    requires Shape(g, |u|) && |u| == |v| == |l| && Adj(g.g00) == g.g00 && Act(l, g.g00) == g.g10
    ensures Form(g, u, v)
         == Energy(g.g00, Add(u, Act(Adj(l), v))) + Energy(Sub(g.g11, Correction(l, g.g00)), v)
  {
    var t := Act(Adj(l), v);
    EnergyOfSum(g.g00, u, t);
    AdjointMoves(l, v, Act(g.g00, u));
    MulAssoc(l, g.g00, u);
    CorrectionEnergy(l, g.g00, v);
    EnergyOfDifference(g.g11, Correction(l, g.g00), v);
  }

  lemma {:induction false} DiagonalPositive(g: GramMatrix, n: nat)
    requires PosDef2(g, n)
    ensures PosDef(g.g00)
  {
    var z := Zero(n);
    forall u: RPoly | |u| == n && u != z
      ensures Energy(g.g00, u) > 0.0
    {
      assert Form(g, u, z) > 0.0;
      InnerZero(Act(g.g10, u));
      InnerZero(Act(g.g11, z));
    }
  }

  lemma {:induction false} SubSelfAdjoint(a: RPoly, b: RPoly)
    requires |a| == |b| && Adj(a) == a && Adj(b) == b
    ensures Adj(Sub(a, b)) == Sub(a, b)
  {
    AdjAdd(a, Scale(-1.0, b));
    AdjScale(-1.0, b);
  }

  lemma {:induction false} CancelSum(t: RPoly)
    ensures Add(Scale(-1.0, t), t) == Zero(|t|)
  {
  }

  /** The Schur complement of a positive definite matrix is positive definite. */
  lemma {:induction false} SchurPositive(g: GramMatrix, l: RPoly, n: nat)
    requires PosDef2(g, n) && |l| == n && Act(l, g.g00) == g.g10
    ensures PosDef(Sub(g.g11, Correction(l, g.g00)))
  {
    var d := Sub(g.g11, Correction(l, g.g00));
    CorrectionSelfAdjoint(l, g.g00);
    SubSelfAdjoint(g.g11, Correction(l, g.g00));
    forall v: RPoly | |v| == n && v != Zero(n)
      ensures Energy(d, v) > 0.0
    {
      var t := Act(Adj(l), v);
      var u := Scale(-1.0, t);
      assert Form(g, u, v) > 0.0;
      CompleteSquare(g, l, u, v);
      CancelSum(t);
      InnerZero(Act(g.g00, Zero(n)));
    }
  }

  lemma {:induction false} PosDefNoKernel(d: RPoly, v: RPoly)
    requires PosDef(d) && |v| == |d| && Act(d, v) == Zero(|d|)
    ensures v == Zero(|d|)
  {
    InnerZero(v);
    assert Energy(d, v) == 0.0;
  }

  // ----- splitting -----

  /** The half-size Gram matrix of a self-adjoint polynomial. */
  function HalfGram(d: RPoly): (g: GramMatrix)
  {
    GramMatrix(Even(d), Odd(d), Adj(Odd(d)), Even(d))
  }

  lemma {:induction false} OddTerms(o: RPoly, u: RPoly, v: RPoly)
    requires |o| == |u| == |v| > 0 && Adj(o) == TimesX(o)
    ensures Inner(v, TimesX(Act(o, u))) == Inner(v, Act(Adj(o), u))
    ensures Inner(u, Act(o, v)) == Inner(v, Act(Adj(o), u))
  {
    ShiftedPoly(o, u);
    InnerAdjoint(o, v, u);
    InnerComm(Act(o, v), u);
  }

  lemma {:induction false} HalfForm(d: RPoly, u: RPoly, v: RPoly)
    requires |d| % 2 == 0 && Adj(d) == d && |u| == |v| == |d| / 2 > 0
    ensures Form(HalfGram(d), u, v) == Energy(d, Merge(v, u))
  {
    var e, o := Even(d), Odd(d);
    SelfAdjointHalves(d);
    MergeSplit(d);
    MergeMul(e, o, v, u);
    InnerMerge(v, u, HalfEven(e, o, v, u), HalfOdd(e, o, v, u));
    InnerAddRight(v, Act(e, v), TimesX(Act(o, u)));
    InnerAddRight(u, Act(o, v), Act(e, u));
    OddTerms(o, u, v);
  }

  lemma {:induction false} MergeNonzero(u: RPoly, v: RPoly)
    requires |u| == |v| && (u != Zero(|u|) || v != Zero(|v|))
    ensures Merge(v, u) != Zero(2 * |u|)
  {
    SplitMerge(v, u);
    var z := Zero(2 * |u|);
    assert Even(z) == Zero(|u|) && Odd(z) == Zero(|u|);
  }

  /** Splitting keeps positive definiteness, and with it self-adjointness, one level down. */
  lemma {:induction false} SplitPositive(d: RPoly)
    requires PosDef(d) && |d| % 2 == 0 && |d| >= 2
    ensures PosDef2(HalfGram(d), |d| / 2)
  {
    var m := |d| / 2;
    SelfAdjointHalves(d);
    forall u: RPoly, v: RPoly | |u| == |v| == m && (u != Zero(m) || v != Zero(m))
      ensures Form(HalfGram(d), u, v) > 0.0
    {
      HalfForm(d, u, v);
      MergeNonzero(u, v);
      assert 2 * m == |d|;
      assert Energy(d, Merge(v, u)) > 0.0;
    }
  }

  // ----- the Gram matrix of a trapdoor basis -----

  /** G = B B* for B = [[g, -f], [capG, -capF]]. */
  function Gram(f: RPoly, g: RPoly, capF: RPoly, capG: RPoly): (r: GramMatrix)
    requires |f| == |g| == |capF| == |capG|
  {
    GramMatrix(
      Add(Act(g, Adj(g)), Act(f, Adj(f))),
      Add(Act(g, Adj(capG)), Act(f, Adj(capF))),
      Add(Act(capG, Adj(g)), Act(capF, Adj(f))),
      Add(Act(capG, Adj(capG)), Act(capF, Adj(capF))))
  }

  lemma {:induction false} NormSelfAdjoint(a: RPoly)
    ensures Adj(Act(a, Adj(a))) == Act(a, Adj(a))
  {
    AdjMul(a, Adj(a));
    AdjAdj(a);
    MulComm(a, Adj(a));
  }

  /** <v, a b* u> = <a* v, b* u>. */
  lemma {:induction false} CrossTerm(a: RPoly, b: RPoly, u: RPoly, v: RPoly)
    requires |a| == |b| == |u| == |v|
    ensures Inner(v, Act(Act(a, Adj(b)), u)) == Inner(Act(Adj(a), v), Act(Adj(b), u))
  {
    MulAssoc(a, Adj(b), u);
    AdjointMoves(a, v, Act(Adj(b), u));
  }

  lemma {:induction false} SumOfCrossTerms(a: RPoly, b: RPoly, c: RPoly, d: RPoly, u: RPoly, v: RPoly)
    requires |a| == |b| == |c| == |d| == |u| == |v|
    ensures Inner(v, Act(Add(Act(a, Adj(b)), Act(c, Adj(d))), u))
         == Inner(Act(Adj(a), v), Act(Adj(b), u)) + Inner(Act(Adj(c), v), Act(Adj(d), u))
  {
    PolyAdd(Act(a, Adj(b)), Act(c, Adj(d)), u);
    InnerAddRight(v, Act(Act(a, Adj(b)), u), Act(Act(c, Adj(d)), u));
    CrossTerm(a, b, u, v);
    CrossTerm(c, d, u, v);
  }

  lemma {:induction false} SquareOfSum(p: RPoly, q: RPoly)
    requires |p| == |q|
    ensures Inner(Add(p, q), Add(p, q)) == Inner(p, p) + 2.0 * Inner(q, p) + Inner(q, q)
  {
    InnerAdd(p, q, Add(p, q));
    InnerAddRight(p, p, q);
    InnerAddRight(q, p, q);
    InnerComm(p, q);
  }

  /** One row combination of B*, as it enters the form. */
  function RowImage(a: RPoly, b: RPoly, u: RPoly, v: RPoly): (r: RPoly)
    requires |a| == |b| == |u| == |v|
    ensures |r| == |u|
  {
    Add(Act(Adj(a), u), Act(Adj(b), v))
  }

  lemma {:induction false} GramForm(f: RPoly, g: RPoly, capF: RPoly, capG: RPoly, u: RPoly, v: RPoly)
    requires |f| == |g| == |capF| == |capG| == |u| == |v|
    ensures Form(Gram(f, g, capF, capG), u, v)
         == Inner(RowImage(g, capG, u, v), RowImage(g, capG, u, v))
          + Inner(RowImage(f, capF, u, v), RowImage(f, capF, u, v))
  {
    SumOfCrossTerms(g, g, f, f, u, u);
    SumOfCrossTerms(capG, g, capF, f, u, v);
    SumOfCrossTerms(capG, capG, capF, capF, v, v);
    SquareOfSum(Act(Adj(g), u), Act(Adj(capG), v));
    SquareOfSum(Act(Adj(f), u), Act(Adj(capF), v));
  }

  // ----- a trapdoor basis is independent -----

  lemma {:induction false} SubCancels(a: RPoly, b: RPoly, c: RPoly)
    requires |a| == |b| == |c|
    ensures Sub(Add(a, b), Add(a, c)) == Sub(b, c)
  {
  }

  /** Eliminating u between the two row images leaves the determinant times v. */
  lemma {:induction false} Determinant(f: RPoly, g: RPoly, capF: RPoly, capG: RPoly, u: RPoly, v: RPoly)
    requires |f| == |g| == |capF| == |capG| == |u| == |v|
    ensures Sub(Act(Adj(f), RowImage(g, capG, u, v)), Act(Adj(g), RowImage(f, capF, u, v)))
         == Act(Adj(Sub(Act(f, capG), Act(g, capF))), v)
  {
    var fa, ga, cf, cg := Adj(f), Adj(g), Adj(capF), Adj(capG);
    ActAdd(fa, Act(ga, u), Act(cg, v));
    ActAdd(ga, Act(fa, u), Act(cf, v));
    ActCommute(fa, ga, u);
    SubCancels(Act(fa, Act(ga, u)), Act(fa, Act(cg, v)), Act(ga, Act(cf, v)));
    MulAssoc(fa, cg, v);
    MulAssoc(ga, cf, v);
    AdjMul(f, capG);
    AdjMul(g, capF);
    SubAct(Act(fa, cg), Act(ga, cf), v);
    AdjSub(Act(f, capG), Act(g, capF));
  }

  lemma {:induction false} SubAct(a: RPoly, b: RPoly, v: RPoly)
    requires |a| == |b|
    ensures Act(Sub(a, b), v) == Sub(Act(a, v), Act(b, v))
  {
    PolyAdd(a, Scale(-1.0, b), v);
    PolyScale(-1.0, b, v);
  }

  lemma {:induction false} AdjSub(a: RPoly, b: RPoly)
    requires |a| == |b|
    ensures Adj(Sub(a, b)) == Sub(Adj(a), Adj(b))
  {
    AdjAdd(a, Scale(-1.0, b));
    AdjScale(-1.0, b);
  }

  lemma {:induction false} ScalarAct(c: real, v: RPoly)
    ensures Act(Adj(Scale(c, One(|v|))), v) == Scale(c, v)
  {
    AdjScale(c, One(|v|));
    AdjOne(|v|);
    PolyScale(c, One(|v|), v);
    MulOne(v);
  }

  lemma {:induction false} ScaleZero(c: real, v: RPoly)
    requires c != 0.0 && Scale(c, v) == Zero(|v|)
    ensures v == Zero(|v|)
  {
    forall i | 0 <= i < |v| ensures v[i] == 0.0 {
      assert Scale(c, v)[i] == 0.0;
    }
  }

  ghost predicate Basis(f: RPoly, g: RPoly, capF: RPoly, capG: RPoly, c: real)
  {
    && |f| == |g| == |capF| == |capG|
    && Sub(Act(f, capG), Act(g, capF)) == Scale(c, One(|f|))
  }

  lemma {:induction false} BasisSwap(f: RPoly, g: RPoly, capF: RPoly, capG: RPoly, c: real)
    requires Basis(f, g, capF, capG, c)
    ensures Basis(capF, capG, f, g, -c)
  {
    MulComm(capF, g);
    MulComm(capG, f);
    var n := |f|;
    var a, b := Act(f, capG), Act(g, capF);
    var l, r := Sub(b, a), Scale(-c, One(n));
    forall i | 0 <= i < n ensures l[i] == r[i] {
      assert Sub(a, b)[i] == Scale(c, One(n))[i];
    }
  }

  lemma {:induction false} SecondVanishes(f: RPoly, g: RPoly, capF: RPoly, capG: RPoly, c: real, u: RPoly, v: RPoly)
    requires Basis(f, g, capF, capG, c) && c != 0.0 && |u| == |v| == |f|
    requires RowImage(g, capG, u, v) == Zero(|f|) && RowImage(f, capF, u, v) == Zero(|f|)
    ensures v == Zero(|f|)
  {
    var n := |f|;
    Determinant(f, g, capF, capG, u, v);
    ActZero(Adj(f), n);
    ActZero(Adj(g), n);
    assert Sub(Zero(n), Zero(n)) == Zero(n);
    ScalarAct(c, v);
    ScaleZero(c, v);
  }

  lemma {:induction false} RowImageSwap(a: RPoly, b: RPoly, u: RPoly, v: RPoly)
    requires |a| == |b| == |u| == |v|
    ensures RowImage(b, a, v, u) == RowImage(a, b, u, v)
  {
    AddComm(Act(Adj(a), u), Act(Adj(b), v));
  }

  lemma {:induction false} GramSelfAdjoint(f: RPoly, g: RPoly, capF: RPoly, capG: RPoly)
    requires |f| == |g| == |capF| == |capG|
    ensures var m := Gram(f, g, capF, capG); Adj(m.g00) == m.g00 && Adj(m.g11) == m.g11
  {
    NormSelfAdjoint(g);
    NormSelfAdjoint(f);
    NormSelfAdjoint(capG);
    NormSelfAdjoint(capF);
    AdjAdd(Act(g, Adj(g)), Act(f, Adj(f)));
    AdjAdd(Act(capG, Adj(capG)), Act(capF, Adj(capF)));
  }

  /** The Gram matrix of any basis with fG - gF = c, c nonzero, is positive definite. */
  lemma {:induction false} GramPositive(f: RPoly, g: RPoly, capF: RPoly, capG: RPoly, c: real)
    requires Basis(f, g, capF, capG, c) && c != 0.0
    ensures PosDef2(Gram(f, g, capF, capG), |f|)
  {
    var n, m := |f|, Gram(f, g, capF, capG);
    GramSelfAdjoint(f, g, capF, capG);
    forall u: RPoly, v: RPoly | |u| == |v| == n && (u != Zero(n) || v != Zero(n))
      ensures Form(m, u, v) > 0.0
    {
      GramFormPositive(f, g, capF, capG, c, u, v);
    }
  }

  lemma {:induction false} GramFormPositive(f: RPoly, g: RPoly, capF: RPoly, capG: RPoly, c: real, u: RPoly, v: RPoly)
    requires Basis(f, g, capF, capG, c) && c != 0.0 && |u| == |v| == |f|
    requires u != Zero(|f|) || v != Zero(|f|)
    ensures Form(Gram(f, g, capF, capG), u, v) > 0.0
  {
    var p, q := RowImage(g, capG, u, v), RowImage(f, capF, u, v);
    GramForm(f, g, capF, capG, u, v);
    InnerSelf(p);
    InnerSelf(q);
    if p == Zero(|f|) && q == Zero(|f|) {
      SecondVanishes(f, g, capF, capG, c, u, v);
      RowImageSwap(g, capG, u, v);
      RowImageSwap(f, capF, u, v);
      BasisSwap(f, g, capF, capG, c);
      SecondVanishes(capF, capG, f, g, -c, v, u);
    }
  }
}
