/** How long a signature is: the squared norm of what an attempt of signing computes is exactly what the draws of its sampler
    missed their centres by, weighted by the widths of the signing tree. */
module SignatureNorm {
  import opened RealPoly
  import opened RealAdjoint
  import opened RealForms
  import opened TreeForms
  import opened FastSampling
  import opened TrapdoorBasis
  import N = NtruSolve
  import Z = IntPoly
  import S = Sign

  // ----- the form of a Gram matrix is a squared length -----

  lemma {:induction false} InnerAdj(x: RPoly)
    ensures Inner(Adj(x), Adj(x)) == Inner(x, x)
  {
    var e := One(|x|);
    MulOne(x);
    MulComm(x, e);
    MulOne(Adj(x));
    MulComm(Adj(x), e);
    InnerAdjoint(x, e, x);
    InnerAdjoint(Adj(x), e, Adj(x));
    AdjAdj(x);
    MulComm(x, Adj(x));
  }

  lemma {:induction false} RowImageAdj(a: RPoly, b: RPoly, u: RPoly, v: RPoly)
    requires |a| == |b| == |u| == |v|
    ensures RowImage(a, b, Adj(u), Adj(v)) == Adj(Add(Act(a, u), Act(b, v)))
  {
    AdjMul(a, u);
    AdjMul(b, v);
    AdjAdd(Act(a, u), Act(b, v));
  }

  /** The form of B B* at (u*, v*) is the squared length of (u, v) B. */
  lemma {:induction false} FormIsLength(f: RPoly, g: RPoly, capF: RPoly, capG: RPoly, u: RPoly, v: RPoly)
    requires |f| == |g| == |capF| == |capG| == |u| == |v|
    ensures
      var p, q := Add(Act(g, u), Act(capG, v)), Add(Act(f, u), Act(capF, v));
      Form(Gram(f, g, capF, capG), Adj(u), Adj(v)) == Inner(p, p) + Inner(q, q)
  {
    hide Form, Gram, RowImage, Act;
    GramForm(f, g, capF, capG, Adj(u), Adj(v));
    RowImageAdj(g, capG, u, v);
    RowImageAdj(f, capF, u, v);
    InnerAdj(Add(Act(g, u), Act(capG, v)));
    InnerAdj(Add(Act(f, u), Act(capF, v)));
  }

  // ----- the centre of the sampler is the target in the basis -----

  function First(c: RPoly, capG: RPoly, k: real): (r: RPoly)
    ensures |r| == |capG|
  {
    Scale(k, Scale(-1.0, Act(c, capG)))
  }

  function Second(c: RPoly, g: RPoly, k: real): (r: RPoly)
    ensures |r| == |g|
  {
    Scale(k, Act(c, g))
  }

  /** a (-k c G) + b (k c g) = -k c (a G - b g). */
  lemma {:induction false} CentreImage(a: RPoly, b: RPoly, c: RPoly, g: RPoly, capG: RPoly, k: real)
    requires |a| == |b| == |c| == |g| == |capG|
    ensures Add(Act(a, First(c, capG, k)), Act(b, Second(c, g, k)))
         == Scale(-k, Act(c, Sub(Act(a, capG), Act(b, g))))
  {
    hide Act;
    var p, q := Act(c, Act(a, capG)), Act(c, Act(b, g));
    ActScale(a, k, Scale(-1.0, Act(c, capG)));
    ActScale(a, -1.0, Act(c, capG));
    ActCommute(a, c, capG);
    ActScale(b, k, Act(c, g));
    ActCommute(b, c, g);
    ActSub(c, Act(a, capG), Act(b, g));
    var l, r := Add(Scale(k, Scale(-1.0, p)), Scale(k, q)), Scale(-k, Sub(p, q));
    forall i | 0 <= i < |c| ensures l[i] == r[i] {
      Regroup(k, p[i], q[i]);
    }
    assert l == r;
  }

  lemma {:induction false} Regroup(k: real, x: real, y: real)
    ensures k * (-1.0 * x) + k * y == -k * (x + -1.0 * y)
  {
  }

  lemma {:induction false} ActSub(c: RPoly, u: RPoly, v: RPoly)
    requires |u| == |v|
    ensures Act(c, Sub(u, v)) == Sub(Act(c, u), Act(c, v))
  {
    ActAdd(c, u, Scale(-1.0, v));
    ActScale(c, -1.0, v);
  }

  /** Along (g, G) the centre is zero. */
  lemma {:induction false} CentreVanishes(c: RPoly, g: RPoly, capG: RPoly, k: real)
    requires |c| == |g| == |capG|
    ensures Add(Act(g, First(c, capG, k)), Act(capG, Second(c, g, k))) == Zero(|c|)
  {
    hide Act, First, Second;
    CentreImage(g, capG, c, g, capG, k);
    MulComm(g, capG);
    var x := Act(g, capG);
    assert Sub(x, x) == Zero(|c|);
    ActZero(c, |c|);
    assert Scale(-k, Zero(|c|)) == Zero(|c|);
  }

  /** Along (f, F) it is minus the target. */
  lemma {:induction false} CentreIsTarget(f: RPoly, g: RPoly, capF: RPoly, capG: RPoly, c: RPoly, q: real, k: real)
    requires Basis(f, g, capF, capG, q) && |c| == |f| && k * q == 1.0
    ensures Add(Act(f, First(c, capG, k)), Act(capF, Second(c, g, k))) == Scale(-1.0, c)
  {
    hide Act, First, Second;
    var n := |c|;
    CentreImage(f, capF, c, g, capG, k);
    MulComm(g, capF);
    ActScale(c, q, One(n));
    MulOne(c);
    MulComm(c, One(n));
    assert -k * q == -1.0;
    ScaleScale(-k, q, -1.0, c);
  }

  // ----- the signature -----

  /** a (t0 - z0) + b (t1 - z1) = (a t0 + b t1) - (z0 a + z1 b). */
  lemma {:induction false} ErrorImage(a: RPoly, b: RPoly, t0: RPoly, t1: RPoly, z0: RPoly, z1: RPoly)
    requires |a| == |b| == |t0| == |t1| == |z0| == |z1|
    ensures Add(Act(a, Sub(t0, z0)), Act(b, Sub(t1, z1)))
         == Sub(Add(Act(a, t0), Act(b, t1)), Add(Act(z0, a), Act(z1, b)))
  {
    hide Act;
    ActSub(a, t0, z0);
    ActSub(b, t1, z1);
    MulComm(a, z0);
    MulComm(b, z1);
  }

  lemma {:induction false} InnerNegated(x: RPoly)
    ensures Inner(Scale(-1.0, x), Scale(-1.0, x)) == Inner(x, x)
  {
    InnerScale(-1.0, x, Scale(-1.0, x));
    InnerScaleRight(x, -1.0, x);
  }

  lemma {:induction false} NegatedSum(c: RPoly, w: RPoly)
    requires |c| == |w|
    ensures Sub(Scale(-1.0, c), w) == Scale(-1.0, Add(c, w))
  {
  }

  /** The first half of the signature is the error seen along (g, G), the second minus the error along (f, F). */
  lemma {:induction false} SignatureIsError(key: S.TrapdoorKey, c: Z.ZPoly, z0: RPoly, z1: RPoly, n: nat, q: int)
    requires S.Sized(key, n) && S.Trapdoor(key, q) && q > 0 && |c| == |z0| == |z1| == n && Integral(z0) && Integral(z1)
    ensures
      var u, v := Sub(S.Centre0(key, c, q), z0), Sub(S.Centre1(key, c, q), z1);
      var i0, i1 := S.ToInt(z0), S.ToInt(z1);
      && Add(Act(Z.ToReal(key.g), u), Act(Z.ToReal(key.capG), v)) == Z.ToReal(S.S0(key, i0, i1))
      && Add(Act(Z.ToReal(key.f), u), Act(Z.ToReal(key.capF), v)) == Scale(-1.0, Z.ToReal(S.S1(key, c, i0, i1)))
  {
    hide Act, S.S0, S.S1, Integral, S.ToInt;
    var f, g, capF, capG := Z.ToReal(key.f), Z.ToReal(key.g), Z.ToReal(key.capF), Z.ToReal(key.capG);
    var k := 1.0 / (q as real);
    var cc := Z.ToReal(c);
    RelationLifts(key.f, key.g, N.NtruSolution(key.capF, key.capG), q);
    CentreVanishes(cc, g, capG, k);
    CentreIsTarget(f, g, capF, capG, cc, q as real, k);
    ErrorImage(g, capG, First(cc, capG, k), Second(cc, g, k), z0, z1);
    ErrorImage(f, capF, First(cc, capG, k), Second(cc, g, k), z0, z1);
    S.CandidateIsIntegral(key, c, z0, z1, n);
    NegatedSum(cc, Add(Act(z0, f), Act(z1, capF)));
  }

  /** The law of signature lengths: what an attempt computes, before it is narrowed, has as its squared norm the sum over
      its draws of their weighted squared errors. */
  lemma {:induction false} NormIsCost(
    key: S.TrapdoorKey, tree: Tree, c: Z.ZPoly, draw: Sampler, attempt: nat, n: nat, q: int, sigma: real)
    requires S.Signable(key, tree, c, n) && q > 0 && S.Trapdoor(key, q) && Represents(tree, sigma, S.GramOf(key), n)
    ensures
      var z := S.AttemptSample(key, tree, c, draw, attempt, n, q);
      S.NormSquared(S.Signature(S.S0(key, S.ToInt(z.z0), S.ToInt(z.z1)), S.S1(key, c, S.ToInt(z.z0), S.ToInt(z.z1)))) as real
      == Cost(z.draws, sigma)
  {
    hide Act, FfSampling, Form, Cost, Represents, S.Centre0, S.Centre1, S.S0, S.S1, S.ToInt, Integral, DrawnInOrder, S.Trapdoor, Gram;
    var t0, t1 := S.Centre0(key, c, q), S.Centre1(key, c, q);
    var z := S.AttemptSample(key, tree, c, draw, attempt, n, q);
    NearestPlaneLaw(S.GramOf(key), t0, t1, tree, n, draw, 2 * n * attempt, sigma);
    var u, v := Sub(t0, z.z0), Sub(t1, z.z1);
    FormIsLength(Z.ToReal(key.f), Z.ToReal(key.g), Z.ToReal(key.capF), Z.ToReal(key.capG), u, v);
    SignatureIsError(key, c, z.z0, z.z1, n, q);
    var s0, s1 := S.S0(key, S.ToInt(z.z0), S.ToInt(z.z1)), S.S1(key, c, S.ToInt(z.z0), S.ToInt(z.z1));
    InnerNegated(Z.ToReal(s1));
    LiftDot(s0, s0);
    LiftDot(s1, s1);
  }

  /** And so has every signature that is returned, under a bound the narrowing cannot interfere with. */
  lemma {:induction false} SignatureNormIsCost(
    key: S.TrapdoorKey, tree: Tree, c: Z.ZPoly, draw: Sampler, attempt: nat, bound: int, n: nat, q: int, sigma: real,
    s: S.Signature)
    requires S.Signable(key, tree, c, n) && q > 0 && S.Trapdoor(key, q) && Represents(tree, sigma, S.GramOf(key), n)
    requires S.FirstShort(key, tree, c, draw, attempt, bound, n, q, s) && bound < S.CLAMP_LIMIT
    ensures S.NormSquared(s) as real == Cost(S.AttemptSample(key, tree, c, draw, attempt, n, q).draws, sigma)
  {
    hide S.AttemptSample, Cost, Represents, S.S0, S.S1, S.ToInt, S.ClampAll, S.Trapdoor, S.GramOf;
    var z := S.AttemptSample(key, tree, c, draw, attempt, n, q);
    NormIsCost(key, tree, c, draw, attempt, n, q, sigma);
    S.ShortSignature(S.Signature(S.S0(key, S.ToInt(z.z0), S.ToInt(z.z1)), S.S1(key, c, S.ToInt(z.z0), S.ToInt(z.z1))), bound);
  }
}
