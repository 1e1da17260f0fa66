/** Signing a target with a trapdoor and verifying the result: sign_target, verify_target, derive_public and
    build_signing_tree, for the orientation A = (t, 1) with t = f / g. */
module Sign {
  import opened Outcomes
  import opened IntPoly
  import opened IntegerRing
  import opened NtruSolve
  import opened ModRing
  import opened ModInverse
  import opened TreeForms
  import opened FalconTree
  import opened FastSampling
  import R = RealPoly
  import RR = RealRing
  import RF = RealForms
  import opened TrapdoorBasis

  datatype TrapdoorKey = TrapdoorKey(f: ZPoly, g: ZPoly, capF: ZPoly, capG: ZPoly)
  datatype Signature = Signature(s0: ZPoly, s1: ZPoly)

  ghost predicate Sized(key: TrapdoorKey, n: nat)
  {
    |key.f| == |key.g| == |key.capF| == |key.capG| == n
  }

  /** The key satisfies fG - gF = q. */
  ghost predicate Trapdoor(key: TrapdoorKey, q: int)
  {
    NtruRelation(key.f, key.g, NtruSolution(key.capF, key.capG), q)
  }

  // ----- public key -----

  ghost predicate PublicKeyOf(key: TrapdoorKey, t: ZPoly, q: int)
    requires q > 1
  {
    exists h: ZPoly :: IsInverse(key.g, h, q) && |key.f| == |h| && t == ModP(Act(key.f, h), q)
  }

  /** derive_public: f / g mod q; `None` when g is not invertible. */
  method DerivePublic(key: TrapdoorKey, degree: nat, q: int) returns (r: Result<Option<ZPoly>>)
    requires degree > 0 && q > 2
    ensures r.Refused? <==> |key.f| > degree || |key.g| > degree
    ensures r.Ok? && r.value.Some? ==>
      PublicKeyOf(TrapdoorKey(Pad(key.f, degree), Pad(key.g, degree), key.capF, key.capG), r.value.value, q)
    ensures r.Ok? && IsPrime(q) ==> (r.value.Some? <==> IsUnit(Pad(key.g, degree), q))
  {
    if |key.f| > degree || |key.g| > degree {
      return Refused;
    }
    var inverse := Inverse(key.g, degree, q);
    if inverse.value.None? {
      return Ok(None);
    }
    var h := inverse.value.value;
    PadFull(h);
    var t := MulQ(key.f, h, degree, q);
    assert IsInverse(Pad(key.g, degree), h, q);
    return Ok(Some(t.value));
  }

  // ----- verification -----

  function NormSquared(s: Signature): (r: int)
  {
    Dot(s.s0, s.s0) + Dot(s.s1, s.s1)
  }

  method SquaredNorm(v: ZPoly) returns (r: int)
    ensures r == Dot(v, v)
  {
    r := 0;
    for i := 0 to |v|
      invariant r == Dot(v[..i], v[..i])
    {
      r := r + v[i] * v[i];
      assert v[..i + 1][..i] == v[..i];
    }
    assert v[..|v|] == v;
  }

  /** What verification accepts: a short pair with t s0 + s1 = target mod q. */
  ghost predicate Accepts(t: ZPoly, target: ZPoly, s: Signature, bound: int, n: nat, q: int)
    requires q > 0 && |t| <= n && |target| <= n && |s.s0| <= n && |s.s1| <= n
  {
    && NormSquared(s) <= bound
    && Cong(Add(Act(Pad(t, n), Pad(s.s0, n)), Pad(s.s1, n)), Pad(target, n), q)
  }

  method VerifyTarget(t: ZPoly, target: ZPoly, s: Signature, bound: int, n: nat, q: int) returns (r: Result<bool>)
    requires q > 2
    ensures NormSquared(s) > bound ==> r == Ok(false)
    ensures NormSquared(s) <= bound ==>
      (r.Refused? <==> |t| > n || |target| > n || |s.s0| > n || |s.s1| > n)
    ensures r.Ok? && NormSquared(s) <= bound ==> (r.value <==> Accepts(t, target, s, bound, n, q))
  {
    var n0 := SquaredNorm(s.s0);
    var n1 := SquaredNorm(s.s1);
    if n0 + n1 > bound {
      return Ok(false);
    }
    var product :- MulQ(t, s.s0, n, q);
    var lhs :- AddQ(product, s.s1, n, q);
    PadFull(product);
    PadFull(lhs);
    r := EqualQ(lhs, target, n, q);
    if r.Ok? {
      ReduceThenAdd(Act(Pad(t, n), Pad(s.s0, n)), Pad(s.s1, n), q);
      ModTwice(Add(Act(Pad(t, n), Pad(s.s0, n)), Pad(s.s1, n)), Pad(target, n), q);
    }
  }

  // ----- what signing computes -----

  /** s0 = -(z0 g + z1 G). */
  function S0(key: TrapdoorKey, z0: ZPoly, z1: ZPoly): (r: ZPoly)
    requires |key.g| == |key.capG|
    ensures |r| == |key.g|
  {
    Neg(Add(Act(z0, key.g), Act(z1, key.capG)))
  }

  /** s1 = c + z0 f + z1 F. */
  function S1(key: TrapdoorKey, c: ZPoly, z0: ZPoly, z1: ZPoly): (r: ZPoly)
    requires |key.f| == |key.capF| == |c|
    ensures |r| == |c|
  {
    Add(c, Add(Act(z0, key.f), Act(z1, key.capF)))
  }

  lemma {:induction false} CongRefl(a: ZPoly, q: int)
    requires q > 0
    ensures Cong(a, a, q)
  {
  }

  lemma {:induction false} CongTrans(a: ZPoly, b: ZPoly, c: ZPoly, q: int)
    requires q > 0 && Cong(a, b, q) && Cong(b, c, q)
    ensures Cong(a, c, q)
  {
  }

  /** (f h) (z g) = z f when h inverts g. */
  lemma {:induction false} PublicTimesG(f: ZPoly, g: ZPoly, h: ZPoly, z: ZPoly, q: int)
    requires q > 1 && |f| == |g| == |h| == |z| > 0 && IsInverse(g, h, q)
    ensures Cong(Act(Act(f, h), Act(z, g)), Act(z, f), q)
  {
    var n := |f|;
    calc {
      Act(Act(f, h), Act(z, g));
      { MulAssoc(f, h, Act(z, g)); MulSwap(h, z, g); MulSwap(f, z, Act(h, g)); MulComm(h, g); }
      Act(z, Act(f, Act(g, h)));
    }
    CongRefl(f, q);
    CongRefl(z, q);
    CongAct(f, f, Act(g, h), Const(1, n), q);
    MulConst(f, 1);
    assert Scale(1, f) == f;
    CongAct(z, z, Act(f, Act(g, h)), f, q);
  }

  /** f G = q + g F, so (f h) (z G) = z F mod q. */
  lemma {:induction false} PublicTimesCapG(key: TrapdoorKey, h: ZPoly, z: ZPoly, q: int)
    requires q > 1 && Trapdoor(key, q) && |h| == |z| == |key.f| && IsInverse(key.g, h, q)
    ensures Cong(Act(Act(key.f, h), Act(z, key.capG)), Act(z, key.capF), q)
  {
    var f, g, capF, capG := key.f, key.g, key.capF, key.capG;
    var n := |f|;
    RelationMod(key, q);
    calc {
      Act(Act(f, h), Act(z, capG));
      { MulComm(f, h); MulAssoc(h, f, Act(z, capG)); MulSwap(f, z, capG); }
      Act(h, Act(z, Act(f, capG)));
    }
    CongRefl(z, q);
    CongRefl(h, q);
    CongAct(z, z, Act(f, capG), Act(g, capF), q);
    CongAct(h, h, Act(z, Act(f, capG)), Act(z, Act(g, capF)), q);
    calc {
      Act(h, Act(z, Act(g, capF)));
      { MulSwap(z, g, capF); }
      Act(h, Act(g, Act(z, capF)));
      { MulAssoc(h, g, Act(z, capF)); MulComm(h, g); }
      Act(Act(g, h), Act(z, capF));
    }
    CongRefl(Act(z, capF), q);
    CongAct(Act(g, h), Const(1, n), Act(z, capF), Act(z, capF), q);
    MulConst(Act(z, capF), 1);
    assert Scale(1, Act(z, capF)) == Act(z, capF);
  }

  lemma {:induction false} RelationMod(key: TrapdoorKey, q: int)
    requires q > 1 && Trapdoor(key, q)
    ensures Cong(Act(key.f, key.capG), Act(key.g, key.capF), q)
  {
    var n := |key.f|;
    var a, b := Act(key.f, key.capG), Act(key.g, key.capF);
    forall i | 0 <= i < n ensures a[i] % q == b[i] % q {
      assert Sub(a, b)[i] == Const(q, n)[i];
      assert a[i] == b[i] + q * (if i == 0 then 1 else 0);
      Residues.ModShift(b[i], if i == 0 then 1 else 0, q);
    }
  }

  lemma {:induction false} CancelNegated(u: ZPoly, v: ZPoly, c: ZPoly, q: int)
    requires q > 1 && |u| == |v| == |c| && Cong(u, v, q)
    ensures Cong(Add(Neg(u), Add(c, v)), c, q)
  {
    CongRefl(Add(c, v), q);
    CongScale(-1, -1, u, v, q);
    CongAdd(Neg(u), Neg(v), Add(c, v), Add(c, v), q);
    assert Add(Neg(v), Add(c, v)) == c;
  }

  /** Every pair of integer polynomials the sampler may produce gives a signature of the target. */
  lemma {:induction false} SignatureVerifies(key: TrapdoorKey, t: ZPoly, c: ZPoly, z0: ZPoly, z1: ZPoly, q: int)
    requires q > 1 && Trapdoor(key, q) && PublicKeyOf(key, t, q) && |c| == |z0| == |z1| == |key.f|
    ensures |t| == |key.f| && Cong(Add(Act(t, S0(key, z0, z1)), S1(key, c, z0, z1)), c, q)
  {
    var h: ZPoly :| IsInverse(key.g, h, q) && |key.f| == |h| && t == ModP(Act(key.f, h), q);
    var p := Act(key.f, h);
    var zg, zG := Act(z0, key.g), Act(z1, key.capG);
    var zf, zF := Act(z0, key.f), Act(z1, key.capF);
    PublicTimesG(key.f, key.g, h, z0, q);
    PublicTimesCapG(key, h, z1, q);
    CongMod(p, q);
    CongRefl(S0(key, z0, z1), q);
    CongRefl(S1(key, c, z0, z1), q);
    CongAct(t, p, S0(key, z0, z1), S0(key, z0, z1), q);
    ActScale(p, -1, Add(zg, zG));
    ActAdd(p, zg, zG);
    CongAdd(Act(p, zg), zf, Act(p, zG), zF, q);
    CancelNegated(Add(Act(p, zg), Act(p, zG)), Add(zf, zF), c, q);
    CongAdd(Act(t, S0(key, z0, z1)), Act(p, S0(key, z0, z1)), S1(key, c, z0, z1), S1(key, c, z0, z1), q);
    CongTrans(Add(Act(t, S0(key, z0, z1)), S1(key, c, z0, z1)),
              Add(Act(p, S0(key, z0, z1)), S1(key, c, z0, z1)), c, q);
  }

  // ----- signing -----

  function ToInt(z: R.RPoly): (r: ZPoly)
    ensures |r| == |z|
  {
    seq(|z|, i requires 0 <= i < |z| => z[i].Floor)
  }

  lemma {:induction false} IntegralIsLifted(z: R.RPoly)
    requires Integral(z)
    ensures ToReal(ToInt(z)) == z
  {
  }

  /** round: to the nearest integer, halves away from zero. */
  function Round(x: real): (r: int)
  {
    if x >= 0.0 then (x + 0.5).Floor else -((-x + 0.5).Floor)
  }

  lemma {:induction false} RoundInteger(k: int)
    ensures Round(k as real) == k
  {
    if k < 0 {
      assert -(k as real) == (-k) as real;
      assert ((-k) as real + 0.5).Floor == -k;
    } else {
      assert (k as real + 0.5).Floor == k;
    }
  }

  const TOLERANCE := 0.0000000000000000000000000000000000000001

  const MAX_INT64 := 0x7fff_ffff_ffff_ffff
  const MIN_INT64 := -0x8000_0000_0000_0000

  /** The decimal's conversion to a 64-bit integer, which stops at the ends of the range. */
  function Clamp(x: int): (r: int)
  {
    if x > MAX_INT64 then MAX_INT64 else if x < MIN_INT64 then MIN_INT64 else x
  }

  function ClampAll(a: ZPoly): (r: ZPoly)
    ensures |r| == |a|
  {
    seq(|a|, i requires 0 <= i < |a| => Clamp(a[i]))
  }

  predicate NearInteger(x: real)
  {
    -TOLERANCE <= x - Round(x) as real <= TOLERANCE
  }

  /** round_to_polyq: refuses exactly when a coefficient is not an integer within the tolerance; otherwise rounds each and
      narrows it to 64 bits. */
  method RoundToPolyQ(p: R.RPoly) returns (r: Option<ZPoly>)
    ensures r.Some? <==> forall i :: 0 <= i < |p| ==> NearInteger(p[i])
    ensures r.Some? ==> |r.value| == |p| && forall i :: 0 <= i < |p| ==> r.value[i] == Clamp(Round(p[i]))
  {
    var out: ZPoly := [];
    for i := 0 to |p|
      invariant |out| == i
      invariant forall k :: 0 <= k < i ==> NearInteger(p[k]) && out[k] == Clamp(Round(p[k]))
    {
      var rounded := Round(p[i]);
      var residual := p[i] - rounded as real;
      if (if residual < 0.0 then -residual else residual) > TOLERANCE {
        assert !NearInteger(p[i]);
        return None;
      }
      out := out + [Clamp(rounded)];
    }
    return Some(out);
  }

  /** What is integral comes through as it is, but for the narrowing. */
  lemma {:induction false} IntegralRounds(z: ZPoly, i: nat)
    requires i < |z|
    ensures NearInteger(ToReal(z)[i]) && Round(ToReal(z)[i]) == z[i]
  {
    RoundInteger(z[i]);
  }

  /** One attempt's candidate: both halves computed in reals from the sampler's output, then rounded. */
  method Candidate(key: TrapdoorKey, c: ZPoly, z0: R.RPoly, z1: R.RPoly, n: nat) returns (r: Option<Signature>)
    requires Sized(key, n) && |c| == |z0| == |z1| == n && n > 0
    ensures Integral(z0) && Integral(z1) ==>
      r == Some(Signature(ClampAll(S0(key, ToInt(z0), ToInt(z1))), ClampAll(S1(key, c, ToInt(z0), ToInt(z1)))))
  {
    var z0g := RR.MulFull(z0, ToReal(key.g));
    var z1G := RR.MulFull(z1, ToReal(key.capG));
    var z0f := RR.MulFull(z0, ToReal(key.f));
    var z1F := RR.MulFull(z1, ToReal(key.capF));
    var s0Real := R.Sub(R.Zero(n), R.Add(z0g, z1G));
    var s1Real := R.Add(ToReal(c), R.Add(z0f, z1F));
    var s0 := RoundToPolyQ(s0Real);
    var s1 := RoundToPolyQ(s1Real);
    if Integral(z0) && Integral(z1) {
      CandidateIsIntegral(key, c, z0, z1, n);
      RoundedIntegral(S0(key, ToInt(z0), ToInt(z1)), s0);
      RoundedIntegral(S1(key, c, ToInt(z0), ToInt(z1)), s1);
    }
    if s0.None? || s1.None? {
      return None;
    }
    return Some(Signature(s0.value, s1.value));
  }

  lemma {:induction false} RoundedIntegral(z: ZPoly, r: Option<ZPoly>)
    requires r.Some? <==> forall i :: 0 <= i < |z| ==> NearInteger(ToReal(z)[i])
    requires r.Some? ==> |r.value| == |z| && forall i :: 0 <= i < |z| ==> r.value[i] == Clamp(Round(ToReal(z)[i]))
    ensures r == Some(ClampAll(z))
  {
    hide NearInteger, Round, Clamp;
    forall i | 0 <= i < |z| ensures NearInteger(ToReal(z)[i]) && Round(ToReal(z)[i]) == z[i] {
      IntegralRounds(z, i);
    }
    assert r.Some?;
    forall i | 0 <= i < |z| ensures r.value[i] == ClampAll(z)[i] {
      assert Round(ToReal(z)[i]) == z[i];
    }
    assert r.value == ClampAll(z);
  }

  /** The bounds below which a clamped coefficient is always too long to be accepted. */
  const CLAMP_LIMIT := MAX_INT64 * MAX_INT64

  lemma {:induction false} ShortIsUnclamped(a: ZPoly, bound: int)
    requires Dot(ClampAll(a), ClampAll(a)) <= bound < CLAMP_LIMIT
    ensures ClampAll(a) == a
  {
    forall i | 0 <= i < |a| ensures ClampAll(a)[i] == a[i] {
      CoefficientWithinNorm(ClampAll(a), i);
      ClampedIsLong(a[i]);
    }
  }

  lemma {:induction false} ClampedIsLong(x: int)
    ensures Clamp(x) == x || Clamp(x) * Clamp(x) >= CLAMP_LIMIT
  {
  }

  lemma {:induction false} ShortSignature(s: Signature, bound: int)
    requires NormSquared(Signature(ClampAll(s.s0), ClampAll(s.s1))) <= bound < CLAMP_LIMIT
    ensures Signature(ClampAll(s.s0), ClampAll(s.s1)) == s
  {
    CoefficientWithinNorm(ClampAll(s.s0), 0);
    CoefficientWithinNorm(ClampAll(s.s1), 0);
    ShortIsUnclamped(s.s0, bound);
    ShortIsUnclamped(s.s1, bound);
  }

  lemma {:induction false} ZeroMinus(u: R.RPoly)
    ensures R.Sub(R.Zero(|u|), u) == R.Scale(-1.0, u)
  {
  }

  lemma {:induction false} CandidateIsIntegral(key: TrapdoorKey, c: ZPoly, z0: R.RPoly, z1: R.RPoly, n: nat)
    requires Sized(key, n) && |c| == |z0| == |z1| == n && Integral(z0) && Integral(z1)
    ensures R.Sub(R.Zero(n), R.Add(R.Act(z0, ToReal(key.g)), R.Act(z1, ToReal(key.capG))))
         == ToReal(S0(key, ToInt(z0), ToInt(z1)))
    ensures R.Add(ToReal(c), R.Add(R.Act(z0, ToReal(key.f)), R.Act(z1, ToReal(key.capF))))
         == ToReal(S1(key, c, ToInt(z0), ToInt(z1)))
  {
    var i0, i1 := ToInt(z0), ToInt(z1);
    IntegralIsLifted(z0);
    IntegralIsLifted(z1);
    LiftAct(i0, key.g);
    LiftAct(i1, key.capG);
    LiftAct(i0, key.f);
    LiftAct(i1, key.capF);
    LiftAdd(Act(i0, key.g), Act(i1, key.capG));
    LiftScale(-1, Add(Act(i0, key.g), Act(i1, key.capG)));
    ZeroMinus(ToReal(Add(Act(i0, key.g), Act(i1, key.capG))));
    LiftAdd(Act(i0, key.f), Act(i1, key.capF));
    LiftAdd(c, Add(Act(i0, key.f), Act(i1, key.capF)));
  }

  ghost predicate Signs(key: TrapdoorKey, c: ZPoly, s: Signature, n: nat)
    requires Sized(key, n) && |c| == n
  {
    exists z0: ZPoly, z1: ZPoly ::
      |z0| == |z1| == n && s == Signature(S0(key, z0, z1), S1(key, c, z0, z1))
  }

  lemma {:induction false} SignsAccepted(key: TrapdoorKey, t: ZPoly, c: ZPoly, s: Signature, bound: int, n: nat, q: int)
    requires q > 1 && Sized(key, n) && |c| == n && Signs(key, c, s, n) && NormSquared(s) <= bound
    requires Trapdoor(key, q) && PublicKeyOf(key, t, q)
    ensures |t| == |s.s0| == |s.s1| == n && Accepts(t, c, s, bound, n, q)
  {
    var z0: ZPoly, z1: ZPoly :| |z0| == |z1| == n && s == Signature(S0(key, z0, z1), S1(key, c, z0, z1));
    SignatureVerifies(key, t, c, z0, z1, q);
    PadFull(t);
    PadFull(c);
    PadFull(s.s0);
    PadFull(s.s1);
  }

  function PadKey(key: TrapdoorKey, n: nat): (r: TrapdoorKey)
    requires |key.f| <= n && |key.g| <= n && |key.capF| <= n && |key.capG| <= n
  {
    TrapdoorKey(Pad(key.f, n), Pad(key.g, n), Pad(key.capF, n), Pad(key.capG, n))
  }

  datatype SignOutcome = Signed(signature: Signature) | AttemptsExhausted | InternalError

  lemma {:induction false} ScaledQuotient(x: real, m: real, inverse: real)
    requires m != 0.0 && inverse == 1.0 / m
    ensures x / m == inverse * x
  {
  }

  method DivideBy(p: R.RPoly, m: real) returns (r: R.RPoly)
    requires m != 0.0
    ensures r == R.Scale(1.0 / m, p)
  {
    r := p;
    for i := 0 to |p|
      invariant |r| == |p|
      invariant forall k :: 0 <= k < |p| ==> r[k] == if k < i then p[k] / m else p[k]
    {
      r := r[i := p[i] / m];
    }
    forall k | 0 <= k < |p| ensures r[k] == R.Scale(1.0 / m, p)[k] {
      ScaledQuotient(p[k], m, 1.0 / m);
    }
  }

  /** The centre of the sampler: (-c G / q, c g / q). */
  function Centre0(key: TrapdoorKey, c: ZPoly, q: int): (r: R.RPoly)
    requires q > 0
    ensures |r| == |key.capG|
  {
    R.Scale(1.0 / (q as real), R.Scale(-1.0, R.Act(ToReal(c), ToReal(key.capG))))
  }

  function Centre1(key: TrapdoorKey, c: ZPoly, q: int): (r: R.RPoly)
    requires q > 0
    ensures |r| == |key.g|
  {
    R.Scale(1.0 / (q as real), R.Act(ToReal(c), ToReal(key.g)))
  }

  method SamplingCentre(key: TrapdoorKey, c: ZPoly, n: nat, q: int) returns (t0: R.RPoly, t1: R.RPoly)
    requires Sized(key, n) && |c| == n && q > 0
    ensures t0 == Centre0(key, c, q) && t1 == Centre1(key, c, q)
  {
    var cG := RR.MulFull(ToReal(c), ToReal(key.capG));
    var cg := RR.MulFull(ToReal(c), ToReal(key.g));
    t0 := DivideBy(R.Scale(-1.0, cG), q as real);
    t1 := DivideBy(cg, q as real);
  }

  /** What an attempt of signing compares with the bound, for the integer polynomials the sampler returned. */
  function Narrowed(key: TrapdoorKey, c: ZPoly, z0: ZPoly, z1: ZPoly): (s: Signature)
    requires |key.g| == |key.capG| && |key.f| == |key.capF| == |c|
    ensures |s.s0| == |key.g| && |s.s1| == |c|
  {
    Signature(ClampAll(S0(key, z0, z1)), ClampAll(S1(key, c, z0, z1)))
  }

  ghost predicate Signable(key: TrapdoorKey, tree: Tree, c: ZPoly, n: nat)
  {
    Sized(key, n) && |c| == n && tree.Node? && TreeAt(tree, n) && IsPowerOfTwo(n)
  }

  /** What the given attempt sampled: each one uses up two draws a coefficient. */
  ghost function AttemptSample(key: TrapdoorKey, tree: Tree, c: ZPoly, draw: Sampler, attempt: nat, n: nat, q: int): (z: Sample)
    requires Signable(key, tree, c, n) && q > 0
    ensures |z.z0| == |z.z1| == n
  {
    SamplingNeverFails(Centre0(key, c, q), Centre1(key, c, q), tree, n, draw, 2 * n * attempt);
    FfSampling(Centre0(key, c, q), Centre1(key, c, q), tree, n, draw, 2 * n * attempt).value
  }

  ghost function Attempt(key: TrapdoorKey, tree: Tree, c: ZPoly, draw: Sampler, attempt: nat, n: nat, q: int): (s: Signature)
    requires Signable(key, tree, c, n) && q > 0
    ensures |s.s0| == |s.s1| == n
  {
    var z := AttemptSample(key, tree, c, draw, attempt, n, q);
    Narrowed(key, c, ToInt(z.z0), ToInt(z.z1))
  }

  /** The first attempts all came out too long. */
  ghost predicate AllTooLong(
    key: TrapdoorKey, tree: Tree, c: ZPoly, draw: Sampler, attempts: nat, bound: int, n: nat, q: int)
    requires Signable(key, tree, c, n) && q > 0
  {
    forall a: nat :: a < attempts ==> NormSquared(Attempt(key, tree, c, draw, a, n, q)) > bound
  }

  ghost predicate FirstShort(
    key: TrapdoorKey, tree: Tree, c: ZPoly, draw: Sampler, attempt: nat, bound: int, n: nat, q: int, s: Signature)
    requires Signable(key, tree, c, n) && q > 0
  {
    && s == Attempt(key, tree, c, draw, attempt, n, q) && NormSquared(s) <= bound
    && AllTooLong(key, tree, c, draw, attempt, bound, n, q)
  }

  /** One attempt, from the given draw on; `None` stands for the throws on a tree that does not match the degree and on
      a coefficient that did not come out integer. */
  method TryOnce(key: TrapdoorKey, tree: Tree, c: ZPoly, t0: R.RPoly, t1: R.RPoly, draw: Sampler, k: nat, n: nat, q: int)
    returns (s: Option<Signature>, next: nat)
    requires Sized(key, n) && |c| == n && n > 0 && tree.Node? && q > 0
    requires t0 == Centre0(key, c, q) && t1 == Centre1(key, c, q)
    ensures s.Some? ==> |s.value.s0| == |s.value.s1| == n
    ensures forall i: nat :: k == 2 * n * i && Signable(key, tree, c, n) ==>
      s == Some(Attempt(key, tree, c, draw, i, n, q)) && next == k + 2 * n
  {
    hide Centre0, Centre1, FfSampling, S0, S1, ClampAll, Integral, DrawnInOrder;
    var z := FfSampling(t0, t1, tree, n, draw, k);
    if Signable(key, tree, c, n) {
      SamplingNeverFails(t0, t1, tree, n, draw, k);
    }
    if z.None? || |z.value.z0| != n || |z.value.z1| != n {
      return None, k;
    }
    next := k + |z.value.draws|;
    s := Candidate(key, c, z.value.z0, z.value.z1, n);
    if s.Some? && (|s.value.s0| != n || |s.value.s1| != n) {
      return None, next;
    }
  }

  /** sign_target.  `InternalError` stands for the throws of an attempt: they cannot happen over a tree of the right shape.
      What is returned is the first attempt within the bound, and nothing exactly when none of those allowed is. */
  method SignTarget(key0: TrapdoorKey, tree: Tree, target: ZPoly, bound: int, draw: Sampler, maxAttempts: nat, n: nat, q: int)
    returns (r: Result<SignOutcome>)
    requires tree.Node? && n > 0 && q > 2
    ensures r.Refused? <==>
      |key0.f| > n || |key0.g| > n || |key0.capF| > n || |key0.capG| > n || |target| > n
    ensures r.Ok? && r.value.Signed? ==>
      |r.value.signature.s0| == |r.value.signature.s1| == n && NormSquared(r.value.signature) <= bound
    ensures r.Ok? && TreeAt(tree, n) && IsPowerOfTwo(n) ==>
      OutcomeOf(PadKey(key0, n), tree, Pad(target, n), draw, maxAttempts, bound, n, q, r.value)
    ensures r.Ok? && r.value.Signed? && TreeAt(tree, n) && IsPowerOfTwo(n) && Trapdoor(PadKey(key0, n), q) && bound < CLAMP_LIMIT ==>
      forall t: ZPoly :: |t| == n && PublicKeyOf(PadKey(key0, n), t, q) ==>
        Accepts(t, target, r.value.signature, bound, n, q)
  {
    hide OutcomeOf, Trapdoor, PublicKeyOf, TreeAt, NormSquared;
    if |key0.f| > n || |key0.g| > n || |key0.capF| > n || |key0.capG| > n || |target| > n {
      return Refused;
    }
    var key, c := PadKey(key0, n), Pad(target, n);
    var outcome := SignPadded(key, tree, c, bound, draw, maxAttempts, n, q);
    if outcome.Signed? && TreeAt(tree, n) && IsPowerOfTwo(n) && Trapdoor(key, q) && bound < CLAMP_LIMIT {
      OutcomeAccepted(key, tree, c, draw, maxAttempts, bound, n, q, outcome.signature);
      PadFull(c);
      forall t: ZPoly | |t| == n && PublicKeyOf(key, t, q) ensures Accepts(t, target, outcome.signature, bound, n, q) {
        assert Accepts(t, c, outcome.signature, bound, n, q);
      }
    }
    return Ok(outcome);
  }

  lemma {:induction false} OneMoreTooLong(
    key: TrapdoorKey, tree: Tree, c: ZPoly, draw: Sampler, a: nat, k: nat, bound: int, n: nat, q: int)
    requires Signable(key, tree, c, n) && q > 0 && k == 2 * n * a && AllTooLong(key, tree, c, draw, a, bound, n, q)
    requires NormSquared(Attempt(key, tree, c, draw, a, n, q)) > bound
    ensures k + 2 * n == 2 * n * (a + 1) && AllTooLong(key, tree, c, draw, a + 1, bound, n, q)
  {
    hide Attempt, NormSquared;
  }

  method SignPadded(key: TrapdoorKey, tree: Tree, c: ZPoly, bound: int, draw: Sampler, maxAttempts: nat, n: nat, q: int)
    returns (r: SignOutcome)
    requires Sized(key, n) && |c| == n && tree.Node? && n > 0 && q > 2
    ensures r.Signed? ==> |r.signature.s0| == |r.signature.s1| == n && NormSquared(r.signature) <= bound
    ensures Signable(key, tree, c, n) ==> OutcomeOf(key, tree, c, draw, maxAttempts, bound, n, q, r)
  {
    hide Centre0, Centre1, Attempt, AllTooLong, Signable;
    var t0, t1 := SamplingCentre(key, c, n, q);
    var k := 0;
    if Signable(key, tree, c, n) {
      NoneTooLong(key, tree, c, draw, bound, n, q);
    }
    for attempt := 0 to maxAttempts
      invariant Signable(key, tree, c, n) ==> k == 2 * n * attempt && AllTooLong(key, tree, c, draw, attempt, bound, n, q)
    {
      var s, next := TryOnce(key, tree, c, t0, t1, draw, k, n, q);
      if s.None? {
        return InternalError;
      }
      var n0 := SquaredNorm(s.value.s0);
      var n1 := SquaredNorm(s.value.s1);
      assert n0 + n1 == NormSquared(s.value);
      if n0 + n1 <= bound {
        assert Signable(key, tree, c, n) ==> FirstShort(key, tree, c, draw, attempt, bound, n, q, s.value);
        return Signed(s.value);
      }
      if Signable(key, tree, c, n) {
        OneMoreTooLong(key, tree, c, draw, attempt, k, bound, n, q);
      }
      k := next;
    }
    return AttemptsExhausted;
  }

  lemma {:induction false} NoneTooLong(key: TrapdoorKey, tree: Tree, c: ZPoly, draw: Sampler, bound: int, n: nat, q: int)
    requires Signable(key, tree, c, n) && q > 0
    ensures AllTooLong(key, tree, c, draw, 0, bound, n, q)
  {
  }

  /** The outcome of signing: the first attempt within the bound, or none of those allowed. */
  ghost predicate OutcomeOf(
    key: TrapdoorKey, tree: Tree, c: ZPoly, draw: Sampler, attempts: nat, bound: int, n: nat, q: int, r: SignOutcome)
    requires Signable(key, tree, c, n) && q > 0
  {
    match r
    case Signed(s) => exists a: nat :: a < attempts && FirstShort(key, tree, c, draw, a, bound, n, q, s)
    case AttemptsExhausted => AllTooLong(key, tree, c, draw, attempts, bound, n, q)
    case InternalError => false
  }

  /** A signature is accepted by `VerifyTarget`, with the same bound, under every public key derived from the key; only a
      bound of (2^63 - 1)^2 or more could let a coefficient pass that the narrowing to 64 bits has changed. */
  lemma {:induction false} OutcomeAccepted(
    key: TrapdoorKey, tree: Tree, c: ZPoly, draw: Sampler, attempts: nat, bound: int, n: nat, q: int, s: Signature)
    requires Signable(key, tree, c, n) && q > 2 && OutcomeOf(key, tree, c, draw, attempts, bound, n, q, Signed(s))
    requires Trapdoor(key, q) && bound < CLAMP_LIMIT
    ensures |s.s0| == |s.s1| == n
    ensures forall t: ZPoly :: |t| == n && PublicKeyOf(key, t, q) ==> Accepts(t, c, s, bound, n, q)
  {
    hide Trapdoor, PublicKeyOf, Accepts, AttemptSample, S0, S1, ClampAll;
    var a: nat :| a < attempts && FirstShort(key, tree, c, draw, a, bound, n, q, s);
    var z := AttemptSample(key, tree, c, draw, a, n, q);
    var i0, i1 := ToInt(z.z0), ToInt(z.z1);
    ShortSignature(Signature(S0(key, i0, i1), S1(key, c, i0, i1)), bound);
    PadFull(c);
    AcceptedByAll(key, c, s, i0, i1, bound, n, q);
  }

  lemma {:induction false} AcceptedByAll(key: TrapdoorKey, target: ZPoly, s: Signature, z0: ZPoly, z1: ZPoly, bound: int, n: nat, q: int)
    requires q > 1 && Sized(key, n) && |target| <= n && |z0| == |z1| == n && Trapdoor(key, q)
    requires s == Signature(S0(key, z0, z1), S1(key, Pad(target, n), z0, z1)) && NormSquared(s) <= bound
    ensures forall t: ZPoly :: |t| == n && PublicKeyOf(key, t, q) ==> Accepts(t, target, s, bound, n, q)
  {
    var c := Pad(target, n);
    PadFull(c);
    forall t: ZPoly | |t| == n && PublicKeyOf(key, t, q)
      ensures Accepts(t, target, s, bound, n, q)
    {
      SignsAccepted(key, t, c, s, bound, n, q);
    }
  }

  function GramOf(key: TrapdoorKey): (g: RF.GramMatrix)
    requires |key.f| == |key.g| == |key.capF| == |key.capG|
  {
    RF.Gram(ToReal(key.f), ToReal(key.g), ToReal(key.capF), ToReal(key.capG))
  }

  /** build_signing_tree: for every key with fG - gF = q it returns a tree of the right shape that represents the Gram
      matrix of the key, so none of its throws (singular division, diagonal not self-adjoint, not positive) can happen. */
  method BuildSigningTree(key: TrapdoorKey, sigma: real, sqrt: real -> real, n: nat, q: int) returns (r: Result<Option<Tree>>)
    requires q > 0 && PositiveRoot(sqrt)
    ensures r.Refused? <==>
      n < 2 || !IsPowerOfTwo(n) || |key.f| > n || |key.g| > n || |key.capF| > n || |key.capG| > n
    ensures r.Ok? && r.value.Some? ==> r.value.value.Node? && TreeAt(r.value.value, n)
    ensures r.Ok? && r.value.Some? && sigma > 0.0 ==> LeavesPositive(r.value.value)
    ensures r.Ok? && Trapdoor(PadKey(key, n), q) ==> r.value.Some?
    ensures r.Ok? && r.value.Some? && ExactRoot(sqrt) && sigma != 0.0 ==>
      Represents(r.value.value, sigma, GramOf(PadKey(key, n)), n)
  {
    hide Represents, TreeAt, LeavesPositive;
    if n == 0 {
      return Refused;
    }
    var gram :- BuildGramMatrix(ToReal(key.f), ToReal(key.g), ToReal(key.capF), ToReal(key.capG), n);
    var padded := PadKey(key, n);
    PadLifts(key.f, n);
    PadLifts(key.g, n);
    PadLifts(key.capF, n);
    PadLifts(key.capG, n);
    if Trapdoor(padded, q) {
      RelationLifts(padded.f, padded.g, NtruSolution(padded.capF, padded.capG), q);
      RF.GramPositive(ToReal(padded.f), ToReal(padded.g), ToReal(padded.capF), ToReal(padded.capG), q as real);
    }
    RF.GramSelfAdjoint(ToReal(padded.f), ToReal(padded.g), ToReal(padded.capF), ToReal(padded.capG));
    r := BuildFalconTree(gram, n, sigma, sqrt);
  }

  lemma {:induction false} PadLifts(a: ZPoly, n: nat)
    requires |a| <= n
    ensures R.Pad(ToReal(a), n) == ToReal(Pad(a, n))
  {
  }
}
