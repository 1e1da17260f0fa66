/** Signing narrows each coefficient of a signature to 64 bits before it compares the norm with the bound.  For which
    bounds this can let a changed coefficient through: exactly those of at least (2^63 - 1)^2. */
module NarrowedSignature {
  import opened IntPoly
  import opened IntegerRing
  import opened ModRing
  import opened Sign

  /** Whatever the canonical target and the sampler's output, an attempt within the bound is a signature. */
  ghost predicate AlwaysAccepted(key: TrapdoorKey, t: ZPoly, bound: int, n: nat, q: int)
    requires q > 0 && Sized(key, n) && |t| == n
  {
    forall c: ZPoly, z0: ZPoly, z1: ZPoly :: |c| == |z0| == |z1| == n && Canonical(c, q) ==>
      var s := Narrowed(key, c, z0, z1);
      NormSquared(s) <= bound ==> Accepts(t, c, s, bound, n, q)
  }

  /** (k G, -k g) adds k q to the constant coefficient of the target, and nothing else. */
  lemma {:induction false} ShiftByModulus(key: TrapdoorKey, c: ZPoly, k: int, q: int)
    requires Trapdoor(key, q) && |c| == |key.f|
    ensures S0(key, Scale(k, key.capG), Scale(-k, key.g)) == Zero(|c|)
    ensures S1(key, c, Scale(k, key.capG), Scale(-k, key.g)) == Add(c, Const(k * q, |c|))
  {
    hide Act, Const;
    var f, g, capF, capG := key.f, key.g, key.capF, key.capG;
    Combine(k, capG, g, g, capG);
    Combine(k, capG, f, g, capF);
    MulComm(capG, g);
    MulComm(capG, f);
    assert Sub(Act(f, capG), Act(g, capF)) == Const(q, |c|);
    ScaleConst(k, q, |c|);
  }

  lemma {:induction false} ScaleConst(k: int, q: int, n: nat)
    ensures Scale(k, Const(q, n)) == Const(k * q, n)
  {
  }

  /** (k a) b + (-k c) d = k (a b - c d). */
  lemma {:induction false} Combine(k: int, a: ZPoly, b: ZPoly, c: ZPoly, d: ZPoly)
    requires |a| == |b| == |c| == |d|
    ensures Add(Act(Scale(k, a), b), Act(Scale(-k, c), d)) == Scale(k, Sub(Act(a, b), Act(c, d)))
  {
    hide Act;
    ScaleFirst(k, a, b);
    ScaleFirst(-k, c, d);
    var u, v := Act(a, b), Act(c, d);
    forall i | 0 <= i < |a| ensures k * u[i] + -k * v[i] == k * (u[i] - v[i]) {
    }
  }

  lemma {:induction false} ScaleFirst(k: int, u: ZPoly, v: ZPoly)
    requires |u| == |v|
    ensures Act(Scale(k, u), v) == Scale(k, Act(u, v))
  {
    MulComm(Scale(k, u), v);
    ActScale(v, k, u);
    MulComm(u, v);
  }

  lemma {:induction false} DotConst(c: int, n: nat)
    requires n > 0
    ensures Dot(Const(c, n), Const(c, n)) == c * c && Dot(Zero(n), Zero(n)) == 0
  {
    assert Const(c, n)[..n - 1] == Const(c, n - 1) && Zero(n)[..n - 1] == Zero(n - 1);
    if n > 1 {
      DotConst(c, n - 1);
    }
  }

  /** Under any key there is a target and a sampler's output whose narrowed pair has squared norm (2^63 - 1)^2 and is not
      a signature. */
  lemma {:induction false} NarrowingBreaks(key: TrapdoorKey, t: ZPoly, n: nat, q: int) returns (c: ZPoly, z0: ZPoly, z1: ZPoly)
    requires q > 2 && Trapdoor(key, q) && Sized(key, n) && |t| == n
    ensures |c| == |z0| == |z1| == n && Canonical(c, q)
    ensures NormSquared(Narrowed(key, c, z0, z1)) == CLAMP_LIMIT
    ensures forall bound :: !Accepts(t, c, Narrowed(key, c, z0, z1), bound, n, q)
  {
    var c0 := if MAX_INT64 % q == 0 then 1 else 0;
    var k := MAX_INT64;
    c, z0, z1 := Const(c0, n), Scale(k, key.capG), Scale(-k, key.g);
    ShiftByModulus(key, c, k, q);
    var s := Narrowed(key, c, z0, z1);
    assert k * q > MAX_INT64;
    assert s.s0 == Zero(n);
    assert s.s1 == Const(MAX_INT64, n);
    DotConst(MAX_INT64, n);
    ZeroProduct(t, n);
    PadFull(t);
    PadFull(c);
    PadFull(s.s0);
    PadFull(s.s1);
    assert Add(Act(t, s.s0), s.s1)[0] == MAX_INT64;
    assert c[0] % q != MAX_INT64 % q;
  }

  lemma {:induction false} ZeroProduct(t: ZPoly, n: nat)
    requires |t| == n
    ensures Act(t, Zero(n)) == Zero(n)
  {
    assert Scale(0, Zero(n)) == Zero(n);
    ActScale(t, 0, Zero(n));
  }

  /** Every attempt within the bound is a signature if and only if the bound is below (2^63 - 1)^2. */
  lemma {:induction false} AcceptedExactlyBelowLimit(key: TrapdoorKey, t: ZPoly, bound: int, n: nat, q: int)
    requires q > 2 && Trapdoor(key, q) && Sized(key, n) && |t| == n && PublicKeyOf(key, t, q)
    ensures AlwaysAccepted(key, t, bound, n, q) <==> bound < CLAMP_LIMIT
  {
    hide Narrowed, NormSquared, Accepts, Trapdoor, PublicKeyOf, Canonical;
    if bound < CLAMP_LIMIT {
      forall c: ZPoly, z0: ZPoly, z1: ZPoly |
        |c| == |z0| == |z1| == n && Canonical(c, q) && NormSquared(Narrowed(key, c, z0, z1)) <= bound
        ensures Accepts(t, c, Narrowed(key, c, z0, z1), bound, n, q)
      {
        ShortIsAccepted(key, t, c, z0, z1, bound, n, q);
      }
    } else {
      var c, z0, z1 := NarrowingBreaks(key, t, n, q);
    }
  }

  lemma {:induction false} ShortIsAccepted(
    key: TrapdoorKey, t: ZPoly, c: ZPoly, z0: ZPoly, z1: ZPoly, bound: int, n: nat, q: int)
    requires q > 2 && Trapdoor(key, q) && Sized(key, n) && |t| == |c| == |z0| == |z1| == n && PublicKeyOf(key, t, q)
    requires NormSquared(Narrowed(key, c, z0, z1)) <= bound < CLAMP_LIMIT
    ensures Accepts(t, c, Narrowed(key, c, z0, z1), bound, n, q)
  {
    var s := Signature(S0(key, z0, z1), S1(key, c, z0, z1));
    ShortSignature(s, bound);
    PadFull(c);
    AcceptedByAll(key, c, s, z0, z1, bound, n, q);
  }
}
