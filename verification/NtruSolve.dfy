/** The NTRU equation fG - gF = q in Z[x]/(x^n + 1): the relation, the extended Euclidean base case and
    the recursive solver that descends by field norms and lifts back (section 3.8.2 of the Falcon
    specification, without its per-level reduction). */
module NtruSolve {
  import opened Outcomes
  import opened Residues
  import opened IntPoly
  import opened Galois
  import opened IntegerRing

  datatype NtruSolution = NtruSolution(capF: ZPoly, capG: ZPoly)

  function RelationLhs(f: ZPoly, g: ZPoly, capF: ZPoly, capG: ZPoly): (r: ZPoly)
    requires |f| == |g| == |capF| == |capG|
  {
    Sub(Act(f, capG), Act(g, capF))
  }

  ghost predicate NtruRelation(f: ZPoly, g: ZPoly, s: NtruSolution, q: int)
  {
    && |f| == |g| == |s.capF| == |s.capG| > 0
    && RelationLhs(f, g, s.capF, s.capG) == Const(q, |f|)
  }

  /** verify_ntru_relation_exact. */
  method VerifyRelation(f: ZPoly, g: ZPoly, capF: ZPoly, capG: ZPoly, q: int, degree: nat) returns (r: Result<bool>)
    ensures r.Refused? <==> degree > 0 && (|f| > degree || |g| > degree || |capF| > degree || |capG| > degree)
    ensures degree == 0 ==> r == Ok(false)
    ensures degree > 0 && r.Ok? ==> (r.value <==>
      NtruRelation(Pad(f, degree), Pad(g, degree), NtruSolution(Pad(capF, degree), Pad(capG, degree)), q))
  {
    if degree == 0 {
      return Ok(false);
    }
    var fG :- MulPoly(f, capG, degree);
    var gF :- MulPoly(g, capF, degree);
    PadFull(fG);
    PadFull(gF);
    var lhs := SubPoly(fG, gF, degree);
    return Ok(lhs.value == Const(q, degree));
  }

  // ----- extended Euclid -----

  ghost predicate Coprime(a: int, b: int)
  {
    forall d: int :: d > 1 ==> !(a % d == 0 && b % d == 0)
  }

  lemma {:induction false} CombinationMod(a: int, b: int, u: int, v: int, d: int)
    requires d > 0 && a % d == 0 && b % d == 0
    ensures (u * a + v * b) % d == 0
  {
    var x, y := a / d, b / d;
    assert u * a + v * b == d * (u * x + v * y) by {
      assert u * a == d * (u * x) by { assert a == d * x; }
      assert v * b == d * (v * y) by { assert b == d * y; }
    }
    MultipleMod(d, u * x + v * y);
  }

  /** What the extended Euclidean algorithm promises decides coprimality. */
  lemma {:induction false} BezoutDecides(a: int, b: int, gcd: int, u: int, v: int, x: int, y: int)
    requires gcd >= 0 && u * a + v * b == gcd && a == gcd * x && b == gcd * y
    ensures gcd == 1 <==> Coprime(a, b)
  {
    if gcd == 1 {
      forall d: int | d > 1 && a % d == 0 && b % d == 0
        ensures false
      {
        CombinationMod(a, b, u, v, d);
      }
    } else if gcd == 0 {
      assert a % 2 == 0 && b % 2 == 0;
    } else {
      MultipleMod(gcd, x);
      MultipleMod(gcd, y);
    }
  }

  lemma {:induction false} EuclidForward(a: int, b: int, r: int, s: int, t: int, r': int, s': int, t': int, k: int)
    requires r == s * a + t * b && r' == s' * a + t' * b
    ensures r - k * r' == (s - k * s') * a + (t - k * t') * b
  {
    assert k * r' == (k * s') * a + (k * t') * b by {
      assert k * r' == k * (s' * a) + k * (t' * b);
    }
  }

  method EuclidLoop(a: nat, b: nat) returns (gcd: int, u: int, v: int, ghost x: int, ghost y: int)
    ensures gcd >= 0 && u * a + v * b == gcd && a == gcd * x && b == gcd * y
  {
    var oldR: int, r: int := a, b;
    var oldS, s := 1, 0;
    var oldT, t := 0, 1;
    ghost var xa, xb, ya, yb := 1, 0, 0, 1;
    while r != 0
      invariant oldR >= 0 && r >= 0
      invariant oldR == oldS * a + oldT * b
      invariant r == s * a + t * b
      invariant a == xa * oldR + ya * r
      invariant b == xb * oldR + yb * r
      decreases r
    {
      var quotient := oldR / r;
      EuclidForward(a, b, oldR, oldS, oldT, r, s, t, quotient);
      CombineBack(a, xa, ya, oldR, r, quotient);
      CombineBack(b, xb, yb, oldR, r, quotient);
      xa, ya := xa * quotient + ya, xa;
      xb, yb := xb * quotient + yb, xb;
      assert oldR - quotient * r == oldR % r;
      oldR, r := r, oldR - quotient * r;
      oldS, s := s, oldS - quotient * s;
      oldT, t := t, oldT - quotient * t;
    }
    gcd, u, v, x, y := oldR, oldS, oldT, xa, xb;
  }

  /** extended_gcd: for signed arguments, a Bezout identity whose left side is 1 exactly when the arguments
      are coprime. */
  method ExtendedGcd(a: int, b: int) returns (gcd: int, u: int, v: int)
    ensures u * a + v * b == gcd
    ensures gcd >= 0
    ensures gcd == 1 <==> Coprime(a, b)
  {
    ghost var x, y;
    gcd, u, v, x, y := EuclidLoop(if a < 0 then -a else a, if b < 0 then -b else b);
    if a < 0 {
      u := -u;
      x := -x;
    }
    if b < 0 {
      v := -v;
      y := -y;
    }
    BezoutDecides(a, b, gcd, u, v, x, y);
  }

  // ----- lifting a solution from the half-size ring -----

  function Lift(f: ZPoly, g: ZPoly, half: NtruSolution): (s: NtruSolution)
  {
    NtruSolution(Act(Embed(half.capF), Conj(g)), Act(Embed(half.capG), Conj(f)))
  }

  /** f times a lifted coefficient is the embedding of the half-size product with N(f). */
  lemma {:induction false} LiftedProduct(f: ZPoly, h: ZPoly)
    requires |f| == 2 * |h|
    ensures Act(f, Act(Embed(h), Conj(f))) == Embed(Act(FieldNorm(f), h))
  {
    MulSwap(f, Embed(h), Conj(f));
    EmbedFieldNorm(f);
    MulComm(Embed(h), Act(f, Conj(f)));
    EmbedMul(FieldNorm(f), h);
  }

  lemma {:induction false} LiftSolves(f: ZPoly, g: ZPoly, half: NtruSolution, q: int)
    requires |f| == |g| && |f| % 2 == 0
    requires NtruRelation(FieldNorm(f), FieldNorm(g), half, q)
    ensures NtruRelation(f, g, Lift(f, g, half), q)
  {
    LiftedProduct(f, half.capG);
    LiftedProduct(g, half.capF);
    EmbedSub(Act(FieldNorm(f), half.capG), Act(FieldNorm(g), half.capF));
    EmbedConst(q, |f| / 2);
  }

  lemma {:induction false} BaseCaseSolves(a: int, b: int, u: int, v: int, q: int)
    requires u * a + v * b == 1
    ensures NtruRelation([a], [b], NtruSolution([-(v * q)], [u * q]), q)
  {
    var l := RelationLhs([a], [b], [-(v * q)], [u * q]);
    assert Act([a], [u * q]) == [a * (u * q)];
    assert Act([b], [-(v * q)]) == [b * -(v * q)];
    assert l[0] == a * (u * q) - b * -(v * q);
    assert a * (u * q) - b * -(v * q) == (u * a + v * b) * q;
  }

  /** The field norm taken all the way down to an integer. */
  function IteratedNorm(f: ZPoly): (r: int)
    requires IsPowerOfTwo(|f|)
    decreases |f|
  {
    if |f| == 1 then f[0] else IteratedNorm(FieldNorm(f))
  }

  method SolveRecursive(f: ZPoly, g: ZPoly, degree: nat, q: int) returns (r: Option<NtruSolution>)
    requires IsPowerOfTwo(degree) && |f| == |g| == degree && q > 0
    ensures r.Some? <==> Coprime(IteratedNorm(f), IteratedNorm(g))
    ensures r.Some? ==> NtruRelation(f, g, r.value, q)
    decreases degree
  {
    PadFull(f);
    PadFull(g);
    if degree == 1 {
      var gcd, u, v := ExtendedGcd(f[0], g[0]);
      if gcd != 1 {
        return None;
      }
      var s := NtruSolution([-(v * q)], [u * q]);
      assert f == [f[0]] && g == [g[0]];
      BaseCaseSolves(f[0], g[0], u, v, q);
      PadFull(s.capF);
      PadFull(s.capG);
      var ok := VerifyRelation(f, g, s.capF, s.capG, q, degree);
      if !ok.value {
        assert false;
      }
      return Some(s);
    }
    PowerOfTwoIsEven(degree);
    var normF := FieldNormPoly(f, degree);
    var normG := FieldNormPoly(g, degree);
    var half := SolveRecursive(normF.value, normG.value, degree / 2, q);
    if half.None? {
      return None;
    }
    var s := LiftPoly(f, g, half.value, degree);
    LiftSolves(f, g, half.value, q);
    PadFull(s.capF);
    PadFull(s.capG);
    var ok := VerifyRelation(f, g, s.capF, s.capG, q, degree);
    if !ok.value {
      assert false;
    }
    return Some(s);
  }

  method LiftPoly(f: ZPoly, g: ZPoly, half: NtruSolution, degree: nat) returns (s: NtruSolution)
    requires degree >= 2 && IsPowerOfTwo(degree) && |f| == |g| == degree
    requires |half.capF| == |half.capG| == degree / 2
    ensures s == Lift(f, g, half)
  {
    hide IsPowerOfTwo, Act, Pad;
    PowerOfTwoIsEven(degree);
    PadFull(f);
    PadFull(g);
    PadFull(half.capF);
    PadFull(half.capG);
    var eF := EmbedHalf(half.capF, degree);
    var eG := EmbedHalf(half.capG, degree);
    var cg := Conjugate(g, degree);
    var cf := Conjugate(f, degree);
    PadFull(eF.value);
    PadFull(eG.value);
    PadFull(cg.value);
    PadFull(cf.value);
    var capF := MulPoly(eF.value, cg.value, degree);
    var capG := MulPoly(eG.value, cf.value, degree);
    return NtruSolution(capF.value, capG.value);
  }

  /** NTRUEquationSolver: construction and solve. */
  method Solve(f: ZPoly, g: ZPoly, degree: nat, q: int) returns (r: Result<Option<NtruSolution>>)
    ensures r.Refused? <==> !IsPowerOfTwo(degree) || q <= 0 || |f| > degree || |g| > degree
    ensures r.Ok? ==> (r.value.Some? <==>
      Coprime(IteratedNorm(Pad(f, degree)), IteratedNorm(Pad(g, degree))))
    ensures r.Ok? && r.value.Some? ==> NtruRelation(Pad(f, degree), Pad(g, degree), r.value.value, q)
  {
    if !IsPowerOfTwo(degree) || q <= 0 {
      return Refused;
    }
    var ff :- CanonicalSize(f, degree);
    var gg :- CanonicalSize(g, degree);
    var s := SolveRecursive(ff, gg, degree, q);
    return Ok(s);
  }
}
