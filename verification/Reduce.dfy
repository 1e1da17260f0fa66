/** Reducing an NTRU solution (F, G) by NTRUBasisReducer, which subtracts one shift of (f, g) at a time with an
    exact integer coefficient.  It moves (F, G) along multiples of (f, g), which never disturbs fG - gF = q. */
module Reduce {
  import opened Outcomes
  import opened IntPoly
  import opened IntegerRing
  import opened NtruSolve

  function Norm(s: NtruSolution): (r: int)
  {
    Dot(s.capF, s.capF) + Dot(s.capG, s.capG)
  }

  ghost predicate Full(f: ZPoly, g: ZPoly, s: NtruSolution, n: nat)
  {
    |f| == |g| == |s.capF| == |s.capG| == n
  }

  // ----- moving along multiples of (f, g) -----

  function Translate(s: NtruSolution, k: ZPoly, f: ZPoly, g: ZPoly): (r: NtruSolution)
    requires |s.capF| == |f| && |s.capG| == |g|
  {
    NtruSolution(Add(s.capF, Act(k, f)), Add(s.capG, Act(k, g)))
  }

  lemma {:induction false} SameShift(a: ZPoly, b: ZPoly, t: ZPoly)
    requires |a| == |b| == |t|
    ensures Sub(Add(a, t), Add(b, t)) == Sub(a, b)
  {
  }

  /** f (G + k g) - g (F + k f) = fG - gF. */
  lemma {:induction false} TranslateKeepsRelation(f: ZPoly, g: ZPoly, s: NtruSolution, k: ZPoly, q: int)
    requires NtruRelation(f, g, s, q) && |k| == |f|
    ensures NtruRelation(f, g, Translate(s, k, f, g), q)
  {
    ActAdd(f, s.capG, Act(k, g));
    ActAdd(g, s.capF, Act(k, f));
    MulSwap(f, k, g);
    MulSwap(g, k, f);
    MulComm(f, g);
    SameShift(Act(f, s.capG), Act(g, s.capF), Act(f, Act(k, g)));
  }

  lemma {:induction false} AddReassoc(a: ZPoly, b: ZPoly, c: ZPoly)
    requires |a| == |b| == |c|
    ensures Add(Add(a, b), c) == Add(a, Add(b, c))
  {
  }

  lemma {:induction false} TranslateTwice(s: NtruSolution, j: ZPoly, k: ZPoly, f: ZPoly, g: ZPoly)
    requires |s.capF| == |f| && |s.capG| == |g| && |j| == |k|
    ensures Translate(Translate(s, j, f, g), k, f, g) == Translate(s, Add(j, k), f, g)
  {
    PolyAdd(j, k, f);
    PolyAdd(j, k, g);
    AddReassoc(s.capF, Act(j, f), Act(k, f));
    AddReassoc(s.capG, Act(j, g), Act(k, g));
  }

  lemma {:induction false} TranslateZero(s: NtruSolution, f: ZPoly, g: ZPoly)
    requires |s.capF| == |f| == |s.capG| == |g| > 0
    ensures Translate(s, Const(0, |f|), f, g) == s
  {
    MulConst(f, 0);
    MulConst(g, 0);
    assert Add(s.capF, Scale(0, f)) == s.capF;
    assert Add(s.capG, Scale(0, g)) == s.capG;
  }

  ghost predicate TranslatedBy(s: NtruSolution, k: ZPoly, out: NtruSolution, f: ZPoly, g: ZPoly)
    requires |s.capF| == |f| && |s.capG| == |g|
  {
    |k| == |f| && out == Translate(s, k, f, g)
  }

  /** out and s differ by a multiple of (f, g). */
  ghost predicate SameCoset(s: NtruSolution, out: NtruSolution, f: ZPoly, g: ZPoly)
    requires |s.capF| == |f| && |s.capG| == |g|
  {
    exists k: ZPoly :: TranslatedBy(s, k, out, f, g)
  }

  lemma {:induction false} CosetRefl(s: NtruSolution, f: ZPoly, g: ZPoly)
    requires |s.capF| == |f| == |s.capG| == |g| > 0
    ensures SameCoset(s, s, f, g)
  {
    TranslateZero(s, f, g);
    assert TranslatedBy(s, Const(0, |f|), s, f, g);
  }

  lemma {:induction false} CosetStep(s: NtruSolution, out: NtruSolution, k: ZPoly, f: ZPoly, g: ZPoly)
    requires |s.capF| == |f| == |s.capG| == |g| && |k| == |f| && SameCoset(s, out, f, g)
    ensures |out.capF| == |out.capG| == |f| && SameCoset(s, Translate(out, k, f, g), f, g)
  {
    var j: ZPoly :| TranslatedBy(s, j, out, f, g);
    TranslateTwice(s, j, k, f, g);
    assert TranslatedBy(s, Add(j, k), Translate(out, k, f, g), f, g);
  }

  /** Staying in the coset keeps the relation. */
  lemma {:induction false} CosetKeepsRelation(s: NtruSolution, out: NtruSolution, f: ZPoly, g: ZPoly, q: int)
    requires NtruRelation(f, g, s, q) && SameCoset(s, out, f, g)
    ensures NtruRelation(f, g, out, q)
  {
    var k: ZPoly :| TranslatedBy(s, k, out, f, g);
    TranslateKeepsRelation(f, g, s, k, q);
  }

  // ----- one coordinate -----

  /** c x^shift. */
  function Monomial(c: int, shift: nat, n: nat): (r: ZPoly)
    ensures |r| == n
  {
    Scale(c, TimesXPow(shift, Const(1, n)))
  }

  lemma {:induction false} MonomialAct(c: int, shift: nat, f: ZPoly)
    requires |f| > 0
    ensures Act(Monomial(c, shift, |f|), f) == Scale(c, TimesXPow(shift, f))
  {
    var one := Const(1, |f|);
    var p := TimesXPow(shift, one);
    PolyScale(c, p, f);
    MulComm(p, f);
    ActTimesXPow(shift, f, one);
    MulConst(f, 1);
    assert Scale(1, f) == f;
  }

  method NegacyclicShift(a: ZPoly, shift: nat, degree: nat) returns (r: Result<ZPoly>)
    ensures r == if |a| <= degree && shift < degree then Ok(TimesXPow(shift, Pad(a, degree))) else Refused
  {
    if |a| > degree || degree == 0 || shift >= degree {
      return Refused;
    }
    var out := Zero(degree);
    var aa := Pad(a, degree);
    for i := 0 to |a|
      invariant |out| == degree
      invariant forall k :: 0 <= k < degree ==>
        out[k] == if (if k >= shift then k - shift else k - shift + degree) < i
                  then (if k >= shift then aa[k - shift] else -aa[k - shift + degree]) else 0
    {
      var k := i + shift;
      if k < degree {
        out := out[k := out[k] + a[i]];
      } else {
        out := out[k - degree := out[k - degree] - a[i]];
      }
    }
    forall k | 0 <= k < degree ensures out[k] == TimesXPow(shift, aa)[k] {
      TimesXPowAt(shift, aa, k);
    }
    assert out == TimesXPow(shift, aa);
    return Ok(out);
  }

  method DotProduct(a: ZPoly, b: ZPoly) returns (r: Result<int>)
    ensures r == if |a| == |b| then Ok(Dot(a, b)) else Refused
  {
    if |a| != |b| {
      return Refused;
    }
    var out := 0;
    for i := 0 to |a|
      invariant out == Dot(a[..i], b[..i])
    {
      out := out + a[i] * b[i];
      assert a[..i + 1][..i] == a[..i] && b[..i + 1][..i] == b[..i];
    }
    assert a[..|a|] == a && b[..|b|] == b;
    return Ok(out);
  }

  method AddScaledInPlace(dst: ZPoly, src: ZPoly, scale: int) returns (r: Result<ZPoly>)
    ensures r == if |dst| == |src| then Ok(Add(dst, Scale(scale, src))) else Refused
  {
    if |dst| != |src| {
      return Refused;
    }
    var out := dst;
    for i := 0 to |dst|
      invariant |out| == |dst|
      invariant forall k :: 0 <= k < |dst| ==> out[k] == if k < i then dst[k] + scale * src[k] else dst[k]
    {
      out := out[i := out[i] + scale * src[i]];
    }
    assert out == Add(dst, Scale(scale, src));
    return Ok(out);
  }

  function Delta(c: int, linear: int, quadratic: int): (r: int)
  {
    2 * c * linear + c * c * quadratic
  }

  lemma {:induction false} DotOfSum(u: ZPoly, w: ZPoly, c: int)
    requires |u| == |w|
    ensures Dot(Add(u, Scale(c, w)), Add(u, Scale(c, w))) == Dot(u, u) + Delta(c, Dot(u, w), Dot(w, w))
  {
    var t := Scale(c, w);
    var v := Add(u, t);
    DotAdd(u, t, v);
    DotComm(u, v);
    DotAdd(u, t, u);
    DotComm(t, v);
    DotAdd(u, t, t);
    DotComm(u, t);
    ScaledDots(u, w, c);
  }

  lemma {:induction false} ScaledDots(u: ZPoly, w: ZPoly, c: int)
    requires |u| == |w|
    ensures 2 * Dot(Scale(c, w), u) + Dot(Scale(c, w), Scale(c, w)) == Delta(c, Dot(u, w), Dot(w, w))
  {
    var t := Scale(c, w);
    DotScale(c, w, u);
    DotComm(w, u);
    DotScale(c, w, t);
    DotComm(w, t);
    DotScale(c, w, w);
    assert c * (c * Dot(w, w)) == c * c * Dot(w, w);
    assert 2 * (c * Dot(u, w)) == 2 * c * Dot(u, w);
  }

  lemma {:induction false} DeltaSum(c: int, l0: int, l1: int, q0: int, q1: int)
    ensures Delta(c, l0 + l1, q0 + q1) == Delta(c, l0, q0) + Delta(c, l1, q1)
  {
    assert 2 * c * (l0 + l1) == 2 * c * l0 + 2 * c * l1;
    assert c * c * (q0 + q1) == c * c * q0 + c * c * q1;
  }

  /** Moving by c (sf, sg) changes the squared norm by exactly the predicted delta. */
  lemma {:induction false} NormChange(s: NtruSolution, sf: ZPoly, sg: ZPoly, c: int)
    requires |s.capF| == |sf| && |s.capG| == |sg|
    ensures Norm(NtruSolution(Add(s.capF, Scale(c, sf)), Add(s.capG, Scale(c, sg))))
         == Norm(s) + Delta(c, Dot(s.capF, sf) + Dot(s.capG, sg), Dot(sf, sf) + Dot(sg, sg))
  {
    DotOfSum(s.capF, sf, c);
    DotOfSum(s.capG, sg, c);
    DeltaSum(c, Dot(s.capF, sf), Dot(s.capG, sg), Dot(sf, sf), Dot(sg, sg));
  }

  // ----- the exact integer minimiser -----

  /** Division truncating toward zero. */
  function TruncatedQuotient(x: int, y: int): (r: int)
    requires y > 0
  {
    if x >= 0 then x / y else -((-x) / y)
  }

  lemma {:induction false} QuotientBracket(x: int, y: int)
    requires y > 0
    ensures var t := TruncatedQuotient(x, y); (t - 1) * y < x < (t + 1) * y
  {
    var t := TruncatedQuotient(x, y);
    assert (t - 1) * y == t * y - y && (t + 1) * y == t * y + y;
    if x < 0 {
      var d := (-x) / y;
      assert t * y == -(d * y);
    }
  }

  lemma {:induction false} DeltaDifference(c: int, d: int, linear: int, quadratic: int)
    ensures Delta(c, linear, quadratic) - Delta(d, linear, quadratic) == (c - d) * (2 * linear + (c + d) * quadratic)
  {
    assert (c - d) * ((c + d) * quadratic) == c * c * quadratic - d * d * quadratic by {
      assert (c - d) * (c + d) == c * c - d * d;
      assert (c - d) * ((c + d) * quadratic) == ((c - d) * (c + d)) * quadratic;
    }
    assert (c - d) * (2 * linear + (c + d) * quadratic) == (c - d) * (2 * linear) + (c - d) * ((c + d) * quadratic);
  }

  /** Above the bracket the parabola rises, below it falls. */
  lemma {:induction false} DeltaRises(c: int, d: int, linear: int, quadratic: int)
    requires quadratic > 0 && c >= d && -linear < d * quadratic
    ensures Delta(c, linear, quadratic) >= Delta(d, linear, quadratic)
  {
    DeltaDifference(c, d, linear, quadratic);
    assert (c + d) * quadratic == (c - d) * quadratic + 2 * (d * quadratic);
    NonNegativeProduct(c - d, quadratic);
    NonNegativeProduct(c - d, 2 * linear + (c + d) * quadratic);
  }

  lemma {:induction false} DeltaFalls(c: int, d: int, linear: int, quadratic: int)
    requires quadratic > 0 && c <= d && d * quadratic < -linear
    ensures Delta(c, linear, quadratic) >= Delta(d, linear, quadratic)
  {
    DeltaDifference(c, d, linear, quadratic);
    assert (c + d) * quadratic == 2 * (d * quadratic) - (d - c) * quadratic;
    NonNegativeProduct(d - c, quadratic);
    var w := 2 * linear + (c + d) * quadratic;
    NonNegativeProduct(d - c, -w);
    assert (c - d) * w == (d - c) * -w;
  }

  lemma {:induction false} NonNegativeProduct(x: int, y: int)
    requires x >= 0 && y >= 0
    ensures x * y >= 0
  {
  }

  ghost predicate Minimises(best: int, linear: int, quadratic: int)
  {
    forall c: int :: Delta(best, linear, quadratic) <= Delta(c, linear, quadratic)
  }

  lemma {:induction false} NeighboursSuffice(best: int, t: int, linear: int, quadratic: int)
    requires quadratic > 0 && (t - 1) * quadratic < -linear < (t + 1) * quadratic
    requires Delta(best, linear, quadratic) <= Delta(t, linear, quadratic)
    requires Delta(best, linear, quadratic) <= Delta(t - 1, linear, quadratic)
    requires Delta(best, linear, quadratic) <= Delta(t + 1, linear, quadratic)
    ensures Minimises(best, linear, quadratic)
  {
    forall c: int ensures Delta(best, linear, quadratic) <= Delta(c, linear, quadratic) {
      if c >= t + 1 {
        DeltaRises(c, t + 1, linear, quadratic);
      } else if c <= t - 1 {
        DeltaFalls(c, t - 1, linear, quadratic);
      }
    }
  }

  /** best_integer_coordinate: of three candidates around the truncated quotient, a minimiser over all integers. */
  method BestIntegerCoordinate(linear: int, quadratic: int) returns (best: int)
    requires quadratic > 0
    ensures Minimises(best, linear, quadratic)
  {
    var t := TruncatedQuotient(-linear, quadratic);
    best := t;
    var bestDelta := Delta(best, linear, quadratic);
    var below := Delta(t - 1, linear, quadratic);
    if below < bestDelta || (below == bestDelta && t - 1 < best) {
      best, bestDelta := t - 1, below;
    }
    var above := Delta(t + 1, linear, quadratic);
    if above < bestDelta || (above == bestDelta && t + 1 < best) {
      best, bestDelta := t + 1, above;
    }
    QuotientBracket(-linear, quadratic);
    NeighboursSuffice(best, t, linear, quadratic);
  }

  // ----- one shift -----

  function Linear(s: NtruSolution, f: ZPoly, g: ZPoly, shift: nat): (r: int)
    requires |s.capF| == |f| && |s.capG| == |g|
  {
    Dot(s.capF, TimesXPow(shift, f)) + Dot(s.capG, TimesXPow(shift, g))
  }

  function Quadratic(f: ZPoly, g: ZPoly, shift: nat): (r: int)
  {
    Dot(TimesXPow(shift, f), TimesXPow(shift, f)) + Dot(TimesXPow(shift, g), TimesXPow(shift, g))
  }

  /** No integer multiple of x^shift (f, g) brings (F, G) closer to the origin. */
  ghost predicate ShiftReduced(s: NtruSolution, f: ZPoly, g: ZPoly, shift: nat)
    requires |s.capF| == |f| && |s.capG| == |g|
  {
    var l, q := Linear(s, f, g, shift), Quadratic(f, g, shift);
    -q <= 2 * l <= q
  }

  lemma {:induction false} DotNonNegative(u: ZPoly)
    ensures Dot(u, u) >= 0
    ensures Dot(u, u) == 0 ==> forall i :: 0 <= i < |u| ==> u[i] == 0
  {
    if |u| > 0 {
      DotNonNegative(u[..|u| - 1]);
      var x := u[|u| - 1];
      assert x * x >= 0 && (x != 0 ==> x * x > 0);
      assert forall i :: 0 <= i < |u| ==> u[i] == if i == |u| - 1 then x else u[..|u| - 1][i];
    }
  }

  lemma {:induction false} DotZeroRight(u: ZPoly, v: ZPoly)
    requires |u| == |v| && forall i :: 0 <= i < |v| ==> v[i] == 0
    ensures Dot(u, v) == 0
  {
    if |u| > 0 {
      DotZeroRight(u[..|u| - 1], v[..|v| - 1]);
    }
  }

  lemma {:induction false} ZeroShiftReduced(s: NtruSolution, f: ZPoly, g: ZPoly, shift: nat)
    requires |s.capF| == |f| && |s.capG| == |g| && Quadratic(f, g, shift) == 0
    ensures ShiftReduced(s, f, g, shift)
  {
    DotNonNegative(TimesXPow(shift, f));
    DotNonNegative(TimesXPow(shift, g));
    DotZeroRight(s.capF, TimesXPow(shift, f));
    DotZeroRight(s.capG, TimesXPow(shift, g));
  }

  lemma {:induction false} MinimalDeltaReduced(s: NtruSolution, f: ZPoly, g: ZPoly, shift: nat, c: int)
    requires |s.capF| == |f| && |s.capG| == |g|
    requires Minimises(c, Linear(s, f, g, shift), Quadratic(f, g, shift))
    requires Delta(c, Linear(s, f, g, shift), Quadratic(f, g, shift)) >= 0
    ensures ShiftReduced(s, f, g, shift)
  {
    var l, q := Linear(s, f, g, shift), Quadratic(f, g, shift);
    assert Delta(c, l, q) <= Delta(1, l, q);
    assert Delta(c, l, q) <= Delta(-1, l, q);
  }

  lemma {:induction false} MoveIsTranslate(s: NtruSolution, f: ZPoly, g: ZPoly, shift: nat, c: int)
    requires |s.capF| == |f| == |s.capG| == |g| > 0
    ensures Translate(s, Monomial(c, shift, |f|), f, g)
         == NtruSolution(Add(s.capF, Scale(c, TimesXPow(shift, f))), Add(s.capG, Scale(c, TimesXPow(shift, g))))
  {
    MonomialAct(c, shift, f);
    MonomialAct(c, shift, g);
  }

  /** The exact dot products of one shift, and the coefficient to add; 0 when nothing is gained. */
  method ShiftCoefficient(s: NtruSolution, sf: ZPoly, sg: ZPoly, f: ZPoly, g: ZPoly, shift: nat) returns (c: int, delta: int)
    requires |s.capF| == |f| == |s.capG| == |g|
    requires sf == TimesXPow(shift, f) && sg == TimesXPow(shift, g)
    ensures delta == Delta(c, Linear(s, f, g, shift), Quadratic(f, g, shift))
    ensures c == 0 || delta >= 0 ==> ShiftReduced(s, f, g, shift)
    ensures c != 0 ==> Minimises(c, Linear(s, f, g, shift), Quadratic(f, g, shift))
  {
    var ff := DotProduct(sf, sf);
    var gg := DotProduct(sg, sg);
    var quadratic := ff.value + gg.value;
    DotNonNegative(sf);
    DotNonNegative(sg);
    if quadratic == 0 {
      ZeroShiftReduced(s, f, g, shift);
      return 0, 0;
    }
    var l0 := DotProduct(s.capF, sf);
    var l1 := DotProduct(s.capG, sg);
    var linear := l0.value + l1.value;
    c := BestIntegerCoordinate(linear, quadratic);
    delta := Delta(c, linear, quadratic);
    if c == 0 || delta >= 0 {
      MinimalDeltaReduced(s, f, g, shift, c);
    }
  }

  /** The best integer multiple of one shift was added, and the squared norm fell by exactly what was predicted. */
  ghost predicate MovedBy(s: NtruSolution, out: NtruSolution, f: ZPoly, g: ZPoly, shift: nat, c: int)
    requires |s.capF| == |f| == |s.capG| == |g| > 0
  {
    && Minimises(c, Linear(s, f, g, shift), Quadratic(f, g, shift))
    && out == Translate(s, Monomial(c, shift, |f|), f, g)
    && Norm(out) == Norm(s) + Delta(c, Linear(s, f, g, shift), Quadratic(f, g, shift))
  }

  /** One shift of a pass.  An accepted move lowers the squared norm by exactly the predicted delta and keeps the
      relation, so neither self-check of the source throws. */
  method TryShift(s: NtruSolution, f: ZPoly, g: ZPoly, shift: nat, n: nat, q: int) returns (out: NtruSolution, moved: bool)
    requires Full(f, g, s, n) && shift < n && NtruRelation(f, g, s, q)
    ensures Full(f, g, out, n) && NtruRelation(f, g, out, q)
    ensures moved ==> Norm(out) < Norm(s) && SameCoset(s, out, f, g) && exists c: int :: MovedBy(s, out, f, g, shift, c)
    ensures !moved ==> out == s && ShiftReduced(s, f, g, shift)
  {
    hide Act, Dot, TimesXPow, Minimises, RelationLhs, Pad, IsPowerOfTwo;
    PadFull(f);
    PadFull(g);
    var sf := NegacyclicShift(f, shift, n);
    var sg := NegacyclicShift(g, shift, n);
    var c, delta := ShiftCoefficient(s, sf.value, sg.value, f, g, shift);
    if c == 0 || delta >= 0 {
      return s, false;
    }
    var before := NormOf(s);
    var capF := AddScaledInPlace(s.capF, sf.value, c);
    var capG := AddScaledInPlace(s.capG, sg.value, c);
    out := NtruSolution(capF.value, capG.value);
    var after := NormOf(out);
    NormChange(s, sf.value, sg.value, c);
    if after >= before || after - before != delta {
      assert false;
    }
    MoveIsTranslate(s, f, g, shift, c);
    TranslateKeepsRelation(f, g, s, Monomial(c, shift, n), q);
    assert TranslatedBy(s, Monomial(c, shift, n), out, f, g);
    assert MovedBy(s, out, f, g, shift, c);
    CheckRelation(f, g, out, q, n);
    moved := true;
  }

  method NormOf(s: NtruSolution) returns (r: int)
    requires |s.capF| == |s.capG|
    ensures r == Norm(s)
  {
    var a := DotProduct(s.capF, s.capF);
    var b := DotProduct(s.capG, s.capG);
    r := a.value + b.value;
  }

  /** The source's run-time re-check of fG - gF = q, whose throw is unreachable. */
  method CheckRelation(f: ZPoly, g: ZPoly, s: NtruSolution, q: int, n: nat)
    requires Full(f, g, s, n) && NtruRelation(f, g, s, q)
  {
    PadFull(f);
    PadFull(g);
    PadFull(s.capF);
    PadFull(s.capG);
    var ok := VerifyRelation(f, g, s.capF, s.capG, q, n);
    if !ok.value {
      assert false;
    }
  }

  // ----- passes -----

  ghost predicate ReducedBelow(s: NtruSolution, f: ZPoly, g: ZPoly, k: nat)
    requires |s.capF| == |f| && |s.capG| == |g|
  {
    forall shift :: 0 <= shift < k ==> ShiftReduced(s, f, g, shift)
  }

  /** Every shift of (f, g) projects onto (F, G) with a coefficient of at most one half. */
  ghost predicate FullyReduced(s: NtruSolution, f: ZPoly, g: ZPoly)
    requires |s.capF| == |f| && |s.capG| == |g|
  {
    ReducedBelow(s, f, g, |f|)
  }

  lemma {:induction false} RelationNonEmpty(f: ZPoly, g: ZPoly, s: NtruSolution, q: int)
    requires NtruRelation(f, g, s, q)
    ensures |f| > 0
  {
  }

  method Pass(s: NtruSolution, f: ZPoly, g: ZPoly, n: nat, q: int) returns (out: NtruSolution, steps: nat)
    requires Full(f, g, s, n) && NtruRelation(f, g, s, q)
    ensures Full(f, g, out, n) && NtruRelation(f, g, out, q) && SameCoset(s, out, f, g)
    ensures Norm(out) + steps <= Norm(s)
    ensures steps == 0 ==> out == s && FullyReduced(s, f, g)
  {
    hide SameCoset, NtruRelation, Norm, ShiftReduced;
    RelationNonEmpty(f, g, s, q);
    CosetRefl(s, f, g);
    out, steps := s, 0;
    for shift := 0 to n
      invariant Full(f, g, out, n) && SameCoset(s, out, f, g)
      invariant Norm(out) + steps <= Norm(s)
      invariant steps == 0 ==> out == s && ReducedBelow(s, f, g, shift)
    {
      ghost var prior := out;
      CosetKeepsRelation(s, out, f, g, q);
      var moved;
      out, moved := TryShift(out, f, g, shift, n, q);
      if moved {
        CosetTrans(s, prior, out, f, g);
        steps := steps + 1;
      }
    }
    CosetKeepsRelation(s, out, f, g, q);
  }

  datatype Reduction = Reduction(solution: NtruSolution, passes: nat, acceptedSteps: nat, converged: bool)

  ghost predicate ReduceInput(f: ZPoly, g: ZPoly, input: NtruSolution, degree: nat, q: int)
  {
    && IsPowerOfTwo(degree) && q > 0
    && |f| <= degree && |g| <= degree && |input.capF| <= degree && |input.capG| <= degree
    && NtruRelation(Pad(f, degree), Pad(g, degree), NtruSolution(Pad(input.capF, degree), Pad(input.capG, degree)), q)
  }

  /** NTRUBasisReducer::reduce. */
  method ReduceBasis(f: ZPoly, g: ZPoly, input: NtruSolution, degree: nat, q: int, maxPasses: nat) returns (r: Result<Reduction>)
    ensures r.Refused? <==> !ReduceInput(f, g, input, degree, q) || maxPasses == 0
    ensures r.Ok? ==>
      var s := NtruSolution(Pad(input.capF, degree), Pad(input.capG, degree));
      var ff, gg, out := Pad(f, degree), Pad(g, degree), r.value.solution;
      && NtruRelation(ff, gg, out, q)
      && SameCoset(s, out, ff, gg)
      && Norm(out) + r.value.acceptedSteps <= Norm(s)
      && r.value.passes <= maxPasses
      && (r.value.converged ==> FullyReduced(out, ff, gg))
      && (!r.value.converged ==> r.value.passes == maxPasses <= r.value.acceptedSteps)
      && (maxPasses > Norm(s) ==> r.value.converged)
  {
    if !IsPowerOfTwo(degree) || q <= 0 || maxPasses == 0 {
      return Refused;
    }
    var ff :- CanonicalSize(f, degree);
    var gg :- CanonicalSize(g, degree);
    var capF :- CanonicalSize(input.capF, degree);
    var capG :- CanonicalSize(input.capG, degree);
    var s := NtruSolution(capF, capG);
    PadFull(ff);
    PadFull(gg);
    PadFull(capF);
    PadFull(capG);
    var ok := VerifyRelation(ff, gg, capF, capG, q, degree);
    if !ok.value {
      return Refused;
    }
    var out, passes, accepted, converged := RunPasses(ff, gg, s, degree, q, maxPasses);
    CheckRelation(ff, gg, out, q, degree);
    return Ok(Reduction(out, passes, accepted, converged));
  }

  method RunPasses(f: ZPoly, g: ZPoly, s: NtruSolution, n: nat, q: int, maxPasses: nat)
    returns (out: NtruSolution, passes: nat, accepted: nat, converged: bool)
    requires Full(f, g, s, n) && NtruRelation(f, g, s, q)
    ensures Full(f, g, out, n) && NtruRelation(f, g, out, q) && SameCoset(s, out, f, g)
    ensures Norm(out) + accepted <= Norm(s) && passes <= maxPasses
    ensures converged ==> FullyReduced(out, f, g)
    ensures !converged ==> passes == maxPasses <= accepted
    ensures maxPasses > Norm(s) ==> converged
  {
    out, passes, accepted, converged := s, 0, 0, false;
    CosetRefl(s, f, g);
    while passes < maxPasses
      invariant passes <= maxPasses
      invariant Full(f, g, out, n) && NtruRelation(f, g, out, q) && SameCoset(s, out, f, g)
      invariant Norm(out) + accepted <= Norm(s) && passes <= accepted
    {
      ghost var prior := out;
      var steps;
      out, steps := Pass(out, f, g, n, q);
      if steps == 0 {
        converged := true;
        passes := passes + 1;
        break;
      }
      CosetTrans(s, prior, out, f, g);
      accepted := accepted + steps;
      passes := passes + 1;
    }
    DotNonNegative(out.capF);
    DotNonNegative(out.capG);
  }

  lemma {:induction false} CosetTrans(s: NtruSolution, mid: NtruSolution, out: NtruSolution, f: ZPoly, g: ZPoly)
    requires |s.capF| == |f| == |s.capG| == |g| && SameCoset(s, mid, f, g)
    requires |mid.capF| == |mid.capG| == |f| && SameCoset(mid, out, f, g)
    ensures SameCoset(s, out, f, g)
  {
    var k: ZPoly :| TranslatedBy(mid, k, out, f, g);
    CosetStep(s, mid, k, f, g);
  }

  // ----- shifts keep the length -----

  lemma {:induction false} DotCons(a: int, u: ZPoly, b: int, v: ZPoly)
    requires |u| == |v|
    ensures Dot([a] + u, [b] + v) == a * b + Dot(u, v)
  {
    var m := |u|;
    if m == 0 {
      assert ([a] + u)[..0] == [] && ([b] + v)[..0] == [];
    } else {
      assert ([a] + u)[..m] == [a] + u[..m - 1] && ([b] + v)[..m] == [b] + v[..m - 1];
      DotCons(a, u[..m - 1], b, v[..m - 1]);
    }
  }

  lemma {:induction false} TimesXKeepsLength(u: ZPoly)
    ensures Dot(TimesX(u), TimesX(u)) == Dot(u, u)
  {
    if |u| > 0 {
      var c, d := u[|u| - 1], u[..|u| - 1];
      assert TimesX(u) == [-c] + d;
      DotCons(-c, d, -c, d);
      assert -c * -c == c * c;
    }
  }

  lemma {:induction false} ShiftKeepsLength(k: nat, u: ZPoly)
    ensures Dot(TimesXPow(k, u), TimesXPow(k, u)) == Dot(u, u)
  {
    if k > 0 {
      ShiftKeepsLength(k - 1, u);
      TimesXKeepsLength(TimesXPow(k - 1, u));
    }
  }

  /** On convergence 2 |<(F, G), x^s (f, g)>| <= |(f, g)|^2 for every shift s. */
  lemma {:induction false} ReducedBound(s: NtruSolution, f: ZPoly, g: ZPoly, shift: nat)
    requires |s.capF| == |f| && |s.capG| == |g| && shift < |f| && FullyReduced(s, f, g)
    ensures -(Dot(f, f) + Dot(g, g)) <= 2 * Linear(s, f, g, shift) <= Dot(f, f) + Dot(g, g)
  {
    assert ShiftReduced(s, f, g, shift);
    ShiftKeepsLength(shift, f);
    ShiftKeepsLength(shift, g);
  }
}
