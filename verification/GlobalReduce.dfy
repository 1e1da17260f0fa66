/** Reducing an NTRU solution (F, G) by NTRUGlobalBabaiReducer, which projects (F, G) on all shifts of (f, g) at once by
    solving with their Gram matrix, and subtracts the rounded projection. */
module GlobalReduce {
  import opened Outcomes
  import opened IntPoly
  import opened IntegerRing
  import opened NtruSolve
  import opened Reduce
  import opened TrapdoorBasis
  import R = RealPoly
  import A = RealAdjoint
  import RS = RealSolve

  // ----- the Gram matrix of the shifts -----

  /** The inner product of two shifts of (f, g). */
  function GramEntry(f: ZPoly, g: ZPoly, i: nat, j: nat): (r: int)
  {
    Dot(TimesXPow(i, f), TimesXPow(j, f)) + Dot(TimesXPow(i, g), TimesXPow(j, g))
  }

  ghost predicate EntryAt(m: RS.RMatrix, f: ZPoly, g: ZPoly, n: nat, i: nat, j: nat)
    requires |m| == n && i < n && j < n
  {
    |m[i]| == n && m[i][j] == GramEntry(f, g, i, j) as real
  }

  ghost predicate IsGram(m: RS.RMatrix, f: ZPoly, g: ZPoly, n: nat)
  {
    |m| == n && (forall i :: 0 <= i < n ==> |m[i]| == n)
    && forall i, j :: 0 <= i < n && 0 <= j < n ==> EntryAt(m, f, g, n, i, j)
  }

  lemma {:induction false} GramSymmetric(f: ZPoly, g: ZPoly, i: nat, j: nat)
    ensures GramEntry(f, g, i, j) == GramEntry(f, g, j, i)
  {
    DotComm(TimesXPow(i, f), TimesXPow(j, f));
    DotComm(TimesXPow(i, g), TimesXPow(j, g));
  }

  method PairDot(a0: ZPoly, a1: ZPoly, b0: ZPoly, b1: ZPoly) returns (r: int)
    requires |a0| == |b0| && |a1| == |b1|
    ensures r == Dot(a0, b0) + Dot(a1, b1)
  {
    var x := DotProduct(a0, b0);
    var y := DotProduct(a1, b1);
    return x.value + y.value;
  }

  /** Rows and columns below i are filled, and row and column i as far as j. */
  ghost predicate Filled(m: RS.RMatrix, f: ZPoly, g: ZPoly, n: nat, i: nat, j: nat)
  {
    && |m| == n && (forall r :: 0 <= r < n ==> |m[r]| == n)
    && forall r, c :: 0 <= r < n && 0 <= c < n && (r < i || c < i || (r == i && c < j) || (c == i && r < j))
         ==> EntryAt(m, f, g, n, r, c)
  }

  /** Two mirrored entries set. */
  ghost predicate BothSet(m0: RS.RMatrix, m: RS.RMatrix, n: nat, i: nat, j: nat, value: real)
    requires |m0| == n && forall r :: 0 <= r < n ==> |m0[r]| == n
  {
    && |m| == n && (forall r :: 0 <= r < n ==> |m[r]| == n)
    && forall r, c :: 0 <= r < n && 0 <= c < n ==>
         m[r][c] == if (r == i && c == j) || (r == j && c == i) then value else m0[r][c]
  }

  lemma {:induction false} FillEntry(m0: RS.RMatrix, m: RS.RMatrix, f: ZPoly, g: ZPoly, n: nat, i: nat, j: nat)
    requires Filled(m0, f, g, n, i, j) && i <= j < n && BothSet(m0, m, n, i, j, GramEntry(f, g, i, j) as real)
    ensures Filled(m, f, g, n, i, j + 1)
  {
    hide GramEntry;
    GramSymmetric(f, g, i, j);
    forall r, c | 0 <= r < n && 0 <= c < n && (r < i || c < i || (r == i && c < j + 1) || (c == i && r < j + 1))
      ensures EntryAt(m, f, g, n, r, c)
    {
      if !((r == i && c == j) || (r == j && c == i)) {
        assert EntryAt(m0, f, g, n, r, c);
      }
    }
  }

  /** One row of the upper triangle, mirrored into its column. */
  method FillRow(m0: RS.RMatrix, f: ZPoly, g: ZPoly, n: nat, i: nat) returns (m: RS.RMatrix)
    requires |f| == |g| == n && i < n && Filled(m0, f, g, n, i, i)
    ensures Filled(m, f, g, n, i, n)
  {
    hide GramEntry, EntryAt;
    PadFull(f);
    PadFull(g);
    var fi := NegacyclicShift(f, i, n);
    var gi := NegacyclicShift(g, i, n);
    m := m0;
    for j := i to n
      invariant Filled(m, f, g, n, i, j)
    {
      var fj := NegacyclicShift(f, j, n);
      var gj := NegacyclicShift(g, j, n);
      var exact := PairDot(fi.value, gi.value, fj.value, gj.value);
      EntryIs(f, g, i, j, exact);
      var next := SetBoth(m, n, i, j, exact as real);
      FillEntry(m, next, f, g, n, i, j);
      m := next;
    }
  }

  lemma {:induction false} EntryIs(f: ZPoly, g: ZPoly, i: nat, j: nat, exact: int)
    requires exact == Dot(TimesXPow(i, f), TimesXPow(j, f)) + Dot(TimesXPow(i, g), TimesXPow(j, g))
    ensures exact == GramEntry(f, g, i, j)
  {
  }

  method SetBoth(m0: RS.RMatrix, n: nat, i: nat, j: nat, value: real) returns (m: RS.RMatrix)
    requires |m0| == n && i < n && j < n && forall r :: 0 <= r < n ==> |m0[r]| == n
    ensures BothSet(m0, m, n, i, j, value)
  {
    m := m0[i := m0[i][j := value]];
    m := m[j := m[j][i := value]];
  }

  method BuildGram(f: ZPoly, g: ZPoly, n: nat) returns (m: RS.RMatrix)
    requires |f| == |g| == n
    ensures IsGram(m, f, g, n)
  {
    hide EntryAt, GramEntry;
    m := seq(n, _ => seq(n, _ => 0.0));
    for i := 0 to n
      invariant Filled(m, f, g, n, i, i)
    {
      m := FillRow(m, f, g, n, i);
      NextRow(m, f, g, n, i);
    }
  }

  lemma {:induction false} NextRow(m: RS.RMatrix, f: ZPoly, g: ZPoly, n: nat, i: nat)
    requires i < n && Filled(m, f, g, n, i, n)
    ensures Filled(m, f, g, n, i + 1, i + 1)
  {
    hide EntryAt;
  }

  /** The inner products of (F, G) with the shifts, which change from round to round. */
  method BuildRhs(f: ZPoly, g: ZPoly, s: NtruSolution, n: nat) returns (rhs: seq<real>)
    requires Full(f, g, s, n)
    ensures |rhs| == n && forall i :: 0 <= i < n ==> rhs[i] == Linear(s, f, g, i) as real
  {
    PadFull(f);
    PadFull(g);
    rhs := [];
    for i := 0 to n
      invariant |rhs| == i && forall k :: 0 <= k < i ==> rhs[k] == Linear(s, f, g, k) as real
    {
      var fi := NegacyclicShift(f, i, n);
      var gi := NegacyclicShift(g, i, n);
      var exact := PairDot(fi.value, gi.value, s.capF, s.capG);
      DotComm(fi.value, s.capF);
      DotComm(gi.value, s.capG);
      rhs := rhs + [exact as real];
    }
  }

  // ----- it is never singular -----

  lemma {:induction false} GramRow(f: ZPoly, g: ZPoly, n: nat, m: RS.RMatrix, i: nat, a: seq<real>)
    requires IsGram(m, f, g, n) && |f| == |g| == |a| == n && i < n
    ensures
      var F, G := ToReal(f), ToReal(g);
      A.Inner(m[i], a) == A.Inner(R.TimesXPow(i, F), R.Act(a, F)) + A.Inner(R.TimesXPow(i, G), R.Act(a, G))
  {
    var F, G := ToReal(f), ToReal(g);
    forall j | 0 <= j < n
      ensures m[i][j] == A.Inner(R.TimesXPow(i, F), R.TimesXPow(j, F)) + A.Inner(R.TimesXPow(i, G), R.TimesXPow(j, G))
    {
      assert EntryAt(m, f, g, n, i, j);
      ShiftedInner(f, i, j);
      ShiftedInner(g, i, j);
    }
    RowIsInner(R.TimesXPow(i, F), R.TimesXPow(i, G), F, G, m[i], a);
  }

  lemma {:induction false} ShiftedInner(f: ZPoly, i: nat, j: nat)
    ensures A.Inner(R.TimesXPow(i, ToReal(f)), R.TimesXPow(j, ToReal(f))) == Dot(TimesXPow(i, f), TimesXPow(j, f)) as real
  {
    LiftTimesXPow(i, f);
    LiftTimesXPow(j, f);
    LiftDot(TimesXPow(i, f), TimesXPow(j, f));
  }

  /** For every solution of fG - gF = q with q nonzero, the Gram matrix of the shifts of (f, g) has no kernel. */
  lemma {:induction false} GramHasNoKernel(f: ZPoly, g: ZPoly, s: NtruSolution, q: int, m: RS.RMatrix, b: seq<real>, a: seq<real>)
    requires NtruRelation(f, g, s, q) && q != 0 && IsGram(m, f, g, |f|) && |a| == |b| == |f|
    requires RS.Solves(m, b, a, 0.0)
    ensures a == R.Zero(|f|)
  {
    var F, G := ToReal(f), ToReal(g);
    forall i | 0 <= i < |f|
      ensures A.Inner(R.TimesXPow(i, F), R.Act(a, F)) + A.Inner(R.TimesXPow(i, G), R.Act(a, G)) == 0.0
    {
      assert RS.RowSolves(m[i], b[i], a, 0.0);
      GramRow(f, g, |f|, m, i, a);
    }
    OrthogonalIsZero(F, G, a);
    RelationLifts(f, g, s, q);
    NoCommonAnnihilator(F, G, ToReal(s.capF), ToReal(s.capG), q as real, a);
  }

  ghost predicate ProjectsAt(f: ZPoly, g: ZPoly, s: NtruSolution, x: seq<real>, i: nat)
    requires |s.capF| == |f| == |s.capG| == |g| == |x|
  {
    A.Inner(R.TimesXPow(i, ToReal(f)), R.Act(x, ToReal(f))) + A.Inner(R.TimesXPow(i, ToReal(g)), R.Act(x, ToReal(g)))
    == Linear(s, f, g, i) as real
  }

  /** x (f, g) is the orthogonal projection of (F, G): it has the same inner products with all shifts of (f, g). */
  ghost predicate IsProjection(f: ZPoly, g: ZPoly, s: NtruSolution, x: seq<real>)
  {
    && |s.capF| == |f| == |s.capG| == |g| == |x|
    && forall i :: 0 <= i < |x| ==> ProjectsAt(f, g, s, x, i)
  }

  /** The projection of a round in exact reals: both throws on a singular matrix are unreachable. */
  method Project(gram: RS.RMatrix, rhs: seq<real>, f: ZPoly, g: ZPoly, s: NtruSolution, n: nat, q: int) returns (x: seq<real>)
    requires Full(f, g, s, n) && NtruRelation(f, g, s, q) && q > 0 && IsGram(gram, f, g, n) && |rhs| == n
    requires forall i :: 0 <= i < n ==> rhs[i] == Linear(s, f, g, i) as real
    ensures IsProjection(f, g, s, x)
  {
    ghost var kernel;
    var r;
    r, kernel := RS.Solve(gram, rhs, n);
    if r.None? {
      GramHasNoKernel(f, g, s, q, gram, rhs, kernel);
      assert false;
    }
    x := r.value;
    forall i | 0 <= i < n ensures ProjectsAt(f, g, s, x, i) {
      assert RS.RowSolves(gram[i], rhs[i], x, 1.0);
      GramRow(f, g, n, gram, i, x);
    }
  }

  // ----- the Babai rounds -----

  /** What the exact projection of a round is rounded to, after 256-digit arithmetic: any integer polynomial, as far as
      these results go. */
  type Rounding = (nat, seq<real>) -> ZPoly

  datatype GlobalReduction = GlobalReduction(
    solution: NtruSolution, attempted: nat, accepted: nat, converged: bool, stoppedNonDecreasing: bool)

  lemma {:induction false} SubtractIsTranslate(s: NtruSolution, k: ZPoly, f: ZPoly, g: ZPoly)
    requires |s.capF| == |f| == |s.capG| == |g| == |k|
    ensures NtruSolution(Sub(s.capF, Act(k, f)), Sub(s.capG, Act(k, g))) == Translate(s, Neg(k), f, g)
  {
    PolyScale(-1, k, f);
    PolyScale(-1, k, g);
    SubIsAdd(s.capF, Act(k, f));
    SubIsAdd(s.capG, Act(k, g));
  }

  method BabaiCandidate(s: NtruSolution, k: ZPoly, f: ZPoly, g: ZPoly, n: nat) returns (out: NtruSolution)
    requires Full(f, g, s, n) && |k| == n
    ensures out == Translate(s, Neg(k), f, g)
  {
    PadFull(f);
    PadFull(g);
    PadFull(k);
    PadFull(s.capF);
    PadFull(s.capG);
    var kf := MulPoly(k, f, n);
    var kg := MulPoly(k, g, n);
    PadFull(kf.value);
    PadFull(kg.value);
    var capF := SubPoly(s.capF, kf.value, n);
    var capG := SubPoly(s.capG, kg.value, n);
    SubtractIsTranslate(s, k, f, g);
    return NtruSolution(capF.value, capG.value);
  }

  // ----- what a round achieves -----

  /** Subtracting k (f, g) takes k off the projection. */
  lemma {:induction false} ResidualProjection(f: ZPoly, g: ZPoly, s: NtruSolution, x: seq<real>, k: ZPoly)
    requires IsProjection(f, g, s, x) && |k| == |x|
    ensures IsProjection(f, g, Translate(s, Neg(k), f, g), R.Sub(x, ToReal(k)))
  {
    hide ProjectsAt, Act;
    var t, y := Translate(s, Neg(k), f, g), R.Sub(x, ToReal(k));
    forall i | 0 <= i < |x| ensures ProjectsAt(f, g, t, y, i) {
      ResidualAt(f, g, s, x, k, i);
    }
  }

  lemma {:induction false} ResidualAt(f: ZPoly, g: ZPoly, s: NtruSolution, x: seq<real>, k: ZPoly, i: nat)
    requires IsProjection(f, g, s, x) && |k| == |x| && i < |x|
    ensures ProjectsAt(f, g, Translate(s, Neg(k), f, g), R.Sub(x, ToReal(k)), i)
  {
    hide Act, R.Act, Dot, A.Inner, TimesXPow, R.TimesXPow;
    assert ProjectsAt(f, g, s, x, i);
    ProductTaken(f, x, k, i);
    ProductTaken(g, x, k, i);
    DotTaken(s.capF, k, f, TimesXPow(i, f));
    DotTaken(s.capG, k, g, TimesXPow(i, g));
  }

  /** <x^i f, (x - k) f> = <x^i f, x f> - <k f, x^i f>. */
  lemma {:induction false} ProductTaken(f: ZPoly, x: seq<real>, k: ZPoly, i: nat)
    requires |x| == |k| == |f|
    ensures A.Inner(R.TimesXPow(i, ToReal(f)), R.Act(R.Sub(x, ToReal(k)), ToReal(f)))
         == A.Inner(R.TimesXPow(i, ToReal(f)), R.Act(x, ToReal(f))) - Dot(Act(k, f), TimesXPow(i, f)) as real
  {
    hide R.Act, Act, Dot, A.Inner, TimesXPow, R.TimesXPow;
    var F, K, u := ToReal(f), ToReal(k), R.TimesXPow(i, ToReal(f));
    R.PolyAdd(x, R.Scale(-1.0, K), F);
    R.PolyScale(-1.0, K, F);
    A.InnerAddRight(u, R.Act(x, F), R.Scale(-1.0, R.Act(K, F)));
    A.InnerScaleRight(u, -1.0, R.Act(K, F));
    LiftAct(k, f);
    LiftTimesXPow(i, f);
    LiftDot(TimesXPow(i, f), Act(k, f));
    DotComm(TimesXPow(i, f), Act(k, f));
  }

  lemma {:induction false} DotTaken(u: ZPoly, k: ZPoly, f: ZPoly, w: ZPoly)
    requires |u| == |k| == |f| == |w|
    ensures Dot(Add(u, Act(Neg(k), f)), w) == Dot(u, w) - Dot(Act(k, f), w)
  {
    hide Act, Dot;
    PolyScale(-1, k, f);
    DotAdd(u, Act(k, f), w);
  }

  lemma {:induction false} DotAdd(u: ZPoly, v: ZPoly, w: ZPoly)
    requires |u| == |v| == |w|
    ensures Dot(Add(u, Scale(-1, v)), w) == Dot(u, w) - Dot(v, w)
  {
    if |u| > 0 {
      var m := |u| - 1;
      DotAdd(u[..m], v[..m], w[..m]);
      var d := Add(u, Scale(-1, v));
      assert d[..m] == Add(u[..m], Scale(-1, v[..m])) && d[m] == u[m] - v[m];
      assert (u[m] - v[m]) * w[m] == u[m] * w[m] - v[m] * w[m];
    }
  }

  /** One Babai round, from s to t. */
  ghost predicate RoundTo(f: ZPoly, g: ZPoly, s: NtruSolution, i: nat, round: Rounding, x: seq<real>, t: NtruSolution)
  {
    IsProjection(f, g, s, x) && |round(i, x)| == |x| && t == Translate(s, Neg(round(i, x)), f, g)
  }

  ghost predicate RoundLeads(f: ZPoly, g: ZPoly, s: NtruSolution, i: nat, round: Rounding, t: NtruSolution)
  {
    exists x: seq<real> :: RoundTo(f, g, s, i, round, x, t)
  }

  ghost predicate NothingToSubtract(f: ZPoly, g: ZPoly, s: NtruSolution, i: nat, round: Rounding)
  {
    exists x: seq<real> :: IsProjection(f, g, s, x) && round(i, x) == Zero(|x|)
  }

  ghost predicate NoGain(f: ZPoly, g: ZPoly, s: NtruSolution, i: nat, round: Rounding)
  {
    exists t: NtruSolution :: RoundLeads(f, g, s, i, round, t) && Norm(t) >= Norm(s)
  }

  /** The solutions passed on the way, each the Babai round of the one before and shorter. */
  ghost predicate Trace(f: ZPoly, g: ZPoly, trace: seq<NtruSolution>, round: Rounding)
  {
    forall i :: 0 <= i < |trace| - 1 ==> RoundLeads(f, g, trace[i], i, round, trace[i + 1]) && Norm(trace[i + 1]) < Norm(trace[i])
  }

  /** The whole reduction: Babai rounds for as long as they shorten, to the end given as its reason. */
  ghost predicate RoundsFrom(
    f: ZPoly, g: ZPoly, s: NtruSolution, r: GlobalReduction, maxRounds: nat, round: Rounding, trace: seq<NtruSolution>)
  {
    && |trace| == r.accepted + 1 && trace[0] == s && trace[r.accepted] == r.solution && Trace(f, g, trace, round)
    && (r.converged ==> NothingToSubtract(f, g, r.solution, r.accepted, round))
    && (r.stoppedNonDecreasing ==> NoGain(f, g, r.solution, r.accepted, round))
    && !(r.converged && r.stoppedNonDecreasing)
    && r.attempted == r.accepted + (if r.converged || r.stoppedNonDecreasing then 1 else 0)
    && (if r.converged || r.stoppedNonDecreasing then r.attempted <= maxRounds else r.attempted == maxRounds)
  }

  /** The projections are rounded to nearest integers. */
  ghost predicate Nearest(round: Rounding)
  {
    forall i: nat, x: seq<real>, j: nat :: j < |x| && |round(i, x)| == |x| ==> -0.5 <= x[j] - round(i, x)[j] as real <= 0.5
  }

  /** (F, G) projects on the multiples of (f, g) with coefficients of at most one half. */
  ghost predicate HalfProjected(f: ZPoly, g: ZPoly, s: NtruSolution)
  {
    exists x: seq<real> :: IsProjection(f, g, s, x) && forall j :: 0 <= j < |x| ==> -0.5 <= x[j] <= 0.5
  }

  /** With rounding to nearest, a reduction that subtracted anything, or had nothing to subtract, leaves a projection of at
      most one half in every coefficient. */
  lemma {:induction false} RoundsReduce(
    f: ZPoly, g: ZPoly, s: NtruSolution, r: GlobalReduction, maxRounds: nat, round: Rounding, trace: seq<NtruSolution>)
    requires RoundsFrom(f, g, s, r, maxRounds, round, trace) && Nearest(round) && (r.converged || r.accepted > 0)
    ensures HalfProjected(f, g, r.solution)
  {
    hide IsProjection, Translate;
    if r.converged {
      var x: seq<real> :| IsProjection(f, g, r.solution, x) && round(r.accepted, x) == Zero(|x|);
      forall j | 0 <= j < |x| ensures -0.5 <= x[j] <= 0.5 {
        assert round(r.accepted, x)[j] == 0;
      }
    } else {
      var a := r.accepted - 1;
      assert RoundLeads(f, g, trace[a], a, round, trace[a + 1]);
      var x: seq<real> :| RoundTo(f, g, trace[a], a, round, x, trace[a + 1]);
      var k := round(a, x);
      ResidualProjection(f, g, trace[a], x, k);
      forall j | 0 <= j < |x| ensures -0.5 <= R.Sub(x, ToReal(k))[j] <= 0.5 {
        assert R.Sub(x, ToReal(k))[j] == x[j] - k[j] as real;
      }
    }
  }

  /** NTRUGlobalBabaiReducer::reduce, for everything the projections might round to. */
  method ReduceGlobally(f: ZPoly, g: ZPoly, input: NtruSolution, degree: nat, q: int, maxRounds: nat, round: Rounding)
    returns (r: Result<GlobalReduction>, ghost trace: seq<NtruSolution>)
    requires forall i: nat, x: seq<real> :: |round(i, x)| == |x|
    ensures r.Refused? <==> !ReduceInput(f, g, input, degree, q) || maxRounds == 0
    ensures r.Ok? ==>
      var s := NtruSolution(Pad(input.capF, degree), Pad(input.capG, degree));
      var ff, gg, out := Pad(f, degree), Pad(g, degree), r.value.solution;
      && NtruRelation(ff, gg, out, q)
      && SameCoset(s, out, ff, gg)
      && Norm(out) + r.value.accepted <= Norm(s)
      && RoundsFrom(ff, gg, s, r.value, maxRounds, round, trace)
  {
    hide RoundsFrom;
    trace := [];
    if !IsPowerOfTwo(degree) || q <= 0 || maxRounds == 0 {
      return Refused, trace;
    }
    if |f| > degree || |g| > degree || |input.capF| > degree || |input.capG| > degree {
      return Refused, trace;
    }
    var ff, gg := Pad(f, degree), Pad(g, degree);
    var s := NtruSolution(Pad(input.capF, degree), Pad(input.capG, degree));
    PadFull(ff);
    PadFull(gg);
    PadFull(s.capF);
    PadFull(s.capG);
    var ok := VerifyRelation(ff, gg, s.capF, s.capG, q, degree);
    if !ok.value {
      return Refused, trace;
    }
    var out;
    out, trace := RunRounds(ff, gg, s, degree, q, maxRounds, round);
    CheckRelation(ff, gg, out.solution, q, degree);
    return Ok(out), trace;
  }

  method RunRounds(f: ZPoly, g: ZPoly, s: NtruSolution, n: nat, q: int, maxRounds: nat, round: Rounding)
    returns (r: GlobalReduction, ghost trace: seq<NtruSolution>)
    requires Full(f, g, s, n) && NtruRelation(f, g, s, q)
    requires q > 0 && forall i: nat, x: seq<real> :: |round(i, x)| == |x|
    ensures Full(f, g, r.solution, n) && NtruRelation(f, g, r.solution, q) && SameCoset(s, r.solution, f, g)
    ensures Norm(r.solution) + r.accepted <= Norm(s)
    ensures RoundsFrom(f, g, s, r, maxRounds, round, trace)
  {
    hide NtruRelation, SameCoset, IsProjection, IsGram, Translate, RoundLeads;
    var gram := BuildGram(f, g, n);
    var out := s;
    var attempted := 0;
    trace := [s];
    RelationNonEmpty(f, g, s, q);
    CosetRefl(s, f, g);
    while attempted < maxRounds
      invariant attempted <= maxRounds
      invariant Full(f, g, out, n) && NtruRelation(f, g, out, q) && SameCoset(s, out, f, g)
      invariant Norm(out) + attempted <= Norm(s)
      invariant |trace| == attempted + 1 && trace[0] == s && trace[attempted] == out && Trace(f, g, trace, round)
    {
      var rhs := BuildRhs(f, g, out, n);
      var x := Project(gram, rhs, f, g, out, n, q);
      ProjectionSize(f, g, out, x);
      var k := round(attempted, x);
      if forall i :: 0 <= i < n ==> k[i] == 0 {
        assert k == Zero(n);
        return GlobalReduction(out, attempted + 1, attempted, true, false), trace;
      }
      var before := NormOf(out);
      var candidate := BabaiCandidate(out, k, f, g, n);
      RoundIs(f, g, out, attempted, round, x, candidate);
      TranslateKeepsRelation(f, g, out, Neg(k), q);
      CheckRelation(f, g, candidate, q, n);
      var after := NormOf(candidate);
      if after >= before {
        return GlobalReduction(out, attempted + 1, attempted, false, true), trace;
      }
      CosetStep(s, out, Neg(k), f, g);
      trace := trace + [candidate];
      out := candidate;
      attempted := attempted + 1;
    }
    return GlobalReduction(out, attempted, attempted, false, false), trace;
  }

  lemma {:induction false} ProjectionSize(f: ZPoly, g: ZPoly, s: NtruSolution, x: seq<real>)
    requires IsProjection(f, g, s, x)
    ensures |x| == |f|
  {
  }

  lemma {:induction false} RoundIs(f: ZPoly, g: ZPoly, s: NtruSolution, i: nat, round: Rounding, x: seq<real>, t: NtruSolution)
    requires IsProjection(f, g, s, x) && |round(i, x)| == |x| && t == Translate(s, Neg(round(i, x)), f, g)
    ensures RoundLeads(f, g, s, i, round, t)
  {
    assert RoundTo(f, g, s, i, round, x, t);
  }
}
