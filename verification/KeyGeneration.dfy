/** Trapdoor generation: what every key that leaves the rejection loop satisfies. The Gaussian draws, the quality test and
    the rounding of projections are arbitrary. */
module KeyGeneration {
  import opened IntPoly
  import opened IntegerRing
  import opened NtruSolve
  import opened ModInverse
  import opened Reduce
  import opened GlobalReduce
  import opened Sign

  /** Narrowing to 64 bits: faithful in range, anything outside it. */
  ghost predicate Narrowing(narrow: int -> int)
  {
    forall x :: InRange(x) ==> narrow(x) == x
  }

  predicate InRange(x: int)
  {
    -0x8000_0000_0000_0000 <= x < 0x8000_0000_0000_0000
  }

  predicate AllInRange(a: ZPoly)
  {
    forall i :: 0 <= i < |a| ==> InRange(a[i])
  }

  function NarrowAll(a: ZPoly, narrow: int -> int): (r: ZPoly)
    ensures |r| == |a|
  {
    seq(|a|, i requires 0 <= i < |a| => narrow(a[i]))
  }

  lemma {:induction false} NarrowIsFaithful(a: ZPoly, narrow: int -> int)
    requires Narrowing(narrow) && AllInRange(a)
    ensures NarrowAll(a, narrow) == a
  {
  }

  /** A candidate was rejected, became a key, or failed the final relation check after narrowing. */
  datatype Attempt = Rejected | Generated(key: TrapdoorKey) | FailedCheck(solution: NtruSolution)

  /** What a candidate that was not rejected went through. */
  datatype Steps = Steps(solved: NtruSolution, trace: seq<NtruSolution>, global: GlobalReduction, cleaned: Reduction)

  const NO_STEPS :=
    Steps(NtruSolution([], []), [], GlobalReduction(NtruSolution([], []), 0, 0, false, false),
          Reduction(NtruSolution([], []), 0, 0, false))

  /** The two reductions, one after the other: Babai rounds on all shifts for as long as they shorten, then passes over the
      single shifts until none can be reduced or the passes are used up, every pass having shortened. */
  ghost predicate ReducedBy(f: ZPoly, g: ZPoly, steps: Steps, q: int, round: Rounding, maxRounds: nat, maxPasses: nat)
  {
    var u := steps.cleaned;
    && NtruRelation(f, g, steps.solved, q)
    && RoundsFrom(f, g, steps.solved, steps.global, maxRounds, round, steps.trace)
    && NtruRelation(f, g, u.solution, q)
    && |steps.solved.capF| == |steps.solved.capG| == |f| && SameCoset(steps.solved, u.solution, f, g)
    && Norm(u.solution) + u.acceptedSteps <= Norm(steps.global.solution) <= Norm(steps.solved)
    && (if u.converged then FullyReduced(u.solution, f, g) else u.passes == maxPasses <= u.acceptedSteps)
  }

  /** One turn of the rejection loop. The final check can fail only on a coefficient that does not fit 64 bits, so on a
      solution that fits, the throw it guards is unreachable. */
  method TryCandidate(
    f: ZPoly, g: ZPoly, degree: nat, q: int, quality: (ZPoly, ZPoly) -> bool, round: Rounding, narrow: int -> int,
    maxRounds: nat, maxPasses: nat) returns (r: Attempt, ghost steps: Steps)
    requires IsPowerOfTwo(degree) && degree > 0 && q > 2 && |f| == |g| == degree && maxRounds > 0 && maxPasses > 0
    requires Narrowing(narrow) && forall i: nat, x: seq<real> :: |round(i, x)| == |x|
    ensures r.Generated? ==>
      && Sized(r.key, degree) && Trapdoor(r.key, q) && IsUnit(r.key.g, q) && r.key.f == f && r.key.g == g && quality(f, g)
    ensures !r.Rejected? ==> ReducedBy(f, g, steps, q, round, maxRounds, maxPasses)
    ensures r.Generated? ==>
      var u := steps.cleaned.solution;
      && r.key.capF == NarrowAll(u.capF, narrow) && r.key.capG == NarrowAll(u.capG, narrow)
      && (AllInRange(u.capF) && AllInRange(u.capG) ==> r.key.capF == u.capF && r.key.capG == u.capG)
    ensures r.FailedCheck? ==>
      && r.solution == steps.cleaned.solution && NtruRelation(f, g, r.solution, q)
      && !(AllInRange(r.solution.capF) && AllInRange(r.solution.capG))
    ensures IsPrime(q) ==> (r.Rejected? <==>
      !IsUnit(g, q) || !quality(f, g) || !Coprime(IteratedNorm(f), IteratedNorm(g)))
  {
    hide RoundsFrom, FullyReduced, Norm, IteratedNorm, Coprime;
    steps := NO_STEPS;
    PadFull(f);
    PadFull(g);
    var inverse := Inverse(g, degree, q);
    if inverse.value.None? || !quality(f, g) {
      return Rejected, steps;
    }
    assert IsInverse(g, inverse.value.value, q);
    var solved := Solve(f, g, degree, q);
    if solved.value.None? {
      return Rejected, steps;
    }
    var u;
    u, steps := ReduceSolution(f, g, solved.value.value, degree, q, round, maxRounds, maxPasses);
    var key := TrapdoorKey(f, g, NarrowAll(u.capF, narrow), NarrowAll(u.capG, narrow));
    if AllInRange(u.capF) && AllInRange(u.capG) {
      NarrowIsFaithful(u.capF, narrow);
      NarrowIsFaithful(u.capG, narrow);
    }
    PadFull(key.capF);
    PadFull(key.capG);
    var ok := VerifyRelation(key.f, key.g, key.capF, key.capG, q, degree);
    if !ok.value {
      return FailedCheck(u), steps;
    }
    return Generated(key), steps;
  }

  /** The two reductions; none of their throws can happen. */
  method ReduceSolution(
    f: ZPoly, g: ZPoly, s: NtruSolution, degree: nat, q: int, round: Rounding, maxRounds: nat, maxPasses: nat)
    returns (u: NtruSolution, ghost steps: Steps)
    requires IsPowerOfTwo(degree) && q > 0 && maxRounds > 0 && maxPasses > 0
    requires |f| == |g| == |s.capF| == |s.capG| == degree && NtruRelation(f, g, s, q)
    requires forall i: nat, x: seq<real> :: |round(i, x)| == |x|
    ensures ReducedBy(f, g, steps, q, round, maxRounds, maxPasses)
    ensures u == steps.cleaned.solution && |u.capF| == |u.capG| == degree && NtruRelation(f, g, u, q)
  {
    hide RoundsFrom, FullyReduced, Norm;
    PadFull(f);
    PadFull(g);
    PadFull(s.capF);
    PadFull(s.capG);
    var global;
    ghost var trace;
    global, trace := ReduceGlobally(f, g, s, degree, q, maxRounds, round);
    var t := global.value.solution;
    PadFull(t.capF);
    PadFull(t.capG);
    var cleaned := ReduceBasis(f, g, t, degree, q, maxPasses);
    u := cleaned.value.solution;
    CosetTrans(s, t, u, f, g);
    steps := Steps(s, trace, global.value, cleaned.value);
  }

  /** The rejection loop over a run of drawn candidates: the first that is not rejected decides. */
  method Generate(
    draws: seq<(ZPoly, ZPoly)>, degree: nat, q: int, quality: (ZPoly, ZPoly) -> bool, round: Rounding,
    narrow: int -> int, maxRounds: nat, maxPasses: nat) returns (r: Attempt, used: nat, ghost steps: Steps)
    requires IsPowerOfTwo(degree) && degree > 0 && q > 2 && maxRounds > 0 && maxPasses > 0 && IsPrime(q)
    requires forall i :: 0 <= i < |draws| ==> |draws[i].0| == |draws[i].1| == degree
    requires Narrowing(narrow) && forall i: nat, x: seq<real> :: |round(i, x)| == |x|
    ensures used <= |draws| && forall i :: 0 <= i < used ==> Unusable(draws[i], quality, q)
    ensures r.Rejected? <==> used == |draws|
    ensures r.Generated? ==>
      && Sized(r.key, degree) && Trapdoor(r.key, q) && IsUnit(r.key.g, q) && (r.key.f, r.key.g) == draws[used]
      && !Unusable(draws[used], quality, q)
      && ReducedBy(r.key.f, r.key.g, steps, q, round, maxRounds, maxPasses)
      && r.key.capF == NarrowAll(steps.cleaned.solution.capF, narrow)
      && r.key.capG == NarrowAll(steps.cleaned.solution.capG, narrow)
  {
    hide ReducedBy;
    used, steps := 0, NO_STEPS;
    while used < |draws|
      invariant used <= |draws| && forall i :: 0 <= i < used ==> Unusable(draws[i], quality, q)
    {
      r, steps := TryCandidate(draws[used].0, draws[used].1, degree, q, quality, round, narrow, maxRounds, maxPasses);
      if !r.Rejected? {
        return;
      }
      used := used + 1;
    }
    r := Rejected;
  }

  /** The three reasons to draw again. */
  ghost predicate Unusable(draw: (ZPoly, ZPoly), quality: (ZPoly, ZPoly) -> bool, q: int)
    requires q > 1 && IsPowerOfTwo(|draw.0|) && IsPowerOfTwo(|draw.1|)
  {
    !IsUnit(draw.1, q) || !quality(draw.0, draw.1) || !Coprime(IteratedNorm(draw.0), IteratedNorm(draw.1))
  }
}
