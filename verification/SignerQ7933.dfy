/** The production signer object: it is built only from a key whose relation holds and whose public key and signing tree
    exist, and then whatever it signs, it verifies. */
module SignerQ7933 {
  import opened Outcomes
  import opened IntPoly
  import opened IntegerRing
  import opened NtruSolve
  import opened ModRing
  import opened ModInverse
  import opened TreeForms
  import opened FalconTree
  import opened FastSampling
  import opened Sign

  /** validate_canonical_poly. */
  method ValidateCanonical(a: ZPoly, n: nat, q: int) returns (ok: bool)
    ensures ok <==> |a| == n && Canonical(a, q)
  {
    if |a| != n {
      return false;
    }
    for i := 0 to |a|
      invariant forall k :: 0 <= k < i ==> 0 <= a[k] < q
    {
      if a[i] < 0 || a[i] >= q {
        return false;
      }
    }
    return true;
  }

  class NtruSigner {
    const n: nat
    const q: int
    const bound: int
    const trapdoor: TrapdoorKey
    const b: ZPoly
    const t: ZPoly
    const tree: Tree

    ghost predicate Valid()
    {
      && n > 0 && q > 2 && IsPowerOfTwo(n)
      && Sized(trapdoor, n) && Trapdoor(trapdoor, q) && PublicKeyOf(trapdoor, t, q)
      && |t| == n && Canonical(t, q) && |b| == n && Canonical(b, q)
      && tree.Node? && TreeAt(tree, n)
    }

    constructor (n: nat, q: int, bound: int, trapdoor: TrapdoorKey, b: ZPoly, t: ZPoly, tree: Tree)
      ensures this.n == n && this.q == q && this.bound == bound && this.trapdoor == trapdoor
      ensures this.b == b && this.t == t && this.tree == tree
    {
      this.n, this.q, this.bound, this.trapdoor, this.b, this.t, this.tree := n, q, bound, trapdoor, b, t, tree;
    }

    /** The checks of the source's constructor, in its order. For a prime modulus it throws exactly when an argument is out
        of range, a polynomial has the wrong degree, b is not canonical, the relation fails, g is not invertible or the
        degree is not a power of two above one; the check on the derived public key and the one on the tree cannot fail. */
    static method Create(n: nat, q: int, sigma: real, bound: int, trapdoor: TrapdoorKey, b: ZPoly, sqrt: real -> real)
      returns (r: Result<NtruSigner>)
      requires PositiveRoot(sqrt)
      ensures r.Ok? ==> fresh(r.value) && r.value.Valid() && r.value.n == n && r.value.q == q && r.value.bound == bound
      ensures r.Ok? ==> r.value.trapdoor == trapdoor && r.value.b == b
      ensures r.Ok? && ExactRoot(sqrt) ==> Represents(r.value.tree, sigma, GramOf(trapdoor), n)
      ensures IsPrime(q) ==> (r.Ok? <==>
        && n > 1 && IsPowerOfTwo(n) && q > 2 && sigma > 0.0 && bound > 0 && Sized(trapdoor, n)
        && |b| == n && Canonical(b, q) && Trapdoor(trapdoor, q) && IsUnit(trapdoor.g, q))
    {
      if n == 0 || q <= 2 || sigma <= 0.0 || bound <= 0 {
        return Refused;
      }
      if |trapdoor.f| != n || |trapdoor.g| != n || |trapdoor.capF| != n || |trapdoor.capG| != n {
        return Refused;
      }
      var canonical := ValidateCanonical(b, n, q);
      if !canonical {
        return Refused;
      }
      PadFull(trapdoor.f);
      PadFull(trapdoor.g);
      PadFull(trapdoor.capF);
      PadFull(trapdoor.capG);
      var relation := VerifyRelation(trapdoor.f, trapdoor.g, trapdoor.capF, trapdoor.capG, q, n);
      if !relation.value {
        return Refused;
      }
      var public := DerivePublic(trapdoor, n, q);
      if public.value.None? {
        return Refused;
      }
      var t := public.value.value;
      PublicIsCanonical(trapdoor, t, n, q);
      var publicCanonical := ValidateCanonical(t, n, q);
      if !publicCanonical {
        assert false;
      }
      assert PadKey(trapdoor, n) == trapdoor;
      var built := BuildSigningTree(trapdoor, sigma, sqrt, n, q);
      if built.Refused? {
        return Refused;
      }
      var signer := new NtruSigner(n, q, bound, trapdoor, b, t, built.value.value);
      return Ok(signer);
    }

    /** sign_target: refused on a target that is not canonical; the internal errors below it cannot happen; what it returns
        is the first short attempt, and satisfies t s0 + s1 = target under the signer's own public key. */
    method SignTargetPoly(target: ZPoly, draw: Sampler, maxAttempts: nat) returns (r: Result<SignOutcome>)
      requires Valid()
      ensures r.Refused? <==> |target| != n || !Canonical(target, q)
      ensures r.Ok? ==> OutcomeOf(trapdoor, tree, target, draw, maxAttempts, bound, n, q, r.value)
      ensures r.Ok? && r.value.Signed? ==> |r.value.signature.s0| == |r.value.signature.s1| == n
      ensures r.Ok? && r.value.Signed? && bound < CLAMP_LIMIT ==> Accepts(t, target, r.value.signature, bound, n, q)
    {
      hide OutcomeOf, Accepts, Trapdoor, PublicKeyOf;
      var canonical := ValidateCanonical(target, n, q);
      if !canonical {
        return Refused;
      }
      PadFull(trapdoor.f);
      PadFull(trapdoor.g);
      PadFull(trapdoor.capF);
      PadFull(trapdoor.capG);
      assert PadKey(trapdoor, n) == trapdoor;
      PadFull(target);
      r := SignTarget(trapdoor, tree, target, bound, draw, maxAttempts, n, q);
      if r.Ok? && r.value.Signed? && bound < CLAMP_LIMIT {
        OutcomeAccepted(trapdoor, tree, target, draw, maxAttempts, bound, n, q, r.value.signature);
      }
    }

    /** verify_target under the signer's own public key and bound. */
    method VerifyTargetPoly(target: ZPoly, s: Signature) returns (r: Result<bool>)
      requires Valid()
      ensures r.Refused? <==>
        |target| != n || !Canonical(target, q) || (NormSquared(s) <= bound && (|s.s0| > n || |s.s1| > n))
      ensures r.Ok? && |s.s0| <= n && |s.s1| <= n ==> (r.value <==> Accepts(t, target, s, bound, n, q))
    {
      var canonical := ValidateCanonical(target, n, q);
      if !canonical {
        return Refused;
      }
      r := VerifyTarget(t, target, s, bound, n, q);
    }
  }

  lemma {:induction false} PublicIsCanonical(key: TrapdoorKey, t: ZPoly, n: nat, q: int)
    requires q > 2 && |key.f| == n && PublicKeyOf(key, t, q)
    ensures |t| == n && Canonical(t, q)
  {
  }
}
