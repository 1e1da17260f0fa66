/** Class IntegerRingArithmetic: exact arithmetic in Z[x]/(x^degree + 1) by explicit loops over the
    coefficient vectors.  An argument longer than the degree is refused, a shorter one is padded. */
module IntegerRing {
  import opened Outcomes
  import opened IntPoly
  import opened Galois

  predicate IsPowerOfTwo(n: nat)
  {
    n == 1 || (n > 1 && n % 2 == 0 && IsPowerOfTwo(n / 2))
  }

  /** a with zeros appended up to length n. */
  function Pad(a: ZPoly, n: nat): (r: ZPoly)
    requires |a| <= n
    ensures |r| == n
  {
    seq(n, i => if 0 <= i < |a| then a[i] else 0)
  }

  lemma {:induction false} PadFull(a: ZPoly)
    ensures Pad(a, |a|) == a
  {
  }

  method CanonicalSize(a: ZPoly, degree: nat) returns (r: Result<ZPoly>)
    ensures r == if |a| <= degree then Ok(Pad(a, degree)) else Refused
  {
    if |a| > degree {
      return Refused;
    }
    var out := Zero(degree);
    for i := 0 to |a|
      invariant |out| == degree
      invariant forall k :: 0 <= k < degree ==> out[k] == if k < i then a[k] else 0
    {
      out := out[i := a[i]];
    }
    assert out == Pad(a, degree);
    return Ok(out);
  }

  method AddPoly(a: ZPoly, b: ZPoly, degree: nat) returns (r: Result<ZPoly>)
    ensures r == if |a| <= degree && |b| <= degree then Ok(Add(Pad(a, degree), Pad(b, degree))) else Refused
  {
    var aa :- CanonicalSize(a, degree);
    var bb :- CanonicalSize(b, degree);
    var out := Zero(degree);
    for i := 0 to degree
      invariant |out| == degree
      invariant forall k :: 0 <= k < i ==> out[k] == aa[k] + bb[k]
    {
      out := out[i := aa[i] + bb[i]];
    }
    assert out == Add(aa, bb);
    return Ok(out);
  }

  method SubPoly(a: ZPoly, b: ZPoly, degree: nat) returns (r: Result<ZPoly>)
    ensures r == if |a| <= degree && |b| <= degree then Ok(Sub(Pad(a, degree), Pad(b, degree))) else Refused
  {
    var aa :- CanonicalSize(a, degree);
    var bb :- CanonicalSize(b, degree);
    var out := Zero(degree);
    for i := 0 to degree
      invariant |out| == degree
      invariant forall k :: 0 <= k < i ==> out[k] == aa[k] - bb[k]
    {
      out := out[i := aa[i] - bb[i]];
    }
    assert out == Sub(aa, bb);
    return Ok(out);
  }

  /** One row of the double loop: adds c x^i b to `out`, wrapping with a change of sign. */
  method AddShiftedRow(out: ZPoly, c: int, i: nat, b: ZPoly) returns (r: ZPoly)
    requires i < |b| == |out|
    ensures r == Add(out, Scale(c, TimesXPow(i, b)))
  {
    r := out;
    var n := |b|;
    for j := 0 to n
      invariant |r| == n
      invariant forall k :: 0 <= k < n ==>
        r[k] == if (if k >= i then k - i else k - i + n) < j
                then out[k] + c * (if k >= i then b[k - i] else -b[k - i + n])
                else out[k]
    {
      var k := i + j;
      var product := c * b[j];
      if k < n {
        r := r[k := r[k] + product];
      } else {
        assert c * -b[j] == -product;
        r := r[k - n := r[k - n] - product];
      }
    }
    forall k | 0 <= k < n ensures r[k] == Add(out, Scale(c, TimesXPow(i, b)))[k] {
      TimesXPowAt(i, b, k);
    }
  }

  method MulPoly(a: ZPoly, b: ZPoly, degree: nat) returns (r: Result<ZPoly>)
    ensures r == if |a| <= degree && |b| <= degree then Ok(Act(Pad(a, degree), Pad(b, degree))) else Refused
  {
    var aa :- CanonicalSize(a, degree);
    var bb :- CanonicalSize(b, degree);
    var out := Zero(degree);
    for i := 0 to degree
      invariant out == Act(aa[..i], bb)
    {
      out := AddShiftedRow(out, aa[i], i, bb);
      assert aa[..i + 1] == aa[..i] + [aa[i]];
      ActSnoc(aa[..i], aa[i], bb);
    }
    assert aa[..degree] == aa;
    return Ok(out);
  }

  /** Negates the odd coefficients in place. */
  method Conjugate(a: ZPoly, degree: nat) returns (r: Result<ZPoly>)
    ensures r == if |a| <= degree then Ok(Conj(Pad(a, degree))) else Refused
  {
    var out :- CanonicalSize(a, degree);
    var i := 1;
    while i < degree
      invariant i % 2 == 1 && |out| == degree
      invariant forall k :: 0 <= k < degree ==>
        out[k] == if k % 2 == 1 && k < i then -Pad(a, degree)[k] else Pad(a, degree)[k]
    {
      out := out[i := -out[i]];
      i := i + 2;
    }
    assert out == Conj(Pad(a, degree));
    return Ok(out);
  }

  lemma {:induction false} PowerOfTwoIsEven(n: nat)
    requires IsPowerOfTwo(n) && n >= 2
    ensures n % 2 == 0 && IsPowerOfTwo(n / 2)
  {
  }

  /** Whether every odd coefficient vanishes. */
  method NoOddPart(p: ZPoly) returns (ok: bool)
    ensures ok <==> forall k :: 0 <= k < |p| && k % 2 == 1 ==> p[k] == 0
  {
    var i := 1;
    while i < |p|
      invariant i % 2 == 1
      invariant forall k :: 0 <= k < i && k < |p| && k % 2 == 1 ==> p[k] == 0
    {
      if p[i] != 0 {
        return false;
      }
      i := i + 2;
    }
    return true;
  }

  method EvenPart(p: ZPoly) returns (r: ZPoly)
    ensures r == Evens(p)
  {
    var half := |p| / 2;
    r := Zero(half);
    for k := 0 to half
      invariant |r| == half
      invariant forall m :: 0 <= m < k ==> r[m] == p[2 * m]
    {
      r := r[k := p[2 * k]];
    }
  }

  method FieldNormPoly(a: ZPoly, degree: nat) returns (r: Result<ZPoly>)
    ensures r == if degree >= 2 && IsPowerOfTwo(degree) && |a| <= degree
                 then Ok(FieldNorm(Pad(a, degree))) else Refused
  {
    if degree < 2 || !IsPowerOfTwo(degree) {
      return Refused;
    }
    PowerOfTwoIsEven(degree);
    var aa :- CanonicalSize(a, degree);
    PadFull(aa);
    PadFull(Conj(aa));
    var conjugate := Conjugate(aa, degree);
    var product := MulPoly(aa, conjugate.value, degree);
    var ok := NoOddPart(product.value);
    if !ok {
      NormHasNoOddPartAnywhere(aa);
      assert false;
    }
    var out := EvenPart(product.value);
    return Ok(out);
  }

  lemma {:induction false} NormHasNoOddPartAnywhere(a: ZPoly)
    requires |a| % 2 == 0
    ensures forall k :: 0 <= k < |a| && k % 2 == 1 ==> Act(a, Conj(a))[k] == 0
  {
    forall k | 0 <= k < |a| && k % 2 == 1 ensures Act(a, Conj(a))[k] == 0 {
      NormHasNoOddPart(a, k);
    }
  }

  method EmbedHalf(half: ZPoly, degree: nat) returns (r: Result<ZPoly>)
    ensures r == if degree >= 2 && IsPowerOfTwo(degree) && |half| <= degree / 2
                 then Ok(Embed(Pad(half, degree / 2))) else Refused
  {
    if degree < 2 || !IsPowerOfTwo(degree) {
      return Refused;
    }
    PowerOfTwoIsEven(degree);
    if |half| > degree / 2 {
      return Refused;
    }
    var out := Zero(degree);
    for i := 0 to |half|
      invariant |out| == degree
      invariant forall k :: 0 <= k < degree ==> out[k] == if k % 2 == 0 && k / 2 < i then half[k / 2] else 0
    {
      out := out[2 * i := half[i]];
    }
    assert out == Embed(Pad(half, degree / 2));
    return Ok(out);
  }
}
