/** Class RingArithmetic: arithmetic in Z_q[x]/(x^degree + 1) on coefficient vectors kept in 0..q-1. */
module ModRing {
  import opened Outcomes
  import opened Residues
  import opened IntPoly
  import opened IntegerRing

  // ----- residues -----

  /** The remainder of a division that truncates toward zero, as the `%` of the source computes it. */
  function TruncatedRemainder(x: int, q: int): (r: int)
    requires q > 0
  {
    if x >= 0 then x % q else -((-x) % q)
  }

  function ScalarMod(x: int, q: int): (r: int)
    requires q > 0
    ensures r == x % q
  {
    var r := TruncatedRemainder(x, q);
    if x < 0 then ModOfNegation(x, q); (if r < 0 then r + q else r)
    else r
  }

  lemma {:induction false} ModOfNegation(x: int, q: int)
    requires q > 0
    ensures x % q == if (-x) % q == 0 then 0 else q - (-x) % q
  {
    var m := -x;
    var r := m % q;
    assert m == q * (m / q) + r;
    var k := if r == 0 then -(m / q) else -(m / q) - 1;
    var s := if r == 0 then 0 else q - r;
    NegatedQuotient(m / q, q);
    assert x == s + q * k;
    ModShift(s, k, q);
    SmallMod(s, q);
  }

  lemma {:induction false} NegatedQuotient(d: int, q: int)
    ensures q * (-d) == -(q * d) && q * (-d - 1) == -(q * d) - q
  {
  }

  // ----- congruent polynomials -----

  function ModP(a: ZPoly, q: int): (r: ZPoly)
    requires q > 0
    ensures |r| == |a|
  {
    seq(|a|, i requires 0 <= i < |a| => a[i] % q)
  }

  ghost predicate Cong(a: ZPoly, b: ZPoly, q: int)
    requires q > 0
  {
    |a| == |b| && forall i :: 0 <= i < |a| ==> a[i] % q == b[i] % q
  }

  ghost predicate Canonical(a: ZPoly, q: int)
  {
    forall i :: 0 <= i < |a| ==> 0 <= a[i] < q
  }

  lemma {:induction false} CongMod(a: ZPoly, q: int)
    requires q > 0
    ensures Cong(ModP(a, q), a, q) && Canonical(ModP(a, q), q)
  {
    forall i | 0 <= i < |a| ensures ModP(a, q)[i] % q == a[i] % q {
      ModMod(a[i], q);
    }
  }

  lemma {:induction false} CongIsModEq(a: ZPoly, b: ZPoly, q: int)
    requires q > 0
    ensures Cong(a, b, q) <==> ModP(a, q) == ModP(b, q)
  {
    var l, r := ModP(a, q), ModP(b, q);
    if l == r {
      assert |a| == |l| == |b|;
      forall i | 0 <= i < |a| ensures a[i] % q == b[i] % q {
        assert l[i] == r[i];
      }
    }
  }

  lemma {:induction false} CongAdd(u: ZPoly, u': ZPoly, v: ZPoly, v': ZPoly, q: int)
    requires q > 0 && Cong(u, u', q) && Cong(v, v', q) && |u| == |v|
    ensures Cong(Add(u, v), Add(u', v'), q)
  {
    forall i | 0 <= i < |u| ensures Add(u, v)[i] % q == Add(u', v')[i] % q {
      ModAdd(u[i], u'[i], v[i], v'[i], q);
    }
  }

  lemma {:induction false} CongScale(c: int, c': int, u: ZPoly, u': ZPoly, q: int)
    requires q > 0 && c % q == c' % q && Cong(u, u', q)
    ensures Cong(Scale(c, u), Scale(c', u'), q)
  {
    forall i | 0 <= i < |u| ensures Scale(c, u)[i] % q == Scale(c', u')[i] % q {
      ModMul(c, c', u[i], u'[i], q);
    }
  }

  lemma {:induction false} CongTimesX(u: ZPoly, u': ZPoly, q: int)
    requires q > 0 && Cong(u, u', q)
    ensures Cong(TimesX(u), TimesX(u'), q)
  {
    if |u| > 0 {
      ModMul(-1, -1, u[|u| - 1], u'[|u| - 1], q);
    }
  }

  /** Products of congruent polynomials are congruent: reduction mod q is a ring homomorphism. */
  lemma {:induction false} CongAct(a: ZPoly, a': ZPoly, v: ZPoly, v': ZPoly, q: int)
    requires q > 0 && Cong(a, a', q) && Cong(v, v', q)
    ensures Cong(Act(a, v), Act(a', v'), q)
  {
    if a == [] {
    } else {
      CongAct(a[1..], a'[1..], v, v', q);
      CongScale(a[0], a'[0], v, v', q);
      CongTimesX(Act(a[1..], v), Act(a'[1..], v'), q);
      CongAdd(Scale(a[0], v), Scale(a'[0], v'), TimesX(Act(a[1..], v)), TimesX(Act(a'[1..], v')), q);
    }
  }

  // ----- the operations -----

  method Canonicalize(a: ZPoly, degree: nat, q: int) returns (r: Result<ZPoly>)
    requires q > 0
    ensures r == if |a| <= degree then Ok(ModP(Pad(a, degree), q)) else Refused
  {
    if |a| > degree {
      return Refused;
    }
    var out := Zero(degree);
    for i := 0 to |a|
      invariant |out| == degree
      invariant forall k :: 0 <= k < degree ==> out[k] == if k < i then a[k] % q else 0
    {
      out := out[i := ScalarMod(a[i], q)];
    }
    assert out == ModP(Pad(a, degree), q);
    return Ok(out);
  }

  /** Sum in the ring: what the loop leaves is the reduction of the integer sum. */
  method AddQ(a: ZPoly, b: ZPoly, degree: nat, q: int) returns (r: Result<ZPoly>)
    requires q > 0
    ensures r == if |a| <= degree && |b| <= degree
                 then Ok(ModP(Add(Pad(a, degree), Pad(b, degree)), q)) else Refused
  {
    var aa :- Canonicalize(a, degree, q);
    var bb :- Canonicalize(b, degree, q);
    var out := Zero(degree);
    for i := 0 to degree
      invariant |out| == degree
      invariant forall k :: 0 <= k < i ==> out[k] == (aa[k] + bb[k]) % q
    {
      out := out[i := ScalarMod(aa[i] + bb[i], q)];
    }
    assert out == ModP(Add(aa, bb), q);
    CongMod(Pad(a, degree), q);
    CongMod(Pad(b, degree), q);
    CongAdd(aa, Pad(a, degree), bb, Pad(b, degree), q);
    CongIsModEq(Add(aa, bb), Add(Pad(a, degree), Pad(b, degree)), q);
    return Ok(out);
  }

  method AddShiftedRowQ(out: ZPoly, c: int, i: nat, b: ZPoly, q: int) returns (r: ZPoly)
    requires q > 0 && i < |b| == |out|
    ensures r == ModP(Add(out, Scale(c, TimesXPow(i, b))), q)
  {
    r := out;
    var n := |b|;
    for j := 0 to n
      invariant |r| == n
      invariant forall k :: 0 <= k < n ==>
        r[k] == if (if k >= i then k - i else k - i + n) < j
                then (out[k] + c * (if k >= i then b[k - i] else -b[k - i + n])) % q
                else out[k]
    {
      var k := i + j;
      var product := c * b[j];
      if k < n {
        r := r[k := ScalarMod(r[k] + product, q)];
      } else {
        assert c * -b[j] == -product;
        r := r[k - n := ScalarMod(r[k - n] - product, q)];
      }
    }
    forall k | 0 <= k < n ensures r[k] == ModP(Add(out, Scale(c, TimesXPow(i, b))), q)[k] {
      TimesXPowAt(i, b, k);
    }
  }

  lemma {:induction false} ReduceThenAdd(u: ZPoly, v: ZPoly, q: int)
    requires q > 0 && |u| == |v|
    ensures ModP(Add(ModP(u, q), v), q) == ModP(Add(u, v), q)
  {
    CongMod(u, q);
    CongAdd(ModP(u, q), u, v, v, q);
    CongIsModEq(Add(ModP(u, q), v), Add(u, v), q);
  }

  lemma {:induction false} ReduceThenMul(a: ZPoly, b: ZPoly, q: int)
    requires q > 0
    ensures ModP(Act(ModP(a, q), ModP(b, q)), q) == ModP(Act(a, b), q)
  {
    CongMod(a, q);
    CongMod(b, q);
    CongAct(ModP(a, q), a, ModP(b, q), b, q);
    CongIsModEq(Act(ModP(a, q), ModP(b, q)), Act(a, b), q);
  }

  /** Product in the ring: the modular double loop reduces the exact integer product. */
  method MulQ(a: ZPoly, b: ZPoly, degree: nat, q: int) returns (r: Result<ZPoly>)
    requires q > 0
    ensures r == if |a| <= degree && |b| <= degree
                 then Ok(ModP(Act(Pad(a, degree), Pad(b, degree)), q)) else Refused
  {
    var aa :- Canonicalize(a, degree, q);
    var bb :- Canonicalize(b, degree, q);
    var out := Zero(degree);
    assert out == ModP(Act([], bb), q);
    for i := 0 to degree
      invariant out == ModP(Act(aa[..i], bb), q)
    {
      out := AddShiftedRowQ(out, aa[i], i, bb, q);
      assert aa[..i + 1] == aa[..i] + [aa[i]];
      ActSnoc(aa[..i], aa[i], bb);
      ReduceThenAdd(Act(aa[..i], bb), Scale(aa[i], TimesXPow(i, bb)), q);
    }
    assert aa[..degree] == aa;
    ReduceThenMul(Pad(a, degree), Pad(b, degree), q);
    return Ok(out);
  }

  method EqualQ(a: ZPoly, b: ZPoly, degree: nat, q: int) returns (r: Result<bool>)
    requires q > 0
    ensures r.Refused? <==> |a| > degree || |b| > degree
    ensures r.Ok? ==> (r.value <==> Cong(Pad(a, degree), Pad(b, degree), q))
  {
    var aa :- Canonicalize(a, degree, q);
    var bb :- Canonicalize(b, degree, q);
    CongIsModEq(Pad(a, degree), Pad(b, degree), q);
    return Ok(aa == bb);
  }
}
