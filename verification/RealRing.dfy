/** Class RealRingArithmetic: the loops that multiply, take adjoints, divide, split and merge polynomials
    with real coefficients.  The source's 256-digit decimals are taken to be exact. */
module RealRing {
  import opened Outcomes
  import opened RealPoly
  import opened RealAdjoint
  import opened RealSplit
  import opened RealSolve

  // ----- product -----

  method AddShiftedRowReal(out: RPoly, c: real, i: nat, b: RPoly) returns (r: RPoly)
    requires i < |b| == |out|
    ensures r == Add(out, Scale(c, TimesXPow(i, b)))
  {
    r := out;
    var n := |b|;
    for j := 0 to n
      invariant |r| == n
      invariant forall k :: 0 <= k < n ==>
        r[k] == if (if k >= i then k - i else k - i + n) < j
                then out[k] + c * (if k >= i then b[k - i] else -b[k - i + n])
                else out[k]
    {
      if b[j] != 0.0 {
        var k := i + j;
        var product := c * b[j];
        if k < n {
          r := r[k := r[k] + product];
        } else {
          assert c * -b[j] == -product;
          r := r[k - n := r[k - n] - product];
        }
      }
    }
    forall k | 0 <= k < n ensures r[k] == Add(out, Scale(c, TimesXPow(i, b)))[k] {
      TimesXPowAt(i, b, k);
    }
  }

  lemma {:induction false} AddScaledZero(out: RPoly, v: RPoly)
    requires |out| == |v|
    ensures Add(out, Scale(0.0, v)) == out
  {
  }

  /** canonical_size: zeros appended up to the degree; refused when the operand is longer. */
  method CanonicalReal(a: RPoly, degree: nat) returns (r: Result<RPoly>)
    ensures r == if |a| <= degree then Ok(Pad(a, degree)) else Refused
  {
    if |a| > degree {
      return Refused;
    }
    var out := Zero(degree);
    for i := 0 to |a|
      invariant |out| == degree
      invariant forall k :: 0 <= k < degree ==> out[k] == if k < i then a[k] else 0.0
    {
      out := out[i := a[i]];
    }
    assert out == Pad(a, degree);
    return Ok(out);
  }

  /** mul, of operands up to the degree. */
  method MulReal(a: RPoly, b: RPoly, degree: nat) returns (r: Result<RPoly>)
    ensures r == if |a| <= degree && |b| <= degree then Ok(Act(Pad(a, degree), Pad(b, degree))) else Refused
  {
    var aa :- CanonicalReal(a, degree);
    var bb :- CanonicalReal(b, degree);
    var out := MulFull(aa, bb);
    return Ok(out);
  }

  /** The double loop, on operands of full length. */
  method MulFull(a: RPoly, b: RPoly) returns (out: RPoly)
    requires |a| == |b|
    ensures out == Act(a, b)
  {
    out := Zero(|a|);
    for i := 0 to |a|
      invariant out == Act(a[..i], b)
    {
      assert a[..i + 1] == a[..i] + [a[i]];
      ActSnoc(a[..i], a[i], b);
      if a[i] == 0.0 {
        AddScaledZero(out, TimesXPow(i, b));
      } else {
        out := AddShiftedRowReal(out, a[i], i, b);
      }
    }
    assert a[..|a|] == a;
  }

  /** hermitian_adjoint, of an operand up to the degree. */
  method HermitianAdjoint(a: RPoly, degree: nat) returns (r: Result<RPoly>)
    requires degree > 0
    ensures r == if |a| <= degree then Ok(Adj(Pad(a, degree))) else Refused
  {
    var aa :- CanonicalReal(a, degree);
    var out := AdjointFull(aa);
    return Ok(out);
  }

  method AdjointFull(a: RPoly) returns (out: RPoly)
    requires |a| > 0
    ensures out == Adj(a)
  {
    var n := |a|;
    out := Zero(n)[0 := a[0]];
    for i := 1 to n
      invariant |out| == n && out[0] == a[0]
      invariant forall k :: 1 <= k < n && n - k < i ==> out[k] == -a[n - k]
    {
      out := out[n - i := -a[i]];
    }
  }

  // ----- division -----

  function WrappedReal(v: RPoly, k: nat, m: nat): (r: seq<real>)
    requires k < |v| && m <= |v|
    ensures |r| == m
  {
    seq(m, i requires 0 <= i < m => if k >= i then v[k - i] else -v[k - i + |v|])
  }

  lemma {:induction false} ActSnocAt(d: RPoly, c: real, v: RPoly, k: nat, w: real)
    requires k < |v| && |d| < |v| && w == if k >= |d| then v[k - |d|] else -v[k - |d| + |v|]
    ensures Act(d + [c], v)[k] == Act(d, v)[k] + c * w
  {
    ActSnoc(d, c, v);
    TimesXPowAt(|d|, v, k);
  }

  lemma {:induction false} ActCoefficientReal(a: RPoly, v: RPoly, k: nat)
    requires k < |v| && |a| <= |v|
    ensures Act(a, v)[k] == Inner(a, WrappedReal(v, k, |a|))
  {
    if |a| > 0 {
      hide Act, Inner, WrappedReal;
      var m := |a| - 1;
      var d, c, u := a[..m], a[m], WrappedReal(v, k, |a| - 1);
      var x := if k >= m then v[k - m] else -v[k - m + |v|];
      assert a == d + [c];
      WrappedSnoc(v, k, m);
      ActCoefficientReal(d, v, k);
      ActSnocAt(d, c, v, k, x);
      InnerSnoc(d, c, u, x);
    }
  }

  lemma {:induction false} WrappedSnoc(v: RPoly, k: nat, m: nat)
    requires k < |v| && m < |v|
    ensures WrappedReal(v, k, m + 1) == WrappedReal(v, k, m) + [if k >= m then v[k - m] else -v[k - m + |v|]]
  {
  }

  lemma {:induction false} InnerUnit(u: seq<real>, v: seq<real>, c: nat)
    requires |u| == |v| && c < |u| && u == seq(|u|, i => if i == c then 1.0 else 0.0)
    ensures Inner(u, v) == v[c]
  {
    var m := |u| - 1;
    if c == m {
      assert u[..m] == Zero(m);
      InnerZero(v[..m]);
    } else {
      InnerUnit(u[..m], v[..m], c);
    }
  }

  lemma {:induction false} BasisImageReal(b: RPoly, col: nat, r: nat)
    requires col < |b| && r < |b|
    ensures Act(b, seq(|b|, i => if i == col then 1.0 else 0.0))[r] == WrappedReal(b, r, |b|)[col]
  {
    var basis: RPoly := seq(|b|, i => if i == col then 1.0 else 0.0);
    MulComm(b, basis);
    ActCoefficientReal(basis, b, r);
    InnerUnit(basis, WrappedReal(b, r, |b|), col);
  }

  function MulMatrix(b: RPoly): (m: RMatrix)
    ensures |m| == |b|
  {
    seq(|b|, r requires 0 <= r < |b| => WrappedReal(b, r, |b|))
  }

  method BuildMulMatrix(b: RPoly) returns (m: RMatrix)
    ensures m == MulMatrix(b)
  {
    var n := |b|;
    m := seq(n, r => seq(n, c => 0.0));
    for col := 0 to n
      invariant |m| == n && forall r :: 0 <= r < n ==> |m[r]| == n
      invariant forall r, c :: 0 <= r < n && 0 <= c < col ==> m[r][c] == WrappedReal(b, r, n)[c]
    {
      var column := MulFull(b, seq(n, i => if i == col then 1.0 else 0.0));
      m := PutColumnReal(m, column, n, col);
      forall r | 0 <= r < n ensures m[r][col] == WrappedReal(b, r, n)[col] {
        BasisImageReal(b, col, r);
      }
    }
    forall r | 0 <= r < n ensures m[r] == MulMatrix(b)[r] {
      assert m[r] == WrappedReal(b, r, n);
    }
  }

  method PutColumnReal(m0: RMatrix, image: seq<real>, n: nat, col: nat) returns (m: RMatrix)
    requires |m0| == |image| == n && col < n && forall r :: 0 <= r < n ==> |m0[r]| == n
    ensures |m| == n && forall r :: 0 <= r < n ==> m[r] == m0[r][col := image[r]]
  {
    m := m0;
    for row := 0 to n
      invariant |m| == n
      invariant forall r :: 0 <= r < n ==> m[r] == if r < row then m0[r][col := image[r]] else m0[r]
    {
      m := m[row := m[row][col := image[row]]];
    }
  }

  lemma {:induction false} RowIsCoefficient(b: RPoly, x: RPoly, r: nat)
    requires |b| == |x| && r < |b|
    ensures Inner(WrappedReal(b, r, |b|), x) == Act(b, x)[r]
  {
    MulComm(b, x);
    ActCoefficientReal(x, b, r);
    InnerComm(x, WrappedReal(b, r, |b|));
  }

  lemma {:induction false} MatrixIsProduct(b: RPoly, x: RPoly, a: RPoly, s: real)
    requires |a| == |b| == |x|
    ensures Square(MulMatrix(b), a, |x|)
    ensures Solves(MulMatrix(b), a, x, s) <==> Act(b, x) == Scale(s, a)
  {
    hide Act, Inner, WrappedReal;
    var m, p, q := MulMatrix(b), Act(b, x), Scale(s, a);
    forall r | 0 <= r < |x|
      ensures RowSolves(m[r], a[r], x, s) <==> p[r] == q[r]
    {
      RowIsCoefficient(b, x, r);
    }
    if Solves(m, a, x, s) {
      forall r | 0 <= r < |x| ensures p[r] == q[r] {
        assert RowSolves(m[r], a[r], x, s);
      }
      assert p == q;
    }
  }

  /** div, of operands up to the degree: refused on a longer one; otherwise the quotient of the padded operands, or nothing
      (the source throws) and then the divisor is a zero divisor. */
  method Div(a: RPoly, b: RPoly, degree: nat) returns (r: Result<Option<RPoly>>, ghost kernel: RPoly)
    ensures r.Refused? <==> |a| > degree || |b| > degree
    ensures r.Ok? && r.value.Some? ==>
      |r.value.value| == degree && Act(Pad(b, degree), r.value.value) == Pad(a, degree)
    ensures r.Ok? && r.value.None? ==>
      |kernel| == degree && kernel != Zero(degree) && Act(Pad(b, degree), kernel) == Zero(degree)
  {
    kernel := [];
    if |a| > degree || |b| > degree {
      return Refused, kernel;
    }
    var aa := CanonicalReal(a, degree);
    var bb := CanonicalReal(b, degree);
    var quotient;
    quotient, kernel := DivFull(aa.value, bb.value);
    return Ok(quotient), kernel;
  }

  method DivFull(a: RPoly, b: RPoly) returns (r: Option<RPoly>, ghost kernel: RPoly)
    requires |a| == |b|
    ensures r.Some? ==> |r.value| == |a| && Act(b, r.value) == a
    ensures r.None? ==> |kernel| == |b| && kernel != Zero(|b|) && Act(b, kernel) == Zero(|b|)
  {
    var n := |a|;
    var m := BuildMulMatrix(b);
    MatrixIsProduct(b, a, a, 1.0);
    r, kernel := Solve(m, a, n);
    if r.Some? {
      MatrixIsProduct(b, r.value, a, 1.0);
      assert Scale(1.0, a) == a;
    } else {
      MatrixIsProduct(b, kernel, a, 0.0);
      assert Scale(0.0, a) == Zero(n);
    }
  }

  /** Padding does nothing to an operand of full length. */
  lemma {:induction false} PadFullReal(a: RPoly)
    ensures Pad(a, |a|) == a
  {
  }

  // ----- split and merge -----

  method SplitPoly(f: RPoly) returns (f0: RPoly, f1: RPoly)
    requires |f| > 0 && |f| % 2 == 0
    ensures f0 == Even(f) && f1 == Odd(f)
  {
    var half := |f| / 2;
    f0, f1 := Zero(half), Zero(half);
    for i := 0 to half
      invariant |f0| == |f1| == half
      invariant forall k :: 0 <= k < i ==> f0[k] == f[2 * k] && f1[k] == f[2 * k + 1]
    {
      f0 := f0[i := f[2 * i]];
      f1 := f1[i := f[2 * i + 1]];
    }
  }

  method MergePoly(f0: RPoly, f1: RPoly) returns (out: RPoly)
    requires |f0| == |f1|
    ensures out == Merge(f0, f1)
  {
    var half := |f0|;
    out := Zero(2 * half);
    for i := 0 to half
      invariant |out| == 2 * half
      invariant forall k :: 0 <= k < 2 * i ==> out[k] == Merge(f0, f1)[k]
    {
      out := out[2 * i := f0[i]][2 * i + 1 := f1[i]];
    }
  }
}
