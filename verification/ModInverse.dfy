/** RingArithmetic::inverse: the inverse of a polynomial modulo q by Gauss-Jordan elimination on its
    multiplication matrix.

    Everything about the elimination is said through null vectors.  A row of the augmented matrix [M | e]
    is paired with y = (x, -s), so that y is a null vector exactly when M x = s e mod q.  Row operations
    keep the set of null vectors; a finished elimination exhibits the inverse as one, and a missing pivot
    exhibits a zero divisor as one. */
module ModInverse {
  import opened Outcomes
  import opened Residues
  import opened IntPoly
  import opened IntegerRing
  import opened ModRing

  // ----- scalar inverse -----

  ghost predicate ProperDivisor(d: int, q: int)
  {
    1 < d < q && q % d == 0
  }

  ghost predicate IsPrime(q: int)
  {
    q >= 2 && forall d: int :: !ProperDivisor(d, q)
  }

  ghost predicate InverseOf(a: int, x: int, q: int)
    requires q > 1
  {
    (a * x) % q == 1
  }

  /** t is the coefficient of a in r, mod q. */
  ghost predicate Tracks(a: int, q: int, r: int, t: int)
    requires q > 0
  {
    (t * a) % q == r % q
  }

  lemma {:induction false} EuclidStep(a: int, q: int, r: int, t: int, r': int, t': int, k: int)
    requires q > 0 && Tracks(a, q, r, t) && Tracks(a, q, r', t')
    ensures Tracks(a, q, r - k * r', t - k * t')
  {
    ModMul(-k, -k, t' * a, r', q);
    ModAdd(t * a, r, -k * (t' * a), -k * r', q);
    assert (t - k * t') * a == t * a + -k * (t' * a);
  }

  lemma {:induction false} SharedDivisor(a: int, q: int, d: int, x: int, y: int, t: int)
    requires q > 0 && d > 1 && a == d * x && q == d * y
    ensures (a * t) % q != 1
  {
    if (a * t) % q == 1 {
      var k := (a * t) / q;
      assert d * (x * t - y * k) == 1 by {
        assert a * t == d * (x * t) && q * k == d * (y * k);
        assert d * (x * t - y * k) == d * (x * t) - d * (y * k);
      }
      MultipleMod(d, x * t - y * k);
    }
  }

  method ScalarEuclid(a: nat, q: int) returns (rem: int, t: int, ghost xa: int, ghost xq: int)
    requires q > 1 && a < q
    ensures rem > 0 && (rem == 1 ==> (t * a) % q == 1)
    ensures a == rem * xa && q == rem * xq
  {
    hide Tracks;
    ghost var ya, yq;
    t, rem, xa, ya, xq, yq := 0, q, 0, 1, 1, 0;
    var newT, newRem: int := 1, a;
    TracksStart(a, q);
    while newRem != 0
      invariant rem > 0 && newRem >= 0
      invariant Tracks(a, q, rem, t) && Tracks(a, q, newRem, newT)
      invariant a == xa * rem + ya * newRem
      invariant q == xq * rem + yq * newRem
      decreases newRem
    {
      var quotient := rem / newRem;
      EuclidStep(a, q, rem, t, newRem, newT, quotient);
      CombineBack(a, xa, ya, rem, newRem, quotient);
      CombineBack(q, xq, yq, rem, newRem, quotient);
      xa, ya := xa * quotient + ya, xa;
      xq, yq := xq * quotient + yq, xq;
      t, newT := newT, t - quotient * newT;
      RemainderBelow(rem, newRem);
      rem, newRem := newRem, rem - quotient * newRem;
    }
    if rem == 1 {
      TracksOne(a, q, t);
    }
    ZeroTerm(xa, ya, rem);
    ZeroTerm(xq, yq, rem);
  }

  lemma {:induction false} TracksStart(a: int, q: int)
    requires q > 0
    ensures Tracks(a, q, q, 0) && Tracks(a, q, a, 1)
  {
    MultipleMod(q, 1);
    assert 0 * a == 0 && 1 * a == a;
  }

  lemma {:induction false} TracksOne(a: int, q: int, t: int)
    requires q > 1 && Tracks(a, q, 1, t)
    ensures (t * a) % q == 1
  {
    OneMod(q);
  }

  lemma {:induction false} RemainderBelow(r: int, d: int)
    requires d > 0
    ensures 0 <= r - r / d * d < d
  {
  }

  lemma {:induction false} OneMod(q: int)
    requires q > 1
    ensures 1 % q == 1
  {
  }

  lemma {:induction false} ZeroTerm(x: int, y: int, r: int)
    ensures x * r + y * 0 == r * x
  {
  }

  lemma {:induction false} NoScalarInverse(a: int, q: int, d: int, x: int, y: int, t: int)
    requires q > 1 && d > 1 && a % q == d * x && q == d * y
    ensures !InverseOf(a, t, q)
  {
    var k := a / q;
    assert a == d * (y * k + x) by { assert a == q * k + d * x; }
    SharedDivisor(a, q, d, y * k + x, y, t);
  }

  lemma {:induction false} DivisorFound(a: int, q: int, d: int, x: int, y: int)
    requires q > 1 && d > 1 && 0 < a < q && a % q == d * x && q == d * y
    ensures ProperDivisor(d, q)
  {
    assert a % q == a;
    FactorBelow(d, x, a, q);
    MultipleMod(d, y);
  }

  lemma {:induction false} ScalarFails(a: int, q: int, d: int, x: int, y: int)
    requires q > 1 && d > 1 && a % q == d * x && q == d * y
    ensures forall z: int :: !InverseOf(a, z, q)
    ensures 0 < a < q ==> !IsPrime(q)
  {
    forall z: int ensures !InverseOf(a, z, q) {
      NoScalarInverse(a, q, d, x, y, z);
    }
    if 0 < a < q {
      DivisorFound(a, q, d, x, y);
    }
  }

  /** The extended Euclidean inverse: it finds one exactly when one exists. */
  method ScalarInverse(a: int, q: int) returns (r: Option<int>)
    requires q > 1
    ensures r.Some? ==> 0 <= r.value < q && InverseOf(a, r.value, q)
    ensures r.None? ==> forall x: int :: !InverseOf(a, x, q)
    ensures r.None? && 0 < a < q ==> !IsPrime(q)
  {
    var b := ScalarMod(a, q);
    var rem, t;
    ghost var x, y;
    rem, t, x, y := ScalarEuclid(b, q);
    if rem != 1 {
      ScalarFails(a, q, rem, x, y);
      return None;
    }
    ReducedInverse(a, b, t, q);
    return Some(ScalarMod(t, q));
  }

  lemma {:induction false} ReducedInverse(a: int, b: int, t: int, q: int)
    requires q > 1 && b == a % q && (t * b) % q == 1
    ensures InverseOf(a, t % q, q) && 0 <= t % q < q
  {
    var r := t % q;
    ModMod(t, q);
    ModMod(a, q);
    SameInverse(a, b, t, r, q);
  }

  lemma {:induction false} SameInverse(a: int, b: int, t: int, r: int, q: int)
    requires q > 1 && r % q == t % q && a % q == b % q && (t * b) % q == 1
    ensures (a * r) % q == 1
  {
    ModMul(r, t, a, b, q);
    assert a * r == r * a;
  }

  lemma {:induction false} FactorBelow(d: int, x: int, a: int, q: int)
    requires d > 0 && 0 < a < q && a == d * x
    ensures d < q
  {
    assert x <= 0 ==> d * x <= 0;
    assert x >= 1 ==> d * x >= d;
  }

  // ----- matrices and null vectors -----

  type Matrix = seq<seq<int>>

  ghost predicate Shaped(m: Matrix, n: nat, q: int)
  {
    |m| == n && forall r :: 0 <= r < n ==> |m[r]| == n + 1 && Canonical(m[r], q)
  }

  ghost predicate NullVector(m: Matrix, y: seq<int>, q: int)
    requires q > 0 && forall r :: 0 <= r < |m| ==> |m[r]| == |y|
  {
    forall r :: 0 <= r < |m| ==> Dot(m[r], y) % q == 0
  }

  /** The two matrices have the same null vectors. */
  ghost predicate SameNull(m: Matrix, m': Matrix, n: nat, q: int)
    requires q > 0 && Shaped(m, n, q) && Shaped(m', n, q)
  {
    forall y: seq<int> :: |y| == n + 1 ==> (NullVector(m, y, q) <==> NullVector(m', y, q))
  }

  lemma {:induction false} DotCong(u: seq<int>, u': seq<int>, y: seq<int>, q: int)
    requires q > 0 && |u| == |y| && Cong(u, u', q)
    ensures Dot(u, y) % q == Dot(u', y) % q
  {
    if |u| > 0 {
      var m := |u| - 1;
      DotCong(u[..m], u'[..m], y[..m], q);
      ModMul(u[m], u'[m], y[m], y[m], q);
      ModAdd(Dot(u[..m], y[..m]), Dot(u'[..m], y[..m]), u[m] * y[m], u'[m] * y[m], q);
    }
  }

  // ----- row operations -----

  function ScaledRow(row: seq<int>, c: int, q: int): (r: seq<int>)
    requires q > 0
    ensures |r| == |row|
  {
    ModP(Scale(c, row), q)
  }

  function ReducedRow(row: seq<int>, factor: int, pivotRow: seq<int>, q: int): (r: seq<int>)
    requires q > 0 && |row| == |pivotRow|
    ensures |r| == |row|
  {
    ModP(Add(row, Scale(-factor, pivotRow)), q)
  }

  lemma {:induction false} UnitTimesZero(c: int, c': int, d: int, q: int)
    requires q > 1 && (c' * c) % q == 1
    ensures (c * d) % q == 0 <==> d % q == 0
  {
    if d % q == 0 {
      ZeroTimes(c, d, q);
    }
    if (c * d) % q == 0 {
      ZeroTimes(c', c * d, q);
      OneTimes(c' * c, d, q);
      assert c' * (c * d) == (c' * c) * d;
    }
  }

  lemma {:induction false} ScaledRowNull(row: seq<int>, c: int, c': int, y: seq<int>, q: int)
    requires q > 1 && |row| == |y| && (c' * c) % q == 1
    ensures Dot(ScaledRow(row, c, q), y) % q == 0 <==> Dot(row, y) % q == 0
  {
    CongMod(Scale(c, row), q);
    DotCong(ScaledRow(row, c, q), Scale(c, row), y, q);
    DotScale(c, row, y);
    UnitTimesZero(c, c', Dot(row, y), q);
  }

  lemma {:induction false} ReducedRowDot(row: seq<int>, factor: int, pivotRow: seq<int>, y: seq<int>, q: int)
    requires q > 0 && |row| == |pivotRow| == |y| && Dot(pivotRow, y) % q == 0
    ensures Dot(ReducedRow(row, factor, pivotRow, q), y) % q == Dot(row, y) % q
  {
    var s := Scale(-factor, pivotRow);
    CongMod(Add(row, s), q);
    DotCong(ReducedRow(row, factor, pivotRow, q), Add(row, s), y, q);
    DotAdd(row, s, y);
    DotScale(-factor, pivotRow, y);
    ModMul(-factor, -factor, Dot(pivotRow, y), 0, q);
    ModAdd(Dot(row, y), Dot(row, y), Dot(s, y), 0, q);
  }

  /** The pivot row times c, from column `col` on; the columns before it are already zero. */
  method ScaleRowFrom(row: seq<int>, c: int, col: nat, q: int) returns (r: seq<int>)
    requires q > 0 && col <= |row| && Canonical(row, q)
    requires forall j :: 0 <= j < col ==> row[j] == 0
    ensures r == ScaledRow(row, c, q)
  {
    r := row;
    for j := col to |row|
      invariant |r| == |row|
      invariant forall k :: 0 <= k < |row| ==> r[k] == if col <= k < j then (row[k] * c) % q else row[k]
    {
      r := r[j := ScalarMod(r[j] * c, q)];
    }
    forall k | 0 <= k < |row| ensures r[k] == ScaledRow(row, c, q)[k] {
      assert row[k] * c == c * row[k];
    }
  }

  method ReduceRowFrom(row: seq<int>, factor: int, pivotRow: seq<int>, col: nat, q: int) returns (r: seq<int>)
    requires q > 0 && |row| == |pivotRow| && col <= |row| && Canonical(row, q)
    requires forall j :: 0 <= j < col ==> pivotRow[j] == 0
    ensures r == ReducedRow(row, factor, pivotRow, q)
  {
    r := row;
    for j := col to |row|
      invariant |r| == |row|
      invariant forall k :: 0 <= k < |row| ==>
        r[k] == if col <= k < j then (row[k] - factor * pivotRow[k]) % q else row[k]
    {
      r := r[j := ScalarMod(r[j] - factor * pivotRow[j], q)];
    }
    forall k | 0 <= k < |row| ensures r[k] == ReducedRow(row, factor, pivotRow, q)[k] {
      assert -factor * pivotRow[k] == -(factor * pivotRow[k]);
    }
  }

  // ----- one column of the elimination -----

  /** The first `col` columns are those of the identity. */
  ghost predicate Eliminated(m: Matrix, n: nat, col: nat, q: int)
    requires Shaped(m, n, q)
  {
    col <= n && forall r, c :: 0 <= r < n && 0 <= c < col ==> m[r][c] == if r == c then 1 else 0
  }

  ghost predicate NoPivot(m: Matrix, n: nat, col: nat, q: int)
    requires Shaped(m, n, q) && col < n
  {
    forall r :: col <= r < n ==> m[r][col] == 0
  }

  method FindPivot(m: Matrix, n: nat, col: nat, q: int) returns (pivot: nat)
    requires Shaped(m, n, q) && col < n
    ensures col <= pivot <= n
    ensures pivot == n <==> NoPivot(m, n, col, q)
    ensures pivot < n ==> m[pivot][col] != 0
  {
    pivot := col;
    while pivot < n && m[pivot][col] == 0
      invariant col <= pivot <= n
      invariant forall r :: col <= r < pivot ==> m[r][col] == 0
    {
      pivot := pivot + 1;
    }
  }

  lemma {:induction false} SwapKeepsNull(m: Matrix, i: nat, j: nat, n: nat, q: int)
    requires q > 0 && Shaped(m, n, q) && i < n && j < n
    ensures Shaped(m[i := m[j]][j := m[i]], n, q)
    ensures SameNull(m[i := m[j]][j := m[i]], m, n, q)
  {
    var s := m[i := m[j]][j := m[i]];
    forall y: seq<int> | |y| == n + 1
      ensures NullVector(s, y, q) <==> NullVector(m, y, q)
    {
      if NullVector(s, y, q) {
        forall r | 0 <= r < n ensures Dot(m[r], y) % q == 0 {
          var r' := if r == i then j else if r == j then i else r;
          assert s[r'] == m[r];
        }
      }
    }
  }

  lemma {:induction false} ScaleKeepsNull(m: Matrix, i: nat, c: int, c': int, n: nat, q: int)
    requires q > 1 && Shaped(m, n, q) && i < n && (c' * c) % q == 1
    ensures Shaped(m[i := ScaledRow(m[i], c, q)], n, q)
    ensures SameNull(m[i := ScaledRow(m[i], c, q)], m, n, q)
  {
    var s := m[i := ScaledRow(m[i], c, q)];
    forall y: seq<int> | |y| == n + 1
      ensures NullVector(s, y, q) <==> NullVector(m, y, q)
    {
      ScaledRowNull(m[i], c, c', y, q);
      if NullVector(s, y, q) {
        forall r | 0 <= r < n ensures Dot(m[r], y) % q == 0 {
          assert Dot(s[r], y) % q == 0;
        }
      }
    }
  }

  lemma {:induction false} ReduceKeepsNull(m: Matrix, i: nat, p: nat, factor: int, n: nat, q: int)
    requires q > 0 && Shaped(m, n, q) && i < n && p < n && i != p
    ensures Shaped(m[i := ReducedRow(m[i], factor, m[p], q)], n, q)
    ensures SameNull(m[i := ReducedRow(m[i], factor, m[p], q)], m, n, q)
  {
    var s := m[i := ReducedRow(m[i], factor, m[p], q)];
    forall y: seq<int> | |y| == n + 1
      ensures NullVector(s, y, q) <==> NullVector(m, y, q)
    {
      if NullVector(s, y, q) {
        assert Dot(s[p], y) % q == 0;
        ReducedRowDot(m[i], factor, m[p], y, q);
        forall r | 0 <= r < n ensures Dot(m[r], y) % q == 0 {
          assert Dot(s[r], y) % q == 0;
        }
      }
      if NullVector(m, y, q) {
        ReducedRowDot(m[i], factor, m[p], y, q);
      }
    }
  }

  lemma {:induction false} SameNullTrans(a: Matrix, b: Matrix, c: Matrix, n: nat, q: int)
    requires q > 0 && Shaped(a, n, q) && Shaped(b, n, q) && Shaped(c, n, q)
    requires SameNull(a, b, n, q) && SameNull(b, c, n, q)
    ensures SameNull(a, c, n, q)
  {
    forall y: seq<int> | |y| == n + 1
      ensures NullVector(a, y, q) <==> NullVector(c, y, q)
    {
      assert NullVector(b, y, q) || !NullVector(b, y, q);
    }
  }

  /** Clears column `col` in every row but the pivot row, which already holds 1 there. */
  method ClearColumn(m0: Matrix, n: nat, col: nat, q: int) returns (m: Matrix)
    requires q > 1 && Shaped(m0, n, q) && col < n && Eliminated(m0, n, col, q) && m0[col][col] == 1
    ensures Shaped(m, n, q) && Eliminated(m, n, col + 1, q) && SameNull(m, m0, n, q)
  {
    m := m0;
    for row := 0 to n
      invariant Shaped(m, n, q) && Eliminated(m, n, col, q) && SameNull(m, m0, n, q)
      invariant m[col] == m0[col]
      invariant forall r :: 0 <= r < row && r != col ==> m[r][col] == 0
    {
      if row != col {
        var factor := m[row][col];
        if factor != 0 {
          var reduced := ReduceRowFrom(m[row], factor, m[col], col, q);
          ReduceKeepsNull(m, row, col, factor, n, q);
          SameNullTrans(m[row := reduced], m, m0, n, q);
          ReducedEntries(m[row], factor, m[col], col, q);
          m := m[row := reduced];
        }
      }
    }
  }

  lemma {:induction false} ReducedEntries(row: seq<int>, factor: int, pivotRow: seq<int>, col: nat, q: int)
    requires q > 1 && |row| == |pivotRow| && col < |row| && Canonical(row, q)
    requires pivotRow[col] == 1 && factor == row[col]
    requires forall j :: 0 <= j < col ==> pivotRow[j] == 0
    ensures ReducedRow(row, factor, pivotRow, q)[col] == 0
    ensures forall j :: 0 <= j < col ==> ReducedRow(row, factor, pivotRow, q)[j] == row[j]
  {
    ReducedEntry(row[col], factor, pivotRow[col], q);
    forall j | 0 <= j < col ensures ReducedRow(row, factor, pivotRow, q)[j] == row[j] {
      ReducedEntry(row[j], factor, pivotRow[j], q);
    }
  }

  lemma {:induction false} ReducedEntry(x: int, factor: int, p: int, q: int)
    requires q > 1 && 0 <= x < q
    ensures p == 0 ==> (x + -factor * p) % q == x
    ensures p == 1 && factor == x ==> (x + -factor * p) % q == 0
  {
    SmallMod(x, q);
    SmallMod(0, q);
  }

  lemma {:induction false} ScaledEntries(row: seq<int>, c: int, col: nat, q: int)
    requires q > 1 && col < |row| && InverseOf(row[col], c, q)
    requires forall j :: 0 <= j < col ==> row[j] == 0
    ensures ScaledRow(row, c, q)[col] == 1
    ensures forall j :: 0 <= j < col ==> ScaledRow(row, c, q)[j] == 0
  {
    assert c * row[col] == row[col] * c;
    forall j | 0 <= j < col ensures ScaledRow(row, c, q)[j] == 0 {
      assert c * row[j] == 0;
    }
  }

  /** Divides the pivot row by its pivot. */
  method NormalisePivot(m0: Matrix, n: nat, col: nat, q: int) returns (m: Matrix, done: bool)
    requires q > 1 && Shaped(m0, n, q) && col < n && Eliminated(m0, n, col, q) && m0[col][col] != 0
    ensures done ==> Shaped(m, n, q) && Eliminated(m, n, col, q) && m[col][col] == 1 && SameNull(m, m0, n, q)
    ensures !done ==> !IsPrime(q)
  {
    var inverse := ScalarInverse(m0[col][col], q);
    if inverse.None? {
      return m0, false;
    }
    var c := inverse.value;
    var scaled := ScaleRowFrom(m0[col], c, col, q);
    ScaledEntries(m0[col], c, col, q);
    ScaleKeepsNull(m0, col, c, m0[col][col], n, q);
    return m0[col := scaled], true;
  }

  method EliminateColumn(m0: Matrix, n: nat, col: nat, q: int) returns (m: Matrix, done: bool)
    requires q > 1 && Shaped(m0, n, q) && col < n && Eliminated(m0, n, col, q)
    ensures done ==> Shaped(m, n, q) && Eliminated(m, n, col + 1, q) && SameNull(m, m0, n, q)
    ensures !done ==> NoPivot(m0, n, col, q) || !IsPrime(q)
  {
    var pivot := FindPivot(m0, n, col, q);
    if pivot == n {
      return m0, false;
    }
    SwapKeepsNull(m0, pivot, col, n, q);
    var swapped := m0[pivot := m0[col]][col := m0[pivot]];
    var normalised;
    normalised, done := NormalisePivot(swapped, n, col, q);
    if !done {
      return m0, false;
    }
    SameNullTrans(normalised, swapped, m0, n, q);
    m := ClearColumn(normalised, n, col, q);
    SameNullTrans(m, normalised, m0, n, q);
  }

  // ----- the multiplication matrix -----

  /** Row r of [M | e]: M x = s e exactly when a x = s, coefficient by coefficient. */
  function AugmentedRow(a: ZPoly, r: nat, q: int): (row: seq<int>)
    requires q > 0 && r < |a|
    ensures |row| == |a| + 1
  {
    ModP(Wrapped(a, r, |a|), q) + [if r == 0 then 1 else 0]
  }

  function Augmented(a: ZPoly, q: int): (m: Matrix)
    requires q > 0
    ensures |m| == |a|
  {
    seq(|a|, r requires 0 <= r < |a| => AugmentedRow(a, r, q))
  }

  lemma {:induction false} AugmentedDot(a: ZPoly, r: nat, x: ZPoly, s: int, q: int)
    requires q > 0 && r < |a| == |x|
    ensures Dot(AugmentedRow(a, r, q), x + [-s]) % q == (Act(x, a)[r] - Const(s, |a|)[r]) % q
  {
    var n := |a|;
    var row, y := AugmentedRow(a, r, q), x + [-s];
    var w := Wrapped(a, r, n);
    assert row[..n] == ModP(w, q) && y[..n] == x;
    CongMod(w, q);
    DotCong(ModP(w, q), w, x, q);
    DotComm(w, x);
    ActCoefficient(x, a, r);
    ModAdd(Dot(ModP(w, q), x), Dot(w, x), row[n] * y[n], -Const(s, n)[r], q);
  }

  lemma {:induction false} AugmentedNull(a: ZPoly, x: ZPoly, s: int, q: int)
    requires q > 1 && |a| == |x|
    ensures NullVector(Augmented(a, q), x + [-s], q) <==> Cong(Act(x, a), Const(s, |a|), q)
  {
    var m, y := Augmented(a, q), x + [-s];
    forall r | 0 <= r < |a|
      ensures Dot(m[r], y) % q == 0 <==> Act(x, a)[r] % q == Const(s, |a|)[r] % q
    {
      AugmentedDot(a, r, x, s, q);
      DifferenceMod(Act(x, a)[r], Const(s, |a|)[r], q);
    }
    if NullVector(m, y, q) {
      forall r | 0 <= r < |a| ensures Act(x, a)[r] % q == Const(s, |a|)[r] % q {
        assert Dot(m[r], y) % q == 0;
      }
    }
  }

  lemma {:induction false} DotUnit(u: seq<int>, v: seq<int>, c: nat)
    requires |u| == |v| && c < |u| && u == seq(|u|, i => if i == c then 1 else 0)
    ensures Dot(u, v) == v[c]
  {
    var m := |u| - 1;
    if c == m {
      DotZero(u[..m], v[..m]);
    } else {
      DotUnit(u[..m], v[..m], c);
    }
  }

  lemma {:induction false} DotZero(u: seq<int>, v: seq<int>)
    requires |u| == |v| && forall i :: 0 <= i < |u| ==> u[i] == 0
    ensures Dot(u, v) == 0
  {
    if |u| > 0 {
      DotZero(u[..|u| - 1], v[..|v| - 1]);
    }
  }

  /** Column `col` of M is a x^col, the image of the basis vector. */
  lemma {:induction false} BasisImage(a: ZPoly, col: nat, r: nat)
    requires col < |a| && r < |a|
    ensures Act(a, seq(|a|, i => if i == col then 1 else 0))[r] == Wrapped(a, r, |a|)[col]
  {
    var basis: ZPoly := seq(|a|, i => if i == col then 1 else 0);
    MulComm(a, basis);
    ActCoefficient(basis, a, r);
    DotUnit(basis, Wrapped(a, r, |a|), col);
  }

  method BuildAugmented(a: ZPoly, q: int) returns (m: Matrix)
    requires q > 1 && |a| > 0 && Canonical(a, q)
    ensures m == Augmented(a, q) && Shaped(m, |a|, q)
  {
    var n := |a|;
    m := seq(n, r => seq(n + 1, c => 0));
    for col := 0 to n
      invariant |m| == n && forall r :: 0 <= r < n ==> |m[r]| == n + 1
      invariant forall r, c :: 0 <= r < n && 0 <= c < col ==> m[r][c] == Wrapped(a, r, n)[c] % q
      invariant forall r, c :: 0 <= r < n && col <= c <= n ==> m[r][c] == 0
    {
      var basis: ZPoly := seq(n, i => if i == col then 1 else 0);
      PadFull(a);
      PadFull(basis);
      var image := MulQ(a, basis, n, q);
      m := PutColumn(m, image.value, n, col);
      forall r | 0 <= r < n ensures m[r][col] == Wrapped(a, r, n)[col] % q {
        BasisImage(a, col, r);
      }
    }
    m := m[0 := m[0][n := 1]];
    forall r | 0 <= r < n ensures m[r] == Augmented(a, q)[r] && Canonical(m[r], q) {
      assert m[r] == AugmentedRow(a, r, q);
    }
  }

  method PutColumn(m0: Matrix, image: seq<int>, n: nat, col: nat) returns (m: Matrix)
    requires |m0| == |image| == n && col < n && forall r :: 0 <= r < n ==> |m0[r]| == n + 1
    ensures |m| == n && forall r :: 0 <= r < n ==> m[r] == m0[r][col := image[r]]
  {
    m := m0;
    for row := 0 to n
      invariant |m| == n
      invariant forall r :: 0 <= r < n ==> m[r] == if r < row then m0[r][col := image[r]] else m0[r]
    {
      m := m[row := m[row][col := image[row]]];
    }
  }

  // ----- the inverse -----

  ghost predicate IsInverse(a: ZPoly, x: ZPoly, q: int)
    requires q > 1
  {
    |a| == |x| && Cong(Act(a, x), Const(1, |a|), q)
  }

  ghost predicate IsUnit(a: ZPoly, q: int)
    requires q > 1
  {
    exists x: ZPoly :: IsInverse(a, x, q)
  }

  lemma {:induction false} UnitCancels(a: ZPoly, u: ZPoly, x: ZPoly, q: int)
    requires q > 1 && |x| == |a| > 0 && IsInverse(a, u, q) && Cong(Act(x, a), Const(0, |a|), q)
    ensures Cong(x, Const(0, |a|), q)
  {
    var n := |a|;
    CongAct(Act(x, a), Const(0, n), u, u, q);
    MulConst(u, 0);
    MulAssoc(x, a, u);
    CongAct(x, x, Act(a, u), Const(1, n), q);
    MulConst(x, 1);
    assert Scale(0, u) == Const(0, n);
    assert Scale(1, x) == x;
  }

  /** A zero divisor is not a unit. */
  lemma {:induction false} ZeroDivisorNotUnit(a: ZPoly, x: ZPoly, i: nat, q: int)
    requires q > 1 && i < |x| == |a| && x[i] % q != 0
    requires Cong(Act(x, a), Const(0, |a|), q)
    ensures !IsUnit(a, q)
  {
    forall u: ZPoly ensures !IsInverse(a, u, q) {
      if IsInverse(a, u, q) {
        UnitCancels(a, u, x, q);
        assert false;
      }
    }
  }

  /** The vector read off a column without a pivot. */
  function KernelVector(m: Matrix, n: nat, col: nat): (y: seq<int>)
    requires |m| == n && col < n && forall r :: 0 <= r < n ==> |m[r]| == n + 1
    ensures |y| == n + 1
  {
    seq(n + 1, j requires 0 <= j < n + 1 => if j < col then -m[j][col] else if j == col then 1 else 0)
  }

  lemma {:induction false} KernelDot(row: seq<int>, y: seq<int>, col: nat, r: int)
    requires |row| == |y| && col < |row| && y[col] == 1
    requires forall j :: col < j < |y| ==> y[j] == 0
    requires forall j :: 0 <= j < col ==> row[j] == if j == r then 1 else 0
    ensures Dot(row, y) == (if 0 <= r < col then y[r] else 0) + row[col]
  {
    var m := |row| - 1;
    if m > col {
      KernelDot(row[..m], y[..m], col, r);
    } else {
      IdentityDot(row[..m], y[..m], r);
    }
  }

  lemma {:induction false} IdentityDot(row: seq<int>, y: seq<int>, r: int)
    requires |row| == |y|
    requires forall j :: 0 <= j < |row| ==> row[j] == if j == r then 1 else 0
    ensures Dot(row, y) == if 0 <= r < |row| then y[r] else 0
  {
    if |row| > 0 {
      IdentityDot(row[..|row| - 1], y[..|y| - 1], r);
    }
  }

  lemma {:induction false} MissingPivotNull(m: Matrix, n: nat, col: nat, q: int)
    requires q > 1 && Shaped(m, n, q) && col < n && Eliminated(m, n, col, q) && NoPivot(m, n, col, q)
    ensures NullVector(m, KernelVector(m, n, col), q)
  {
    var y := KernelVector(m, n, col);
    forall r | 0 <= r < n ensures Dot(m[r], y) % q == 0 {
      KernelDot(m[r], y, col, r);
    }
  }

  lemma {:induction false} MissingPivotNotUnit(a: ZPoly, m: Matrix, col: nat, q: int)
    requires q > 1 && Shaped(Augmented(a, q), |a|, q) && Shaped(m, |a|, q) && col < |a|
    requires SameNull(m, Augmented(a, q), |a|, q) && Eliminated(m, |a|, col, q) && NoPivot(m, |a|, col, q)
    ensures !IsUnit(a, q)
  {
    hide Eliminated, NoPivot, Augmented, NullVector, IsUnit, Cong, Act;
    var n := |a|;
    var y := KernelVector(m, n, col);
    MissingPivotNull(m, n, col, q);
    var x := y[..n];
    assert y == x + [-0];
    assert SameNull(m, Augmented(a, q), n, q) && |y| == n + 1;
    AugmentedNull(a, x, 0, q);
    OneMod(q);
    assert x[col] == 1;
    ZeroDivisorNotUnit(a, x, col, q);
  }

  lemma {:induction false} FinishedNull(m: Matrix, n: nat, x: ZPoly, q: int)
    requires q > 1 && Shaped(m, n, q) && |x| == n && Eliminated(m, n, n, q)
    requires forall r :: 0 <= r < n ==> x[r] == m[r][n]
    ensures NullVector(m, x + [-1], q)
  {
    var y := x + [-1];
    assert y[..n] == x;
    forall r | 0 <= r < n ensures Dot(m[r], y) % q == 0 {
      IdentityDot(m[r][..n], x, r);
    }
  }

  lemma {:induction false} FinishedIsInverse(a: ZPoly, m: Matrix, x: ZPoly, q: int)
    requires q > 1 && Shaped(Augmented(a, q), |a|, q) && Shaped(m, |a|, q) && |x| == |a|
    requires SameNull(m, Augmented(a, q), |a|, q) && Eliminated(m, |a|, |a|, q)
    requires forall r :: 0 <= r < |a| ==> x[r] == m[r][|a|]
    ensures IsInverse(a, x, q)
  {
    FinishedNull(m, |a|, x, q);
    AugmentedNull(a, x, 1, q);
    MulComm(a, x);
  }

  method Eliminate(a: ZPoly, q: int) returns (m: Matrix, done: bool)
    requires q > 1 && |a| > 0 && Canonical(a, q)
    ensures done ==> Shaped(m, |a|, q) && forall x: ZPoly ::
        |x| == |a| && (forall r :: 0 <= r < |a| ==> x[r] == m[r][|a|]) ==> IsInverse(a, x, q)
    ensures !done ==> !IsUnit(a, q) || !IsPrime(q)
  {
    var n := |a|;
    m := BuildAugmented(a, q);
    ghost var start := m;
    for col := 0 to n
      invariant Shaped(m, n, q) && Eliminated(m, n, col, q) && SameNull(m, start, n, q)
    {
      ghost var before := m;
      m, done := EliminateColumn(m, n, col, q);
      if !done {
        if NoPivot(before, n, col, q) {
          MissingPivotNotUnit(a, before, col, q);
        }
        return;
      }
      SameNullTrans(m, before, start, n, q);
    }
    forall x: ZPoly | |x| == n && forall r :: 0 <= r < n ==> x[r] == m[r][n]
      ensures IsInverse(a, x, q)
    {
      FinishedIsInverse(a, m, x, q);
    }
    done := true;
  }

  method LastColumn(m: Matrix, n: nat, q: int) returns (x: ZPoly)
    requires Shaped(m, n, q)
    ensures |x| == n && Canonical(x, q) && forall r :: 0 <= r < n ==> x[r] == m[r][n]
  {
    x := Zero(n);
    for i := 0 to n
      invariant |x| == n
      invariant forall k :: 0 <= k < i ==> x[k] == m[k][n]
    {
      x := x[i := m[i][n]];
    }
  }

  /** The final self-check: a x = 1. */
  method SelfCheck(a: ZPoly, x: ZPoly, degree: nat, q: int) returns (ok: bool)
    requires q > 1 && |a| == |x| == degree
    ensures ok <==> IsInverse(a, x, q)
  {
    PadFull(a);
    PadFull(x);
    var product := MulQ(a, x, degree, q);
    PadFull(product.value);
    PadFull(Const(1, degree));
    var equal := EqualQ(product.value, Const(1, degree), degree, q);
    ModTwice(Act(a, x), Const(1, degree), q);
    ok := equal.value;
  }

  /** RingArithmetic::inverse.  Whatever it returns is an inverse, so its self-check never throws; over a
      prime modulus it returns one exactly when the polynomial is a unit. */
  method Inverse(a: ZPoly, degree: nat, q: int) returns (r: Result<Option<ZPoly>>)
    requires degree > 0 && q > 2
    ensures r.Refused? <==> |a| > degree
    ensures r.Ok? && r.value.Some? ==> Canonical(r.value.value, q) && IsInverse(Pad(a, degree), r.value.value, q)
    ensures r.Ok? && IsPrime(q) ==> (r.value.Some? <==> IsUnit(Pad(a, degree), q))
  {
    var aa :- Canonicalize(a, degree, q);
    UnitMod(Pad(a, degree), q);
    CongMod(Pad(a, degree), q);
    var m, done := Eliminate(aa, q);
    if !done {
      return Ok(None);
    }
    var result := LastColumn(m, degree, q);
    var ok := SelfCheck(aa, result, degree, q);
    if !ok {
      assert false;
    }
    InverseMod(Pad(a, degree), result, q);
    return Ok(Some(result));
  }

  lemma {:induction false} ModTwice(a: ZPoly, b: ZPoly, q: int)
    requires q > 0
    ensures Cong(ModP(a, q), b, q) <==> Cong(a, b, q)
  {
    forall i | 0 <= i < |a| ensures ModP(a, q)[i] % q == a[i] % q {
      ModMod(a[i], q);
    }
  }

  lemma {:induction false} InverseMod(a: ZPoly, x: ZPoly, q: int)
    requires q > 1 && |a| == |x|
    ensures IsInverse(a, x, q) <==> IsInverse(ModP(a, q), x, q)
  {
    CongMod(a, q);
    CongAct(ModP(a, q), a, x, x, q);
  }

  lemma {:induction false} UnitMod(a: ZPoly, q: int)
    requires q > 1
    ensures IsUnit(a, q) <==> IsUnit(ModP(a, q), q)
  {
    if IsUnit(a, q) {
      var x: ZPoly :| IsInverse(a, x, q);
      InverseMod(a, x, q);
    }
    if IsUnit(ModP(a, q), q) {
      var x: ZPoly :| IsInverse(ModP(a, q), x, q);
      InverseMod(a, x, q);
    }
  }
}
