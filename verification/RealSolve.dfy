/** Gaussian elimination with partial pivoting over the exact reals (solve_real_system), and division in
    R[x]/(x^n + 1) by solving with the divisor's multiplication matrix. */
module RealSolve {
  import opened Outcomes
  import opened RealPoly
  import opened RealAdjoint

  type RMatrix = seq<seq<real>>

  ghost predicate Square(m: RMatrix, b: seq<real>, n: nat)
  {
    |m| == n && |b| == n && forall r :: 0 <= r < n ==> |m[r]| == n
  }

  ghost predicate RowSolves(row: seq<real>, b: real, x: seq<real>, s: real)
    requires |row| == |x|
  {
    Inner(row, x) == s * b
  }

  /** m x = s b. */
  ghost predicate Solves(m: RMatrix, b: seq<real>, x: seq<real>, s: real)
    requires Square(m, b, |x|)
  {
    forall r :: 0 <= r < |x| ==> RowSolves(m[r], b[r], x, s)
  }

  ghost predicate SameSolutions(m: RMatrix, b: seq<real>, m': RMatrix, b': seq<real>, n: nat)
    requires Square(m, b, n) && Square(m', b', n)
  {
    forall x: seq<real>, s: real :: |x| == n ==> (Solves(m, b, x, s) <==> Solves(m', b', x, s))
  }

  lemma {:induction false} SameTrans(m: RMatrix, b: seq<real>, m1: RMatrix, b1: seq<real>, m2: RMatrix, b2: seq<real>, n: nat)
    requires Square(m, b, n) && Square(m1, b1, n) && Square(m2, b2, n)
    requires SameSolutions(m, b, m1, b1, n) && SameSolutions(m1, b1, m2, b2, n)
    ensures SameSolutions(m, b, m2, b2, n)
  {
    forall x: seq<real>, s: real | |x| == n
      ensures Solves(m, b, x, s) <==> Solves(m2, b2, x, s)
    {
      assert Solves(m1, b1, x, s) || !Solves(m1, b1, x, s);
    }
  }

  // ----- row operations -----

  lemma {:induction false} SwapSame(m: RMatrix, b: seq<real>, i: nat, j: nat, n: nat)
    requires Square(m, b, n) && i < n && j < n
    ensures Square(m[i := m[j]][j := m[i]], b[i := b[j]][j := b[i]], n)
    ensures SameSolutions(m[i := m[j]][j := m[i]], b[i := b[j]][j := b[i]], m, b, n)
  {
    var m', b' := m[i := m[j]][j := m[i]], b[i := b[j]][j := b[i]];
    forall x: seq<real>, s: real | |x| == n
      ensures Solves(m', b', x, s) <==> Solves(m, b, x, s)
    {
      if Solves(m', b', x, s) {
        forall r | 0 <= r < n ensures RowSolves(m[r], b[r], x, s) {
          var r' := if r == i then j else if r == j then i else r;
          assert RowSolves(m'[r'], b'[r'], x, s);
        }
      }
    }
  }

  function Reduced(row: seq<real>, factor: real, pivotRow: seq<real>): (r: seq<real>)
    requires |row| == |pivotRow|
    ensures |r| == |row|
  {
    Add(row, Scale(-factor, pivotRow))
  }

  lemma {:induction false} ReducedInner(row: seq<real>, factor: real, pivotRow: seq<real>, x: seq<real>)
    requires |row| == |pivotRow| == |x|
    ensures Inner(Reduced(row, factor, pivotRow), x) == Inner(row, x) - factor * Inner(pivotRow, x)
  {
    InnerAdd(row, Scale(-factor, pivotRow), x);
    InnerScale(-factor, pivotRow, x);
  }

  lemma {:induction false} RowBalance(a: real, p: real, bi: real, bp: real, f: real, s: real)
    requires p == s * bp
    ensures a - f * p == s * (bi - f * bp) <==> a == s * bi
  {
    assert s * (bi - f * bp) == s * bi - f * (s * bp);
  }

  lemma {:induction false} ReducedRowSolves(row: seq<real>, b: real, pivotRow: seq<real>, bp: real, factor: real, x: seq<real>, s: real)
    requires |row| == |pivotRow| == |x| && RowSolves(pivotRow, bp, x, s)
    ensures RowSolves(Reduced(row, factor, pivotRow), b - factor * bp, x, s) <==> RowSolves(row, b, x, s)
  {
    ReducedInner(row, factor, pivotRow, x);
    RowBalance(Inner(row, x), Inner(pivotRow, x), b, bp, factor, s);
  }

  lemma {:induction false} ReducedSolves(m: RMatrix, b: seq<real>, m': RMatrix, b': seq<real>, i: nat, p: nat, factor: real, x: seq<real>, s: real)
    requires Square(m, b, |x|) && Square(m', b', |x|) && i < |x| && p < |x| && i != p
    requires m'[i] == Reduced(m[i], factor, m[p]) && b'[i] == b[i] - factor * b[p]
    requires forall r :: 0 <= r < |x| && r != i ==> m'[r] == m[r] && b'[r] == b[r]
    ensures Solves(m', b', x, s) <==> Solves(m, b, x, s)
  {
    if RowSolves(m[p], b[p], x, s) {
      ReducedRowSolves(m[i], b[i], m[p], b[p], factor, x, s);
    }
    assert RowSolves(m'[p], b'[p], x, s) <==> RowSolves(m[p], b[p], x, s);
    forall r | 0 <= r < |x| && RowSolves(m[p], b[p], x, s)
      ensures RowSolves(m'[r], b'[r], x, s) <==> RowSolves(m[r], b[r], x, s)
    {
    }
  }

  lemma {:induction false} ReduceSame(m: RMatrix, b: seq<real>, m': RMatrix, b': seq<real>, i: nat, p: nat, factor: real, n: nat)
    requires Square(m, b, n) && i < n && p < n && i != p
    requires m' == m[i := Reduced(m[i], factor, m[p])] && b' == b[i := b[i] - factor * b[p]]
    ensures Square(m', b', n) && SameSolutions(m', b', m, b, n)
  {
    forall x: seq<real>, s: real | |x| == n
      ensures Solves(m', b', x, s) <==> Solves(m, b, x, s)
    {
      ReducedSolves(m, b, m', b', i, p, factor, x, s);
    }
  }

  method ReduceRowFrom(row: seq<real>, factor: real, pivotRow: seq<real>, col: nat) returns (r: seq<real>)
    requires |row| == |pivotRow| && col <= |row|
    requires forall j :: 0 <= j < col ==> pivotRow[j] == 0.0
    ensures r == Reduced(row, factor, pivotRow)
  {
    r := row;
    for j := col to |row|
      invariant |r| == |row|
      invariant forall k :: 0 <= k < |row| ==>
        r[k] == if col <= k < j then row[k] - factor * pivotRow[k] else row[k]
    {
      r := r[j := r[j] - factor * pivotRow[j]];
    }
    forall k | 0 <= k < |row| ensures r[k] == Reduced(row, factor, pivotRow)[k] {
      assert -factor * pivotRow[k] == -(factor * pivotRow[k]);
    }
  }

  // ----- one column -----

  /** Columns before `col` hold nothing below the diagonal and a nonzero pivot on it. */
  ghost predicate Triangular(m: RMatrix, n: nat, col: nat)
    requires |m| == n && forall r :: 0 <= r < n ==> |m[r]| == n
  {
    && col <= n
    && (forall r, c :: 0 <= c < col && c < r < n ==> m[r][c] == 0.0)
    && (forall c :: 0 <= c < col ==> m[c][c] != 0.0)
  }

  function Abs(x: real): (r: real)
  {
    if x < 0.0 then -x else x
  }

  method FindPivot(m: RMatrix, n: nat, col: nat) returns (pivot: nat, best: real)
    requires |m| == n && col < n && forall r :: 0 <= r < n ==> |m[r]| == n
    ensures col <= pivot < n && best == Abs(m[pivot][col])
    ensures forall r :: col <= r < n ==> Abs(m[r][col]) <= best
  {
    pivot := col;
    best := Abs(m[col][col]);
    for row := col + 1 to n
      invariant col <= pivot < n && best == Abs(m[pivot][col])
      invariant forall r :: col <= r < row ==> Abs(m[r][col]) <= best
    {
      var candidate := Abs(m[row][col]);
      if candidate > best {
        best := candidate;
        pivot := row;
      }
    }
  }

  method ClearBelow(m0: RMatrix, b0: seq<real>, n: nat, col: nat) returns (m: RMatrix, b: seq<real>)
    requires Square(m0, b0, n) && col < n && Triangular(m0, n, col) && m0[col][col] != 0.0
    ensures Square(m, b, n) && Triangular(m, n, col + 1) && SameSolutions(m, b, m0, b0, n)
  {
    m, b := m0, b0;
    for row := col + 1 to n
      invariant Square(m, b, n) && Triangular(m, n, col) && SameSolutions(m, b, m0, b0, n)
      invariant m[col] == m0[col]
      invariant forall r :: col < r < row ==> m[r][col] == 0.0
    {
      var factor := m[row][col] / m[col][col];
      ReducedLead(m[row], factor, m[col], col);
      if factor != 0.0 {
        var reduced := ReduceRowFrom(m[row], factor, m[col], col);
        ghost var m1, b1 := m, b;
        m := m[row := reduced];
        b := b[row := b[row] - factor * b[col]];
        ReduceSame(m1, b1, m, b, row, col, factor, n);
        SameTrans(m, b, m1, b1, m0, b0, n);
      }
    }
  }

  lemma {:induction false} ReducedLead(row: seq<real>, factor: real, pivotRow: seq<real>, col: nat)
    requires |row| == |pivotRow| && col < |row| && pivotRow[col] != 0.0
    requires factor == row[col] / pivotRow[col]
    requires forall j :: 0 <= j < col ==> pivotRow[j] == 0.0
    ensures Reduced(row, factor, pivotRow)[col] == 0.0
    ensures factor == 0.0 ==> row[col] == 0.0
    ensures forall j :: 0 <= j < col ==> Reduced(row, factor, pivotRow)[j] == row[j]
  {
    assert factor * pivotRow[col] == row[col];
    assert -factor * pivotRow[col] == -row[col];
    forall j | 0 <= j < col ensures Reduced(row, factor, pivotRow)[j] == row[j] {
      assert -factor * pivotRow[j] == 0.0;
    }
  }

  // ----- back substitution -----

  lemma {:induction false} InnerUpdate(row: seq<real>, x: seq<real>, i: nat, c: real)
    requires i < |row| == |x|
    ensures Inner(row, x[i := c]) == Inner(row, x) + row[i] * (c - x[i])
  {
    var k := |row| - 1;
    if i == k {
      assert x[i := c][..k] == x[..k];
      assert row[k] * c == row[k] * x[k] + row[k] * (c - x[k]);
    } else {
      assert x[i := c][..k] == x[..k][i := c];
      InnerUpdate(row[..k], x[..k], i, c);
    }
  }

  /** Solving the first k rows of a triangular system for the first k unknowns. */
  lemma {:induction false} TriangularSolve(m: RMatrix, b: seq<real>, n: nat, k: nat, x0: seq<real>) returns (x: seq<real>)
    requires Square(m, b, n) && k <= n && Triangular(m, n, k) && |x0| == n
    ensures |x| == n
    ensures forall j :: k <= j < n ==> x[j] == x0[j]
    ensures forall r :: 0 <= r < k ==> Inner(m[r], x) == b[r]
    ensures forall r :: k <= r < n && (forall c :: 0 <= c < k ==> m[r][c] == 0.0) ==> Inner(m[r], x) == Inner(m[r], x0)
  {
    if k == 0 {
      x := x0;
    } else {
      var i := k - 1;
      var p := m[i][i];
      var c := x0[i] + (b[i] - Inner(m[i], x0)) / p;
      var x1 := x0[i := c];
      InnerUpdate(m[i], x0, i, c);
      assert p * (c - x0[i]) == b[i] - Inner(m[i], x0);
      x := TriangularSolve(m, b, n, i, x1);
      forall r | k <= r < n && forall c :: 0 <= c < k ==> m[r][c] == 0.0
        ensures Inner(m[r], x) == Inner(m[r], x0)
      {
        InnerUpdate(m[r], x0, i, c);
      }
    }
  }

  /** A column without a pivot exhibits a nonzero kernel vector. */
  lemma {:induction false} MissingPivotKernel(m: RMatrix, b: seq<real>, n: nat, col: nat) returns (x: seq<real>)
    requires Square(m, b, n) && col < n && Triangular(m, n, col)
    requires forall r :: col <= r < n ==> m[r][col] == 0.0
    ensures |x| == n && x[col] == 1.0 && Solves(m, b, x, 0.0)
  {
    var x0 := Zero(n)[col := 1.0];
    x := TriangularSolve(m, Zero(n), n, col, x0);
    forall r | 0 <= r < n ensures RowSolves(m[r], b[r], x, 0.0) {
      if r >= col {
        InnerZero(m[r]);
        InnerUpdate(m[r], Zero(n), col, 1.0);
      }
    }
  }

  method BackSubstitute(m: RMatrix, b: seq<real>, n: nat) returns (x: seq<real>)
    requires Square(m, b, n) && Triangular(m, n, n)
    ensures |x| == n && Solves(m, b, x, 1.0)
  {
    x := Zero(n);
    var i := n;
    while i > 0
      invariant 0 <= i <= n && |x| == n
      invariant forall j :: 0 <= j < i ==> x[j] == 0.0
      invariant forall r :: i <= r < n ==> Inner(m[r], x) == b[r]
    {
      i := i - 1;
      var value := BackRow(m[i], b[i], x, i);
      ghost var x0 := x;
      x := x[i := value];
      InnerUpdate(m[i], x0, i, value);
      forall r | i < r < n ensures Inner(m[r], x) == b[r] {
        InnerUpdate(m[r], x0, i, value);
      }
    }
  }

  method BackRow(row: seq<real>, b: real, x: seq<real>, i: nat) returns (value: real)
    requires i < |row| == |x| && row[i] != 0.0 && x[i] == 0.0
    requires forall j :: 0 <= j < i ==> row[j] == 0.0
    ensures Inner(row, x) + row[i] * (value - x[i]) == b
  {
    var sum := b;
    ZeroPrefix(row, x, i);
    for j := i + 1 to |row|
      invariant sum == b - Inner(row[..j], x[..j])
    {
      sum := sum - row[j] * x[j];
      assert row[..j + 1][..j] == row[..j] && x[..j + 1][..j] == x[..j];
    }
    assert row[..|row|] == row && x[..|x|] == x;
    value := sum / row[i];
    assert row[i] * value == sum;
  }

  lemma {:induction false} ZeroPrefix(row: seq<real>, x: seq<real>, i: nat)
    requires i < |row| == |x| && x[i] == 0.0
    requires forall j :: 0 <= j < i ==> row[j] == 0.0
    ensures Inner(row[..i + 1], x[..i + 1]) == 0.0
  {
    assert row[..i + 1][..i] == Zero(i);
    InnerZero(x[..i]);
    assert x[..i + 1][..i] == x[..i];
  }

  /** solve_real_system: a solution, or (the singular case) a nonzero kernel vector as the reason. */
  method Solve(m0: RMatrix, b0: seq<real>, n: nat) returns (r: Option<seq<real>>, ghost kernel: seq<real>)
    requires Square(m0, b0, n)
    ensures r.Some? ==> |r.value| == n && Solves(m0, b0, r.value, 1.0)
    ensures r.None? ==> |kernel| == n && kernel != Zero(n) && Solves(m0, b0, kernel, 0.0)
  {
    var m, b := m0, b0;
    for col := 0 to n
      invariant Square(m, b, n) && Triangular(m, n, col) && SameSolutions(m, b, m0, b0, n)
    {
      var pivot, best := FindPivot(m, n, col);
      if best == 0.0 {
        kernel := MissingPivotKernel(m, b, n, col);
        assert Zero(n)[col] == 0.0;
        return None, kernel;
      }
      SwapSame(m, b, pivot, col, n);
      ghost var m1, b1 := m[pivot := m[col]][col := m[pivot]], b[pivot := b[col]][col := b[pivot]];
      SameTrans(m1, b1, m, b, m0, b0, n);
      m, b := m[pivot := m[col]][col := m[pivot]], b[pivot := b[col]][col := b[pivot]];
      m, b := ClearBelow(m, b, n, col);
      SameTrans(m, b, m1, b1, m0, b0, n);
    }
    var x := BackSubstitute(m, b, n);
    return Some(x), [];
  }
}
