/** A solution of the NTRU equation, seen over the reals: the basis it gives has a nonzero determinant. */
module TrapdoorBasis {
  import opened IntPoly
  import opened NtruSolve
  import R = RealPoly
  import A = RealAdjoint
  import RF = RealForms

  lemma {:induction false} RelationLifts(f: ZPoly, g: ZPoly, s: NtruSolution, q: int)
    requires NtruRelation(f, g, s, q)
    ensures RF.Basis(ToReal(f), ToReal(g), ToReal(s.capF), ToReal(s.capG), q as real)
  {
    var n := |f|;
    var a, b := Act(f, s.capG), Act(g, s.capF);
    LiftAct(f, s.capG);
    LiftAct(g, s.capF);
    SubIsAdd(a, b);
    LiftAdd(a, Scale(-1, b));
    LiftScale(-1, b);
    assert Const(q, n) == Scale(q, Const(1, n)) by {
      forall i | 0 <= i < n ensures Const(q, n)[i] == Scale(q, Const(1, n))[i] {}
    }
    LiftScale(q, Const(1, n));
    assert ToReal(Const(1, n)) == R.One(n);
  }

  lemma {:induction false} LiftDot(u: ZPoly, v: ZPoly)
    requires |u| == |v|
    ensures A.Inner(ToReal(u), ToReal(v)) == Dot(u, v) as real
  {
    if |u| > 0 {
      var m := |u| - 1;
      LiftDot(u[..m], v[..m]);
      assert ToReal(u)[..m] == ToReal(u[..m]) && ToReal(v)[..m] == ToReal(v[..m]);
      RealProduct(u[m], v[m]);
    }
  }

  // ----- multiples of (f, g) -----

  /** A row of inner products with the shifts of f and g, applied to a, is the inner product with a f and a g. */
  lemma {:induction false} RowIsInner(u: R.RPoly, v: R.RPoly, f: R.RPoly, g: R.RPoly, row: seq<real>, a: R.RPoly)
    requires |u| == |f| && |v| == |g| && |row| == |a|
    requires forall j :: 0 <= j < |a| ==> row[j] == A.Inner(u, R.TimesXPow(j, f)) + A.Inner(v, R.TimesXPow(j, g))
    ensures A.Inner(row, a) == A.Inner(u, R.Act(a, f)) + A.Inner(v, R.Act(a, g))
  {
    hide R.Act, R.TimesXPow, A.Inner;
    if a == [] {
      EmptyInner(u, f, row, a);
      EmptyInner(v, g, row, a);
    } else {
      var m, c := |a| - 1, a[|a| - 1];
      var x, y := A.Inner(u, R.TimesXPow(m, f)), A.Inner(v, R.TimesXPow(m, g));
      RowIsInner(u, v, f, g, row[..m], a[..m]);
      assert a == a[..m] + [c];
      SnocInner(u, a[..m], c, f);
      SnocInner(v, a[..m], c, g);
      LastInner(row, a);
      Distribute(c, x, y);
    }
  }

  lemma {:induction false} EmptyInner(u: R.RPoly, f: R.RPoly, row: seq<real>, a: R.RPoly)
    requires |u| == |f| && row == a == []
    ensures A.Inner(row, a) == 0.0 && A.Inner(u, R.Act(a, f)) == 0.0
  {
    A.InnerZero(u);
  }

  lemma {:induction false} LastInner(row: seq<real>, a: seq<real>)
    requires |row| == |a| > 0
    ensures A.Inner(row, a) == A.Inner(row[..|a| - 1], a[..|a| - 1]) + row[|a| - 1] * a[|a| - 1]
  {
  }

  lemma {:induction false} SnocInner(u: R.RPoly, a: R.RPoly, c: real, f: R.RPoly)
    requires |u| == |f|
    ensures A.Inner(u, R.Act(a + [c], f)) == A.Inner(u, R.Act(a, f)) + c * A.Inner(u, R.TimesXPow(|a|, f))
  {
    hide A.Inner, R.Act, R.TimesXPow;
    R.ActSnoc(a, c, f);
    A.InnerAddRight(u, R.Act(a, f), R.Scale(c, R.TimesXPow(|a|, f)));
    A.InnerScaleRight(u, c, R.TimesXPow(|a|, f));
  }

  lemma {:induction false} Distribute(c: real, x: real, y: real)
    ensures (x + y) * c == c * x + c * y
  {
  }

  /** Only zero multiplies both f and g to zero. */
  lemma {:induction false} NoCommonAnnihilator(f: R.RPoly, g: R.RPoly, capF: R.RPoly, capG: R.RPoly, c: real, a: R.RPoly)
    requires RF.Basis(f, g, capF, capG, c) && c != 0.0 && |a| == |f|
    requires R.Act(a, f) == R.Zero(|f|) && R.Act(a, g) == R.Zero(|f|)
    ensures a == R.Zero(|f|)
  {
    var n := |f|;
    var p, q := R.Act(f, capG), R.Act(g, capF);
    R.MulAssoc(a, f, capG);
    R.MulAssoc(a, g, capF);
    R.PolyZero(n, capG);
    R.PolyZero(n, capF);
    R.ActAdd(a, p, R.Scale(-1.0, q));
    R.ActScale(a, -1.0, q);
    R.ActScale(a, c, R.One(n));
    R.MulOne(a);
    ZeroCombination(n);
    RF.ScaleZero(c, a);
  }

  lemma {:induction false} ZeroCombination(n: nat)
    ensures R.Add(R.Zero(n), R.Scale(-1.0, R.Zero(n))) == R.Zero(n)
  {
  }

  /** A vector orthogonal, through a and the shifts, to every shift of (f, g) multiplies both to zero. */
  lemma {:induction false} OrthogonalIsZero(f: R.RPoly, g: R.RPoly, a: R.RPoly)
    requires |f| == |g| == |a|
    requires forall i :: 0 <= i < |a| ==>
      A.Inner(R.TimesXPow(i, f), R.Act(a, f)) + A.Inner(R.TimesXPow(i, g), R.Act(a, g)) == 0.0
    ensures R.Act(a, f) == R.Zero(|f|) && R.Act(a, g) == R.Zero(|f|)
  {
    var p, q := R.Act(a, f), R.Act(a, g);
    forall i | 0 <= i < |a| ensures R.Zero(|a|)[i] == A.Inner(p, R.TimesXPow(i, f)) + A.Inner(q, R.TimesXPow(i, g)) {
      A.InnerComm(p, R.TimesXPow(i, f));
      A.InnerComm(q, R.TimesXPow(i, g));
    }
    RowIsInner(p, q, f, g, R.Zero(|a|), a);
    A.InnerZero(a);
    A.InnerSelf(p);
    A.InnerSelf(q);
  }
}
