/** The Falcon tree of a trapdoor basis: the LDL decomposition of its Gram matrix, recursively on halves (Algorithms 8 and
    9 of the Falcon specification). */
module FalconTree {
  import opened Outcomes
  import opened RealPoly
  import opened RealAdjoint
  import opened RealSplit
  import opened RealForms
  import opened TreeForms
  import opened RealRing
  import I = IntegerRing

  // ----- LDL -----

  datatype Ldl = Ldl(l10: RPoly, d00: RPoly, d11: RPoly)

  /** G = L D L* with L = [[1, 0], [l10, 1]] and D = diag(d00, d11). */
  ghost predicate Decomposes(g: GramMatrix, r: Ldl, n: nat)
  {
    && Shape(g, n) && |r.l10| == |r.d00| == |r.d11| == n
    && g.g00 == r.d00
    && g.g10 == Act(r.l10, r.d00)
    && g.g11 == Add(Act(Act(r.l10, r.d00), Adj(r.l10)), r.d11)
    && (Adj(g.g10) == g.g01 && Adj(g.g00) == g.g00 ==> g.g01 == Act(r.d00, Adj(r.l10)))
  }

  lemma {:induction false} SubThenAdd(a: RPoly, b: RPoly)
    requires |a| == |b|
    ensures Add(b, Sub(a, b)) == a
  {
  }

  lemma {:induction false} LdlDecomposes(g: GramMatrix, l: RPoly, n: nat)
    requires Shape(g, n) && |l| == n && Act(g.g00, l) == g.g10
    ensures Decomposes(g, Ldl(l, g.g00, Sub(g.g11, Correction(l, g.g00))), n)
  {
    var d := g.g00;
    MulComm(d, l);
    MulAssoc(l, Adj(l), d);
    MulComm(Adj(l), d);
    MulAssoc(l, d, Adj(l));
    SubThenAdd(g.g11, Correction(l, d));
    AdjMul(l, d);
    MulComm(Adj(l), Adj(d));
  }

  method LdlStep(g: GramMatrix, n: nat) returns (r: Option<Ldl>)
    requires Shape(g, n) && n > 0
    ensures r.Some? ==> Decomposes(g, r.value, n) && r.value.d11 == Sub(g.g11, Correction(r.value.l10, g.g00))
    ensures PosDef2(g, n) ==> r.Some? && PosDef(r.value.d00) && PosDef(r.value.d11)
  {
    PadFullReal(g.g10);
    PadFullReal(g.g00);
    var quotient, kernel := Div(g.g10, g.g00, n);
    var l := quotient.value;
    if l.None? {
      if PosDef2(g, n) {
        DiagonalPositive(g, n);
        PosDefNoKernel(g.g00, kernel);
      }
      return None;
    }
    PadFullReal(l.value);
    var adj := HermitianAdjoint(l.value, n);
    PadFullReal(adj.value);
    var product := MulReal(l.value, adj.value, n);
    PadFullReal(product.value);
    var correction := MulReal(product.value, g.g00, n);
    LdlDecomposes(g, l.value, n);
    if PosDef2(g, n) {
      MulComm(g.g00, l.value);
      DiagonalPositive(g, n);
      SchurPositive(g, l.value, n);
    }
    return Some(Ldl(l.value, g.g00, Sub(g.g11, correction.value)));
  }

  // ----- the Gram matrix -----

  /** build_gram_matrix, of polynomials up to the degree. */
  method BuildGramMatrix(f: RPoly, g: RPoly, capF: RPoly, capG: RPoly, n: nat) returns (r: Result<GramMatrix>)
    requires n > 0
    ensures r == if |f| <= n && |g| <= n && |capF| <= n && |capG| <= n
                 then Ok(Gram(Pad(f, n), Pad(g, n), Pad(capF, n), Pad(capG, n))) else Refused
  {
    var fAdj :- HermitianAdjoint(f, n);
    var gAdj :- HermitianAdjoint(g, n);
    var capFAdj :- HermitianAdjoint(capF, n);
    var capGAdj :- HermitianAdjoint(capG, n);
    var g00 := SumOfProducts(g, gAdj, f, fAdj, n);
    var g01 := SumOfProducts(g, capGAdj, f, capFAdj, n);
    var g10 := SumOfProducts(capG, gAdj, capF, fAdj, n);
    var g11 := SumOfProducts(capG, capGAdj, capF, capFAdj, n);
    return Ok(GramMatrix(g00, g01, g10, g11));
  }

  method SumOfProducts(a: RPoly, b: RPoly, c: RPoly, d: RPoly, n: nat) returns (r: RPoly)
    requires |a| <= n && |c| <= n && |b| == |d| == n
    ensures r == Add(Act(Pad(a, n), b), Act(Pad(c, n), d))
  {
    PadFullReal(b);
    PadFullReal(d);
    var x := MulReal(a, b, n);
    var y := MulReal(c, d, n);
    return Add(x.value, y.value);
  }

  // ----- the tree -----

  const TOLERANCE := 0.0000000000000000000000000000000000000000000000000000000000000000000000000000000000000000000000000001

  predicate IsNegligible(x: real)
  {
    (if x < 0.0 then -x else x) < TOLERANCE
  }

  lemma {:induction false} InnerOne(d: RPoly)
    requires |d| > 0
    ensures Inner(One(|d|), d) == d[0]
  {
    var z := Zero(|d| - 1);
    assert One(|d|) == [1.0] + z && d == [d[0]] + d[1..];
    InnerCons(1.0, z, d[0], d[1..]);
    InnerZero(d[1..]);
  }

  lemma {:induction false} ConstantPositive(d: RPoly)
    requires PosDef(d) && |d| > 0
    ensures d[0] > 0.0
  {
    var n := |d|;
    assert One(n) != Zero(n) by { assert One(n)[0] != Zero(n)[0]; }
    assert Energy(d, One(n)) > 0.0;
    MulOne(d);
    InnerOne(d);
  }

  /** At degree two a self-adjoint polynomial is a constant, and a positive definite one a positive constant. */
  lemma {:induction false} DegreeTwoCollapse(d: RPoly)
    requires PosDef(d) && |d| == 2
    ensures d[1] == 0.0 && d[0] > 0.0
  {
    assert Adj(d)[1] == -d[1];
    ConstantPositive(d);
  }

  ghost predicate PositiveRoot(sqrt: real -> real)
  {
    forall x: real :: x > 0.0 ==> sqrt(x) > 0.0
  }

  /** A root that is exact, so that a width determines the diagonal entry it came from. */
  ghost predicate ExactRoot(sqrt: real -> real)
  {
    forall x: real :: x > 0.0 ==> sqrt(x) * sqrt(x) == x
  }

  lemma {:induction false} WidthWeighs(sigma: real, root: real, d: real)
    requires sigma != 0.0 && root > 0.0 && root * root == d
    ensures Weight(sigma, sigma / root) == d
  {
    var w := sigma / root;
    assert w * root == sigma;
    QuotientIs(sigma, w, root);
  }

  lemma {:induction false} QuotientIs(x: real, w: real, y: real)
    requires w != 0.0 && w * y == x
    ensures x / w == y
  {
  }

  method LeafNode(l10: RPoly, d00: RPoly, d11: RPoly, sigma: real, sqrt: real -> real) returns (r: Option<Tree>)
    requires |l10| == |d00| == |d11| == 2
    requires PositiveRoot(sqrt)
    ensures r.Some? <==> IsNegligible(d00[1]) && IsNegligible(d11[1]) && d00[0] > 0.0 && d11[0] > 0.0
    ensures r.Some? ==> TreeAt(r.value, 2) && r.value.Node? && r.value.value == l10
    ensures r.Some? && sigma > 0.0 ==> LeavesPositive(r.value)
    ensures PosDef(d00) && PosDef(d11) ==> r.Some?
    ensures r.Some? && ExactRoot(sqrt) && sigma != 0.0 && Adj(d00) == d00 && Adj(d11) == d11 ==>
      RepresentsDiagonal(r.value.left, sigma, d00) && RepresentsDiagonal(r.value.right, sigma, d11)
  {
    hide Energy, RepresentsDiagonal, Weight;
    if PosDef(d00) && PosDef(d11) {
      DegreeTwoCollapse(d00);
      DegreeTwoCollapse(d11);
    }
    if !IsNegligible(d00[1]) || !IsNegligible(d11[1]) {
      return None;
    }
    if !(d00[0] > 0.0) || !(d11[0] > 0.0) {
      return None;
    }
    var root00, root11 := sqrt(d00[0]), sqrt(d11[0]);
    if sigma > 0.0 {
      QuotientPositive(sigma, root00);
      QuotientPositive(sigma, root11);
    }
    if ExactRoot(sqrt) && sigma != 0.0 && Adj(d00) == d00 && Adj(d11) == d11 {
      WidthRepresents(d00, sigma, root00);
      WidthRepresents(d11, sigma, root11);
    }
    return Some(Node(l10, Leaf(sigma / root00), Leaf(sigma / root11)));
  }

  lemma {:induction false} QuotientPositive(x: real, y: real)
    requires x > 0.0 && y > 0.0
    ensures x / y > 0.0
  {
  }

  lemma {:induction false} WidthRepresents(d: RPoly, sigma: real, root: real)
    requires |d| == 2 && Adj(d) == d && sigma != 0.0 && root > 0.0 && root * root == d[0]
    ensures RepresentsDiagonal(Leaf(sigma / root), sigma, d)
  {
    assert Adj(d)[1] == -d[1];
    WidthWeighs(sigma, root, d[0]);
    LeafRepresents(sigma / root, sigma, d);
  }

  ghost predicate SelfAdjoint(g: GramMatrix)
  {
    Adj(g.g00) == g.g00 && Adj(g.g11) == g.g11
  }

  /** Both diagonal entries of a decomposed self-adjoint matrix are self-adjoint, and so are their halves. */
  lemma {:induction false} DecomposedShape(g: GramMatrix, r: Ldl, n: nat)
    requires Decomposes(g, r, n) && n % 2 == 0 && r.d11 == Sub(g.g11, Correction(r.l10, g.g00))
    ensures |r.l10| == |r.d00| == |r.d11| == n && Shape(HalfGram(r.d00), n / 2) && Shape(HalfGram(r.d11), n / 2)
    ensures SelfAdjoint(g) ==>
      Adj(r.d00) == r.d00 && Adj(r.d11) == r.d11 && SelfAdjoint(HalfGram(r.d00)) && SelfAdjoint(HalfGram(r.d11))
  {
    if SelfAdjoint(g) {
      CorrectionSelfAdjoint(r.l10, g.g00);
      SubSelfAdjoint(g.g11, Correction(r.l10, g.g00));
      SelfAdjointHalves(r.d00);
      SelfAdjointHalves(r.d11);
    }
  }

  lemma {:induction false} DecompositionRepresents(g: GramMatrix, r: Ldl, left: Tree, right: Tree, sigma: real, n: nat)
    requires Decomposes(g, r, n) && n >= 2 && SelfAdjoint(g) && r.d11 == Sub(g.g11, Correction(r.l10, g.g00))
    requires RepresentsDiagonal(left, sigma, r.d00) && RepresentsDiagonal(right, sigma, r.d11)
    ensures Represents(Node(r.l10, left, right), sigma, g, n)
  {
    hide RepresentsDiagonal, Represents, Correction;
    NodeRepresents(g, r.l10, left, right, sigma, n);
  }

  /** build_falcon_tree_recursive; `None` stands for any of its throws.  A tree it returns represents the matrix. */
  method BuildRecursive(g: GramMatrix, degree: nat, sigma: real, sqrt: real -> real) returns (r: Option<Tree>)
    requires Shape(g, degree) && degree >= 2 && I.IsPowerOfTwo(degree)
    requires PositiveRoot(sqrt)
    ensures r.Some? ==> TreeAt(r.value, degree)
    ensures r.Some? && sigma > 0.0 ==> LeavesPositive(r.value)
    ensures PosDef2(g, degree) ==> r.Some?
    ensures r.Some? && ExactRoot(sqrt) && sigma != 0.0 && SelfAdjoint(g) ==> Represents(r.value, sigma, g, degree)
    decreases degree
  {
    hide PosDef, PosDef2, RepresentsDiagonal, Represents, SelfAdjoint, ExactRoot, Correction, Decomposes, HalfGram, Shape, Act, Adj, Add, Sub;
    I.PowerOfTwoIsEven(degree);
    var decomposed := LdlStep(g, degree);
    if decomposed.None? {
      return None;
    }
    var l10, d00, d11 := decomposed.value.l10, decomposed.value.d00, decomposed.value.d11;
    DecomposedShape(g, decomposed.value, degree);
    if degree == 2 {
      r := LeafNode(l10, d00, d11, sigma, sqrt);
      if r.Some? && ExactRoot(sqrt) && sigma != 0.0 && SelfAdjoint(g) {
        DecompositionRepresents(g, decomposed.value, r.value.left, r.value.right, sigma, degree);
      }
      return;
    }
    if PosDef2(g, degree) {
      SplitPositive(d00);
      SplitPositive(d11);
    }
    var g0 := SplitGram(d00);
    var g1 := SplitGram(d11);
    var left := BuildRecursive(g0, degree / 2, sigma, sqrt);
    if left.None? {
      return None;
    }
    var right := BuildRecursive(g1, degree / 2, sigma, sqrt);
    if right.None? {
      return None;
    }
    if ExactRoot(sqrt) && sigma != 0.0 && SelfAdjoint(g) {
      HalfRepresents(left.value, sigma, d00);
      HalfRepresents(right.value, sigma, d11);
      DecompositionRepresents(g, decomposed.value, left.value, right.value, sigma, degree);
    }
    return Some(Node(l10, left.value, right.value));
  }

  method SplitGram(d: RPoly) returns (g: GramMatrix)
    requires |d| >= 2 && |d| % 2 == 0
    ensures g == HalfGram(d)
  {
    var even, odd := SplitPoly(d);
    PadFullReal(odd);
    var adj := HermitianAdjoint(odd, |odd|);
    return GramMatrix(even, odd, adj.value, even);
  }

  method BuildFalconTree(g: GramMatrix, degree: nat, sigma: real, sqrt: real -> real) returns (r: Result<Option<Tree>>)
    requires Shape(g, degree)
    requires PositiveRoot(sqrt)
    ensures r.Refused? <==> degree < 2 || !I.IsPowerOfTwo(degree)
    ensures r.Ok? && r.value.Some? ==> TreeAt(r.value.value, degree)
    ensures r.Ok? && r.value.Some? && sigma > 0.0 ==> LeavesPositive(r.value.value)
    ensures r.Ok? && PosDef2(g, degree) ==> r.value.Some?
    ensures r.Ok? && r.value.Some? && ExactRoot(sqrt) && sigma != 0.0 && SelfAdjoint(g) ==>
      Represents(r.value.value, sigma, g, degree)
  {
    if degree < 2 || !I.IsPowerOfTwo(degree) {
      return Refused;
    }
    var t := BuildRecursive(g, degree, sigma, sqrt);
    return Ok(t);
  }
}
