/** The Falcon tree and the quadratic form it stands for: a tree of multipliers and widths says how to write the form of a
    Gram matrix as a weighted sum of squares. */
module TreeForms {
  import opened RealPoly
  import opened RealAdjoint
  import opened RealSplit
  import opened RealForms

  datatype Tree = Leaf(sigma: real) | Node(value: RPoly, left: Tree, right: Tree)

  /** The tree has the shape sampling expects at a ring of this degree. */
  ghost predicate TreeAt(t: Tree, degree: nat)
  {
    match t
    case Leaf(_) => degree == 1
    case Node(value, left, right) =>
      degree >= 2 && |value| == degree && TreeAt(left, degree / 2) && TreeAt(right, degree / 2)
  }

  ghost predicate LeavesPositive(t: Tree)
  {
    match t
    case Leaf(sigma) => sigma > 0.0
    case Node(_, left, right) => LeavesPositive(left) && LeavesPositive(right)
  }

  /** What a square counts at a leaf of the given width. */
  function Weight(sigma: real, width: real): (r: real)
  {
    if width == 0.0 then 0.0 else (sigma / width) * (sigma / width)
  }

  /** The sum of squares that descending the tree gives: the left child gets u + v l, the right child v, each in halves. */
  ghost function TreeForm(t: Tree, sigma: real, u: RPoly, v: RPoly): (r: real)
    requires TreeAt(t, |u|) && |u| == |v|
  {
    match t
    case Leaf(width) => Weight(sigma, width) * (u[0] * u[0] + v[0] * v[0])
    case Node(l, left, right) =>
      var a := Add(u, Act(v, l));
      TreeForm(left, sigma, Even(a), Odd(a)) + TreeForm(right, sigma, Even(v), Odd(v))
  }

  /** The form of the matrix at (u*, v*) is what descending the tree with (u, v) gives. */
  ghost predicate FormAt(t: Tree, sigma: real, g: GramMatrix, u: RPoly, v: RPoly)
    requires TreeAt(t, |u|) && Shape(g, |u|) && |u| == |v|
  {
    Form(g, Adj(u), Adj(v)) == TreeForm(t, sigma, u, v)
  }

  /** The tree represents the matrix: from its multipliers and widths alone the whole form can be computed. */
  ghost predicate Represents(t: Tree, sigma: real, g: GramMatrix, n: nat)
  {
    && TreeAt(t, n) && Shape(g, n)
    && forall u: RPoly, v: RPoly :: |u| == |v| == n ==> FormAt(t, sigma, g, u, v)
  }

  ghost predicate DiagonalAt(t: Tree, sigma: real, d: RPoly, w: RPoly)
    requires TreeAt(t, |d| / 2) && |w| == |d|
  {
    Energy(d, Adj(w)) == TreeForm(t, sigma, Even(w), Odd(w))
  }

  /** The same of a child and the diagonal entry it was built from. */
  ghost predicate RepresentsDiagonal(t: Tree, sigma: real, d: RPoly)
  {
    && |d| % 2 == 0 && TreeAt(t, |d| / 2)
    && forall w: RPoly :: |w| == |d| ==> DiagonalAt(t, sigma, d, w)
  }

  // ----- a diagonal entry from its halves -----

  /** Adjoint and halves: x w* has the adjoints of the halves of w, exchanged. */
  lemma {:induction false} AdjMerge(w: RPoly)
    requires |w| % 2 == 0 && |w| > 0
    ensures TimesX(Adj(w)) == Merge(Adj(Odd(w)), Adj(Even(w)))
  {
    var n := |w|;
    var l, r := TimesX(Adj(w)), Merge(Adj(Odd(w)), Adj(Even(w)));
    forall i | 0 <= i < n ensures l[i] == r[i] {
      AdjMergeAt(w, i / 2, i);
    }
  }

  lemma {:induction false} AdjMergeAt(w: RPoly, j: nat, i: nat)
    requires |w| % 2 == 0 && 0 <= i < |w| && j == i / 2
    ensures TimesX(Adj(w))[i] == Merge(Adj(Odd(w)), Adj(Even(w)))[i]
  {
    var m := |w| / 2;
    if i % 2 == 0 {
      assert i == 2 * j;
      if j == 0 {
        assert TimesX(Adj(w))[0] == -Adj(w)[2 * m - 1] == w[1];
      } else {
        assert TimesX(Adj(w))[i] == Adj(w)[i - 1] == -w[2 * (m - j) + 1];
        assert Adj(Odd(w))[j] == -Odd(w)[m - j];
      }
    } else {
      assert i == 2 * j + 1;
      if j > 0 {
        assert TimesX(Adj(w))[i] == Adj(w)[2 * j] == -w[2 * (m - j)];
        assert Adj(Even(w))[j] == -Even(w)[m - j];
      }
    }
  }

  lemma {:induction false} EnergyShift(d: RPoly, y: RPoly)
    requires |d| == |y|
    ensures Energy(d, TimesX(y)) == Energy(d, y)
  {
    ActTimesX(d, y);
    InnerTimesX(y, TimesX(Act(d, y)));
    OverXTimesX(Act(d, y));
  }

  lemma {:induction false} HalfRepresents(t: Tree, sigma: real, d: RPoly)
    requires |d| % 2 == 0 && |d| > 0 && Adj(d) == d && Represents(t, sigma, HalfGram(d), |d| / 2)
    ensures RepresentsDiagonal(t, sigma, d)
  {
    hide Form, Energy, TreeForm;
    forall w: RPoly | |w| == |d| ensures DiagonalAt(t, sigma, d, w) {
      assert FormAt(t, sigma, HalfGram(d), Even(w), Odd(w));
      AdjMerge(w);
      EnergyShift(d, Adj(w));
      HalfForm(d, Adj(Even(w)), Adj(Odd(w)));
    }
  }

  lemma {:induction false} ConstantEnergy(d: RPoly, y: RPoly)
    requires |d| == |y| == 2 && d[1] == 0.0
    ensures Energy(d, y) == d[0] * (y[0] * y[0] + y[1] * y[1])
  {
    assert d == Scale(d[0], One(2));
    PolyScale(d[0], One(2), y);
    MulOne(y);
    MulComm(One(2), y);
    InnerScaleRight(y, d[0], y);
    assert y == [y[0]] + [y[1]] && [y[1]] == [y[1]] + [];
    InnerCons(y[0], [y[1]], y[0], [y[1]]);
    InnerCons(y[1], [], y[1], []);
  }

  lemma {:induction false} LeafRepresents(width: real, sigma: real, d: RPoly)
    requires |d| == 2 && d[1] == 0.0 && Weight(sigma, width) == d[0]
    ensures RepresentsDiagonal(Leaf(width), sigma, d)
  {
    hide Energy, Weight;
    forall w: RPoly | |w| == 2 ensures DiagonalAt(Leaf(width), sigma, d, w) {
      ConstantEnergy(d, Adj(w));
      assert Adj(w)[0] == w[0] == Even(w)[0] && Adj(w)[1] == -w[1] && Odd(w)[0] == w[1];
      assert Adj(w)[1] * Adj(w)[1] == w[1] * w[1];
    }
  }

  // ----- a matrix from its decomposition -----

  /** Completing the square, with the adjoints the tree works with. */
  lemma {:induction false} SquaresOf(g: GramMatrix, l: RPoly, u: RPoly, v: RPoly)
    requires Shape(g, |u|) && |u| == |v| == |l| && Adj(g.g00) == g.g00 && Act(l, g.g00) == g.g10
    ensures Form(g, Adj(u), Adj(v))
         == Energy(g.g00, Adj(Add(u, Act(v, l)))) + Energy(Sub(g.g11, Correction(l, g.g00)), Adj(v))
  {
    hide Form, Energy, Act, Correction, Adj, Add, Sub;
    CompleteSquare(g, l, Adj(u), Adj(v));
    AdjMul(l, v);
    MulComm(l, v);
    AdjAdd(u, Act(v, l));
  }

  lemma {:induction false} NodeForm(g: GramMatrix, l: RPoly, left: Tree, right: Tree, sigma: real, u: RPoly, v: RPoly)
    requires Shape(g, |u|) && |u| == |v| == |l| >= 2 && Adj(g.g00) == g.g00 && Act(l, g.g00) == g.g10
    requires RepresentsDiagonal(left, sigma, g.g00)
    requires RepresentsDiagonal(right, sigma, Sub(g.g11, Correction(l, g.g00)))
    ensures TreeAt(Node(l, left, right), |u|)
    ensures FormAt(Node(l, left, right), sigma, g, u, v)
  {
    hide Form, Energy, Act, Correction, Adj, Add, Sub, Even, Odd;
    SquaresOf(g, l, u, v);
    assert DiagonalAt(left, sigma, g.g00, Add(u, Act(v, l)));
    assert DiagonalAt(right, sigma, Sub(g.g11, Correction(l, g.g00)), v);
  }

  lemma {:induction false} NodeRepresents(g: GramMatrix, l: RPoly, left: Tree, right: Tree, sigma: real, n: nat)
    requires Shape(g, n) && |l| == n >= 2 && Adj(g.g00) == g.g00 && Act(l, g.g00) == g.g10
    requires RepresentsDiagonal(left, sigma, g.g00)
    requires RepresentsDiagonal(right, sigma, Sub(g.g11, Correction(l, g.g00)))
    ensures Represents(Node(l, left, right), sigma, g, n)
  {
    hide Act, Correction, Adj, FormAt, TreeAt, RepresentsDiagonal;
    var t := Node(l, left, right);
    NodeForm(g, l, left, right, sigma, Zero(n), Zero(n));
    forall u: RPoly, v: RPoly | |u| == |v| == n ensures FormAt(t, sigma, g, u, v) {
      NodeForm(g, l, left, right, sigma, u, v);
    }
  }
}
