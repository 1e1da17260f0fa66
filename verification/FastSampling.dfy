/** Fast Fourier sampling over a Falcon tree (Algorithm 11 of the Falcon specification), and what it computes: the nearest
    plane law, which accounts for the whole error by the errors of the single draws. */
module FastSampling {
  import opened Outcomes
  import opened RealPoly
  import opened RealAdjoint
  import opened RealSplit
  import opened RealForms
  import opened RealRing
  import opened TreeForms
  import I = IntegerRing

  /** The k-th draw of the integer sampler, at a given width and centre. */
  type Sampler = (nat, real, real) -> int

  datatype Draw = Draw(width: real, centre: real, value: int)

  /** The sampled pair, and the draws that went into it in the order they were made. */
  datatype Sample = Sample(z0: RPoly, z1: RPoly, draws: seq<Draw>)

  function DrawAt(draw: Sampler, k: nat, width: real, centre: real): (d: Draw)
  {
    Draw(width, centre, draw(k, width, centre))
  }

  /** sample_child. */
  function SampleChild(t0: RPoly, t1: RPoly, child: Tree, degree: nat, draw: Sampler, k: nat): (r: Option<Sample>)
    decreases child, 1
  {
    match child
    case Leaf(sigma) =>
      if degree != 1 || |t0| != 1 || |t1| != 1 then None
      else
        var d0, d1 := DrawAt(draw, k, sigma, t0[0]), DrawAt(draw, k + 1, sigma, t1[0]);
        Some(Sample([d0.value as real], [d1.value as real], [d0, d1]))
    case Node(_, _, _) =>
      if degree == 1 then None else FfSampling(t0, t1, child, degree, draw, k)
  }

  /** The target of the second recursion, corrected by what the first one sampled: t0 + (t1 - z1) l. */
  function Recentred(t0: RPoly, t1: RPoly, z1: RPoly, l: RPoly, n: nat): (r: RPoly)
    requires |t0| <= n && |t1| <= n && |z1| <= n && |l| <= n
    ensures |r| == n
  {
    Add(Pad(t0, n), Act(Sub(Pad(t1, n), Pad(z1, n)), Pad(l, n)))
  }

  /** ff_sampling; `None` stands for any of its throws. */
  function FfSampling(t0: RPoly, t1: RPoly, node: Tree, degree: nat, draw: Sampler, k: nat): (r: Option<Sample>)
    requires node.Node?
    decreases node, 0
  {
    if degree < 2 || |t1| == 0 || |t1| % 2 != 0 then None
    else
      var inner1 := SampleChild(Even(t1), Odd(t1), node.right, degree / 2, draw, k);
      if inner1.None? || |inner1.value.z0| != |inner1.value.z1| then None
      else
        var z1 := Merge(inner1.value.z0, inner1.value.z1);
        if |t0| > degree || |t1| > degree || |z1| > degree || |node.value| > degree then None
        else
          var t0' := Recentred(t0, t1, z1, node.value, degree);
          if |t0'| % 2 != 0 then None
          else
            var inner0 := SampleChild(Even(t0'), Odd(t0'), node.left, degree / 2, draw, k + |inner1.value.draws|);
            if inner0.None? || |inner0.value.z0| != |inner0.value.z1| then None
            else Some(Sample(Merge(inner0.value.z0, inner0.value.z1), z1, inner1.value.draws + inner0.value.draws))
  }

  // ----- sampling does not fail -----

  predicate Integral(z: RPoly)
  {
    forall i :: 0 <= i < |z| ==> z[i] == z[i].Floor as real
  }

  /** Every draw is the sampler's answer, at its own place in the order, to the width and centre on record. */
  ghost predicate DrawnInOrder(draws: seq<Draw>, draw: Sampler, k: nat)
  {
    forall i :: 0 <= i < |draws| ==> draws[i] == DrawAt(draw, k + i, draws[i].width, draws[i].centre)
  }

  ghost predicate GoodSample(r: Option<Sample>, degree: nat, draw: Sampler, k: nat)
  {
    && r.Some? && |r.value.z0| == |r.value.z1| == degree
    && Integral(r.value.z0) && Integral(r.value.z1)
    && |r.value.draws| == 2 * degree && DrawnInOrder(r.value.draws, draw, k)
  }

  /** The tree goes with the degree: leaves where halving ends, and no multiplier too long for its ring. */
  ghost predicate FitsDegree(t: Tree, degree: nat)
  {
    match t
    case Leaf(_) => degree == 1
    case Node(value, left, right) =>
      degree >= 2 && |value| <= degree && FitsDegree(left, degree / 2) && FitsDegree(right, degree / 2)
  }

  lemma {:induction false} ShapeFits(t: Tree, degree: nat)
    requires TreeAt(t, degree)
    ensures FitsDegree(t, degree)
  {
    if t.Node? {
      ShapeFits(t.left, degree / 2);
      ShapeFits(t.right, degree / 2);
    }
  }

  lemma {:induction false} MergeIntegral(z0: RPoly, z1: RPoly)
    requires |z0| == |z1| && Integral(z0) && Integral(z1)
    ensures Integral(Merge(z0, z1))
  {
  }

  lemma {:induction false} DrawnConcat(a: seq<Draw>, b: seq<Draw>, draw: Sampler, k: nat)
    requires DrawnInOrder(a, draw, k) && DrawnInOrder(b, draw, k + |a|)
    ensures DrawnInOrder(a + b, draw, k)
  {
    forall i | 0 <= i < |a + b| ensures (a + b)[i] == DrawAt(draw, k + i, (a + b)[i].width, (a + b)[i].centre) {
      if i >= |a| {
        assert b[i - |a|] == DrawAt(draw, k + |a| + (i - |a|), b[i - |a|].width, b[i - |a|].centre);
      }
    }
  }

  lemma {:induction false} ChildSamples(t0: RPoly, t1: RPoly, child: Tree, degree: nat, draw: Sampler, k: nat)
    requires I.IsPowerOfTwo(degree) && |t0| == |t1| == degree
    ensures SampleChild(t0, t1, child, degree, draw, k).Some? <==> FitsDegree(child, degree)
    ensures FitsDegree(child, degree) ==> GoodSample(SampleChild(t0, t1, child, degree, draw, k), degree, draw, k)
    decreases child, 1
  {
    if child.Node? && degree > 1 {
      SamplingExactly(t0, t1, child, degree, draw, k);
    }
  }

  /** Sampling meets a mismatch exactly over a tree that does not go with the degree; otherwise every coefficient it returns
      is an integer, and it draws twice the degree. */
  lemma {:induction false} SamplingExactly(t0: RPoly, t1: RPoly, node: Tree, degree: nat, draw: Sampler, k: nat)
    requires node.Node? && I.IsPowerOfTwo(degree) && degree >= 2 && |t0| == |t1| == degree
    ensures FfSampling(t0, t1, node, degree, draw, k).Some? <==> FitsDegree(node, degree)
    ensures FitsDegree(node, degree) ==> GoodSample(FfSampling(t0, t1, node, degree, draw, k), degree, draw, k)
    decreases node, 0
  {
    hide Integral, DrawnInOrder, Merge, Even, Odd, Recentred;
    I.PowerOfTwoIsEven(degree);
    ChildSamples(Even(t1), Odd(t1), node.right, degree / 2, draw, k);
    var first := SampleChild(Even(t1), Odd(t1), node.right, degree / 2, draw, k);
    if first.Some? && |node.value| <= degree {
      var inner1 := first.value;
      var z1 := Merge(inner1.z0, inner1.z1);
      var t0' := Recentred(t0, t1, z1, node.value, degree);
      var next := k + |inner1.draws|;
      ChildSamples(Even(t0'), Odd(t0'), node.left, degree / 2, draw, next);
      var second := SampleChild(Even(t0'), Odd(t0'), node.left, degree / 2, draw, next);
      if second.Some? {
        MergeIntegral(inner1.z0, inner1.z1);
        MergeIntegral(second.value.z0, second.value.z1);
        DrawnConcat(inner1.draws, second.value.draws, draw, k);
      }
    }
  }

  /** In particular it never meets one over a tree that was built for the degree. */
  lemma {:induction false} SamplingNeverFails(t0: RPoly, t1: RPoly, node: Tree, degree: nat, draw: Sampler, k: nat)
    requires node.Node? && TreeAt(node, degree) && I.IsPowerOfTwo(degree) && |t0| == |t1| == degree
    ensures GoodSample(FfSampling(t0, t1, node, degree, draw, k), degree, draw, k)
  {
    hide FfSampling, GoodSample;
    ShapeFits(node, degree);
    SamplingExactly(t0, t1, node, degree, draw, k);
  }

  // ----- what it computes -----

  /** What a draw misses its centre by, squared and weighted by its width. */
  function DrawCost(d: Draw, sigma: real): (r: real)
  {
    Weight(sigma, d.width) * ((d.centre - d.value as real) * (d.centre - d.value as real))
  }

  function Cost(draws: seq<Draw>, sigma: real): (r: real)
  {
    if draws == [] then 0.0 else DrawCost(draws[0], sigma) + Cost(draws[1..], sigma)
  }

  lemma {:induction false} CostConcat(a: seq<Draw>, b: seq<Draw>, sigma: real)
    ensures Cost(a + b, sigma) == Cost(a, sigma) + Cost(b, sigma)
  {
    hide DrawCost;
    if a == [] {
      assert a + b == b;
    } else {
      assert (a + b)[1..] == a[1..] + b;
      CostConcat(a[1..], b, sigma);
    }
  }

  /** The halves of what is missed are what the halves miss. */
  lemma {:induction false} SplitDifference(t: RPoly, c: RPoly, d: RPoly)
    requires |c| == |d| && |t| == 2 * |c|
    ensures Even(Sub(t, Merge(c, d))) == Sub(Even(t), c) && Odd(Sub(t, Merge(c, d))) == Sub(Odd(t), d)
  {
    var e, o := Even(t), Odd(t);
    MergeSplit(t);
    MergeScale(-1.0, c, d);
    MergeAdd(e, o, Scale(-1.0, c), Scale(-1.0, d));
    SplitMerge(Sub(e, c), Sub(o, d));
  }

  lemma {:induction false} RecentredDifference(t0: RPoly, t1: RPoly, z0: RPoly, z1: RPoly, l: RPoly, n: nat)
    requires |t0| == |t1| == |z0| == |z1| == |l| == n
    ensures Sub(Recentred(t0, t1, z1, l, n), z0) == Add(Sub(t0, z0), Act(Sub(t1, z1), l))
  {
    PadFullReal(t0);
    PadFullReal(t1);
    PadFullReal(z1);
    PadFullReal(l);
  }

  lemma {:induction false} LeafCost(t0: RPoly, t1: RPoly, child: Tree, draw: Sampler, k: nat, sigma: real)
    requires child.Leaf? && |t0| == |t1| == 1
    ensures
      var r := SampleChild(t0, t1, child, 1, draw, k).value;
      |r.z0| == |r.z1| == 1 && Cost(r.draws, sigma) == TreeForm(child, sigma, Sub(t0, r.z0), Sub(t1, r.z1))
  {
    var r := SampleChild(t0, t1, child, 1, draw, k).value;
    assert r.draws[1..] == [r.draws[1]] && [r.draws[1]][1..] == [];
    assert Cost([r.draws[1]], sigma) == DrawCost(r.draws[1], sigma) + Cost([], sigma);
    assert Cost(r.draws, sigma) == DrawCost(r.draws[0], sigma) + DrawCost(r.draws[1], sigma);
    var x, y := Sub(t0, r.z0)[0], Sub(t1, r.z1)[0];
    assert x == t0[0] - r.z0[0] && y == t1[0] - r.z1[0];
    Distribute(Weight(sigma, child.sigma), x * x, y * y);
  }

  lemma {:induction false} Distribute(w: real, a: real, b: real)
    ensures w * (a + b) == w * a + w * b
  {
  }

  lemma {:induction false} ChildNearestPlane(
    t0: RPoly, t1: RPoly, child: Tree, degree: nat, draw: Sampler, k: nat, sigma: real)
    requires TreeAt(child, degree) && I.IsPowerOfTwo(degree) && |t0| == |t1| == degree
    ensures GoodSample(SampleChild(t0, t1, child, degree, draw, k), degree, draw, k)
    ensures
      var r := SampleChild(t0, t1, child, degree, draw, k).value;
      Cost(r.draws, sigma) == TreeForm(child, sigma, Sub(t0, r.z0), Sub(t1, r.z1))
    decreases child, 1
  {
    hide TreeForm, Cost, GoodSample;
    ShapeFits(child, degree);
    ChildSamples(t0, t1, child, degree, draw, k);
    if child.Node? {
      NearestPlane(t0, t1, child, degree, draw, k, sigma);
    } else {
      LeafCost(t0, t1, child, draw, k, sigma);
    }
  }

  /** What sampling misses its target by, in the form of the tree, is what its draws missed their centres by. */
  lemma {:induction false} NearestPlane(t0: RPoly, t1: RPoly, node: Tree, degree: nat, draw: Sampler, k: nat, sigma: real)
    requires node.Node? && TreeAt(node, degree) && I.IsPowerOfTwo(degree) && |t0| == |t1| == degree
    ensures GoodSample(FfSampling(t0, t1, node, degree, draw, k), degree, draw, k)
    ensures
      var r := FfSampling(t0, t1, node, degree, draw, k).value;
      Cost(r.draws, sigma) == TreeForm(node, sigma, Sub(t0, r.z0), Sub(t1, r.z1))
    decreases node, 0
  {
    hide Integral, DrawnInOrder, Merge, Even, Odd, Recentred, Cost, Sub, Add, Act;
    I.PowerOfTwoIsEven(degree);
    SamplingNeverFails(t0, t1, node, degree, draw, k);
    ChildNearestPlane(Even(t1), Odd(t1), node.right, degree / 2, draw, k, sigma);
    var inner1 := SampleChild(Even(t1), Odd(t1), node.right, degree / 2, draw, k).value;
    var z1 := Merge(inner1.z0, inner1.z1);
    var t0' := Recentred(t0, t1, z1, node.value, degree);
    var next := k + |inner1.draws|;
    ChildNearestPlane(Even(t0'), Odd(t0'), node.left, degree / 2, draw, next, sigma);
    var inner0 := SampleChild(Even(t0'), Odd(t0'), node.left, degree / 2, draw, next).value;
    var z0 := Merge(inner0.z0, inner0.z1);
    CostConcat(inner1.draws, inner0.draws, sigma);
    SplitDifference(t1, inner1.z0, inner1.z1);
    SplitDifference(t0', inner0.z0, inner0.z1);
    RecentredDifference(t0, t1, z0, z1, node.value, degree);
  }

  /** The nearest plane law: over a tree that represents a Gram matrix, the form of the error is exactly the sum, over all
      draws, of the squared distance of the drawn value from its centre, weighted by the width of the draw. */
  lemma {:induction false} NearestPlaneLaw(
    g: GramMatrix, t0: RPoly, t1: RPoly, node: Tree, degree: nat, draw: Sampler, k: nat, sigma: real)
    requires node.Node? && Represents(node, sigma, g, degree) && I.IsPowerOfTwo(degree) && |t0| == |t1| == degree
    ensures GoodSample(FfSampling(t0, t1, node, degree, draw, k), degree, draw, k)
    ensures
      var r := FfSampling(t0, t1, node, degree, draw, k).value;
      Form(g, Adj(Sub(t0, r.z0)), Adj(Sub(t1, r.z1))) == Cost(r.draws, sigma)
  {
    hide FfSampling, Form, Cost, TreeForm, Integral, DrawnInOrder;
    NearestPlane(t0, t1, node, degree, draw, k, sigma);
    var r := FfSampling(t0, t1, node, degree, draw, k).value;
    assert FormAt(node, sigma, g, Sub(t0, r.z0), Sub(t1, r.z1));
  }
}
