/** Integer residues: congruences modulo q and the bookkeeping step of Euclid's algorithm. */
module Residues {

  lemma {:induction false} ModShift(x: int, k: int, q: int)
    requires q > 0
    ensures (x + q * k) % q == x % q
  {
    var y := x + q * k;
    var t := y / q - x / q - k;
    assert q * t == x % q - y % q by {
      assert q * t == q * (y / q) - q * (x / q) - q * k;
    }
    assert t >= 1 ==> q * t >= q;
    assert t <= -1 ==> q * t <= -q;
  }

  lemma {:induction false} SmallMod(x: int, q: int)
    requires 0 <= x < q
    ensures x % q == x
  {
  }

  lemma {:induction false} ModDecompose(x: int, x': int, q: int)
    requires q > 0 && x % q == x' % q
    ensures x == x' + q * (x / q - x' / q)
  {
    assert q * (x / q - x' / q) == q * (x / q) - q * (x' / q);
  }

  lemma {:induction false} ModMod(x: int, q: int)
    requires q > 0
    ensures (x % q) % q == x % q
  {
    ModShift(x % q, x / q, q);
  }

  lemma {:induction false} ModAdd(x: int, x': int, y: int, y': int, q: int)
    requires q > 0 && x % q == x' % q && y % q == y' % q
    ensures (x + y) % q == (x' + y') % q
  {
    var i, j := x / q - x' / q, y / q - y' / q;
    ModDecompose(x, x', q);
    ModDecompose(y, y', q);
    assert q * (i + j) == q * i + q * j;
    ModShift(x' + y', i + j, q);
  }

  lemma {:induction false} ModMulLeft(x: int, x': int, y: int, q: int)
    requires q > 0 && x % q == x' % q
    ensures (x * y) % q == (x' * y) % q
  {
    var i := x / q - x' / q;
    ModDecompose(x, x', q);
    assert x * y == x' * y + q * (i * y) by {
      assert (x' + q * i) * y == x' * y + (q * i) * y;
    }
    ModShift(x' * y, i * y, q);
  }

  lemma {:induction false} ModMul(x: int, x': int, y: int, y': int, q: int)
    requires q > 0 && x % q == x' % q && y % q == y' % q
    ensures (x * y) % q == (x' * y') % q
  {
    ModMulLeft(x, x', y, q);
    ModMulLeft(y, y', x', q);
    assert x' * y == y * x' && x' * y' == y' * x';
  }

  lemma {:induction false} ZeroTimes(c: int, d: int, q: int)
    requires q > 0 && d % q == 0
    ensures (c * d) % q == 0
  {
    var k := d / q;
    assert c * d == q * (c * k) by { assert d == q * k; }
    MultipleMod(q, c * k);
  }

  lemma {:induction false} OneTimes(c: int, d: int, q: int)
    requires q > 1 && c % q == 1
    ensures (c * d) % q == d % q
  {
    var k := c / q;
    assert c * d == d + q * (k * d) by { assert c == 1 + q * k; }
    ModShift(d, k * d, q);
  }

  lemma {:induction false} DifferenceMod(x: int, y: int, q: int)
    requires q > 0
    ensures (x - y) % q == 0 <==> x % q == y % q
  {
    if (x - y) % q == 0 {
      ModAdd(x - y, 0, y, y, q);
    }
    if x % q == y % q {
      ModAdd(x, y, -y, -y, q);
    }
  }

  lemma {:induction false} MultipleMod(d: int, k: int)
    requires d > 0
    ensures (d * k) % d == 0
  {
    ModShift(0, k, d);
  }

  /** A number written over a pair of remainders can be written over the next pair. */
  lemma {:induction false} CombineBack(a: int, x: int, y: int, r: int, r': int, k: int)
    requires a == x * r + y * r'
    ensures a == (x * k + y) * r' + x * (r - k * r')
  {
    assert (x * k + y) * r' == x * (k * r') + y * r';
  }
}
