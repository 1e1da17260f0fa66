/** The production modulus is prime, which is what the modular inverse and everything above it ask of it. */
module Modulus7933 {
  import opened ModInverse
  import R = Residues

  const MODULUS := 7933

  /** Trial division up to the square root. */
  lemma {:induction false} NoSmallDivisor(d: int)
    requires 2 <= d <= 89
    ensures MODULUS % d != 0
  {
  }

  lemma {:induction false} CofactorIsSmall(d: int, e: int)
    requires 89 < d < MODULUS && 0 <= MODULUS - d * e < d
    ensures 1 <= e <= 88
  {
  }

  /** A divisor above the square root has a cofactor below it. */
  lemma {:induction false} NoLargeDivisor(d: int)
    requires 89 < d < MODULUS
    ensures MODULUS % d != 0
  {
    var e := MODULUS / d;
    assert MODULUS == d * e + MODULUS % d;
    CofactorIsSmall(d, e);
    R.MultipleMod(e, d);
    if e > 1 {
      NoSmallDivisor(e);
    }
    assert d * e == e * d;
  }

  lemma {:induction false} ModulusIsPrime()
    ensures IsPrime(MODULUS)
  {
    forall d: int ensures !ProperDivisor(d, MODULUS) {
      if 1 < d <= 89 {
        NoSmallDivisor(d);
      } else if 89 < d < MODULUS {
        NoLargeDivisor(d);
      }
    }
  }
}
