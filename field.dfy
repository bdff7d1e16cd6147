/** The scalar field of both circuits: the base field of the Pallas curve
    (halo2's `pasta::Fp`), modelled as the integers modulo its prime modulus. */
module Field {

  /** The modulus of Pasta `Fp`: 2^254 + 45560315531419706090280762371685220353. */
  const P: int := 0x40000000000000000000000000000000224698fc094cf91b992d30ed00000001

  /** A field element, in canonical form. */
  type Fe = x: int | 0 <= x < P

  function Add(a: Fe, b: Fe): Fe { (a + b) % P }

  function Neg(a: Fe): Fe { if a == 0 then 0 else P - a }

  function Mul(a: Fe, b: Fe): Fe { (a * b) % P }

  /** `F::from(n)` for a machine integer `n`. */
  function FromNat(n: nat): Fe { n % P }

  /** The field has no zero divisors. This holds because P is prime, which is
      not proved here; lemmas that need it take it as a hypothesis. */
  ghost predicate NoZeroDivisors()
  {
    forall x: Fe, y: Fe {:trigger Mul(x, y)} :: Mul(x, y) == 0 ==> x == 0 || y == 0
  }

  lemma FromSmall(n: nat)
    requires n < P
    ensures FromNat(n) == n
  {
  }

  /** `x - c` is zero exactly when `x` and `c` are the same element. */
  lemma AddNegZero(x: Fe, c: Fe)
    ensures Add(x, Neg(c)) == 0 <==> x == c
  {
    if c != 0 {
      assert 0 < x + (P - c) < 2 * P;
    }
  }

  lemma MulZero(x: Fe)
    ensures Mul(x, 0) == 0 && Mul(0, x) == 0
  {
  }

  lemma MulOne(x: Fe)
    ensures Mul(1, x) == x
  {
  }

  /** Shifting by a multiple of P does not change the residue. */
  lemma ModShift(k: int, m: int)
    ensures (P * k + m) % P == m % P
  {
  }

  /** Negation in the field is integer negation reduced modulo P. */
  lemma NegIsMod(a: Fe)
    ensures Neg(a) == (-(a as int)) % P
  {
    if a != 0 {
      ModShift(-1, P - a);
    }
  }

  /** Reduction commutes with integer addition. */
  lemma ModAdd(x: int, y: int)
    ensures ((x % P) + (y % P)) % P == (x + y) % P
  {
    var qx, qy := x / P, y / P;
    assert x == P * qx + x % P;
    assert y == P * qy + y % P;
    ModShift(qx + qy, (x % P) + (y % P));
  }

  /** Reduction commutes with integer multiplication. */
  lemma ModMul(x: int, y: int)
    ensures ((x % P) * (y % P)) % P == (x * y) % P
  {
    var qx, rx := x / P, x % P;
    var qy, ry := y / P, y % P;
    assert x == P * qx + rx;
    assert y == P * qy + ry;
    calc {
      x * y;
      (P * qx + rx) * (P * qy + ry);
      P * (qx * (P * qy + ry) + rx * qy) + rx * ry;
    }
    ModShift(qx * (P * qy + ry) + rx * qy, rx * ry);
  }

  /** Addition in the field is integer addition reduced modulo P. */
  lemma AddIsMod(a: Fe, b: Fe, x: int, y: int)
    requires a == x % P && b == y % P
    ensures Add(a, b) == (x + y) % P
  {
    ModAdd(x, y);
  }

  /** Multiplication in the field is integer multiplication reduced modulo P:
      with `a`, `b` the residues of `x`, `y`, their product is that of `z = x * y`. */
  lemma MulIsMod(a: Fe, b: Fe, x: int, y: int, z: int)
    requires a == x % P && b == y % P && z == x * y
    ensures Mul(a, b) == z % P
  {
    ModMul(x, y);
  }
}
