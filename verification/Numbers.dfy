/**
 Products, quotients and remainders of natural numbers under names of their own.

 `Mul`, `Quot` and `Rem` are the ordinary operators (`MulIs`, `QuotRemIs`); proofs elsewhere use
 them through the laws below, one at a time.
 */
module Numbers {

  /** Names a number whose products are wanted as such. */
  predicate Spelled(x: int) { true }

  ghost predicate IsProduct(p: nat, x: nat, y: nat) {
    forall k: int {:trigger Spelled(k)} :: k == x ==> p == k * y
  }

  lemma ProductExists(x: nat, y: nat)
    ensures exists p: nat :: IsProduct(p, x, y)
  {
    var p: nat := x * y;
    assert IsProduct(p, x, y);
  }

  ghost function Mul(x: nat, y: nat): nat {
    ProductExists(x, y);
    var p: nat :| IsProduct(p, x, y);
    p
  }

  lemma MulIs(x: nat, y: nat)
    ensures Mul(x, y) == x * y
  {
    assert IsProduct(Mul(x, y), x, y);
    assert Spelled(x);
  }

  lemma MulCommutes(x: nat, y: nat)
    ensures Mul(x, y) == Mul(y, x)
  {
    MulIs(x, y);
    MulIs(y, x);
  }

  lemma MulOne(x: nat)
    ensures Mul(x, 0) == Mul(0, x) == 0 && Mul(x, 1) == Mul(1, x) == x
  {
    MulIs(0, x);
    MulIs(1, x);
    MulIs(x, 0);
    MulIs(x, 1);
  }

  lemma MulAdd(x: nat, y: nat, z: nat)
    ensures Mul(x + y, z) == Mul(x, z) + Mul(y, z)
  {
    MulIs(x, z);
    MulIs(y, z);
    MulIs(x + y, z);
  }

  lemma MulAddRight(x: nat, y: nat, z: nat)
    ensures Mul(x, y + z) == Mul(x, y) + Mul(x, z)
  {
    MulCommutes(x, y + z);
    MulAdd(y, z, x);
    MulCommutes(x, y);
    MulCommutes(x, z);
  }

  lemma MulAssociates(x: nat, y: nat, z: nat)
    ensures Mul(Mul(x, y), z) == Mul(x, Mul(y, z))
  {
    MulIs(x, y);
    MulIs(y, z);
    MulIs(x * y, z);
    MulIs(x, y * z);
  }

  lemma MulGrows(x: nat, y: nat, z: nat)
    requires x <= y
    ensures Mul(x, z) <= Mul(y, z) && Mul(z, x) <= Mul(z, y)
  {
    MulAdd(x, y - x, z);
    MulAddRight(z, x, y - x);
  }

  lemma MulStrictly(x: nat, y: nat, z: nat)
    requires x < y && z > 0
    ensures Mul(x, z) + z <= Mul(y, z)
  {
    MulGrows(x + 1, y, z);
    MulAdd(x, 1, z);
    MulOne(z);
  }

  // ----- Quotient and remainder

  ghost predicate IsDivision(p: (nat, nat), x: nat, d: nat) { x == Mul(p.0, d) + p.1 && p.1 < d }

  ghost function DivMod(x: nat, d: nat): (nat, nat)
    requires d > 0
  {
    DivisionExists(x, d);
    var p :| IsDivision(p, x, d);
    p
  }

  lemma DivisionExists(x: nat, d: nat)
    requires d > 0
    ensures IsDivision((x / d, x % d), x, d)
  {
    MulIs(x / d, d);
  }

  ghost function Quot(x: nat, d: nat): nat
    requires d > 0
  {
    DivMod(x, d).0
  }

  ghost function Rem(x: nat, d: nat): nat
    requires d > 0
  {
    DivMod(x, d).1
  }

  lemma Divides(x: nat, d: nat)
    requires d > 0
    ensures x == Mul(Quot(x, d), d) + Rem(x, d) && Rem(x, d) < d
  {
    assert IsDivision(DivMod(x, d), x, d);
  }

  /** Quotient and remainder are the only such pair. */
  lemma DivideUniquely(x: nat, d: nat, q: nat, r: nat)
    requires d > 0 && x == Mul(q, d) + r && r < d
    ensures Quot(x, d) == q && Rem(x, d) == r
  {
    Divides(x, d);
    if q < Quot(x, d) {
      MulStrictly(q, Quot(x, d), d);
    } else if Quot(x, d) < q {
      MulStrictly(Quot(x, d), q, d);
    }
  }

  lemma SmallRem(x: nat, d: nat)
    requires x < d
    ensures Quot(x, d) == 0 && Rem(x, d) == x
  {
    MulOne(d);
    DivideUniquely(x, d, 0, x);
  }

  lemma QuotRemIs(x: nat, d: nat)
    requires d > 0
    ensures Quot(x, d) == x / d && Rem(x, d) == x % d
  {
    DivisionExists(x, d);
    DivideUniquely(x, d, x / d, x % d);
  }

  function Pow2(n: nat): (r: nat)
    ensures r >= 1
  {
    if n == 0 then 1 else 2 * Pow2(n - 1)
  }

  lemma {:induction false} PowAdd(a: nat, b: nat)
    ensures Pow2(a + b) == Mul(Pow2(a), Pow2(b))
  {
    if a == 0 {
      MulOne(Pow2(b));
    } else {
      PowAdd(a - 1, b);
      MulAdd(Pow2(a - 1), Pow2(a - 1), Pow2(b));
    }
  }

  lemma {:induction false} PowGrows(a: nat, b: nat)
    requires a <= b
    ensures Pow2(a) <= Pow2(b)
  {
    if a < b { PowGrows(a, b - 1); }
  }

  // ----- Bitwise or

  function Or(x: nat, y: nat): nat
    decreases x + y
  {
    if x == 0 && y == 0 then 0 else (if x % 2 == 1 || y % 2 == 1 then 1 else 0) + 2 * Or(x / 2, y / 2)
  }

  lemma {:induction false} OrZero(x: nat)
    ensures Or(x, 0) == x
  {
    if x > 0 { OrZero(x / 2); }
  }

  lemma {:induction false} OrCommutes(x: nat, y: nat)
    ensures Or(x, y) == Or(y, x)
    decreases x + y
  {
    if x + y > 0 { OrCommutes(x / 2, y / 2); }
  }

  /** Or of numbers without common bits is their sum. */
  lemma {:induction false} OrIsSum(h: nat, y: nat, s: nat)
    requires y < Pow2(s)
    ensures Or(Mul(h, Pow2(s)), y) == Mul(h, Pow2(s)) + y == Or(y, Mul(h, Pow2(s)))
  {
    var x := Mul(h, Pow2(s));
    if s == 0 {
      OrZero(x);
    } else {
      MulAddRight(h, Pow2(s - 1), Pow2(s - 1));
      OrIsSum(h, y / 2, s - 1);
      if x + y > 0 { assert Or(x, y) == y % 2 + 2 * Or(x / 2, y / 2); }
    }
    OrCommutes(x, y);
  }
}
