/**
 Positional numbers in any base, least significant digit first, and powers.
 */
module Radix {
  import opened Numbers

  // ----- Powers

  ghost function Pow(b: nat, e: nat): nat { if e == 0 then 1 else Mul(b, Pow(b, e - 1)) }

  lemma {:induction false} PowPositive(b: nat, e: nat)
    requires b > 0
    ensures Pow(b, e) > 0
  {
    if e > 0 {
      PowPositive(b, e - 1);
      MulGrows(1, b, Pow(b, e - 1));
      MulOne(Pow(b, e - 1));
    }
  }

  lemma {:induction false} PowSum(b: nat, x: nat, y: nat)
    ensures Pow(b, x + y) == Mul(Pow(b, x), Pow(b, y))
  {
    if x == 0 {
      MulOne(Pow(b, y));
    } else {
      PowSum(b, x - 1, y);
      MulAssociates(b, Pow(b, x - 1), Pow(b, y));
    }
  }

  /** Powers grow with the exponent. */
  lemma PowExponent(b: nat, x: nat, y: nat)
    requires b > 0 && x <= y
    ensures Pow(b, x) <= Pow(b, y)
  {
    PowSum(b, y - x, x);
    PowPositive(b, y - x);
    MulGrows(1, Pow(b, y - x), Pow(b, x));
    MulOne(Pow(b, x));
  }

  /** And with the base. */
  lemma {:induction false} PowBaseGrows(x: nat, y: nat, e: nat)
    requires x <= y
    ensures Pow(x, e) <= Pow(y, e)
  {
    if e > 0 {
      PowBaseGrows(x, y, e - 1);
      MulGrows(x, y, Pow(x, e - 1));
      MulGrows(Pow(x, e - 1), Pow(y, e - 1), y);
    }
  }

  lemma {:induction false} PowBaseStrictly(x: nat, y: nat, e: nat)
    requires x < y && e > 0
    ensures Pow(x, e) < Pow(y, e)
  {
    PowBaseGrows(x, y, e - 1);
    PowPositive(y, e - 1);
    MulGrows(Pow(x, e - 1), Pow(y, e - 1), x);
    MulStrictly(x, y, Pow(y, e - 1));
  }

  /** (b^x)^y = b^(x y) */
  lemma {:induction false} PowPow(b: nat, x: nat, y: nat)
    ensures Pow(Pow(b, x), y) == Pow(b, Mul(x, y))
  {
    if y == 0 {
      MulOne(x);
    } else {
      PowPow(b, x, y - 1);
      PowSum(b, x, Mul(x, y - 1));
      MulAddRight(x, 1, y - 1);
      MulOne(x);
    }
  }

  /** If b^p <= c^q, and s covers n at the rate q / p, then b^n <= c^s. */
  lemma PowRate(b: nat, p: nat, c: nat, q: nat, n: nat, s: nat)
    requires b > 0 && c > 0 && p > 0 && Pow(b, p) <= Pow(c, q) && Mul(q, n) <= Mul(p, s)
    ensures Pow(b, n) <= Pow(c, s)
  {
    assert Pow(Pow(b, n), p) <= Pow(Pow(c, s), p) by {
      PowBaseGrows(Pow(b, p), Pow(c, q), n);
      PowPow(b, p, n);
      PowPow(c, q, n);
      PowExponent(c, Mul(q, n), Mul(p, s));
      MulCommutes(p, n);
      MulCommutes(p, s);
      PowPow(b, n, p);
      PowPow(c, s, p);
    }
    if Pow(b, n) > Pow(c, s) { PowBaseStrictly(Pow(c, s), Pow(b, n), p); }
  }

  // ----- Digits

  ghost predicate InBase(b: nat, ds: seq<nat>) { forall i :: 0 <= i < |ds| ==> ds[i] < b }

  ghost function Value(b: nat, ds: seq<nat>): nat { if ds == [] then 0 else ds[0] + Mul(b, Value(b, ds[1..])) }

  lemma {:induction false} ValueBelow(b: nat, ds: seq<nat>)
    requires InBase(b, ds)
    ensures Value(b, ds) < Pow(b, |ds|)
  {
    if ds != [] {
      ValueBelow(b, ds[1..]);
      assert ds[0] < b;
      var v, p := Value(b, ds[1..]), Pow(b, |ds| - 1);
      MulStrictly(v, p, b);
      MulCommutes(b, v);
      MulCommutes(b, p);
    }
  }

  lemma {:induction false} ValueAppend(b: nat, ds: seq<nat>, es: seq<nat>)
    ensures Value(b, ds + es) == Value(b, ds) + Mul(Pow(b, |ds|), Value(b, es))
  {
    if ds == [] {
      assert ds + es == es;
      MulOne(Value(b, es));
    } else {
      assert (ds + es)[1..] == ds[1..] + es;
      ValueAppend(b, ds[1..], es);
      MulAddRight(b, Value(b, ds[1..]), Mul(Pow(b, |ds| - 1), Value(b, es)));
      MulAssociates(b, Pow(b, |ds| - 1), Value(b, es));
    }
  }

  lemma {:induction false} ValueOfZeros(b: nat, ds: seq<nat>)
    requires forall i :: 0 <= i < |ds| ==> ds[i] == 0
    ensures Value(b, ds) == 0
  {
    if ds != [] {
      ValueOfZeros(b, ds[1..]);
      MulOne(b);
    }
  }

  /** The digits of a number, without leading zeros. */
  ghost function Digits(b: nat, v: nat): seq<nat>
    requires b > 1
    decreases v
  {
    if v == 0 then [] else QuotIsLess(v, b); [Rem(v, b)] + Digits(b, Quot(v, b))
  }

  lemma QuotIsLess(v: nat, b: nat)
    requires b > 1 && v > 0
    ensures Quot(v, b) < v
  {
    Divides(v, b);
    var q := Quot(v, b);
    MulGrows(2, b, q);
    MulIs(q, 2);
  }

  lemma {:induction false} DigitsValue(b: nat, v: nat)
    requires b > 1
    ensures Value(b, Digits(b, v)) == v && InBase(b, Digits(b, v))
    ensures v > 0 ==> Digits(b, v) != [] && Digits(b, v)[|Digits(b, v)| - 1] != 0
    decreases v
  {
    if v > 0 {
      QuotIsLess(v, b);
      DigitsValue(b, Quot(v, b));
      Divides(v, b);
      MulCommutes(Quot(v, b), b);
      assert Digits(b, v)[1..] == Digits(b, Quot(v, b));
      if Quot(v, b) == 0 { MulOne(b); }
    }
  }

  /** Digits whose highest is not zero are the digits of their value. */
  lemma {:induction false} DigitsUnique(b: nat, ds: seq<nat>)
    requires b > 1 && InBase(b, ds) && (ds != [] ==> ds[|ds| - 1] != 0)
    ensures Digits(b, Value(b, ds)) == ds && (ds != [] ==> Value(b, ds) > 0)
  {
    if ds != [] {
      var v := Value(b, ds[1..]);
      DigitsUnique(b, ds[1..]);
      MulCommutes(b, v);
      DivideUniquely(Value(b, ds), b, v, ds[0]);
      if v > 0 {
        MulGrows(1, v, b);
        MulOne(b);
      } else {
        assert ds[1..] == [];
      }
    }
  }

  ghost predicate ZerosFrom(ds: seq<nat>, k: nat) { forall i :: k <= i < |ds| ==> ds[i] == 0 }

  lemma ValueCut(b: nat, ds: seq<nat>, k: nat)
    requires k <= |ds| && ZerosFrom(ds, k)
    ensures Value(b, ds[..k]) == Value(b, ds)
  {
    assert ds == ds[..k] + ds[k..];
    ValueAppend(b, ds[..k], ds[k..]);
    ValueOfZeros(b, ds[k..]);
    MulOne(Pow(b, k));
  }

  lemma {:induction false} DigitsAtMost(b: nat, ds: seq<nat>, k: nat)
    requires b > 1 && InBase(b, ds) && k <= |ds| && ZerosFrom(ds, k)
    ensures |Digits(b, Value(b, ds))| <= k
  {
    if k == 0 {
      ValueOfZeros(b, ds);
    } else if ds[k - 1] == 0 {
      DigitsAtMost(b, ds, k - 1);
    } else {
      ValueCut(b, ds, k);
      DigitsUnique(b, ds[..k]);
    }
  }

  lemma QuotGrows(v: nat, w: nat, b: nat)
    requires b > 0 && v <= w
    ensures Quot(v, b) <= Quot(w, b)
  {
    Divides(v, b);
    Divides(w, b);
    if Quot(v, b) > Quot(w, b) { MulStrictly(Quot(w, b), Quot(v, b), b); }
  }

  /** A larger number has at least as many digits. */
  lemma {:induction false} DigitsGrow(b: nat, v: nat, w: nat)
    requires b > 1 && v <= w
    ensures |Digits(b, v)| <= |Digits(b, w)|
    decreases v
  {
    if v > 0 {
      QuotIsLess(v, b);
      QuotIsLess(w, b);
      QuotGrows(v, w, b);
      DigitsGrow(b, Quot(v, b), Quot(w, b));
    }
  }

  // ----- Multiplying by m and adding c, digit by digit

  ghost function Scale(b: nat, m: nat, ds: seq<nat>, c: nat): (r: seq<nat>)
    requires b > 0
    ensures |r| == |ds|
  {
    if ds == [] then [] else var n := c + Mul(m, ds[0]); [Rem(n, b)] + Scale(b, m, ds[1..], Quot(n, b))
  }

  ghost function CarryOut(b: nat, m: nat, ds: seq<nat>, c: nat): nat
    requires b > 0
  {
    if ds == [] then c else CarryOut(b, m, ds[1..], Quot(c + Mul(m, ds[0]), b))
  }

  lemma ScaleColumn(b: nat, m: nat, d: nat, c: nat, v: nat)
    requires b > 0
    ensures var n := c + Mul(m, d); Rem(n, b) + Mul(b, Mul(m, v) + Quot(n, b)) == Mul(m, d + Mul(b, v)) + c
  {
    var n := c + Mul(m, d);
    Divides(n, b);
    MulCommutes(Quot(n, b), b);
    MulAddRight(b, Mul(m, v), Quot(n, b));
    MulAddRight(m, d, Mul(b, v));
    MulAssociates(m, b, v);
    MulCommutes(m, b);
    MulAssociates(b, m, v);
  }

  lemma {:induction false} ScaleValue(b: nat, m: nat, ds: seq<nat>, c: nat)
    requires b > 0
    ensures Value(b, Scale(b, m, ds, c)) + Mul(Pow(b, |ds|), CarryOut(b, m, ds, c)) == Mul(m, Value(b, ds)) + c
    ensures InBase(b, Scale(b, m, ds, c))
  {
    if ds == [] {
      MulOne(c);
      MulOne(m);
    } else {
      var n := c + Mul(m, ds[0]);
      var r, q, t := Scale(b, m, ds[1..], Quot(n, b)), CarryOut(b, m, ds[1..], Quot(n, b)), Value(b, ds[1..]);
      ScaleValue(b, m, ds[1..], Quot(n, b));
      Divides(n, b);
      ScaleColumn(b, m, ds[0], c, t);
      assert Scale(b, m, ds, c)[1..] == r;
      assert Mul(b, Value(b, r)) + Mul(Pow(b, |ds|), q) == Mul(b, Mul(m, t) + Quot(n, b)) by {
        MulAddRight(b, Value(b, r), Mul(Pow(b, |ds| - 1), q));
        MulAssociates(b, Pow(b, |ds| - 1), q);
      }
    }
  }

  /** When the result fits the digits there are, nothing is carried out. */
  lemma NoCarryOut(b: nat, m: nat, ds: seq<nat>, c: nat)
    requires b > 0 && Mul(m, Value(b, ds)) + c < Pow(b, |ds|)
    ensures CarryOut(b, m, ds, c) == 0 && Value(b, Scale(b, m, ds, c)) == Mul(m, Value(b, ds)) + c
  {
    ScaleValue(b, m, ds, c);
    var q, p := CarryOut(b, m, ds, c), Pow(b, |ds|);
    MulOne(p);
    if q > 0 {
      MulGrows(1, q, p);
    }
  }

  lemma {:induction false} ScaleZeros(b: nat, m: nat, ds: seq<nat>)
    requires b > 0 && forall i :: 0 <= i < |ds| ==> ds[i] == 0
    ensures Scale(b, m, ds, 0) == ds && CarryOut(b, m, ds, 0) == 0
  {
    if ds != [] {
      MulOne(m);
      MulOne(b);
      DivideUniquely(0, b, 0, 0);
      ScaleZeros(b, m, ds[1..]);
    }
  }
}
