/**
 Numbers as sequences of 32-bit limbs, least significant first, and what the limb loops of
 arith_uint256 compute.  Each loop has a function over the limbs that it runs through; the lemmas
 say what number that function yields.
 */
module Limbs {
  import opened Numbers

  const BASE: nat := 0x1_0000_0000

  type Limb = x: nat | x < BASE

  /** The weight of limb n, 2^(32 n). */
  function Weight(n: nat): (r: nat)
    ensures r >= 1
  {
    if n == 0 then 1 else BASE * Weight(n - 1)
  }

  function Value(s: seq<Limb>): nat {
    if s == [] then 0 else s[0] + BASE * Value(s[1..])
  }

  lemma MulBase(x: nat, y: nat)
    ensures Mul(x, BASE * y) == BASE * Mul(x, y) == Mul(BASE * x, y)
  {
    MulIs(x, y);
    MulIs(x, BASE * y);
    MulIs(BASE * x, y);
    assert x * (BASE * y) == BASE * (x * y) == (BASE * x) * y;
  }

  lemma PowBase()
    ensures Pow2(32) == BASE
  {
    assert Pow2(8) == 256;
    Square(8, 256);
    Square(16, 0x1_0000);
  }

  lemma Square(n: nat, v: nat)
    requires Pow2(n) == v
    ensures Pow2(2 * n) == v * v
  {
    PowAdd(n, n);
    MulIs(v, v);
  }

  lemma Pow32More(n: nat)
    ensures Pow2(n + 32) == BASE * Pow2(n)
  {
    PowAdd(n, 32);
    PowBase();
    MulIs(Pow2(n), Pow2(32));
  }

  lemma {:induction false} WeightIsPow(n: nat)
    ensures Weight(n) == Pow2(32 * n)
  {
    if n > 0 {
      WeightIsPow(n - 1);
      Pow32More(32 * (n - 1));
    }
  }

  lemma {:induction false} ValueBound(s: seq<Limb>)
    ensures Value(s) < Weight(|s|)
  {
    if s != [] { ValueBound(s[1..]); }
  }

  lemma {:induction false} ValueConcat(s: seq<Limb>, t: seq<Limb>)
    ensures Value(s + t) == Value(s) + Mul(Value(t), Weight(|s|))
  {
    if s == [] {
      assert s + t == t;
      MulOne(Value(t));
    } else {
      assert (s + t)[1..] == s[1..] + t;
      ValueConcat(s[1..], t);
      MulBase(Value(t), Weight(|s| - 1));
    }
  }

  function Zeros(n: nat): (s: seq<Limb>)
    ensures |s| == n && forall i :: 0 <= i < n ==> s[i] == 0
  {
    seq(n, _ => 0)
  }

  lemma {:induction false} ZerosAreZero(n: nat)
    ensures Value(Zeros(n)) == 0
  {
    if n > 0 {
      assert Zeros(n)[1..] == Zeros(n - 1);
      ZerosAreZero(n - 1);
    }
  }

  /** v is the limbs' number for s, modulo their width. */
  ghost predicate Wraps(v: seq<Limb>, q: nat, s: nat) { Value(v) + Mul(q, Weight(|v|)) == s }

  lemma WrapIsRemainder(v: seq<Limb>, q: nat, s: nat)
    requires Wraps(v, q, s)
    ensures Value(v) == Rem(s, Weight(|v|))
  {
    ValueBound(v);
    DivideUniquely(s, Weight(|v|), q, Value(v));
  }

  lemma WrapsOn(d: Limb, v: seq<Limb>, q: nat, s: nat)
    requires Wraps(v, q, s)
    ensures Wraps([d] + v, q, d + BASE * s)
  {
    assert ([d] + v)[1..] == v;
    MulBase(q, Weight(|v|));
  }

  // ----- Addition and negation

  function Sum(a: seq<Limb>, b: seq<Limb>, carry: nat): (r: seq<Limb>)
    requires |a| == |b|
    ensures |r| == |a|
  {
    if a == [] then []
    else var n := carry + a[0] + b[0]; [n % BASE] + Sum(a[1..], b[1..], n / BASE)
  }

  lemma {:induction false} SumValue(a: seq<Limb>, b: seq<Limb>, carry: nat) returns (q: nat)
    requires |a| == |b|
    ensures Wraps(Sum(a, b, carry), q, Value(a) + Value(b) + carry)
  {
    if a == [] {
      q := carry;
      MulOne(carry);
    } else {
      var n := carry + a[0] + b[0];
      q := SumValue(a[1..], b[1..], n / BASE);
      WrapsOn(n % BASE, Sum(a[1..], b[1..], n / BASE), q, Value(a[1..]) + Value(b[1..]) + n / BASE);
    }
  }

  function Complement(a: seq<Limb>): (r: seq<Limb>)
    ensures |r| == |a|
  {
    seq(|a|, i requires 0 <= i < |a| => BASE - 1 - a[i])
  }

  lemma {:induction false} ComplementValue(a: seq<Limb>)
    ensures Value(Complement(a)) == Weight(|a|) - 1 - Value(a)
  {
    if a != [] {
      assert Complement(a)[1..] == Complement(a[1..]);
      ComplementValue(a[1..]);
    }
  }

  function Increment(a: seq<Limb>): (r: seq<Limb>)
    ensures |r| == |a|
  {
    if a == [] then []
    else if a[0] == BASE - 1 then [0] + Increment(a[1..])
    else [a[0] + 1] + a[1..]
  }

  lemma {:induction false} IncrementValue(a: seq<Limb>) returns (q: nat)
    ensures Wraps(Increment(a), q, Value(a) + 1)
  {
    if a == [] {
      q := 1;
      MulOne(1);
    } else if a[0] == BASE - 1 {
      q := IncrementValue(a[1..]);
      WrapsOn(0, Increment(a[1..]), q, Value(a[1..]) + 1);
    } else {
      q := 0;
      MulOne(Weight(|a|));
    }
  }

  function Decrement(a: seq<Limb>): (r: seq<Limb>)
    ensures |r| == |a|
  {
    if a == [] then []
    else if a[0] == 0 then [BASE - 1] + Decrement(a[1..])
    else [a[0] - 1] + a[1..]
  }

  /** Decrementing undoes incrementing, and the other way round. */
  lemma {:induction false} StepsCancel(a: seq<Limb>)
    ensures Decrement(Increment(a)) == a && Increment(Decrement(a)) == a
  {
    if a != [] { StepsCancel(a[1..]); }
  }

  lemma {:induction false} DecrementValue(a: seq<Limb>)
    ensures Value(Decrement(a)) == if Value(a) == 0 then Weight(|a|) - 1 else Value(a) - 1
  {
    if a != [] && a[0] == 0 {
      DecrementValue(a[1..]);
    }
  }

  // ----- Products

  lemma ColumnFits(carry: nat, x: nat, y: Limb, z: Limb)
    requires carry < BASE && x < BASE
    ensures carry + x + Mul(y, z) < BASE * BASE && (carry + x + Mul(y, z)) / BASE < BASE
  {
    MulGrows(y, BASE - 1, z);
    MulIs(BASE - 1, z);
  }

  /** One row of a long multiplication added to acc; every column fits 64 bits. */
  ghost function Row(acc: seq<Limb>, x: Limb, b: seq<Limb>, carry: Limb): (r: seq<Limb>)
    requires |acc| == |b|
    ensures |r| == |acc|
  {
    if b == [] then []
    else
      ColumnFits(carry, acc[0], x, b[0]);
      var n := carry + acc[0] + Mul(x, b[0]);
      [n % BASE] + Row(acc[1..], x, b[1..], n / BASE)
  }

  lemma {:induction false} RowValue(acc: seq<Limb>, x: Limb, b: seq<Limb>, carry: Limb) returns (q: nat)
    requires |acc| == |b|
    ensures Wraps(Row(acc, x, b, carry), q, Value(acc) + Mul(x, Value(b)) + carry)
    decreases |b|
  {
    if b == [] {
      q := carry;
      MulOne(carry);
      MulOne(x);
    } else {
      ColumnFits(carry, acc[0], x, b[0]);
      var n := carry + acc[0] + Mul(x, b[0]);
      q := RowValue(acc[1..], x, b[1..], n / BASE);
      WrapsOn(n % BASE, Row(acc[1..], x, b[1..], n / BASE), q, Value(acc[1..]) + Mul(x, Value(b[1..])) + n / BASE);
      RowColumn(carry, acc[0], Value(acc[1..]), x, Value(b), b[0], Value(b[1..]), n);
    }
  }

  lemma RowColumn(carry: nat, acc0: nat, acc1: nat, x: nat, b: nat, b0: nat, b1: nat, n: nat)
    requires n == carry + acc0 + Mul(x, b0) && b == b0 + BASE * b1
    ensures n % BASE + BASE * (acc1 + Mul(x, b1) + n / BASE) == acc0 + BASE * acc1 + Mul(x, b) + carry
  {
    MulAddRight(x, b0, BASE * b1);
    MulBase(x, b1);
  }

  /** The rows of a long multiplication, each one limb further up. */
  ghost function Rows(acc: seq<Limb>, a: seq<Limb>, b: seq<Limb>): (r: seq<Limb>)
    requires |acc| == |a| == |b|
    ensures |r| == |acc|
    decreases |a|
  {
    if a == [] then []
    else var r := Row(acc, a[0], b, 0); [r[0]] + Rows(r[1..], a[1..], b[..|b| - 1])
  }

  lemma TopLimb(b: seq<Limb>, n: nat)
    requires |b| == n + 1
    ensures Value(b) == Value(b[..n]) + Mul(b[n], Weight(n))
  {
    assert b == b[..n] + [b[n]] && [b[n]][1..] == [];
    ValueConcat(b[..n], [b[n]]);
  }

  /** The top limb of b, times a limb of a other than the lowest, falls out of the width. */
  lemma TopFallsOut(a: nat, a0: nat, m: nat, b: nat, b': nat, top: nat, w: nat)
    requires a == a0 + BASE * m && b == b' + Mul(top, w)
    ensures Mul(a, b) == Mul(a0, b) + BASE * (Mul(m, b') + Mul(Mul(m, top), w))
  {
    MulAdd(a0, BASE * m, b);
    MulBase(m, b);
    MulAddRight(m, b', Mul(top, w));
    MulAssociates(m, top, w);
  }

  lemma RowsCombine(v: nat, q1: nat, q2: nat, q3: nat, w: nat, r0: nat, r1: nat, acc: nat, x: nat, m: nat, p: nat)
    requires v + Mul(q2, BASE * w) == r0 + BASE * (r1 + m) && r0 + BASE * r1 + Mul(q1, BASE * w) == acc + x
    requires p == x + BASE * (m + Mul(q3, w))
    ensures v + Mul(q1 + q2 + q3, BASE * w) == acc + p
  {
    MulAdd(q1 + q2, q3, BASE * w);
    MulAdd(q1, q2, BASE * w);
    MulBase(q3, w);
  }

  lemma RowsProduct(a: seq<Limb>, b: seq<Limb>, n: nat)
    requires |a| == |b| == n + 1
    ensures var m := Value(a[1..]);
            Mul(Value(a), Value(b)) == Mul(a[0], Value(b)) + BASE * (Mul(m, Value(b[..n])) + Mul(Mul(m, b[n]), Weight(n)))
  {
    TopLimb(b, n);
    TopFallsOut(Value(a), a[0], Value(a[1..]), Value(b), Value(b[..n]), b[n], Weight(n));
  }

  lemma RowsStep(acc: seq<Limb>, a: seq<Limb>, b: seq<Limb>, r: seq<Limb>, t: seq<Limb>, q1: nat, q2: nat) returns (q: nat)
    requires |acc| == |a| == |b| == |r| == |t| + 1
    requires Wraps(r, q1, Value(acc) + Mul(a[0], Value(b)))
    requires Wraps(t, q2, Value(r[1..]) + Mul(Value(a[1..]), Value(b[..|t|])))
    ensures Wraps([r[0]] + t, q, Value(acc) + Mul(Value(a), Value(b)))
  {
    var n, m := |t|, Value(a[1..]);
    var q3 := Mul(m, b[n]);
    q := q1 + q2 + q3;
    RowsProduct(a, b, n);
    WrapsOn(r[0], t, q2, Value(r[1..]) + Mul(m, Value(b[..n])));
    RowsCombine(Value([r[0]] + t), q1, q2, q3, Weight(n), r[0], Value(r[1..]), Value(acc), Mul(a[0], Value(b)),
        Mul(m, Value(b[..n])), Mul(Value(a), Value(b)));
  }

  lemma {:induction false} RowsValue(acc: seq<Limb>, a: seq<Limb>, b: seq<Limb>) returns (q: nat)
    requires |acc| == |a| == |b|
    ensures Wraps(Rows(acc, a, b), q, Value(acc) + Mul(Value(a), Value(b)))
    decreases |a|
  {
    if a == [] {
      q := 0;
      MulOne(0);
    } else {
      var r, b' := Row(acc, a[0], b, 0), b[..|b| - 1];
      var q1 := RowValue(acc, a[0], b, 0);
      var q2 := RowsValue(r[1..], a[1..], b');
      q := RowsStep(acc, a, b, r, Rows(r[1..], a[1..], b'), q1, q2);
    }
  }

  // ----- Shifts

  ghost function High(x: nat, s: nat): nat { Quot(x, Pow2(s)) }

  ghost function Low(x: nat, s: nat): nat { Rem(x, Pow2(s)) }

  lemma Powers(s: nat)
    requires s <= 32
    ensures Mul(Pow2(s), Pow2(32 - s)) == BASE == Mul(Pow2(32 - s), Pow2(s))
  {
    PowAdd(s, 32 - s);
    PowAdd(32 - s, s);
    PowBase();
  }

  /** The two parts of a limb, and what shifting it left within 32 bits keeps. */
  lemma Parts(x: Limb, s: nat)
    requires s <= 32
    ensures x == Mul(High(x, s), Pow2(s)) + Low(x, s) && Low(x, s) < Pow2(s) && High(x, s) < Pow2(32 - s)
    ensures Mul(Low(x, s), Pow2(32 - s)) + Pow2(32 - s) <= BASE
    ensures Mul(x, Pow2(32 - s)) == BASE * High(x, s) + Mul(Low(x, s), Pow2(32 - s))
    ensures Mul(x, Pow2(32 - s)) % BASE == Mul(Low(x, s), Pow2(32 - s))
  {
    Powers(s);
    Divides(x, Pow2(s));
    PartsOf(x, High(x, s), Low(x, s), Pow2(s), Pow2(32 - s));
  }

  lemma PartsOf(x: nat, h: nat, l: nat, p: nat, q: nat)
    requires x == Mul(h, p) + l && x < BASE && l < p && Mul(p, q) == BASE == Mul(q, p) && q > 0
    ensures h < q && Mul(l, q) + q <= BASE
    ensures Mul(x, q) == BASE * h + Mul(l, q) && Mul(x, q) % BASE == Mul(l, q)
  {
    if h >= q { MulGrows(q, h, p); }
    MulStrictly(l, p, q);
    MulAdd(Mul(h, p), l, q);
    MulAssociates(h, p, q);
    MulIs(h, BASE);
  }

  /** A number shifted left by s bits, with the bits that came in from below. */
  ghost function LeftBits(a: seq<Limb>, s: nat, carry: nat): (r: seq<Limb>)
    requires s < 32 && carry < Pow2(s)
    ensures |r| == |a|
  {
    if a == [] then []
    else
      Parts(a[0], 32 - s);
      [Mul(Low(a[0], 32 - s), Pow2(s)) + carry] + LeftBits(a[1..], s, High(a[0], 32 - s))
  }

  lemma {:induction false} LeftBitsAt(a: seq<Limb>, s: nat, carry: nat, i: nat)
    requires s < 32 && carry < Pow2(s) && i < |a|
    ensures LeftBits(a, s, carry)[i] == Mul(Low(a[i], 32 - s), Pow2(s)) + if i == 0 then carry else High(a[i - 1], 32 - s)
  {
    if i > 0 {
      Parts(a[0], 32 - s);
      LeftBitsAt(a[1..], s, High(a[0], 32 - s), i - 1);
    }
  }

  lemma {:induction false} LeftBitsValue(a: seq<Limb>, s: nat, carry: nat) returns (q: nat)
    requires s < 32 && carry < Pow2(s)
    ensures Wraps(LeftBits(a, s, carry), q, Mul(Value(a), Pow2(s)) + carry)
  {
    if a == [] {
      q := carry;
      MulOne(carry);
      MulOne(Pow2(s));
    } else {
      var h, l := High(a[0], 32 - s), Mul(Low(a[0], 32 - s), Pow2(s));
      Parts(a[0], 32 - s);
      q := LeftBitsValue(a[1..], s, h);
      WrapsOn(l + carry, LeftBits(a[1..], s, h), q, Mul(Value(a[1..]), Pow2(s)) + h);
      LeftColumn(Value(a), a[0], h, l, carry, Value(a[1..]), Pow2(s));
    }
  }

  lemma LeftColumn(a: nat, x: nat, h: nat, l: nat, carry: nat, v: nat, p: nat)
    requires a == x + BASE * v && Mul(x, p) == BASE * h + l
    ensures l + carry + BASE * (Mul(v, p) + h) == Mul(a, p) + carry
  {
    MulAdd(x, BASE * v, p);
    MulBase(v, p);
  }

  /** A number shifted left by k limbs and s bits, cut to its width. */
  ghost function ShiftedLeft(a: seq<Limb>, k: nat, s: nat): (r: seq<Limb>)
    requires s < 32
    ensures |r| == |a|
  {
    (Zeros(k) + LeftBits(a, s, 0))[..|a|]
  }

  lemma ShiftedLimbs(t: seq<Limb>, l: seq<Limb>, k: nat, n: nat)
    requires t == Zeros(k) + l && n <= |t|
    ensures Mul(Value(l), Weight(k)) == Value(t[..n]) + Mul(Value(t[n..]), Weight(n))
  {
    ValueConcat(Zeros(k), l);
    ZerosAreZero(k);
    assert t == t[..n] + t[n..];
    ValueConcat(t[..n], t[n..]);
  }

  lemma LeftScale(l: nat, q: nat, u: nat, wk: nat, wn: nat, t: nat, q': nat)
    requires l + Mul(q, wn) == u && Mul(l, wk) == t + Mul(q', wn)
    ensures Mul(u, wk) == t + Mul(q' + Mul(q, wk), wn)
  {
    MulAdd(l, Mul(q, wn), wk);
    MulAssociates(q, wn, wk);
    MulCommutes(wn, wk);
    MulAssociates(q, wk, wn);
    MulAdd(q', Mul(q, wk), wn);
  }

  /** Shifting left multiplies by a power of two, modulo the width. */
  lemma LeftIsProduct(a: seq<Limb>, k: nat, s: nat)
    requires s < 32
    ensures Value(ShiftedLeft(a, k, s)) == Rem(Mul(Value(a), Pow2(32 * k + s)), Weight(|a|))
  {
    var n, l := |a|, LeftBits(a, s, 0);
    var t := Zeros(k) + l;
    var q := LeftBitsValue(a, s, 0);
    ShiftedLimbs(t, l, k, n);
    var u := Mul(Value(a), Pow2(s));
    LeftScale(Value(l), q, u, Weight(k), Weight(n), Value(t[..n]), Value(t[n..]));
    WrapIsRemainder(t[..n], Value(t[n..]) + Mul(q, Weight(k)), Mul(u, Weight(k)));
    assert Mul(u, Weight(k)) == Mul(Value(a), Pow2(32 * k + s)) by {
      MulAssociates(Value(a), Pow2(s), Weight(k));
      WeightIsPow(k);
      PowAdd(s, 32 * k);
    }
  }

  ghost function RightBits(a: seq<Limb>, s: nat): (r: seq<Limb>)
    requires s < 32
    ensures |r| == |a|
  {
    if a == [] then []
    else
      var next := if |a| > 1 then a[1] else 0;
      Parts(a[0], s);
      Parts(next, s);
      [High(a[0], s) + Mul(Low(next, s), Pow2(32 - s))] + RightBits(a[1..], s)
  }

  lemma {:induction false} RightBitsAt(a: seq<Limb>, s: nat, i: nat)
    requires s < 32 && i < |a|
    ensures RightBits(a, s)[i] == High(a[i], s) + Mul(Low(if i + 1 < |a| then a[i + 1] else 0, s), Pow2(32 - s))
  {
    if i > 0 { RightBitsAt(a[1..], s, i - 1); }
  }

  lemma RightColumn(h: nat, l: nat, next: nat, r: nat, p: nat, q: nat)
    requires Mul(q, p) == BASE
    ensures Mul(h + Mul(next, q) + BASE * r, p) + l == Mul(h, p) + l + BASE * (Mul(r, p) + next)
  {
    MulAdd(h + Mul(next, q), BASE * r, p);
    MulAdd(h, Mul(next, q), p);
    MulAssociates(next, q, p);
    MulBase(r, p);
    MulIs(next, BASE);
  }

  lemma RightBitsStep(a: seq<Limb>, s: nat, next: Limb, r: seq<Limb>)
    requires s < 32 && a != [] && Value(a[1..]) == Mul(Value(r), Pow2(s)) + Low(next, s)
    ensures var d := High(a[0], s) + Mul(Low(next, s), Pow2(32 - s));
            Value(a) == Mul(d + BASE * Value(r), Pow2(s)) + Low(a[0], s)
  {
    Parts(a[0], s);
    Powers(s);
    RightColumn(High(a[0], s), Low(a[0], s), Low(next, s), Value(r), Pow2(s), Pow2(32 - s));
  }

  lemma {:induction false} RightBitsValue(a: seq<Limb>, s: nat)
    requires s < 32
    ensures Value(a) == Mul(Value(RightBits(a, s)), Pow2(s)) + Low(if a == [] then 0 else a[0], s)
  {
    if a == [] {
      MulOne(Pow2(s));
    } else {
      RightBitsValue(a[1..], s);
      RightBitsStep(a, s, if |a| > 1 then a[1] else 0, RightBits(a[1..], s));
      assert RightBits(a, s)[1..] == RightBits(a[1..], s);
    }
  }

  /** A number shifted right by k limbs and s bits. */
  ghost function ShiftedRight(a: seq<Limb>, k: nat, s: nat): (r: seq<Limb>)
    requires s < 32
    ensures |r| == |a|
  {
    if k <= |a| then RightBits(a[k..], s) + Zeros(k) else Zeros(|a|)
  }

  /** Shifting right divides by a power of two. */
  lemma RightIsQuotient(a: seq<Limb>, k: nat, s: nat)
    requires s < 32
    ensures Value(ShiftedRight(a, k, s)) == Quot(Value(a), Pow2(32 * k + s))
  {
    WeightIsPow(k);
    PowAdd(s, 32 * k);
    if k <= |a| {
      var u, r := a[k..], RightBits(a[k..], s);
      assert Value(r + Zeros(k)) == Value(r) by {
        ValueConcat(r, Zeros(k));
        ZerosAreZero(k);
        MulOne(Weight(|r|));
      }
      assert Value(a) == Value(a[..k]) + Mul(Value(u), Weight(k)) by {
        assert a == a[..k] + u;
        ValueConcat(a[..k], u);
      }
      ValueBound(a[..k]);
      RightBitsValue(u, s);
      Parts(if u == [] then 0 else u[0], s);
      NestedQuotient(Value(a), Value(u), Value(a[..k]), Weight(k), Value(r), Low(if u == [] then 0 else u[0], s), Pow2(s));
    } else {
      ZerosAreZero(|a|);
      ValueBound(a);
      WeightIsPow(|a|);
      PowGrows(32 * |a|, 32 * k + s);
      SmallRem(Value(a), Pow2(32 * k + s));
    }
  }

  lemma NestedQuotient(a: nat, hi: nat, lo: nat, w: nat, q: nat, r: nat, p: nat)
    requires a == lo + Mul(hi, w) && lo < w && hi == Mul(q, p) + r && r < p && Mul(p, w) > 0
    ensures Quot(a, Mul(p, w)) == q
  {
    MulAdd(Mul(q, p), r, w);
    MulAssociates(q, p, w);
    MulStrictly(r, p, w);
    DivideUniquely(a, Mul(p, w), q, Mul(r, w) + lo);
  }

  // ----- Comparison, bit length and single bits

  /** Two numbers compare as the highest limbs in which they differ. */
  lemma {:induction false} HighestDecides(a: seq<Limb>, b: seq<Limb>, i: nat)
    requires |a| == |b| && i < |a| && a[i + 1..] == b[i + 1..]
    ensures a[i] < b[i] ==> Value(a) < Value(b)
    ensures a[i] > b[i] ==> Value(a) > Value(b)
  {
    if i == 0 {
    } else {
      assert a[1..][i..] == a[i + 1..] == b[i + 1..] == b[1..][i..];
      HighestDecides(a[1..], b[1..], i - 1);
    }
  }

  /** A number whose highest non-zero limb is limb i, of the given length in bits. */
  lemma {:induction false} BitLength(a: seq<Limb>, i: nat, nbits: nat)
    requires i < |a| && (forall k :: i < k < |a| ==> a[k] == 0) && 0 < nbits && Pow2(nbits - 1) <= a[i] < Pow2(nbits)
    ensures Pow2(32 * i + nbits - 1) <= Value(a) < Pow2(32 * i + nbits)
  {
    if i == 0 {
      assert a[1..] == Zeros(|a| - 1);
      ZerosAreZero(|a| - 1);
    } else {
      BitLength(a[1..], i - 1, nbits);
      Pow32More(32 * (i - 1) + nbits);
      Pow32More(32 * (i - 1) + nbits - 1);
    }
  }

  ghost predicate ClearLimbs(a: seq<Limb>, n: nat) { forall i :: 0 <= i < n && i < |a| ==> a[i] == 0 }

  /** All bits of a number below j are unset. */
  ghost predicate ClearBelow(a: seq<Limb>, j: nat) {
    && ClearLimbs(a, j / 32)
    && (j / 32 < |a| ==> exists h: nat :: a[j / 32] == Mul(h, Pow2(j % 32)))
  }

  lemma {:induction false} UpdateValue(a: seq<Limb>, i: nat, x: nat)
    requires i < |a| && a[i] + x < BASE
    ensures Value(a[i := a[i] + x]) == Value(a) + Mul(x, Weight(i))
  {
    var b: seq<Limb> := a[i := a[i] + x];
    if i == 0 {
      assert a[1..] == b[1..];
      MulOne(x);
    } else {
      assert b[1..] == a[1..][i - 1 := a[1..][i - 1] + x];
      UpdateValue(a[1..], i - 1, x);
      MulBase(x, Weight(i - 1));
    }
  }

  lemma DoubleMul(h: nat, p: nat)
    ensures Mul(h, 2 * p) == Mul(2 * h, p) && Mul(2 * h + 1, p) == Mul(h, 2 * p) + p
  {
    MulAddRight(h, p, p);
    MulAdd(h, h, p);
    MulAdd(2 * h, 1, p);
    MulOne(p);
  }

  lemma MultipleRoom(h: nat, p: nat, r: nat)
    requires Mul(r, p) == BASE && Mul(h, p) < BASE && p > 0
    ensures Mul(h, p) + p <= BASE
  {
    if h >= r { MulGrows(r, h, p); }
    MulStrictly(h, r, p);
  }

  /** Setting bit t of a limb that is a multiple of the next power. */
  lemma SetLimbBit(h: nat, t: nat)
    requires t < 32 && Mul(h, Pow2(t + 1)) < BASE
    ensures Or(Mul(h, Pow2(t + 1)), Pow2(t)) == Mul(h, Pow2(t + 1)) + Pow2(t) == Mul(2 * h + 1, Pow2(t)) < BASE
    ensures Mul(h, Pow2(t + 1)) == Mul(2 * h, Pow2(t))
  {
    OrIsSum(h, Pow2(t), t + 1);
    Powers(t + 1);
    MultipleRoom(h, Pow2(t + 1), Pow2(31 - t));
    DoubleMul(h, Pow2(t));
  }

  lemma LimbMultiple(a: seq<Limb>, j: nat) returns (h: nat)
    requires j < 32 * |a| && ClearBelow(a, j + 1)
    ensures a[j / 32] == Mul(h, Pow2(j % 32 + 1))
  {
    if j % 32 == 31 {
      h := 0;
      MulOne(Pow2(32));
    } else {
      assert (j + 1) / 32 == j / 32 && (j + 1) % 32 == j % 32 + 1;
      h :| a[j / 32] == Mul(h, Pow2(j % 32 + 1));
    }
  }

  /** Setting bit j when no bit up to it is set adds within the limb. */
  lemma SetBit(a: seq<Limb>, j: nat)
    requires j < 32 * |a| && ClearBelow(a, j + 1)
    ensures Or(a[j / 32], Pow2(j % 32)) == a[j / 32] + Pow2(j % 32) < BASE
  {
    var h := LimbMultiple(a, j);
    SetLimbBit(h, j % 32);
  }

  /** It leaves the lower bits unset. */
  lemma SetBitClear(a: seq<Limb>, j: nat, x: nat)
    requires j < 32 * |a| && ClearBelow(a, j + 1) && x == a[j / 32] + Pow2(j % 32) < BASE
    ensures ClearBelow(a, j) && ClearBelow(a[j / 32 := x], j)
  {
    var h := LimbMultiple(a, j);
    DoubleMul(h, Pow2(j % 32));
    ClearWith(a, j, a[j / 32], 2 * h);
    ClearWith(a, j, x, 2 * h + 1);
  }

  /** And it adds the bit's power. */
  lemma SetBitValue(a: seq<Limb>, j: nat)
    requires j < 32 * |a| && a[j / 32] + Pow2(j % 32) < BASE
    ensures Value(a[j / 32 := a[j / 32] + Pow2(j % 32)]) == Value(a) + Pow2(j)
  {
    UpdateValue(a, j / 32, Pow2(j % 32));
    BitWeight(j / 32, j % 32);
  }

  lemma ClearWith(a: seq<Limb>, j: nat, x: Limb, h: nat)
    requires j < 32 * |a| && ClearLimbs(a, j / 32) && x == Mul(h, Pow2(j % 32))
    ensures ClearBelow(a[j / 32 := x], j) && (x == a[j / 32] ==> ClearBelow(a, j))
  {}

  lemma BitWeight(i: nat, t: nat)
    ensures Mul(Pow2(t), Weight(i)) == Pow2(32 * i + t)
  {
    WeightIsPow(i);
    PowAdd(t, 32 * i);
  }
}
