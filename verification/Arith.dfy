/**
 The fixed-width integers of arith_uint256.h and arith_uint256.cpp, and the block proof of chain.cpp.

 `Number` is the integer that the limbs stand for.  Widths are any number of limbs; 256 bits are
 eight of them.
 */
module Arith {
  import opened Numbers
  import opened Limbs

  /** One column of a product: a sum that fits 64 bits, split into limb and carry. */
  method Column(carry: Limb, acc: Limb, x: Limb, y: Limb) returns (low: Limb, high: Limb)
    ensures var n := carry + acc + Mul(x, y); n < BASE * BASE && low == n % BASE && high == n / BASE
  {
    ColumnFits(carry, acc, x, y);
    MulIs(x, y);
    var n := carry + acc + x * y;
    low, high := n % BASE, n / BASE;
  }

  /** x >> s */
  method Shifted(x: nat, s: nat) returns (r: nat)
    ensures r == High(x, s)
  {
    QuotRemIs(x, Pow2(s));
    r := x / Pow2(s);
  }

  // ----- The compact form of a target

  function CompactSize(c: nat): nat { c / 0x100_0000 }

  function CompactWord(c: nat): nat { c % 0x80_0000 }

  predicate CompactSign(c: nat) { c / 0x80_0000 % 2 == 1 }

  /** The magnitude that a compact form stands for, of any size: word * 256^(size - 3), rounded down. */
  ghost function CompactValue(c: nat): nat {
    if CompactSize(c) <= 3 then High(CompactWord(c), 8 * (3 - CompactSize(c)))
    else Mul(CompactWord(c), Pow2(8 * (CompactSize(c) - 3)))
  }

  lemma SmallWord(w: nat, s: nat)
    requires w < 0x80_0000
    ensures High(w, s) <= w
  {
    Divides(w, Pow2(s));
    MulGrows(1, Pow2(s), High(w, s));
    MulOne(High(w, s));
  }

  lemma WordScale(w: nat, e: nat, k: nat, b: nat)
    requires Pow2(e) == k && e <= b
    ensures Mul(w, Pow2(b - e)) >= Pow2(b) <==> w >= k
  {
    var p := Pow2(b - e);
    PowAdd(e, b - e);
    if w >= k {
      MulGrows(k, w, p);
    } else {
      MulStrictly(w, k, p);
    }
  }

  lemma WordTooHigh(w: nat, n: nat, b: nat)
    requires n >= b
    ensures Mul(w, Pow2(n)) >= Pow2(b) <==> w > 0
  {
    PowGrows(b, n);
    MulOne(Pow2(n));
    if w > 0 { MulGrows(1, w, Pow2(n)); }
  }

  lemma WordFits(w: nat, n: nat, b: nat)
    requires w < 0x80_0000 && n + 24 <= b
    ensures Mul(w, Pow2(n)) < Pow2(b)
  {
    Pow23();
    PowAdd(23, n);
    MulStrictly(w, Pow2(23), Pow2(n));
    PowGrows(23 + n, b);
  }

  lemma Pow23()
    ensures Pow2(8) == 0x100 && Pow2(15) == 0x8000 && Pow2(16) == 0x1_0000 && Pow2(23) == 0x80_0000 && Pow2(24) == 0x100_0000
  {
    assert Pow2(8) == 0x100;
    Square(8, 0x100);
    assert Pow2(16) == 2 * Pow2(15);
    PowAdd(16, 8);
    MulIs(Pow2(16), Pow2(8));
    assert Pow2(24) == 2 * Pow2(23);
  }

  lemma WordFits33(w: nat, b: nat)
    requires b >= 16
    ensures Mul(w, Pow2(b - 16)) >= Pow2(b) <==> w > 0xffff
  {
    Pow23();
    WordScale(w, 16, 0x1_0000, b);
  }

  lemma WordFits34(w: nat, b: nat)
    requires b >= 8
    ensures Mul(w, Pow2(b - 8)) >= Pow2(b) <==> w > 0xff
  {
    Pow23();
    WordScale(w, 8, 0x100, b);
  }

  lemma SmallFits(w: nat, s: nat, b: nat)
    requires w < 0x80_0000 && b >= 24
    ensures High(w, s) < Pow2(b)
  {
    SmallWord(w, s);
    Pow23();
    PowGrows(23, b);
  }

  /** The three overflow tests of the source say exactly that the value needs more than 256 bits. */
  lemma CompactFits(c: nat, b: nat)
    requires c < BASE && b == 256
    ensures var size, w := CompactSize(c), CompactWord(c);
            CompactValue(c) >= Pow2(b) <==> size > 3 && w != 0 && (size > 34 || (w > 0xff && size > 33) || (w > 0xffff && size > 32))
  {
    var size, w := CompactSize(c), CompactWord(c);
    if size <= 3 {
      SmallFits(w, 8 * (3 - size), b);
    } else {
      var n := 8 * (size - 3);
      if size <= 32 {
        WordFits(w, n, b);
      } else if size == 33 {
        assert n == b - 16;
        WordFits33(w, b);
      } else if size == 34 {
        assert n == b - 8;
        WordFits34(w, b);
      } else {
        WordTooHigh(w, n, b);
      }
    }
  }

  lemma CompactZero(c: nat)
    requires CompactSize(c) > 3
    ensures CompactValue(c) == 0 <==> CompactWord(c) == 0
  {
    ProductZero(CompactWord(c), Pow2(8 * (CompactSize(c) - 3)));
  }

  /** Some of the numbers of arith_uint256_tests.cpp. */
  lemma CompactVectors()
    ensures CompactValue(0x04123456) == 0x12345600 && !CompactSign(0x04123456)
    ensures CompactValue(0x04923456) == 0x12345600 && CompactSign(0x04923456)
    ensures CompactValue(0x03123456) == 0x123456 && CompactValue(0x05009234) == 0x92340000
  {
    Pow23();
    MulIs(0x123456, 0x100);
    MulIs(0x9234, 0x1_0000);
    QuotRemIs(0x123456, 1);
  }

  lemma CompactFlags(c: nat, word: nat, w: nat)
    requires c < BASE && w == 8 && word == if CompactSize(c) <= 3 then CompactValue(c) else CompactWord(c)
    ensures CompactValue(c) == 0 <==> word == 0
    ensures var size := CompactSize(c);
            CompactValue(c) >= Weight(w) <==> word != 0 && (size > 34 || (word > 0xff && size > 33) || (word > 0xffff && size > 32))
  {
    CompactFits(c, 32 * w);
    if CompactSize(c) > 3 { CompactZero(c); }
    WeightIsPow(w);
  }

  lemma ProductZero(w: nat, p: nat)
    requires p > 0
    ensures Mul(w, p) == 0 <==> w == 0
  {
    MulOne(p);
    if w > 0 { MulGrows(1, w, p); }
  }

  /** A number in units of 256^(n - 3). */
  ghost function Scaled(v: nat, n: nat): nat {
    if n <= 3 then Mul(v, Pow2(8 * (3 - n))) else Quot(v, Pow2(8 * (n - 3)))
  }

  /** The compact form of a number: its leading 16 to 23 bits as word, with the unit as size. */
  ghost predicate IsCompactOf(c: nat, v: nat, negative: bool) {
    && c < BASE && CompactWord(c) == Scaled(v, CompactSize(c))
    && (if v == 0 then c == 0 else CompactWord(c) >= 0x8000 && CompactSign(c) == negative)
  }

  lemma QuotBetween(v: nat, d: nat, lo: nat, hi: nat)
    requires d > 0 && Mul(lo, d) <= v < Mul(hi, d)
    ensures lo <= Quot(v, d) < hi
  {
    Divides(v, d);
    var q := Quot(v, d);
    if q >= hi { MulGrows(hi, q, d); }
    if q < lo { MulStrictly(q, lo, d); }
  }

  lemma ScaledRange(v: nat, nb: nat, n: nat)
    requires nb > 0 && Pow2(nb - 1) <= v < Pow2(nb) && 8 * n - 8 < nb <= 8 * n
    ensures 0x1_0000 <= Scaled(v, n) < 0x100_0000
  {
    Pow23();
    PowGrows(nb, 8 * n);
    PowGrows(8 * n - 8, nb - 1);
    if n <= 3 {
      var e := 8 * (3 - n);
      PowAdd(8 * n, e);
      PowAdd(8 * n - 8, e);
      MulStrictly(v, Pow2(8 * n), Pow2(e));
      MulGrows(Pow2(8 * n - 8), v, Pow2(e));
    } else {
      var e := 8 * (n - 3);
      PowAdd(24, e);
      PowAdd(16, e);
      QuotBetween(v, Pow2(e), 0x1_0000, 0x100_0000);
    }
  }

  lemma QuotQuot(v: nat, p: nat)
    requires p > 0
    ensures Quot(v, 256 * p) == Quot(v, p) / 256
  {
    var q := Quot(v, p);
    Divides(v, p);
    MulAdd(256 * (q / 256), q % 256, p);
    MulIs(q / 256, 256 * p);
    MulIs(256 * (q / 256), p);
    assert (q / 256) * (256 * p) == (256 * (q / 256)) * p;
    MulStrictly(q % 256, 256, p);
    MulIs(256, p);
    DivideUniquely(v, 256 * p, q / 256, Mul(q % 256, p) + Rem(v, p));
  }

  lemma Pow256(n: nat)
    ensures Pow2(n + 8) == 256 * Pow2(n)
  {
    PowAdd(8, n);
    Pow23();
    MulIs(256, Pow2(n));
  }

  /** One unit up divides by 256. */
  lemma ScaledNext(v: nat, n: nat)
    ensures Scaled(v, n + 1) == Scaled(v, n) / 256
  {
    if n < 3 {
      var p := Pow2(8 * (2 - n));
      Pow256(8 * (2 - n));
      MulIs(v, 256 * p);
      MulIs(v, p);
      assert v * (256 * p) == 256 * (v * p);
    } else if n == 3 {
      MulOne(v);
      Pow256(0);
      QuotRemIs(v, 256);
    } else {
      Pow256(8 * (n - 3));
      QuotQuot(v, Pow2(8 * (n - 3)));
    }
  }

  lemma {:induction false} ScaledFalls(v: nat, n: nat, m: nat)
    requires n < m
    ensures Scaled(v, m) <= Scaled(v, n) / 256
  {
    ScaledNext(v, m - 1);
    if n < m - 1 { ScaledFalls(v, n, m - 1); }
  }

  /** A number has one compact form. */
  lemma CompactIsUnique(c: nat, d: nat, v: nat, negative: bool)
    requires IsCompactOf(c, v, negative) && IsCompactOf(d, v, negative)
    ensures c == d
  {
    if v > 0 {
      SameSize(v, CompactSize(c), CompactSize(d));
      Decomposed(c);
      Decomposed(d);
    }
  }

  lemma SameSize(v: nat, n: nat, m: nat)
    requires 0x8000 <= Scaled(v, n) < 0x80_0000 && 0x8000 <= Scaled(v, m) < 0x80_0000
    ensures n == m
  {
    if n < m {
      ScaledFalls(v, n, m);
    } else if m < n {
      ScaledFalls(v, m, n);
    }
  }

  /** Expanding the compact form of a number gives the number rounded down to the unit. */
  lemma CompactTruncates(c: nat, v: nat, negative: bool)
    requires IsCompactOf(c, v, negative)
    ensures var size := CompactSize(c);
            if size <= 3 then CompactValue(c) == v
            else CompactValue(c) <= v < CompactValue(c) + Pow2(8 * (size - 3))
  {
    var size := CompactSize(c);
    if size <= 3 {
      DivideUniquely(CompactWord(c), Pow2(8 * (3 - size)), v, 0);
    } else {
      Divides(v, Pow2(8 * (size - 3)));
    }
  }

  /** A compact form whose word is normalised, and exact for a small size, is the compact form of its value. */
  lemma CompactComesBack(c: nat)
    requires c < BASE && CompactWord(c) >= 0x8000
    requires CompactSize(c) <= 3 ==> Low(CompactWord(c), 8 * (3 - CompactSize(c))) == 0
    ensures IsCompactOf(c, CompactValue(c), CompactSign(c))
  {
    var size, w := CompactSize(c), CompactWord(c);
    if size <= 3 {
      Divides(w, Pow2(8 * (3 - size)));
      ProductZero(CompactValue(c), Pow2(8 * (3 - size)));
    } else {
      DivideUniquely(CompactValue(c), Pow2(8 * (size - 3)), w, 0);
      ProductZero(w, Pow2(8 * (size - 3)));
    }
  }

  lemma Composed(word: nat, size: nat, sign: bool)
    requires word < 0x80_0000 && size < 256
    ensures var c := word + size * 0x100_0000 + if sign then 0x80_0000 else 0;
            c < BASE && CompactWord(c) == word && CompactSize(c) == size && CompactSign(c) == sign
  {}

  lemma MakeCompact(word: nat, size: nat, v: nat, negative: bool)
    requires word == Scaled(v, size) && word < 0x80_0000 && size < 256 && (v == 0 ==> size == 0 && word == 0)
             && (v > 0 ==> word >= 0x8000)
    ensures IsCompactOf(word + size * 0x100_0000 + (if negative && word != 0 then 0x80_0000 else 0), v, negative)
  {
    Composed(word, size, negative && word != 0);
  }

  lemma Decomposed(c: nat)
    ensures c == CompactWord(c) + CompactSize(c) * 0x100_0000 + if CompactSign(c) then 0x80_0000 else 0
  {}

  lemma WordValue(lo: Limb, hi: Limb, n: nat)
    ensures Value([lo, hi] + Zeros(n)) == lo + BASE * hi
  {
    var s: seq<Limb> := [lo, hi] + Zeros(n);
    assert s[1..] == [hi] + Zeros(n) && s[1..][1..] == Zeros(n);
    ZerosAreZero(n);
  }

  class BaseUint {
    const pn: array<Limb>

    ghost function Number(): (v: nat)
      reads this, pn
      ensures v < Weight(pn.Length)
    {
      ValueBound(pn[..]);
      Value(pn[..])
    }

    constructor Zero(width: nat)
      ensures pn.Length == width && fresh(pn) && Number() == 0
    {
      pn := new Limb[width](_ => 0);
      new;
      assert pn[..] == Zeros(width);
      ZerosAreZero(width);
    }

    constructor Copy(b: BaseUint)
      ensures pn.Length == b.pn.Length && fresh(pn) && pn[..] == b.pn[..]
    {
      var p := new Limb[b.pn.Length];
      for i := 0 to b.pn.Length
        invariant p[..i] == b.pn[..i]
      {
        p[i] := b.pn[i];
      }
      pn := p;
    }

    /** operator= */
    method Assign(b: BaseUint)
      requires b.pn.Length == pn.Length
      modifies pn
      ensures pn[..] == old(b.pn[..])
    {
      for i := 0 to pn.Length
        invariant pn[..i] == old(b.pn[..i]) && b.pn[i..] == old(b.pn[i..])
      {
        assert b.pn[i] == b.pn[i..][0];
        pn[i] := b.pn[i];
      }
    }

    /** operator+= of another number, which may be this one. */
    method AddAssign(b: BaseUint)
      requires b.pn.Length == pn.Length
      modifies pn
      ensures Number() == Rem(old(Number()) + old(b.Number()), Weight(pn.Length))
    {
      ghost var x, y := pn[..], b.pn[..];
      AddLimbs(b);
      ghost var q := SumValue(x, y, 0);
      WrapIsRemainder(Sum(x, y, 0), q, Value(x) + Value(y));
    }

    method AddLimbs(b: BaseUint)
      requires b.pn.Length == pn.Length
      modifies pn
      ensures pn[..] == Sum(old(pn[..]), old(b.pn[..]), 0)
    {
      ghost var x, y := pn[..], b.pn[..];
      ghost var s := Sum(x, y, 0);
      var carry: nat := 0;
      for i := 0 to pn.Length
        invariant carry <= 1 && s[i..] == Sum(x[i..], y[i..], carry)
        invariant forall k :: 0 <= k < i ==> pn[k] == s[k]
        invariant forall k :: i <= k < pn.Length ==> pn[k] == x[k] && b.pn[k] == y[k]
      {
        var n := carry + pn[i] + b.pn[i];
        assert n < BASE * BASE;
        SumTail(x, y, s, i, carry);
        pn[i] := n % BASE;
        carry := n / BASE;
      }
    }

    /** operator~ */
    method Complemented() returns (ret: BaseUint)
      ensures fresh(ret) && fresh(ret.pn) && ret.pn.Length == pn.Length
      ensures ret.Number() == Weight(pn.Length) - 1 - Number()
    {
      ret := new BaseUint.Zero(pn.Length);
      for i := 0 to pn.Length
        invariant ret.pn[..i] == Complement(pn[..])[..i]
      {
        ret.pn[i] := BASE - 1 - pn[i];
      }
      assert ret.pn[..] == Complement(pn[..]);
      ComplementValue(pn[..]);
    }

    /** operator++ */
    method Increase()
      modifies pn
      ensures pn[..] == Increment(old(pn[..])) && Number() == Rem(old(Number()) + 1, Weight(pn.Length))
    {
      ghost var x := pn[..];
      IncreaseLimbs();
      ghost var q := IncrementValue(x);
      WrapIsRemainder(Increment(x), q, Value(x) + 1);
    }

    method IncreaseLimbs()
      modifies pn
      ensures pn[..] == Increment(old(pn[..]))
    {
      ghost var x := pn[..];
      var i := 0;
      while i < pn.Length
        invariant 0 <= i <= pn.Length
        invariant forall k :: 0 <= k < i ==> x[k] == BASE - 1 && pn[k] == 0
        invariant forall k :: i <= k < pn.Length ==> pn[k] == x[k]
      {
        pn[i] := (pn[i] + 1) % BASE;
        if pn[i] != 0 {
          IncrementAt(x, i);
          return;
        }
        i := i + 1;
      }
      IncrementAt(x, i);
    }

    /** operator-- */
    method Decrease()
      modifies pn
      ensures pn[..] == Decrement(old(pn[..]))
      ensures Number() == if old(Number()) == 0 then Weight(pn.Length) - 1 else old(Number()) - 1
    {
      ghost var x := pn[..];
      DecreaseLimbs();
      DecrementValue(x);
    }

    method DecreaseLimbs()
      modifies pn
      ensures pn[..] == Decrement(old(pn[..]))
    {
      ghost var x := pn[..];
      var i := 0;
      while i < pn.Length
        invariant 0 <= i <= pn.Length
        invariant forall k :: 0 <= k < i ==> x[k] == 0 && pn[k] == BASE - 1
        invariant forall k :: i <= k < pn.Length ==> pn[k] == x[k]
      {
        pn[i] := if pn[i] == 0 then BASE - 1 else pn[i] - 1;
        if pn[i] != BASE - 1 {
          DecrementAt(x, i);
          return;
        }
        i := i + 1;
      }
      DecrementAt(x, i);
    }

    /** operator- */
    method Negated() returns (ret: BaseUint)
      ensures fresh(ret) && fresh(ret.pn) && ret.pn.Length == pn.Length
      ensures ret.Number() == Rem(Weight(pn.Length) - Number(), Weight(pn.Length))
    {
      ret := Complemented();
      ret.Increase();
      ValueBound(pn[..]);
    }

    /** operator-= */
    method SubtractAssign(b: BaseUint)
      requires b.pn.Length == pn.Length
      modifies pn
      ensures Number() == Rem(old(Number()) + Weight(pn.Length) - old(b.Number()), Weight(pn.Length))
    {
      ghost var x, y, m := Value(pn[..]), Value(b.pn[..]), Weight(pn.Length);
      ValueBound(b.pn[..]);
      var n := b.Negated();
      AddAssign(n);
      RemAdd(x, m - y, m);
    }

    /** operator*= of a 32-bit number. */
    method MultiplyBy(b32: Limb)
      modifies pn
      ensures Number() == Rem(Mul(b32, old(Number())), Weight(pn.Length))
    {
      ghost var x := pn[..];
      MultiplyLimbs(b32);
      ghost var q := RowValue(Zeros(|x|), b32, x, 0);
      ZerosAreZero(|x|);
      WrapIsRemainder(pn[..], q, Mul(b32, Value(x)));
    }

    method MultiplyLimbs(b32: Limb)
      modifies pn
      ensures pn[..] == Row(Zeros(pn.Length), b32, old(pn[..]), 0)
    {
      ghost var x, z := pn[..], Zeros(pn.Length);
      ghost var s := Row(z, b32, x, 0);
      var carry: Limb := 0;
      for i := 0 to pn.Length
        invariant s[i..] == Row(z[i..], b32, x[i..], carry)
        invariant forall k :: 0 <= k < i ==> pn[k] == s[k]
        invariant forall k :: i <= k < pn.Length ==> pn[k] == x[k]
      {
        RowTail(z, b32, x, s, i, carry);
        pn[i], carry := Column(carry, 0, b32, pn[i]);
      }
    }

    /** One pass of the inner loop of operator*=: this number, from limb j up, plus x times b. */
    method AddRow(j: nat, x: Limb, b: seq<Limb>)
      requires j < pn.Length && |b| == pn.Length - j
      modifies pn
      ensures pn[..] == old(pn[..])[..j] + Row(old(pn[..])[j..], x, b, 0)
    {
      ghost var was := pn[..];
      ghost var acc := was[j..];
      ghost var s := Row(acc, x, b, 0);
      var carry: Limb := 0;
      for i := 0 to |b|
        invariant s[i..] == Row(acc[i..], x, b[i..], carry)
        invariant forall k :: 0 <= k < i ==> pn[j + k] == s[k]
        invariant forall k :: 0 <= k < pn.Length && !(j <= k < j + i) ==> pn[k] == was[k]
      {
        assert acc[i] == was[j + i];
        RowTail(acc, x, b, s, i, carry);
        pn[j + i], carry := Column(carry, pn[j + i], x, b[i]);
      }
      assert pn[..j] == was[..j] && pn[j..] == s;
    }

    /** The rows of a long multiplication. */
    method Multiplied(b: BaseUint) returns (a: BaseUint)
      requires b.pn.Length == pn.Length
      ensures fresh(a) && fresh(a.pn) && a.pn.Length == pn.Length && a.pn[..] == Rows(Zeros(pn.Length), pn[..], b.pn[..])
    {
      ghost var x, y, w := pn[..], b.pn[..], pn.Length;
      a := new BaseUint.Zero(pn.Length);
      assert a.pn[..] == Zeros(w) by { ZerosOnly(a.pn[..]); }
      RowsFromEnds(Zeros(w), x, y);
      for j := 0 to pn.Length
        invariant fresh(a.pn) && a.pn.Length == w && pn[..] == x && b.pn[..] == y
        invariant RowsFrom(a.pn[..], x, y, j) == Rows(Zeros(w), x, y)
      {
        ghost var acc := a.pn[..];
        var factor := b.pn[..pn.Length - j];
        assert pn[j] == x[j] && factor == y[..w - j];
        a.AddRow(j, pn[j], factor);
        RowsFromNext(acc, a.pn[..], x, y, j);
      }
      RowsFromEnds(a.pn[..], x, y);
    }

    /** operator*= */
    method MultiplyAssign(b: BaseUint)
      requires b.pn.Length == pn.Length
      modifies pn
      ensures Number() == Rem(Mul(old(Number()), old(b.Number())), Weight(pn.Length))
    {
      ghost var x, y, w := pn[..], b.pn[..], pn.Length;
      var a := Multiplied(b);
      ghost var q := RowsValue(Zeros(w), x, y);
      ZerosAreZero(w);
      WrapIsRemainder(a.pn[..], q, Mul(Value(x), Value(y)));
      Assign(a);
    }

    method Clear()
      modifies pn
      ensures pn[..] == Zeros(pn.Length) && Number() == 0
    {
      for i := 0 to pn.Length
        invariant forall k :: 0 <= k < i ==> pn[k] == 0
      {
        pn[i] := 0;
      }
      assert pn[..] == Zeros(pn.Length);
      ZerosAreZero(pn.Length);
    }

    /** operator<<= */
    method ShiftLeftAssign(shift: nat)
      modifies pn
      ensures Number() == Rem(Mul(old(Number()), Pow2(shift)), Weight(pn.Length))
    {
      ghost var x := pn[..];
      var a := new BaseUint.Copy(this);
      Clear();
      ShiftLeftLimbs(a, shift / 32, shift % 32);
      LeftIsProduct(x, shift / 32, shift % 32);
    }

    method ShiftLeftLimbs(a: BaseUint, k: nat, s: nat)
      requires a.pn != pn && a.pn.Length == pn.Length && s < 32 && pn[..] == Zeros(pn.Length)
      modifies pn
      ensures pn[..] == ShiftedLeft(a.pn[..], k, s)
    {
      ghost var x := a.pn[..];
      ghost var t := ShiftedLeft(x, k, s);
      for i := 0 to pn.Length
        invariant a.pn[..] == x
        invariant forall m :: 0 <= m < pn.Length && m < k + i ==> pn[m] == t[m]
        invariant i > 0 && k + i < pn.Length ==> pn[k + i] == High(x[i - 1], 32 - s)
        invariant forall m :: 0 <= m < pn.Length && m >= k + i && (m > k + i || i == 0) ==> pn[m] == 0
      {
        ghost var below := if i == 0 then 0 else High(x[i - 1], 32 - s);
        LeftParts(x, k, s, i, below);
        if i + k + 1 < pn.Length && s != 0 {
          var high := Shifted(a.pn[i], 32 - s);
          pn[i + k + 1] := Or(pn[i + k + 1], high);
        }
        if i + k < pn.Length {
          MulIs(a.pn[i], Pow2(s));
          pn[i + k] := Or(pn[i + k], a.pn[i] * Pow2(s) % BASE);
        }
      }
    }

    /** operator>>= */
    method ShiftRightAssign(shift: nat)
      modifies pn
      ensures Number() == Quot(old(Number()), Pow2(shift))
    {
      ghost var x := pn[..];
      var a := new BaseUint.Copy(this);
      Clear();
      ShiftRightLimbs(a, shift / 32, shift % 32);
      RightIsQuotient(x, shift / 32, shift % 32);
    }

    method ShiftRightLimbs(a: BaseUint, k: nat, s: nat)
      requires a.pn != pn && a.pn.Length == pn.Length && s < 32 && pn[..] == Zeros(pn.Length)
      modifies pn
      ensures pn[..] == ShiftedRight(a.pn[..], k, s)
    {
      ghost var x, w := a.pn[..], pn.Length;
      ghost var t := ShiftedRight(x, k, s);
      for i := 0 to pn.Length
        invariant a.pn[..] == x
        invariant forall m :: 0 <= m < i - k - 1 ==> pn[m] == t[m]
        invariant i - k - 1 >= 0 ==> pn[i - k - 1] == High(x[i - 1], s)
        invariant forall m :: 0 <= m < w && m >= i - k ==> pn[m] == 0
      {
        RightParts(x, k, s, i);
        if i - k - 1 >= 0 && s != 0 {
          MulIs(a.pn[i], Pow2(32 - s));
          pn[i - k - 1] := Or(pn[i - k - 1], a.pn[i] * Pow2(32 - s) % BASE);
        }
        if i - k >= 0 {
          var high := Shifted(a.pn[i], s);
          pn[i - k] := Or(pn[i - k], high);
        }
      }
      if w - k - 1 >= 0 { RightTop(x, k, s); }
    }

    /** CompareTo: the sign says how the numbers compare. */
    method CompareTo(b: BaseUint) returns (c: int)
      requires b.pn.Length == pn.Length
      ensures c == if Number() < b.Number() then -1 else if Number() > b.Number() then 1 else 0
    {
      var i := pn.Length;
      while i > 0
        invariant 0 <= i <= pn.Length && pn[i..] == b.pn[i..]
      {
        i := i - 1;
        HighestDecides(pn[..], b.pn[..], i);
        if pn[i] < b.pn[i] { return -1; }
        if pn[i] > b.pn[i] { return 1; }
      }
      assert pn[..] == pn[0..] && b.pn[..] == b.pn[0..];
      return 0;
    }

    /** bits: the length of the number in bits. */
    method Bits() returns (n: nat)
      ensures n <= 32 * pn.Length
      ensures if Number() == 0 then n == 0 else n > 0 && Pow2(n - 1) <= Number() < Pow2(n)
    {
      var pos := pn.Length;
      while pos > 0
        invariant 0 <= pos <= pn.Length && forall k :: pos <= k < pn.Length ==> pn[k] == 0
      {
        pos := pos - 1;
        if pn[pos] != 0 {
          var nbits := LimbBits(pn[pos]);
          BitLength(pn[..], pos, nbits);
          return 32 * pos + nbits;
        }
      }
      assert pn[..] == Zeros(pn.Length);
      ZerosAreZero(pn.Length);
      return 0;
    }

    /** operator/=: the floor of the quotient, or an error for a zero divisor. */
    method DivideAssign(b: BaseUint) returns (error: bool)
      requires b.pn.Length == pn.Length
      modifies pn
      ensures error == (old(b.Number()) == 0)
      ensures Number() == if error then 0 else Quot(old(Number()), old(b.Number()))
    {
      var div := new BaseUint.Copy(b);
      var num := new BaseUint.Copy(this);
      Clear();
      var num_bits := num.Bits();
      var div_bits := div.Bits();
      if div_bits == 0 { return true; }
      if div_bits > num_bits {
        PowGrows(num_bits, div_bits - 1);
        SmallRem(num.Number(), div.Number());
        return false;
      }
      Divide(num, div, num_bits - div_bits, num_bits, div_bits);
      return false;
    }

    /** The shift-and-subtract loop, with the divisor yet to be aligned. */
    method Divide(num: BaseUint, div: BaseUint, top: nat, ghost num_bits: nat, ghost div_bits: nat)
      requires num.pn.Length == div.pn.Length == pn.Length && pn[..] == Zeros(pn.Length)
      requires num.pn != div.pn && num.pn != pn && div.pn != pn
      requires 0 < div_bits && top + div_bits == num_bits <= 32 * pn.Length
      requires num.Number() < Pow2(num_bits) && Pow2(div_bits - 1) <= div.Number() < Pow2(div_bits)
      modifies pn, num.pn, div.pn
      ensures Number() == Quot(old(num.Number()), old(div.Number()))
    {
      ghost var a, d, w := num.Number(), div.Number(), pn.Length;
      Aligned(a, d, top, num_bits, div_bits, w);
      div.ShiftLeftAssign(top);
      ZerosAreZero(w);
      MulOne(d);
      ClearZeros(w, top + 1);
      var shift: int := top;
      while shift >= 0
        invariant -1 <= shift <= top
        invariant ClearBelow(pn[..], shift + 1)
        invariant a == Mul(Number(), d) + num.Number() && num.Number() < Mul(d, Pow2(shift + 1))
        invariant shift >= 0 ==> div.Number() == Mul(d, Pow2(shift))
      {
        DivideStep(num, div, shift, a, d);
        div.ShiftRightAssign(1);
        HalfDivisor(d, shift);
        shift := shift - 1;
      }
      MulOne(d);
      DivideUniquely(a, d, Number(), num.Number());
    }

    /** One round: subtract the shifted divisor if it fits, and set the bit. */
    method DivideStep(num: BaseUint, div: BaseUint, shift: nat, ghost a: nat, ghost d: nat)
      requires num.pn.Length == div.pn.Length == pn.Length && num.pn != div.pn && num.pn != pn && div.pn != pn
      requires shift < 32 * pn.Length && ClearBelow(pn[..], shift + 1) && div.Number() == Mul(d, Pow2(shift))
      requires a == Mul(Number(), d) + num.Number() && num.Number() < Mul(d, Pow2(shift + 1))
      modifies pn, num.pn
      ensures ClearBelow(pn[..], shift) && a == Mul(Number(), d) + num.Number() && num.Number() < Mul(d, Pow2(shift))
    {
      ghost var n, v, q := num.Number(), div.Number(), Number();
      MulAddRight(d, Pow2(shift), Pow2(shift));
      var c := num.CompareTo(div);
      if c >= 0 {
        num.SubtractAssign(div);
        Subtracts(n, v, Weight(pn.Length));
        SetQuotientBit(shift);
        Quotient(a, q, d, n, shift);
      } else {
        SetBit(pn[..], shift);
        SetBitClear(pn[..], shift, pn[shift / 32] + Pow2(shift % 32));
      }
    }

    method SetQuotientBit(shift: nat)
      requires shift < 32 * pn.Length && ClearBelow(pn[..], shift + 1)
      modifies pn
      ensures Number() == old(Number()) + Pow2(shift) && ClearBelow(pn[..], shift)
    {
      ghost var x := pn[..];
      SetBit(x, shift);
      SetBitClear(x, shift, x[shift / 32] + Pow2(shift % 32));
      SetBitValue(x, shift);
      pn[shift / 32] := Or(pn[shift / 32], Pow2(shift % 32));
      assert pn[..] == x[shift / 32 := x[shift / 32] + Pow2(shift % 32)];
    }

    /** operator= of a 64-bit number. */
    method AssignWord(b: nat)
      requires pn.Length >= 2 && b < BASE * BASE
      modifies pn
      ensures Number() == b
    {
      pn[0], pn[1] := b % BASE, b / BASE;
      for i := 2 to pn.Length
        invariant pn[0] == b % BASE && pn[1] == b / BASE && forall k :: 2 <= k < i ==> pn[k] == 0
      {
        pn[i] := 0;
      }
      assert pn[..] == [b % BASE, b / BASE] + Zeros(pn.Length - 2);
      WordValue(b % BASE, b / BASE, pn.Length - 2);
    }

    /** Comparison with 0. */
    method IsZero() returns (z: bool)
      ensures z == (Number() == 0)
    {
      for i := 0 to pn.Length
        invariant forall k :: 0 <= k < i ==> pn[k] == 0
      {
        if pn[i] != 0 {
          if Number() == 0 { ZerosOnly(pn[..]); }
          return false;
        }
      }
      assert pn[..] == Zeros(pn.Length);
      ZerosAreZero(pn.Length);
      return true;
    }

    /** GetLow64 */
    function Low64(): (r: nat)
      requires pn.Length >= 2
      reads this, pn
    {
      pn[0] + BASE * pn[1]
    }

    /** GetLow64, kept to 32 bits. */
    method LowWord32() returns (word: nat)
      requires pn.Length >= 2 && Number() < BASE
      ensures word == Number()
    {
      LowIsAll(pn[..]);
      word := Low64() % BASE;
    }

    /** SetCompact: the number written in compact form, whether it is negative, and whether it does
        not fit 256 bits. */
    method SetCompact(nCompact: nat) returns (fNegative: bool, fOverflow: bool)
      requires pn.Length == 8 && nCompact < BASE
      modifies pn
      ensures Number() == Rem(CompactValue(nCompact), Weight(pn.Length))
      ensures fNegative == (CompactValue(nCompact) != 0 && CompactSign(nCompact))
      ensures fOverflow == (CompactValue(nCompact) >= Weight(pn.Length))
    {
      var nSize := nCompact / 0x100_0000;
      var nWord := nCompact % 0x80_0000;
      if nSize <= 3 {
        nWord := Shifted(nWord, 8 * (3 - nSize));
        SmallWord(nCompact % 0x80_0000, 8 * (3 - nSize));
        AssignWord(nWord);
        SmallRem(nWord, Weight(pn.Length));
      } else {
        AssignWord(nWord);
        ShiftLeftAssign(8 * (nSize - 3));
      }
      CompactFlags(nCompact, nWord, pn.Length);
      fNegative := nWord != 0 && nCompact / 0x80_0000 % 2 == 1;
      fOverflow := nWord != 0 && (nSize > 34 || (nWord > 0xff && nSize > 33) || (nWord > 0xffff && nSize > 32));
    }

    /** GetCompact.  The two asserts of the source, that the word has 23 bits and the size 8, hold. */
    method GetCompact(fNegative: bool) returns (nCompact: nat)
      requires pn.Length == 8
      ensures IsCompactOf(nCompact, Number(), fNegative)
    {
      var bits := Bits();
      var nSize := (bits + 7) / 8;
      nCompact := LeadingWord(nSize, bits);
      ghost var v := Number();
      ScaledNext(v, nSize);
      if nCompact / 0x80_0000 % 2 == 1 {
        nCompact := nCompact / 256;
        nSize := nSize + 1;
      }
      assert nCompact < 0x80_0000 && nSize < 256;
      MakeCompact(nCompact, nSize, v, fNegative);
      var sign := if fNegative && nCompact != 0 then 0x80_0000 else 0;
      nCompact := nCompact + nSize * 0x100_0000 + sign;
    }

    /** The three leading bytes. */
    method LeadingWord(nSize: nat, bits: nat) returns (word: nat)
      requires pn.Length == 8 && bits <= 256 && nSize == (bits + 7) / 8
      requires if Number() == 0 then bits == 0 else bits > 0 && Pow2(bits - 1) <= Number() < Pow2(bits)
      ensures word == Scaled(Number(), nSize)
      ensures if Number() == 0 then word == 0 else 0x1_0000 <= word < 0x100_0000
    {
      ghost var v := Number();
      LeadingRange(v, bits, nSize);
      if nSize <= 3 {
        LowWord(v, bits, nSize);
        LowIsAll(pn[..]);
        word := WordProduct(Low64(), nSize);
      } else {
        var bn := new BaseUint.Copy(this);
        bn.ShiftRightAssign(8 * (nSize - 3));
        word := bn.LowWord32();
      }
    }
  }

  lemma LeadingRange(v: nat, bits: nat, nSize: nat)
    requires nSize == (bits + 7) / 8 && if v == 0 then bits == 0 else bits > 0 && Pow2(bits - 1) <= v < Pow2(bits)
    ensures if v == 0 then Scaled(v, nSize) == 0 else 0x1_0000 <= Scaled(v, nSize) < 0x100_0000
  {
    if v == 0 {
      MulOne(Pow2(8 * (3 - nSize)));
    } else {
      ScaledRange(v, bits, nSize);
    }
  }

  /** x << 8 * (3 - n), kept to 32 bits. */
  method WordProduct(x: nat, n: nat) returns (word: nat)
    requires n <= 3 && Scaled(x, n) < BASE
    ensures word == Scaled(x, n)
  {
    MulIs(x, Pow2(8 * (3 - n)));
    word := x * Pow2(8 * (3 - n)) % BASE;
  }

  /** Limb by limb, an increment that carries through the first i limbs. */
  lemma {:induction false} IncrementAt(x: seq<Limb>, i: nat)
    requires i <= |x| && forall k :: 0 <= k < i ==> x[k] == BASE - 1
    ensures forall k :: 0 <= k < i ==> Increment(x)[k] == 0
    ensures i < |x| && x[i] != BASE - 1 ==> Increment(x)[i] == x[i] + 1 && forall k :: i < k < |x| ==>
            Increment(x)[k] == x[k]
  {
    if i > 0 { IncrementAt(x[1..], i - 1); }
  }

  lemma {:induction false} DecrementAt(x: seq<Limb>, i: nat)
    requires i <= |x| && forall k :: 0 <= k < i ==> x[k] == 0
    ensures forall k :: 0 <= k < i ==> Decrement(x)[k] == BASE - 1
    ensures i < |x| && x[i] != 0 ==> Decrement(x)[i] == x[i] - 1 && forall k :: i < k < |x| ==> Decrement(x)[k] == x[k]
  {
    if i > 0 { DecrementAt(x[1..], i - 1); }
  }

  lemma SumTail(x: seq<Limb>, y: seq<Limb>, s: seq<Limb>, i: nat, carry: nat)
    requires |x| == |y| == |s| && i < |x| && s[i..] == Sum(x[i..], y[i..], carry)
    ensures var n := carry + x[i] + y[i]; s[i] == n % BASE && s[i + 1..] == Sum(x[i + 1..], y[i + 1..], n / BASE)
  {
    assert x[i..][1..] == x[i + 1..] && y[i..][1..] == y[i + 1..];
    assert s[i] == s[i..][0] && s[i + 1..] == s[i..][1..];
  }

  lemma RowTail(acc: seq<Limb>, x: Limb, b: seq<Limb>, s: seq<Limb>, i: nat, carry: Limb)
    requires |acc| == |b| == |s| && i < |b| && s[i..] == Row(acc[i..], x, b[i..], carry)
    ensures var n := carry + acc[i] + Mul(x, b[i]);
            n < BASE * BASE && n / BASE < BASE && s[i] == n % BASE
                && s[i + 1..] == Row(acc[i + 1..], x, b[i + 1..], n / BASE)
  {
    ColumnFits(carry, acc[i], x, b[i]);
    assert acc[i..][1..] == acc[i + 1..] && b[i..][1..] == b[i + 1..];
    assert s[i] == s[i..][0] && s[i + 1..] == s[i..][1..];
  }

  /** The product when the rows below j have been added. */
  ghost function RowsFrom(acc: seq<Limb>, x: seq<Limb>, y: seq<Limb>, j: nat): seq<Limb>
    requires |acc| == |x| == |y| && j <= |x|
  {
    acc[..j] + Rows(acc[j..], x[j..], y[..|y| - j])
  }

  lemma RowsFromEnds(acc: seq<Limb>, x: seq<Limb>, y: seq<Limb>)
    requires |acc| == |x| == |y|
    ensures RowsFrom(acc, x, y, 0) == Rows(acc, x, y) && RowsFrom(acc, x, y, |x|) == acc
  {
    assert acc[0..] == acc && x[0..] == x && y[..|y| - 0] == y;
  }

  lemma RowsFromNext(acc: seq<Limb>, acc': seq<Limb>, x: seq<Limb>, y: seq<Limb>, j: nat)
    requires |acc| == |x| == |y| && j < |x| && acc' == acc[..j] + Row(acc[j..], x[j], y[..|y| - j], 0)
    ensures RowsFrom(acc', x, y, j + 1) == RowsFrom(acc, x, y, j)
  {
    var a, u, v := acc[j..], x[j..], y[..|y| - j];
    var r := Row(a, u[0], v, 0);
    assert u[1..] == x[j + 1..] && v[..|v| - 1] == y[..|y| - (j + 1)];
    assert acc'[..j + 1] == acc[..j] + [r[0]] && acc'[j + 1..] == r[1..];
    RowsCons(a, u, v);
  }

  lemma RowsCons(a: seq<Limb>, u: seq<Limb>, v: seq<Limb>)
    requires |a| == |u| == |v| > 0
    ensures var r := Row(a, u[0], v, 0); Rows(a, u, v) == [r[0]] + Rows(r[1..], u[1..], v[..|v| - 1])
  {}

  lemma {:induction false} ZerosOnly(s: seq<Limb>)
    requires Value(s) == 0
    ensures s == Zeros(|s|)
  {
    if s != [] {
      ZerosOnly(s[1..]);
      assert s == [s[0]] + s[1..];
    }
  }

  /** The limb parts that the loop of operator<<= ors together at index i. */
  lemma LeftParts(x: seq<Limb>, k: nat, s: nat, i: nat, below: nat)
    requires s < 32 && i < |x| && below == if i == 0 then 0 else High(x[i - 1], 32 - s)
    ensures forall m :: 0 <= m < k && m < |x| ==> ShiftedLeft(x, k, s)[m] == 0
    ensures k + i < |x| ==> ShiftedLeft(x, k, s)[k + i] == Or(below, Mul(x[i], Pow2(s)) % BASE) < BASE
    ensures Or(0, High(x[i], 32 - s)) == High(x[i], 32 - s) < BASE && (s == 0 ==> High(x[i], 32 - s) == 0)
  {
    if i > 0 { Parts(x[i - 1], 32 - s); }
    LeftMerge(x[i], s, below);
    LeftHigh(x[i], s);
    LeftBitsAt(x, s, 0, i);
  }

  lemma LeftMerge(x: Limb, s: nat, below: nat)
    requires s < 32 && below < Pow2(s)
    ensures Or(below, Mul(x, Pow2(s)) % BASE) == Mul(Low(x, 32 - s), Pow2(s)) + below
  {
    Parts(x, 32 - s);
    OrIsSum(Low(x, 32 - s), below, s);
  }

  lemma LeftHigh(x: Limb, s: nat)
    requires s < 32
    ensures Or(0, High(x, 32 - s)) == High(x, 32 - s) < BASE && (s == 0 ==> High(x, 32 - s) == 0)
  {
    Parts(x, 32 - s);
    OrZero(High(x, 32 - s));
    OrCommutes(0, High(x, 32 - s));
    PowGrows(s, 32);
    PowBase();
  }

  /** The limb parts that the loop of operator>>= ors together at index i. */
  lemma RightParts(x: seq<Limb>, k: nat, s: nat, i: nat)
    requires s < 32 && i < |x|
    ensures i - k - 1 >= 0 ==> ShiftedRight(x, k, s)[i - k - 1] == Or(High(x[i - 1], s), Mul(x[i], Pow2(32 - s)) % BASE) < BASE
    ensures i - k - 1 >= 0 && s == 0 ==> ShiftedRight(x, k, s)[i - k - 1] == High(x[i - 1], s)
    ensures Or(0, High(x[i], s)) == High(x[i], s) < BASE
  {
    Parts(x[i], s);
    OrZero(High(x[i], s));
    OrCommutes(0, High(x[i], s));
    PowGrows(32 - s, 32);
    PowBase();
    if i - k - 1 >= 0 {
      Parts(x[i - 1], s);
      RightBitsAt(x[k..], s, i - k - 1);
      OrIsSum(Low(x[i], s), High(x[i - 1], s), 32 - s);
      if s == 0 { MulOne(Pow2(32 - s)); }
    }
  }

  lemma RightTop(x: seq<Limb>, k: nat, s: nat)
    requires s < 32 && |x| - k - 1 >= 0
    ensures ShiftedRight(x, k, s)[|x| - k - 1] == High(x[|x| - 1], s)
  {
    RightBitsAt(x[k..], s, |x| - k - 1);
    MulOne(Pow2(32 - s));
  }

  lemma TopBit(x: nat, n: nat)
    requires x < Pow2(n + 1)
    ensures High(x, n) % 2 == 1 <==> x >= Pow2(n)
  {
    MulOne(Pow2(n));
    if x >= Pow2(n) { DivideUniquely(x, Pow2(n), 1, x - Pow2(n)); } else { SmallRem(x, Pow2(n)); }
  }

  method LimbBits(x: Limb) returns (n: nat)
    requires x != 0
    ensures 0 < n <= 32 && Pow2(n - 1) <= x < Pow2(n)
  {
    var nbits := 31;
    PowBase();
    while nbits > 0
      invariant 0 <= nbits <= 31 && x < Pow2(nbits + 1)
    {
      TopBit(x, nbits);
      var high := Shifted(x, nbits);
      if high % 2 == 1 { return nbits + 1; }
      nbits := nbits - 1;
    }
    return 1;
  }

  lemma Aligned(a: nat, d: nat, top: nat, num_bits: nat, div_bits: nat, w: nat)
    requires 0 < div_bits && top + div_bits == num_bits <= 32 * w && a < Pow2(num_bits)
             && Pow2(div_bits - 1) <= d < Pow2(div_bits)
    ensures Rem(Mul(d, Pow2(top)), Weight(w)) == Mul(d, Pow2(top)) && a < Mul(d, Pow2(top + 1))
  {
    PowAdd(div_bits, top);
    MulStrictly(d, Pow2(div_bits), Pow2(top));
    PowGrows(num_bits, 32 * w);
    WeightIsPow(w);
    PowAdd(div_bits - 1, top + 1);
    MulGrows(Pow2(div_bits - 1), d, Pow2(top + 1));
    SmallRem(Mul(d, Pow2(top)), Weight(w));
  }

  lemma ClearZeros(w: nat, j: nat)
    ensures ClearBelow(Zeros(w), j)
  {
    MulOne(Pow2(j % 32));
  }

  lemma HalfDivisor(d: nat, shift: nat)
    ensures shift > 0 ==> Quot(Mul(d, Pow2(shift)), Pow2(1)) == Mul(d, Pow2(shift - 1))
  {
    if shift > 0 {
      var h := Mul(d, Pow2(shift - 1));
      MulAddRight(d, Pow2(shift - 1), Pow2(shift - 1));
      MulIs(h, 2);
      DivideUniquely(2 * h, 2, h, 0);
    }
  }

  lemma Subtracts(n: nat, v: nat, m: nat)
    requires v <= n < m
    ensures Rem(n + m - v, m) == n - v
  {
    MulOne(m);
    DivideUniquely(n + m - v, m, 1, n - v);
  }

  lemma Quotient(a: nat, q: nat, d: nat, n: nat, shift: nat)
    requires a == Mul(q, d) + n && Mul(d, Pow2(shift)) <= n
    ensures a == Mul(q + Pow2(shift), d) + (n - Mul(d, Pow2(shift)))
  {
    MulAdd(q, Pow2(shift), d);
    MulCommutes(d, Pow2(shift));
  }

  /** A number of at most 64 bits is its low two limbs. */
  lemma LowIsAll(s: seq<Limb>)
    requires |s| >= 2 && Value(s) < BASE * BASE
    ensures Value(s) == s[0] + BASE * s[1]
  {
    assert Value(s) == s[0] + BASE * (s[1] + BASE * Value(s[1..][1..]));
  }

  lemma LowWord(v: nat, bits: nat, nSize: nat)
    requires nSize <= 3 && nSize == (bits + 7) / 8 && v < Pow2(bits)
    ensures v < BASE
  {
    PowGrows(bits, 24);
    Pow23();
  }

  lemma RemAdd(x: nat, y: nat, m: nat)
    requires m > 0
    ensures Rem(x + Rem(y, m), m) == Rem(x + y, m)
  {
    Divides(y, m);
    var q, z := Quot(y, m), x + Rem(y, m);
    Divides(z, m);
    MulAdd(q, Quot(z, m), m);
    DivideUniquely(x + y, m, q + Quot(z, m), Rem(z, m));
  }

  // ----- The work that a block proves

  /** No target of 256 one bits has a compact form, so that adding one does not wrap. */
  lemma CompactIsNotAllOnes(c: nat, b: nat)
    requires CompactValue(c) < Pow2(b) && b >= 24
    ensures CompactValue(c) + 1 < Pow2(b)
  {
    var size, w := CompactSize(c), CompactWord(c);
    if size <= 3 {
      SmallWord(w, 8 * (3 - size));
      Pow23();
      PowGrows(24, b);
    } else {
      ProductIsEven(w, 8 * (size - 3));
      assert Pow2(b) == 2 * Pow2(b - 1);
    }
  }

  lemma ProductIsEven(w: nat, n: nat)
    requires n > 0
    ensures Mul(w, Pow2(n)) % 2 == 0
  {
    MulAddRight(w, Pow2(n - 1), Pow2(n - 1));
  }

  lemma ProofFits(m: nat, d: nat)
    requires 2 <= d <= m
    ensures Quot(m, d) == Quot(m - d, d) + 1 < m
  {
    var q := Quot(m, d);
    Divides(m, d);
    Divides(m - d, d);
    MulAdd(Quot(m - d, d), 1, d);
    MulOne(d);
    DivideUniquely(m, d, Quot(m - d, d) + 1, Rem(m - d, d));
    MulGrows(2, d, q);
    MulCommutes(2, q);
    MulCommutes(d, q);
    MulIs(q, 2);
  }

  /** GetBlockProof: the floor of 2^256 / (target + 1), or zero for a target that is negative, zero or
      does not fit 256 bits. */
  method GetBlockProof(nBits: nat) returns (proof: BaseUint)
    requires nBits < BASE
    ensures fresh(proof) && proof.pn.Length == 8
    ensures var target, m := CompactValue(nBits), Weight(proof.pn.Length);
            proof.Number() == if target == 0 || target >= m || CompactSign(nBits) then 0 else Quot(m, target + 1)
  {
    var bnTarget := new BaseUint.Zero(8);
    var fNegative, fOverflow := bnTarget.SetCompact(nBits);
    if fNegative || fOverflow {
      proof := new BaseUint.Zero(8);
      return;
    }
    ghost var t, m := CompactValue(nBits), Weight(bnTarget.pn.Length);
    SmallRem(t, m);
    var zero := bnTarget.IsZero();
    if zero {
      proof := new BaseUint.Zero(8);
      return;
    }
    WeightIsPow(bnTarget.pn.Length);
    CompactIsNotAllOnes(nBits, 32 * bnTarget.pn.Length);
    proof := WorkOf(bnTarget);
  }

  /** ~target / (target + 1) + 1 */
  method WorkOf(bnTarget: BaseUint) returns (proof: BaseUint)
    requires 0 < bnTarget.Number() && bnTarget.Number() + 1 < Weight(bnTarget.pn.Length)
    ensures fresh(proof) && proof.pn.Length == bnTarget.pn.Length
    ensures proof.Number() == Quot(Weight(bnTarget.pn.Length), bnTarget.Number() + 1)
  {
    ghost var t, m := bnTarget.Number(), Weight(bnTarget.pn.Length);
    proof := bnTarget.Complemented();
    ghost var p0 := proof.Number();
    var d := new BaseUint.Copy(bnTarget);
    d.Increase();
    ghost var d0 := d.Number();
    SmallRem(t + 1, m);
    var error := proof.DivideAssign(d);
    ghost var p1 := proof.Number();
    proof.Increase();
    WorkAlgebra(m, t, p0, d0, p1, proof.Number());
  }

  lemma WorkAlgebra(m: nat, t: nat, p0: nat, d: nat, p1: nat, p2: nat)
    requires 0 < t && t + 1 < m && p0 == m - 1 - t && d == t + 1 && p1 == Quot(p0, d) && p2 == Rem(p1 + 1, m)
    ensures p2 == Quot(m, t + 1)
  {
    ProofFits(m, d);
    SmallRem(p1 + 1, m);
  }

  /** The work in terms of the ordinary quotient of 2^256. */
  lemma WorkIsFloor(target: nat)
    ensures Quot(Weight(8), target + 1) == Weight(8) / (target + 1)
  {
    QuotRemIs(Weight(8), target + 1);
  }
}
