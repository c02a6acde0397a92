/**
 The Bech32 and Bech32m codec of bech32.cpp (BIP 173 and BIP 350).

 The checksum is a linear code over symbols of five bits.  `Run` is the checksum loop from any start
 value; it is linear for exclusive or, which gives the checksum its properties.
 */
module Bech32 {
  import opened Basics

  type Symbol = n: nat | n < 32

  datatype Encoding = BECH32 | BECH32M

  function EncodingConstant(e: Encoding): bv32 { if e.BECH32? then 1 else 0x2bc830a3 }

  // ----- Symbols as words

  /** The low five bits of a number as a 32-bit word. */
  function ToWord(n: Symbol): bv32 {
    (if n % 2 == 1 then 1 else 0) | (if n / 2 % 2 == 1 then 2 else 0) | (if n / 4 % 2 == 1 then 4 else 0)
    | (if n / 8 % 2 == 1 then 8 else 0) | (if n / 16 % 2 == 1 then 16 else 0)
  }

  /** The low five bits of a word as a symbol. */
  function ToSymbol(w: bv32): (n: Symbol) {
    (if w & 1 != 0 then 1 else 0) + (if w & 2 != 0 then 2 else 0) + (if w & 4 != 0 then 4 else 0)
    + (if w & 8 != 0 then 8 else 0) + (if w & 16 != 0 then 16 else 0)
  }

  ghost predicate IsWord(w: bv32, n: Symbol) { forall k: int {:trigger Named(k)} :: k == n ==> w == ToWord(n) }

  predicate Named(n: int) { true }

  predicate Spelled(w: bv32) { true }

  /** The same, which `WordIs` says. */
  ghost function Word(n: Symbol): bv32 {
    assert IsWord(ToWord(n), n);
    var w :| IsWord(w, n);
    w
  }

  lemma WordIs(n: Symbol)
    ensures Word(n) == ToWord(n)
  {
    assert IsWord(Word(n), n);
    assert Named(n);
  }

  ghost predicate IsSymbol(n: Symbol, w: bv32) { forall k: bv32 {:trigger Spelled(k)} :: k == w ==> n == ToSymbol(w) }

  /** The same, which `SymbolIs` says. */
  ghost function SymbolOf(w: bv32): Symbol {
    assert IsSymbol(ToSymbol(w), w);
    var n: Symbol :| IsSymbol(n, w);
    n
  }

  lemma SymbolIs(w: bv32)
    ensures SymbolOf(w) == ToSymbol(w)
  {
    assert IsSymbol(SymbolOf(w), w);
    assert Spelled(w);
  }

  lemma WordOfSymbol(w: bv32)
    ensures Word(SymbolOf(w)) == w & 31
  {
    SymbolIs(w);
    WordIs(ToSymbol(w));
    var a, b, c, d, e := w & 1 != 0, w & 2 != 0, w & 4 != 0, w & 8 != 0, w & 16 != 0;
    Bits(a, b, c, d, e);
  }

  lemma Bits(a: bool, b: bool, c: bool, d: bool, e: bool)
    ensures var n := (if a then 1 else 0) + (if b then 2 else 0) + (if c then 4 else 0) + (if d then 8 else 0)
            + (if e then 16 else 0);
            (n % 2 == 1) == a && (n / 2 % 2 == 1) == b && (n / 4 % 2 == 1) == c && (n / 8 % 2 == 1) == d
                && (n / 16 % 2 == 1) == e
  {}

  lemma WordIsSmall(n: Symbol)
    ensures Word(n) < 32
  {
    WordIs(n);
  }

  lemma SymbolOfWord(n: Symbol)
    ensures SymbolOf(Word(n)) == n
  {
    WordIs(n);
    SymbolIs(ToWord(n));
  }

  // ----- Exclusive or by its laws

  ghost predicate IsXor(x: bv32, a: bv32, b: bv32) { forall k: bv32 {:trigger Spelled(k)} :: k == a ==> x == k ^ b }

  /** a ^ b, which `XorIs` says. */
  ghost function Xor(a: bv32, b: bv32): bv32 {
    assert IsXor(a ^ b, a, b);
    var x :| IsXor(x, a, b);
    x
  }

  lemma XorIs(a: bv32, b: bv32)
    ensures Xor(a, b) == a ^ b
  {
    assert IsXor(Xor(a, b), a, b);
    assert Spelled(a);
  }

  lemma XorAssociates(a: bv32, b: bv32, c: bv32)
    ensures Xor(Xor(a, b), c) == Xor(a, Xor(b, c))
  {
    XorIs(a, b);
    XorIs(b, c);
    XorIs(a ^ b, c);
    XorIs(a, b ^ c);
  }

  lemma XorCommutes(a: bv32, b: bv32)
    ensures Xor(a, b) == Xor(b, a)
  {
    XorIs(a, b);
    XorIs(b, a);
  }

  lemma XorSelf(a: bv32)
    ensures Xor(a, a) == 0 && Xor(a, 0) == a && Xor(0, a) == a
  {
    XorIs(a, a);
    XorIs(a, 0);
    XorIs(0, a);
  }

  lemma XorBounded(a: bv32, b: bv32)
    requires a < 0x4000_0000 && b < 0x4000_0000
    ensures Xor(a, b) < 0x4000_0000
  {
    XorIs(a, b);
  }

  /** The sum of two sums. */
  lemma Join(w: bv32, x: bv32, y: bv32, u: bv32, a: bv32, b: bv32)
    requires w == Xor(x, y) && u == Xor(a, b)
    ensures Xor(w, u) == Xor(Xor(x, a), Xor(y, b))
  {
    XorAssociates(x, y, Xor(a, b));
    XorAssociates(y, a, b);
    XorCommutes(y, a);
    XorAssociates(a, y, b);
    XorAssociates(x, a, Xor(y, b));
  }

  // ----- The checksum loop

  /** The constant k when the given bit of c >> 25 is set. */
  function Pick(c: bv32, bit: bv32, k: bv32): bv32 { if (c >> 25) & bit != 0 then k else 0 }

  function Shift(c: bv32): bv32 { (c & 0x1ffffff) << 5 }

  ghost function Sum7(a0: bv32, a1: bv32, a2: bv32, a3: bv32, a4: bv32, a5: bv32, a6: bv32): bv32 {
    Xor(Xor(Xor(Xor(Xor(Xor(a0, a1), a2), a3), a4), a5), a6)
  }

  ghost predicate IsStep(r: bv32, c: bv32, v: bv32) {
    forall k: bv32 {:trigger Spelled(k)} :: k == c ==>
      r == Sum7(Shift(k), v, Pick(k, 1, 0x3b6a57b2), Pick(k, 2, 0x26508e6d), Pick(k, 4, 0x1ea119fa),
          Pick(k, 8, 0x3d4233dd), Pick(k, 16, 0x2a1462b3))
  }

  /** One turn of the loop of PolyMod, which `StepIs` spells out. */
  ghost function Step(c: bv32, v: bv32): bv32 {
    assert IsStep(Sum7(Shift(c), v, Pick(c, 1, 0x3b6a57b2), Pick(c, 2, 0x26508e6d), Pick(c, 4, 0x1ea119fa),
        Pick(c, 8, 0x3d4233dd), Pick(c, 16, 0x2a1462b3)), c, v);
    var r :| IsStep(r, c, v);
    r
  }

  lemma StepIs(c: bv32, v: bv32)
    ensures Step(c, v)
            == Sum7(Shift(c), v, Pick(c, 1, 0x3b6a57b2), Pick(c, 2, 0x26508e6d), Pick(c, 4, 0x1ea119fa),
                Pick(c, 8, 0x3d4233dd), Pick(c, 16, 0x2a1462b3))
  {
    assert IsStep(Step(c, v), c, v);
    assert Spelled(c);
  }

  method Turn(c: bv32, v: bv32) returns (r: bv32)
    ensures r == Step(c, v)
  {
    var c0 := c >> 25;
    StepIs(c, v);
    XorIs(Shift(c), v);
    r := ((c & 0x1ffffff) << 5) ^ v;
    r := Add(r, c0 & 1 != 0, 0x3b6a57b2);
    r := Add(r, c0 & 2 != 0, 0x26508e6d);
    r := Add(r, c0 & 4 != 0, 0x1ea119fa);
    r := Add(r, c0 & 8 != 0, 0x3d4233dd);
    r := Add(r, c0 & 16 != 0, 0x2a1462b3);
  }

  /** if (b) x ^= k */
  method Add(x: bv32, b: bool, k: bv32) returns (r: bv32)
    ensures r == Xor(x, if b then k else 0)
  {
    XorIs(x, k);
    XorSelf(x);
    r := if b then x ^ k else x;
  }

  lemma BitOfSum(c: bv32, d: bv32, bit: bv32)
    requires bit == 1 || bit == 2 || bit == 4 || bit == 8 || bit == 16
    ensures (((c ^ d) >> 25) & bit != 0) <==> (((c >> 25) & bit != 0) != ((d >> 25) & bit != 0))
  {
    if bit == 1 {
    } else if bit == 2 {
    } else if bit == 4 {
    } else if bit == 8 {
    } else {
    }
  }

  lemma PickLinear(c: bv32, d: bv32, bit: bv32, k: bv32)
    requires bit == 1 || bit == 2 || bit == 4 || bit == 8 || bit == 16
    ensures Pick(Xor(c, d), bit, k) == Xor(Pick(c, bit, k), Pick(d, bit, k))
  {
    XorIs(c, d);
    BitOfSum(c, d, bit);
    XorSelf(k);
    XorSelf(0);
  }

  lemma ShiftLinear(c: bv32, d: bv32)
    ensures Shift(Xor(c, d)) == Xor(Shift(c), Shift(d))
  {
    XorIs(c, d);
    XorIs(Shift(c), Shift(d));
  }

  lemma Sum7Linear(u0: bv32, a0: bv32, b0: bv32, u1: bv32, a1: bv32, b1: bv32, u2: bv32, a2: bv32, b2: bv32, u3: bv32,
      a3: bv32, b3: bv32,
                   u4: bv32, a4: bv32, b4: bv32, u5: bv32, a5: bv32, b5: bv32, u6: bv32, a6: bv32, b6: bv32)
    requires u0 == Xor(a0, b0) && u1 == Xor(a1, b1) && u2 == Xor(a2, b2) && u3 == Xor(a3, b3)
    requires u4 == Xor(a4, b4) && u5 == Xor(a5, b5) && u6 == Xor(a6, b6)
    ensures Sum7(u0, u1, u2, u3, u4, u5, u6) == Xor(Sum7(a0, a1, a2, a3, a4, a5, a6), Sum7(b0, b1, b2, b3, b4, b5, b6))
  {
    var u, a, b := u0, a0, b0;
    Join(u, a, b, u1, a1, b1);
    u, a, b := Xor(u, u1), Xor(a, a1), Xor(b, b1);
    Join(u, a, b, u2, a2, b2);
    u, a, b := Xor(u, u2), Xor(a, a2), Xor(b, b2);
    Join(u, a, b, u3, a3, b3);
    u, a, b := Xor(u, u3), Xor(a, a3), Xor(b, b3);
    Join(u, a, b, u4, a4, b4);
    u, a, b := Xor(u, u4), Xor(a, a4), Xor(b, b4);
    Join(u, a, b, u5, a5, b5);
    u, a, b := Xor(u, u5), Xor(a, a5), Xor(b, b5);
    Join(u, a, b, u6, a6, b6);
  }

  /** A step is linear in the sum so far and the input together. */
  lemma StepLinear(c: bv32, d: bv32, v: bv32, w: bv32)
    ensures Step(Xor(c, d), Xor(v, w)) == Xor(Step(c, v), Step(d, w))
  {
    var e := Xor(c, d);
    StepIs(c, v);
    StepIs(d, w);
    StepIs(e, Xor(v, w));
    ShiftLinear(c, d);
    PickLinear(c, d, 1, 0x3b6a57b2);
    PickLinear(c, d, 2, 0x26508e6d);
    PickLinear(c, d, 4, 0x1ea119fa);
    PickLinear(c, d, 8, 0x3d4233dd);
    PickLinear(c, d, 16, 0x2a1462b3);
    Sum7Linear(Shift(e), Shift(c), Shift(d), Xor(v, w), v, w,
               Pick(e, 1, 0x3b6a57b2), Pick(c, 1, 0x3b6a57b2), Pick(d, 1, 0x3b6a57b2),
               Pick(e, 2, 0x26508e6d), Pick(c, 2, 0x26508e6d), Pick(d, 2, 0x26508e6d),
               Pick(e, 4, 0x1ea119fa), Pick(c, 4, 0x1ea119fa), Pick(d, 4, 0x1ea119fa),
               Pick(e, 8, 0x3d4233dd), Pick(c, 8, 0x3d4233dd), Pick(d, 8, 0x3d4233dd),
               Pick(e, 16, 0x2a1462b3), Pick(c, 16, 0x2a1462b3), Pick(d, 16, 0x2a1462b3));
  }

  lemma Sum7Bounded(a0: bv32, a1: bv32, a2: bv32, a3: bv32, a4: bv32, a5: bv32, a6: bv32)
    requires a0 < 0x4000_0000 && a1 < 0x4000_0000 && a2 < 0x4000_0000 && a3 < 0x4000_0000
    requires a4 < 0x4000_0000 && a5 < 0x4000_0000 && a6 < 0x4000_0000
    ensures Sum7(a0, a1, a2, a3, a4, a5, a6) < 0x4000_0000
  {
    var a := a0;
    XorBounded(a, a1);
    a := Xor(a, a1);
    XorBounded(a, a2);
    a := Xor(a, a2);
    XorBounded(a, a3);
    a := Xor(a, a3);
    XorBounded(a, a4);
    a := Xor(a, a4);
    XorBounded(a, a5);
    a := Xor(a, a5);
    XorBounded(a, a6);
  }

  lemma ShiftBounded(c: bv32)
    ensures Shift(c) < 0x4000_0000
  {}

  lemma StepBounded(c: bv32, v: bv32)
    requires v < 0x4000_0000
    ensures Step(c, v) < 0x4000_0000
  {
    StepIs(c, v);
    ShiftBounded(c);
    Sum7Bounded(Shift(c), v, Pick(c, 1, 0x3b6a57b2), Pick(c, 2, 0x26508e6d), Pick(c, 4, 0x1ea119fa),
        Pick(c, 8, 0x3d4233dd), Pick(c, 16, 0x2a1462b3));
  }

  lemma Reduces(c: bv32, t1: bv32, t2: bv32, t3: bv32, t4: bv32, t5: bv32)
    requires c < 0x4000_0000 && c != 0
    requires t1 == Shift(c) ^ Pick(c, 1, 0x3b6a57b2) && t2 == t1 ^ Pick(c, 2, 0x26508e6d)
             && t3 == t2 ^ Pick(c, 4, 0x1ea119fa)
    requires t4 == t3 ^ Pick(c, 8, 0x3d4233dd) && t5 == t4 ^ Pick(c, 16, 0x2a1462b3)
    ensures t5 != 0
  {}

  /** A step without input does not lose a difference. */
  lemma StepInjective(c: bv32)
    requires c < 0x4000_0000 && c != 0
    ensures Step(c, 0) != 0
  {
    StepIs(c, 0);
    XorSelf(Shift(c));
    XorIs(Shift(c), Pick(c, 1, 0x3b6a57b2));
    var t1 := Xor(Shift(c), Pick(c, 1, 0x3b6a57b2));
    XorIs(t1, Pick(c, 2, 0x26508e6d));
    var t2 := Xor(t1, Pick(c, 2, 0x26508e6d));
    XorIs(t2, Pick(c, 4, 0x1ea119fa));
    var t3 := Xor(t2, Pick(c, 4, 0x1ea119fa));
    XorIs(t3, Pick(c, 8, 0x3d4233dd));
    var t4 := Xor(t3, Pick(c, 8, 0x3d4233dd));
    XorIs(t4, Pick(c, 16, 0x2a1462b3));
    Reduces(c, t1, t2, t3, t4, Xor(t4, Pick(c, 16, 0x2a1462b3)));
  }

  // ----- Runs of the loop

  ghost function Run(c: bv32, ws: seq<bv32>): bv32 {
    if ws == [] then c else Step(Run(c, ws[..|ws| - 1]), ws[|ws| - 1])
  }

  lemma {:induction false} RunAppend(c: bv32, ws: seq<bv32>, us: seq<bv32>)
    ensures Run(c, ws + us) == Run(Run(c, ws), us)
  {
    if us == [] {
      assert ws + us == ws;
    } else {
      var n := |us| - 1;
      assert (ws + us)[..|ws| + n] == ws + us[..n];
      RunAppend(c, ws, us[..n]);
    }
  }

  ghost function Sums(ws: seq<bv32>, us: seq<bv32>): (r: seq<bv32>)
    requires |ws| == |us|
    ensures |r| == |ws| && forall i :: 0 <= i < |r| ==> r[i] == Xor(ws[i], us[i])
  {
    seq(|ws|, i requires 0 <= i < |ws| => Xor(ws[i], us[i]))
  }

  /** The loop is linear: the run of a sum is the sum of the runs. */
  lemma {:induction false} RunLinear(c: bv32, d: bv32, ws: seq<bv32>, us: seq<bv32>)
    requires |ws| == |us|
    ensures Run(Xor(c, d), Sums(ws, us)) == Xor(Run(c, ws), Run(d, us))
  {
    if ws != [] {
      var n := |ws| - 1;
      assert Sums(ws, us)[..n] == Sums(ws[..n], us[..n]);
      RunLinear(c, d, ws[..n], us[..n]);
      StepLinear(Run(c, ws[..n]), Run(d, us[..n]), ws[n], us[n]);
    }
  }

  ghost predicate Small(ws: seq<bv32>) { forall i :: 0 <= i < |ws| ==> ws[i] < 32 }

  ghost predicate AllZero(ws: seq<bv32>) { forall i :: 0 <= i < |ws| ==> ws[i] == 0 }

  lemma {:induction false} RunBounded(c: bv32, ws: seq<bv32>)
    requires c < 0x4000_0000 && Small(ws)
    ensures Run(c, ws) < 0x4000_0000
  {
    if ws != [] { StepBounded(Run(c, ws[..|ws| - 1]), ws[|ws| - 1]); }
  }

  /** Nothing comes of nothing, and a difference stays one when no more come in. */
  lemma {:induction false} RunZeros(c: bv32, ws: seq<bv32>)
    requires c < 0x4000_0000 && AllZero(ws)
    ensures Run(c, ws) < 0x4000_0000 && (Run(c, ws) == 0 <==> c == 0)
  {
    if ws != [] {
      var n := |ws| - 1;
      RunZeros(c, ws[..n]);
      var d := Run(c, ws[..n]);
      StepBounded(d, 0);
      if d != 0 { StepInjective(d); } else { StepZero(); }
    }
  }

  lemma StepZero()
    ensures Step(0, 0) == 0
  {
    StepIs(0, 0);
    XorSelf(0);
  }

  /** While fewer than six symbols came in, a step just appends. */
  lemma StepAppends(c: bv32, v: bv32)
    requires c < 0x200_0000 && v < 32
    ensures Step(c, v) == (c << 5) | v
  {
    StepIs(c, v);
    PicksNothing(c);
    XorIs(Shift(c), v);
    var t := Xor(Shift(c), v);
    XorSelf(t);
    ShiftOr(c, v, t);
  }

  lemma PicksNothing(c: bv32)
    requires c < 0x200_0000
    ensures c >> 25 == 0
  {}

  lemma ShiftOr(c: bv32, v: bv32, t: bv32)
    requires c < 0x200_0000 && v < 32 && t == Shift(c) ^ v
    ensures t == (c << 5) | v
  {}

  /** 32^k */
  function Limit(k: nat): bv32 { if k == 0 then 1 else Limit(k - 1) << 5 }

  lemma LimitIs(k: nat)
    requires k <= 6
    ensures Limit(k) == [1, 0x20, 0x400, 0x8000, 0x10_0000, 0x200_0000, 0x4000_0000][k]
  {
    if k > 0 { LimitIs(k - 1); }
  }

  lemma AppendBelow(c: bv32, v: bv32, l: bv32)
    requires c < l <= 0x200_0000 && v < 32
    ensures (c << 5) | v < l << 5
  {}

  lemma LimitFits(k: nat)
    requires k <= 5
    ensures Limit(k) <= 0x200_0000
  {
    LimitIs(k);
  }

  lemma AppendZero(c: bv32, v: bv32)
    requires c < 0x200_0000 && v < 32
    ensures (c << 5) | v == 0 <==> c == 0 && v == 0
  {}

  lemma BurstStep(c: bv32, v: bv32, k: nat)
    requires k <= 5 && c < Limit(k) && v < 32
    ensures Step(c, v) < Limit(k + 1) && (Step(c, v) == 0 <==> c == 0 && v == 0)
  {
    LimitFits(k);
    AppendBelow(c, v, Limit(k));
    AppendZero(c, v);
    StepAppends(c, v);
  }

  lemma {:induction false} RunBelow(ws: seq<bv32>)
    requires |ws| <= 6 && Small(ws)
    ensures Run(0, ws) < Limit(|ws|)
  {
    if ws != [] {
      var n := |ws| - 1;
      RunBelow(ws[..n]);
      BurstStep(Run(0, ws[..n]), ws[n], n);
    }
  }

  lemma AllZeroSplit(ws: seq<bv32>, n: nat)
    requires |ws| == n + 1
    ensures AllZero(ws) <==> AllZero(ws[..n]) && ws[n] == 0
  {
    if AllZero(ws[..n]) && ws[n] == 0 {
      forall i | 0 <= i < |ws| ensures ws[i] == 0 { if i < n { assert ws[i] == ws[..n][i]; } }
    }
  }

  /** Up to six symbols, from nothing, give nothing only if all are zero. */
  lemma {:induction false} RunBurst(ws: seq<bv32>)
    requires |ws| <= 6 && Small(ws)
    ensures Run(0, ws) == 0 <==> AllZero(ws)
  {
    if ws != [] {
      var n := |ws| - 1;
      RunBurst(ws[..n]);
      RunBelow(ws[..n]);
      BurstStep(Run(0, ws[..n]), ws[n], n);
      AllZeroSplit(ws, n);
    }
  }

  lemma LimitBelow(k: nat)
    requires k <= 6
    ensures Limit(k) <= 0x4000_0000
  {
    LimitIs(k);
  }

  /** A difference within six consecutive symbols never runs out. */
  lemma BurstStays(a: seq<bv32>, b: seq<bv32>, c: seq<bv32>)
    requires AllZero(a) && Small(b) && |b| <= 6 && !AllZero(b) && AllZero(c)
    ensures Run(0, a + (b + c)) != 0
  {
    RunAppend(0, a, b + c);
    RunAppend(Run(0, a), b, c);
    RunZeros(0, a);
    RunBurst(b);
    RunBelow(b);
    LimitBelow(|b|);
    RunZeros(Run(0, b), c);
  }

  lemma XorSmall(v: bv32, w: bv32)
    requires v < 32 && w < 32
    ensures Xor(v, w) < 32 && (Xor(v, w) == 0 <==> v == w)
  {
    XorIs(v, w);
  }

  lemma SumsAre(ws: seq<bv32>, us: seq<bv32>)
    requires |ws| == |us| && Small(ws) && Small(us)
    ensures Small(Sums(ws, us)) && (AllZero(Sums(ws, us)) <==> ws == us)
  {
    var es := Sums(ws, us);
    forall i | 0 <= i < |ws| ensures es[i] < 32 && (es[i] == 0 <==> ws[i] == us[i]) { XorSmall(ws[i], us[i]); }
  }

  lemma SumsAppend(a: seq<bv32>, b: seq<bv32>, c: seq<bv32>, d: seq<bv32>)
    requires |a| == |b| && |c| == |d|
    ensures Sums(a + c, b + d) == Sums(a, b) + Sums(c, d)
  {}

  /** Two inputs that differ only within six consecutive symbols have different checksums, at every length. */
  lemma BurstDetected(s: bv32, a: seq<bv32>, b: seq<bv32>, b': seq<bv32>, c: seq<bv32>)
    requires Small(a) && Small(b) && Small(b') && Small(c) && |b| == |b'| <= 6 && b != b'
    ensures Run(s, a + (b + c)) != Run(s, a + (b' + c))
  {
    var ws, us := a + (b + c), a + (b' + c);
    RunLinear(s, s, ws, us);
    XorSelf(s);
    SumsAppend(a, a, b + c, b' + c);
    SumsAppend(b, b', c, c);
    SumsAre(a, a);
    SumsAre(b, b');
    SumsAre(c, c);
    BurstStays(Sums(a, a), Sums(b, b'), Sums(c, c));
    XorSelf(Run(s, ws));
  }

  // ----- The checksum as a remainder of polynomials over the field with 32 elements

  /** Twice an element: a product with a, modulo a^5 + a^3 + 1. */
  function Twice(x: bv32): bv32 { if x & 16 != 0 then ((x & 15) << 1) ^ 9 else (x & 15) << 1 }

  /** k where the bit of x is set. */
  function Bit(x: bv32, bit: bv32, k: bv32): bv32 { if x & bit != 0 then k else 0 }

  ghost function Sum5(a0: bv32, a1: bv32, a2: bv32, a3: bv32, a4: bv32): bv32 { Xor(Xor(Xor(Xor(a0, a1), a2), a3), a4) }

  /** The product of two elements, bit by bit of the first. */
  ghost function Times(x: bv32, y: bv32): bv32 {
    var y2 := Twice(y);
    var y4 := Twice(y2);
    var y8 := Twice(y4);
    Sum5(Bit(x, 1, y), Bit(x, 2, y2), Bit(x, 4, y4), Bit(x, 8, y8), Bit(x, 16, Twice(y8)))
  }

  /** The coefficients of the generator x^6 + {29}x^5 + {22}x^4 + {20}x^3 + {21}x^2 + {29}x + {18}. */
  function Generator(j: nat): bv32 {
    match j
    case 0 => 1
    case 1 => 29
    case 2 => 22
    case 3 => 20
    case 4 => 21
    case 5 => 29
    case _ => 18
  }

  /** The j-th group of five bits of a packed remainder, highest first. */
  function GroupAt(c: bv32, j: nat): bv32
    requires j < 6
  {
    if j == 0 then (c >> 25) & 31 else if j == 1 then (c >> 20) & 31 else if j == 2 then (c >> 15) & 31
    else if j == 3 then (c >> 10) & 31 else if j == 4 then (c >> 5) & 31 else c & 31
  }

  ghost predicate IsCoefficient(r: bv32, c: bv32, j: nat)
    requires j < 6
  {
    forall k: bv32 {:trigger Spelled(k)} :: k == c ==> r == GroupAt(k, j)
  }

  /** The coefficients in a packed remainder, which `CoefficientIs` says. */
  ghost function Coefficient(c: bv32, j: nat): bv32
    requires j < 6
  {
    assert IsCoefficient(GroupAt(c, j), c, j);
    var r :| IsCoefficient(r, c, j);
    r
  }

  lemma CoefficientIs(c: bv32, j: nat)
    requires j < 6
    ensures Coefficient(c, j) == GroupAt(c, j)
  {
    assert IsCoefficient(Coefficient(c, j), c, j);
    assert Spelled(c);
  }

  lemma GroupsOfSum(a: bv32, b: bv32)
    ensures ((a ^ b) >> 25) & 31 == ((a >> 25) & 31) ^ ((b >> 25) & 31)
    ensures ((a ^ b) >> 20) & 31 == ((a >> 20) & 31) ^ ((b >> 20) & 31)
    ensures ((a ^ b) >> 15) & 31 == ((a >> 15) & 31) ^ ((b >> 15) & 31)
    ensures ((a ^ b) >> 10) & 31 == ((a >> 10) & 31) ^ ((b >> 10) & 31)
    ensures ((a ^ b) >> 5) & 31 == ((a >> 5) & 31) ^ ((b >> 5) & 31)
    ensures (a ^ b) & 31 == (a & 31) ^ (b & 31)
  {}

  lemma CoefficientOfSum(a: bv32, b: bv32, j: nat)
    requires j < 6
    ensures Coefficient(Xor(a, b), j) == Xor(Coefficient(a, j), Coefficient(b, j))
  {
    GroupsOfXor(a, b);
    CoefficientIs(a, j);
    CoefficientIs(b, j);
    CoefficientIs(Xor(a, b), j);
    if j == 0 {
    } else if j == 1 {
    } else if j == 2 {
    } else if j == 3 {
    } else if j == 4 {
    } else {
    }
  }

  lemma GroupsOfXor(a: bv32, b: bv32)
    ensures (Xor(a, b) >> 25) & 31 == Xor((a >> 25) & 31, (b >> 25) & 31)
    ensures (Xor(a, b) >> 20) & 31 == Xor((a >> 20) & 31, (b >> 20) & 31)
    ensures (Xor(a, b) >> 15) & 31 == Xor((a >> 15) & 31, (b >> 15) & 31)
    ensures (Xor(a, b) >> 10) & 31 == Xor((a >> 10) & 31, (b >> 10) & 31)
    ensures (Xor(a, b) >> 5) & 31 == Xor((a >> 5) & 31, (b >> 5) & 31)
    ensures Xor(a, b) & 31 == Xor(a & 31, b & 31)
  {
    GroupsOfSum(a, b);
    XorIs(a, b);
    XorIs((a >> 25) & 31, (b >> 25) & 31);
    XorIs((a >> 20) & 31, (b >> 20) & 31);
    XorIs((a >> 15) & 31, (b >> 15) & 31);
    XorIs((a >> 10) & 31, (b >> 10) & 31);
    XorIs((a >> 5) & 31, (b >> 5) & 31);
    XorIs(a & 31, b & 31);
  }

  lemma CoefficientOfSum7(a0: bv32, a1: bv32, a2: bv32, a3: bv32, a4: bv32, a5: bv32, a6: bv32, j: nat)
    requires j < 6
    ensures Coefficient(Sum7(a0, a1, a2, a3, a4, a5, a6), j)
         == Sum7(Coefficient(a0, j), Coefficient(a1, j), Coefficient(a2, j), Coefficient(a3, j), Coefficient(a4, j),
                 Coefficient(a5, j), Coefficient(a6, j))
  {
    var a := a0;
    CoefficientOfSum(a, a1, j);
    a := Xor(a, a1);
    CoefficientOfSum(a, a2, j);
    a := Xor(a, a2);
    CoefficientOfSum(a, a3, j);
    a := Xor(a, a3);
    CoefficientOfSum(a, a4, j);
    a := Xor(a, a4);
    CoefficientOfSum(a, a5, j);
    a := Xor(a, a5);
    CoefficientOfSum(a, a6, j);
  }

  /** The sum of the last five, apart. */
  lemma SumApart(a0: bv32, a1: bv32, a2: bv32, a3: bv32, a4: bv32, a5: bv32, a6: bv32)
    ensures Sum7(a0, a1, a2, a3, a4, a5, a6) == Xor(Xor(a0, a1), Sum5(a2, a3, a4, a5, a6))
  {
    var a, b := Xor(a0, a1), a2;
    XorAssociates(a, b, a3);
    b := Xor(b, a3);
    XorAssociates(a, b, a4);
    b := Xor(b, a4);
    XorAssociates(a, b, a5);
    b := Xor(b, a5);
    XorAssociates(a, b, a6);
  }

  lemma TopGroup(c: bv32)
    requires c < 0x4000_0000
    ensures (c >> 25) & 31 == c >> 25
  {}

  lemma CoefficientOfPick(c: bv32, bit: bv32, k: bv32, j: nat)
    requires j < 6 && c < 0x4000_0000
    ensures Coefficient(Pick(c, bit, k), j) == Bit(Coefficient(c, 0), bit, Coefficient(k, j))
  {
    TopGroup(c);
    CoefficientIs(c, 0);
    CoefficientIs(0, j);
  }

  lemma GroupsOfShift(c: bv32)
    requires c < 0x4000_0000
    ensures (Shift(c) >> 25) & 31 == (c >> 20) & 31 && (Shift(c) >> 20) & 31 == (c >> 15) & 31
    ensures (Shift(c) >> 15) & 31 == (c >> 10) & 31 && (Shift(c) >> 10) & 31 == (c >> 5) & 31
    ensures (Shift(c) >> 5) & 31 == c & 31 && Shift(c) & 31 == 0
  {}

  lemma GroupsOfSymbol(v: bv32)
    requires v < 32
    ensures (v >> 25) & 31 == (v >> 20) & 31 == (v >> 15) & 31 == (v >> 10) & 31 == (v >> 5) & 31 == 0 && v & 31 == v
  {}

  /** What moves into place j when the next symbol comes in. */
  ghost function Following(c: bv32, v: bv32, j: nat): bv32
    requires j < 6
  {
    if j < 5 then Coefficient(c, j + 1) else v
  }

  lemma CoefficientOfShift(c: bv32, j: nat)
    requires c < 0x4000_0000 && j < 6
    ensures Coefficient(Shift(c), j) == if j < 5 then Coefficient(c, j + 1) else 0
  {
    GroupsOfShift(c);
    CoefficientIs(Shift(c), j);
    if j < 5 { CoefficientIs(c, j + 1); }
  }

  lemma CoefficientOfSymbol(v: bv32, j: nat)
    requires v < 32 && j < 6
    ensures Coefficient(v, j) == if j < 5 then 0 else v
  {
    GroupsOfSymbol(v);
    CoefficientIs(v, j);
  }

  lemma ShiftedIn(c: bv32, v: bv32, j: nat)
    requires c < 0x4000_0000 && v < 32 && j < 6
    ensures Xor(Coefficient(Shift(c), j), Coefficient(v, j)) == Following(c, v, j)
  {
    CoefficientOfShift(c, j);
    CoefficientOfSymbol(v, j);
    XorSelf(Following(c, v, j));
  }

  /** What the constants of the loop add at place j for a leading coefficient x. */
  ghost function Packed(x: bv32, j: nat): bv32
    requires j < 6
  {
    Sum5(Bit(x, 1, Coefficient(0x3b6a57b2, j)), Bit(x, 2, Coefficient(0x26508e6d, j)),
         Bit(x, 4, Coefficient(0x1ea119fa, j)), Bit(x, 8, Coefficient(0x3d4233dd, j)),
         Bit(x, 16, Coefficient(0x2a1462b3, j)))
  }

  /** Each constant packs twice what the one before does. */
  lemma PackedWith(x: bv32, j: nat, k0: bv32, k1: bv32, k2: bv32, k3: bv32, k4: bv32)
    requires j < 6 && k0 == GroupAt(0x3b6a57b2, j) && k1 == GroupAt(0x26508e6d, j) && k2 == GroupAt(0x1ea119fa, j)
    requires k3 == GroupAt(0x3d4233dd, j) && k4 == GroupAt(0x2a1462b3, j)
    requires k1 == Twice(k0) && k2 == Twice(k1) && k3 == Twice(k2) && k4 == Twice(k3)
    ensures Packed(x, j) == Times(x, k0)
  {
    CoefficientIs(0x3b6a57b2, j);
    CoefficientIs(0x26508e6d, j);
    CoefficientIs(0x1ea119fa, j);
    CoefficientIs(0x3d4233dd, j);
    CoefficientIs(0x2a1462b3, j);
  }

  lemma PackedIs(x: bv32, j: nat)
    requires j < 6
    ensures Packed(x, j) == Times(x, Generator(j + 1))
  {
    match j
    case 0 => PackedWith(x, 0, 29, 19, 15, 30, 21);
    case 1 => PackedWith(x, 1, 22, 5, 10, 20, 1);
    case 2 => PackedWith(x, 2, 20, 1, 2, 4, 8);
    case 3 => PackedWith(x, 3, 21, 3, 6, 12, 24);
    case 4 => PackedWith(x, 4, 29, 19, 15, 30, 21);
    case _ => PackedWith(x, 5, 18, 13, 26, 29, 19);
  }

  lemma StepPacks(c: bv32, v: bv32, j: nat)
    requires c < 0x4000_0000 && v < 32 && j < 6
    ensures Coefficient(Step(c, v), j) == Xor(Following(c, v, j), Packed(Coefficient(c, 0), j))
  {
    var p1, p2, p3, p4, p5 := Pick(c, 1, 0x3b6a57b2), Pick(c, 2, 0x26508e6d), Pick(c, 4, 0x1ea119fa),
                              Pick(c, 8, 0x3d4233dd), Pick(c, 16, 0x2a1462b3);
    StepIs(c, v);
    CoefficientOfSum7(Shift(c), v, p1, p2, p3, p4, p5, j);
    SumApart(Coefficient(Shift(c), j), Coefficient(v, j), Coefficient(p1, j), Coefficient(p2, j), Coefficient(p3, j),
        Coefficient(p4, j), Coefficient(p5, j));
    CoefficientOfPick(c, 1, 0x3b6a57b2, j);
    CoefficientOfPick(c, 2, 0x26508e6d, j);
    CoefficientOfPick(c, 4, 0x1ea119fa, j);
    CoefficientOfPick(c, 8, 0x3d4233dd, j);
    CoefficientOfPick(c, 16, 0x2a1462b3, j);
    ShiftedIn(c, v, j);
  }

  /** A step multiplies by x, adds the symbol and reduces by the generator: the leading coefficient
      times the generator is taken off. */
  lemma StepReduces(c: bv32, v: bv32, j: nat)
    requires c < 0x4000_0000 && v < 32 && j < 6
    ensures Coefficient(Step(c, v), j) == Xor(Following(c, v, j), Times(Coefficient(c, 0), Generator(j + 1)))
  {
    StepPacks(c, v, j);
    PackedIs(Coefficient(c, 0), j);
  }

  ghost function Zeros(n: nat): (r: seq<bv32>)
    ensures |r| == n && AllZero(r)
  {
    seq(n, _ => 0)
  }

  /** A multiple of the generator. */
  ghost function Multiple(a: bv32): (r: seq<bv32>)
    ensures |r| == 7 && forall j :: 0 <= j < 7 ==> r[j] == Times(a, Generator(j))
  {
    seq(7, j requires 0 <= j < 7 => Times(a, Generator(j)))
  }

  /** A polynomial times the generator; coefficients are listed highest first. */
  ghost function TimesGenerator(q: seq<bv32>): (r: seq<bv32>)
    ensures |r| == |q| + 6
  {
    if q == [] then Zeros(6)
    else
      var n := |q| - 1;
      Sums(TimesGenerator(q[..n]) + [0], Zeros(n) + Multiple(q[n]))
  }

  ghost function Unpacked(c: bv32): (r: seq<bv32>)
    ensures |r| == 6 && forall j :: 0 <= j < 6 ==> r[j] == Coefficient(c, j)
  {
    seq(6, j requires 0 <= j < 6 => Coefficient(c, j))
  }

  /** The symbols with a one in front are q times the generator and the remainder c. */
  ghost predicate Divided(ws: seq<bv32>, q: seq<bv32>, c: bv32) {
    |q| == |ws| && Sums(TimesGenerator(q), Zeros(|ws|) + Unpacked(c)) == [0, 0, 0, 0, 0, 1] + ws
  }

  lemma TimesOne(x: bv32)
    requires x < 32
    ensures Times(x, 1) == x
  {
    var a0, a1, a2, a3, a4 := Bit(x, 1, 1), Bit(x, 2, 2), Bit(x, 4, 4), Bit(x, 8, 8), Bit(x, 16, 16);
    XorIs(a0, a1);
    XorIs(a0 ^ a1, a2);
    XorIs(a0 ^ a1 ^ a2, a3);
    XorIs(a0 ^ a1 ^ a2 ^ a3, a4);
    BitsAdd(x);
  }

  lemma BitsAdd(x: bv32)
    requires x < 32
    ensures Bit(x, 1, 1) ^ Bit(x, 2, 2) ^ Bit(x, 4, 4) ^ Bit(x, 8, 8) ^ Bit(x, 16, 16) == x
  {}

  lemma LeadingIsSmall(c: bv32)
    ensures Coefficient(c, 0) < 32
  {
    CoefficientIs(c, 0);
  }

  /** What was taken off comes back. */
  lemma PutBack(a: bv32, b: bv32, t: bv32)
    ensures Xor(Xor(a, t), Xor(b, t)) == Xor(a, b)
  {
    Join(Xor(a, b), a, b, Xor(t, t), t, t);
    XorSelf(t);
    XorSelf(Xor(a, b));
  }

  lemma DividedFirst()
    ensures Divided([], [], 1)
  {
    forall j | 0 <= j < 6 ensures Coefficient(1, j) == if j < 5 then 0 else 1 { CoefficientOfSymbol(1, j); }
    XorSelf(0);
    XorSelf(1);
    assert Sums(TimesGenerator([]), Zeros(0) + Unpacked(1)) == [0, 0, 0, 0, 0, 1] + [];
  }

  /** The coefficient at i of the dividend, of which d is the one of the quotient times the generator. */
  lemma DividedAt(ws: seq<bv32>, q: seq<bv32>, c: bv32, i: nat) returns (d: bv32)
    requires Divided(ws, q, c) && i < |ws| + 6
    ensures d == TimesGenerator(q)[i]
    ensures Xor(d, if i < |ws| then 0 else Coefficient(c, i - |ws|)) == ([0, 0, 0, 0, 0, 1] + ws)[i]
  {
    d := TimesGenerator(q)[i];
    assert ([0, 0, 0, 0, 0, 1] + ws)[i] == Xor(d, (Zeros(|ws|) + Unpacked(c))[i]);
  }

  /** The coefficient d, with nothing, the leading coefficient x or a later one of a multiple of the
      generator added, and the new remainder added where it begins. */
  ghost function NextAt(d: bv32, n: nat, c: bv32, v: bv32, i: nat): bv32
    requires i < n + 7
  {
    var x := Coefficient(c, 0);
    if i < n then Xor(Xor(d, 0), 0)
    else if i == n then Xor(Xor(d, Times(x, 1)), 0)
    else Xor(Xor(d, Times(x, Generator(i - n))), Coefficient(Step(c, v), i - n - 1))
  }

  lemma NextAtIs(d: bv32, n: nat, c: bv32, v: bv32, i: nat)
    requires c < 0x4000_0000 && v < 32 && i < n + 7
    ensures NextAt(d, n, c, v, i)
         == Xor(d, if i < n then 0 else if i == n then Coefficient(c, 0) else Following(c, v, i - n - 1))
  {
    if i < n {
      XorSelf(d);
    } else if i == n {
      LeadingIsSmall(c);
      TimesOne(Coefficient(c, 0));
      XorSelf(Xor(d, Coefficient(c, 0)));
    } else {
      var j := i - n - 1;
      StepReduces(c, v, j);
      PutBack(d, Following(c, v, j), Times(Coefficient(c, 0), Generator(j + 1)));
    }
  }

  /** It is the next coefficient f of the dividend if d belongs to the same one of this dividend. */
  lemma NextCoefficient(d: bv32, n: nat, c: bv32, v: bv32, i: nat, f: bv32)
    requires c < 0x4000_0000 && v < 32 && i < n + 7
    requires i < n + 6 ==> f == Xor(d, if i < n then 0 else Coefficient(c, i - n))
    requires i == n + 6 ==> d == 0 && f == v
    ensures NextAt(d, n, c, v, i) == f
  {
    NextAtIs(d, n, c, v, i);
    XorSelf(v);
  }

  lemma DividedNextAt(ws: seq<bv32>, q: seq<bv32>, c: bv32, v: bv32, i: nat, d: bv32, f: bv32)
    requires Divided(ws, q, c) && c < 0x4000_0000 && v < 32 && i < |ws| + 7
    requires d == if i < |ws| + 6 then TimesGenerator(q)[i] else 0
    requires f == if i < |ws| + 6 then ([0, 0, 0, 0, 0, 1] + ws)[i] else v
    ensures NextAt(d, |ws|, c, v, i) == f
  {
    if i < |ws| + 6 { var _ := DividedAt(ws, q, c, i); }
    NextCoefficient(d, |ws|, c, v, i, f);
  }

  lemma NextSum(t: seq<bv32>, n: nat, c: bv32, v: bv32, i: nat)
    requires |t| == n + 6 && i < n + 7
    ensures Sums(Sums(t + [0], Zeros(n) + Multiple(Coefficient(c, 0))), Zeros(n + 1) + Unpacked(Step(c, v)))[i]
         == NextAt((t + [0])[i], n, c, v, i)
  {}

  lemma DividedNext(ws: seq<bv32>, q: seq<bv32>, c: bv32, v: bv32)
    requires Divided(ws, q, c) && c < 0x4000_0000 && v < 32
    ensures Divided(ws + [v], q + [Coefficient(c, 0)], Step(c, v))
  {
    var x, n := Coefficient(c, 0), |ws|;
    assert (q + [x])[..n] == q;
    var t := TimesGenerator(q + [x]);
    assert t == Sums(TimesGenerator(q) + [0], Zeros(n) + Multiple(x));
    var s, g := Sums(t, Zeros(n + 1) + Unpacked(Step(c, v))), [0, 0, 0, 0, 0, 1] + (ws + [v]);
    forall i: nat | i < n + 7 ensures s[i] == g[i] {
      var d, f := (TimesGenerator(q) + [0])[i], if i < n + 6 then ([0, 0, 0, 0, 0, 1] + ws)[i] else v;
      DividedNextAt(ws, q, c, v, i, d, f);
      NextSum(TimesGenerator(q), n, c, v, i);
      assert g[i] == f;
    }
    assert s == g;
  }

  /** The loop gives the remainder of its input, with a one in front, modulo the generator. */
  lemma {:induction false} RunIsRemainder(ws: seq<bv32>) returns (q: seq<bv32>)
    requires Small(ws)
    ensures Divided(ws, q, Run(1, ws))
  {
    if ws == [] {
      q := [];
      DividedFirst();
    } else {
      var n := |ws| - 1;
      q := RunIsRemainder(ws[..n]);
      RunBounded(1, ws[..n]);
      DividedNext(ws[..n], q, Run(1, ws[..n]), ws[n]);
      assert ws[..n] + [ws[n]] == ws;
      q := q + [Coefficient(Run(1, ws[..n]), 0)];
    }
  }

  // ----- Checksums

  ghost function Words(vs: seq<Symbol>): (ws: seq<bv32>)
    ensures |ws| == |vs| && Small(ws) && forall i :: 0 <= i < |ws| ==> ws[i] == Word(vs[i])
  {
    assert forall i :: 0 <= i < |vs| ==> Word(vs[i]) < 32 by {
      forall i | 0 <= i < |vs| ensures Word(vs[i]) < 32 { WordIsSmall(vs[i]); }
    }
    seq(|vs|, i requires 0 <= i < |vs| => Word(vs[i]))
  }

  lemma WordsAppend(vs: seq<Symbol>, us: seq<Symbol>)
    ensures Words(vs + us) == Words(vs) + Words(us)
  {}

  lemma WordsDiffer(vs: seq<Symbol>, us: seq<Symbol>)
    requires |vs| == |us| && vs != us
    ensures Words(vs) != Words(us)
  {
    if Words(vs) == Words(us) {
      forall i | 0 <= i < |vs| ensures vs[i] == us[i] {
        assert Words(vs)[i] == Words(us)[i];
        SymbolOfWord(vs[i]);
        SymbolOfWord(us[i]);
      }
    }
  }

  ghost function Checksum(vs: seq<Symbol>): bv32 { Run(1, Words(vs)) }

  /** PolyMod */
  method PolyMod(v: seq<Symbol>) returns (c: bv32)
    ensures c == Checksum(v)
  {
    c := 1;
    for i := 0 to |v|
      invariant c == Run(1, Words(v)[..i])
    {
      assert Words(v)[..i + 1][..i] == Words(v)[..i];
      WordIs(v[i]);
      c := Turn(c, ToWord(v[i]));
    }
    assert Words(v)[..|v|] == Words(v);
  }

  /** A character as an unsigned char. */
  function Byte(c: char): (b: nat)
    ensures b < 256
  {
    c as int % 256
  }

  function High(c: char): Symbol { Byte(c) / 32 }

  function Low(c: char): Symbol { Byte(c) % 32 }

  /** The high three bits of each character, a zero, and the low five bits of each. */
  function ExpandHRP(hrp: string): (r: seq<Symbol>)
    ensures |r| == 2 * |hrp| + 1 && r[|hrp|] == 0
    ensures forall i :: 0 <= i < |hrp| ==> 32 * (r[i] as int) + r[|hrp| + 1 + i] as int == Byte(hrp[i])
  {
    seq(|hrp|, i requires 0 <= i < |hrp| => High(hrp[i])) + [0] + seq(|hrp|, i requires 0 <= i < |hrp| => Low(hrp[i]))
  }

  method Expand(hrp: string) returns (ret: seq<Symbol>)
    ensures ret == ExpandHRP(hrp)
  {
    var high, low: seq<Symbol> := [], [];
    for i := 0 to |hrp|
      invariant |high| == i && forall j :: 0 <= j < i ==> high[j] == High(hrp[j])
      invariant |low| == i && forall j :: 0 <= j < i ==> low[j] == Low(hrp[j])
    {
      high := high + [High(hrp[i])];
      low := low + [Low(hrp[i])];
    }
    ret := high + [0] + low;
  }

  /** m >> 5 * k */
  function Group(m: bv32, k: nat): bv32 { if k == 0 then m else Group(m >> 5, k - 1) }

  lemma {:induction false} GroupShifts(m: bv32, k: nat)
    ensures Group(m, k) >> 5 == Group(m, k + 1)
  {
    if k > 0 { GroupShifts(m >> 5, k - 1); }
  }

  /** The lowest n groups of five bits, the lowest last. */
  ghost function Groups(m: bv32, n: nat): (r: seq<Symbol>)
    ensures |r| == n
  {
    if n == 0 then [] else Groups(m >> 5, n - 1) + [SymbolOf(m)]
  }

  /** The six symbols of a packed checksum, the highest first. */
  method Unpack(mod: bv32) returns (ret: seq<Symbol>)
    ensures ret == Groups(mod, 6)
  {
    ret := [];
    for i := 0 to 6
      invariant ret == Groups(Group(mod, 6 - i), i)
    {
      GroupShifts(mod, 5 - i);
      SymbolIs(Group(mod, 5 - i));
      ret := ret + [ToSymbol(Group(mod, 5 - i))];
    }
  }

  lemma Regroup(m: bv32)
    requires m < 0x4000_0000
    ensures ((m >> 5) << 5) | (m & 31) == m && m >> 5 < 0x200_0000
  {}

  lemma GroupOne(m: bv32)
    requires m < 0x4000_0000
    ensures m >> 5 < 0x4000_0000 && Step(m >> 5, Word(SymbolOf(m))) == m
  {
    Regroup(m);
    WordOfSymbol(m);
    StepAppends(m >> 5, m & 31);
  }

  /** From nothing, the groups of a number run to the number. */
  lemma {:induction false} RunGroups(m: bv32, n: nat)
    requires m < 0x4000_0000 && Group(m, n) == 0
    ensures Run(0, Words(Groups(m, n))) == m
  {
    if n > 0 {
      GroupOne(m);
      RunGroups(m >> 5, n - 1);
      RunLast(Groups(m >> 5, n - 1), SymbolOf(m), m >> 5);
    }
  }

  lemma RunLast(vs: seq<Symbol>, v: Symbol, h: bv32)
    requires Run(0, Words(vs)) == h
    ensures Run(0, Words(vs + [v])) == Step(h, Word(v))
  {
    WordsAppend(vs, [v]);
    assert (Words(vs) + Words([v]))[..|vs|] == Words(vs);
  }

  lemma ConstantsAre(e: Encoding)
    ensures EncodingConstant(e) < 0x4000_0000 && EncodingConstant(BECH32) != EncodingConstant(BECH32M)
  {}

  lemma TopIsEmpty(m: bv32, n: nat)
    requires m < 0x4000_0000 && n == 6
    ensures Group(m, n) == 0
  {
    assert m >> 5 >> 5 >> 5 >> 5 >> 5 >> 5 == 0;
    assert Group(m, n) == Group(m >> 5, n - 1) == Group(m >> 5 >> 5, n - 2) == Group(m >> 5 >> 5 >> 5, n - 3);
    assert Group(m, n) == Group(m >> 5 >> 5 >> 5 >> 5, n - 4) == Group(m >> 5 >> 5 >> 5 >> 5 >> 5, n - 5);
  }

  /** What to put in place of six zeros for a wanted checksum. */
  ghost function Closing(vs: seq<Symbol>, e: Encoding): seq<Symbol> {
    Groups(Xor(Checksum(vs + [0, 0, 0, 0, 0, 0]), EncodingConstant(e)), 6)
  }

  lemma ChecksumBounded(vs: seq<Symbol>)
    ensures Checksum(vs) < 0x4000_0000
  {
    RunBounded(1, Words(vs));
  }

  lemma ZeroWords(vs: seq<Symbol>)
    requires forall i :: 0 <= i < |vs| ==> vs[i] == 0
    ensures AllZero(Words(vs))
  {
    WordIs(0);
  }

  /** From any start, a closing runs to the run of zeros and its own run together. */
  lemma RunSum(c: bv32, zs: seq<bv32>, rs: seq<bv32>)
    requires |zs| == |rs| && AllZero(zs)
    ensures Run(c, rs) == Xor(Run(c, zs), Run(0, rs))
  {
    RunLinear(c, 0, zs, rs);
    XorSelf(c);
    forall i | 0 <= i < |rs| ensures Sums(zs, rs)[i] == rs[i] { XorSelf(rs[i]); }
    assert Sums(zs, rs) == rs;
  }

  /** Every created checksum verifies as its own encoding. */
  lemma ClosingCloses(vs: seq<Symbol>, e: Encoding)
    ensures Checksum(vs + Closing(vs, e)) == EncodingConstant(e)
  {
    var zeros: seq<Symbol> := [0, 0, 0, 0, 0, 0];
    var k, r := EncodingConstant(e), Closing(vs, e);
    var mod := Xor(Checksum(vs + zeros), k);
    ChecksumBounded(vs + zeros);
    ConstantsAre(e);
    XorBounded(Checksum(vs + zeros), k);
    TopIsEmpty(mod, 6);
    RunGroups(mod, 6);
    Replaced(vs, zeros, r);
    Cancels(Checksum(vs + zeros), k);
  }

  lemma Replaced(vs: seq<Symbol>, zeros: seq<Symbol>, r: seq<Symbol>)
    requires |zeros| == |r| && forall i :: 0 <= i < |zeros| ==> zeros[i] == 0
    ensures Checksum(vs + r) == Xor(Checksum(vs + zeros), Run(0, Words(r)))
  {
    var c := Run(1, Words(vs));
    WordsAppend(vs, zeros);
    WordsAppend(vs, r);
    RunAppend(1, Words(vs), Words(zeros));
    RunAppend(1, Words(vs), Words(r));
    ZeroWords(zeros);
    RunSum(c, Words(zeros), Words(r));
  }

  lemma Cancels(a: bv32, k: bv32)
    ensures Xor(a, Xor(a, k)) == k
  {
    XorAssociates(a, a, k);
    XorSelf(a);
    XorSelf(k);
  }

  /** Changing symbols within six consecutive places changes the checksum. */
  lemma ChangeIsSeen(a: seq<Symbol>, b: seq<Symbol>, b': seq<Symbol>, c: seq<Symbol>)
    requires |b| == |b'| <= 6 && b != b'
    ensures Checksum(a + b + c) != Checksum(a + b' + c)
  {
    WordsDiffer(b, b');
    BurstDetected(1, Words(a), Words(b), Words(b'), Words(c));
    assert a + b + c == a + (b + c) && a + b' + c == a + (b' + c);
    WordsAppend(a, b + c);
    WordsAppend(a, b' + c);
    WordsAppend(b, c);
    WordsAppend(b', c);
  }

  /** The last six symbols are determined by the others. */
  lemma ClosingIsUnique(vs: seq<Symbol>, r: seq<Symbol>, e: Encoding)
    requires |r| == 6 && Checksum(vs + r) == EncodingConstant(e)
    ensures r == Closing(vs, e)
  {
    ClosingCloses(vs, e);
    assert vs + r + [] == vs + r && vs + Closing(vs, e) + [] == vs + Closing(vs, e);
    if r != Closing(vs, e) { ChangeIsSeen(vs, r, Closing(vs, e), []); }
  }

  /** VerifyChecksum */
  ghost function Verified(hrp: string, values: seq<Symbol>): Option<Encoding> {
    var check := Checksum(ExpandHRP(hrp) + values);
    if check == EncodingConstant(BECH32) then Some(BECH32)
        else if check == EncodingConstant(BECH32M) then Some(BECH32M) else None
  }

  lemma VerifiedIs(hrp: string, values: seq<Symbol>, e: Encoding)
    ensures Verified(hrp, values) == Some(e) <==> Checksum(ExpandHRP(hrp) + values) == EncodingConstant(e)
  {
    ConstantsAre(e);
  }

  method VerifyChecksum(hrp: string, values: seq<Symbol>) returns (r: Option<Encoding>)
    ensures r == Verified(hrp, values)
  {
    var expanded := Expand(hrp);
    var check := PolyMod(expanded + values);
    r := if check == EncodingConstant(BECH32) then Some(BECH32)
        else if check == EncodingConstant(BECH32M) then Some(BECH32M) else None;
  }

  method CreateChecksum(e: Encoding, hrp: string, values: seq<Symbol>) returns (ret: seq<Symbol>)
    ensures ret == Closing(ExpandHRP(hrp) + values, e) && Verified(hrp, values + ret) == Some(e)
  {
    ghost var vs := ExpandHRP(hrp) + values;
    var expanded := Expand(hrp);
    var enc := expanded + values + [0, 0, 0, 0, 0, 0];
    var mod := PolyMod(enc);
    XorIs(mod, EncodingConstant(e));
    ret := Unpack(mod ^ EncodingConstant(e));
    ClosingCloses(vs, e);
    assert vs + ret == ExpandHRP(hrp) + (values + ret);
    VerifiedIs(hrp, values + ret, e);
  }

  // ----- Characters

  function Charset(v: nat): char
    requires v < 32
  {
    "qpzry9x8gf2tvdw0s3jn54khce6mua7l"[v]
  }

  function LowerCase(c: char): char { if 'A' <= c <= 'Z' then c - 'A' + 'a' else c }

  /** CHARSET_REV: upper and lower case alike, -1 for what is not in the character set. */
  function CharsetRev(c: char): (r: int)
    ensures -1 <= r < 32
  {
    match LowerCase(c)
    case 'q' => 0 case 'p' => 1 case 'z' => 2 case 'r' => 3 case 'y' => 4 case '9' => 5 case 'x' => 6 case '8' => 7
    case 'g' => 8 case 'f' => 9 case '2' => 10 case 't' => 11 case 'v' => 12 case 'd' => 13 case 'w' => 14 case '0' => 15
    case 's' => 16 case '3' => 17 case 'j' => 18 case 'n' => 19 case '5' => 20 case '4' => 21 case 'k' => 22 case 'h' => 23
    case 'c' => 24 case 'e' => 25 case '6' => 26 case 'm' => 27 case 'u' => 28 case 'a' => 29 case '7' => 30 case 'l' => 31
    case _ => -1
  }

  predicate Typed(c: char) { true }

  ghost predicate IsRev(r: int, c: char) { forall k: char {:trigger Typed(k)} :: k == c ==> r == CharsetRev(k) }

  /** CharsetRev(c), which `RevIs` says. */
  ghost function Rev(c: char): (r: int)
    ensures -1 <= r < 32
  {
    assert IsRev(CharsetRev(c), c);
    var r :| IsRev(r, c) && -1 <= r < 32;
    r
  }

  lemma RevIs(c: char)
    ensures Rev(c) == CharsetRev(c)
  {
    assert IsRev(Rev(c), c);
    assert Typed(c);
  }

  lemma CharsetInverse(v: nat)
    requires v < 32
    ensures CharsetRev(Charset(v)) == v && IsPrintable(Charset(v)) && !IsUpper(Charset(v)) && Charset(v) != '1'
  {
    if v < 8 {
      if v < 4 {} else {}
    } else if v < 16 {
      if v < 12 {} else {}
    } else if v < 24 {
      if v < 20 {} else {}
    } else {
      if v < 28 {} else {}
    }
  }

  lemma CharsetRevInverse(c: char)
    ensures CharsetRev(c) >= 0 ==> Charset(CharsetRev(c)) == LowerCase(c)
    ensures CharsetRev('1') == -1
  {}

  predicate IsLower(c: char) { 'a' <= c <= 'z' }

  predicate IsUpper(c: char) { 'A' <= c <= 'Z' }

  predicate IsPrintable(c: char) { 33 <= c as int <= 126 }

  function Text(vs: seq<Symbol>): (s: string)
    ensures |s| == |vs| && forall i :: 0 <= i < |s| ==> s[i] == Charset(vs[i])
  {
    seq(|vs|, i requires 0 <= i < |vs| => Charset(vs[i]))
  }

  function Lowered(s: string): (r: string)
    ensures |r| == |s| && forall i :: 0 <= i < |s| ==> r[i] == LowerCase(s[i])
  {
    seq(|s|, i requires 0 <= i < |s| => LowerCase(s[i]))
  }

  // ----- Encoded strings

  ghost function Encoded(e: Encoding, hrp: string, values: seq<Symbol>): string {
    hrp + "1" + Text(values + Closing(ExpandHRP(hrp) + values, e))
  }

  /** Encode; the human-readable part must not have upper case characters. */
  method Encode(e: Encoding, hrp: string, values: seq<Symbol>) returns (ret: string)
    requires forall i :: 0 <= i < |hrp| ==> !IsUpper(hrp[i])
    ensures ret == Encoded(e, hrp, values)
  {
    var checksum := CreateChecksum(e, hrp, values);
    var combined := values + checksum;
    ret := hrp + "1";
    for i := 0 to |combined|
      invariant ret == hrp + "1" + Text(combined[..i])
    {
      assert combined[..i + 1] == combined[..i] + [combined[i]];
      ret := ret + [Charset(combined[i])];
    }
    assert combined[..|combined|] == combined;
  }

  /** The place of the last '1', or -1. */
  function LastOne(s: string): (p: int)
    ensures -1 <= p < |s| && (p >= 0 ==> s[p] == '1') && forall i :: p < i < |s| ==> s[i] != '1'
  {
    if s == [] then -1 else if s[|s| - 1] == '1' then |s| - 1 else LastOne(s[..|s| - 1])
  }

  lemma LastOneIs(s: string, p: nat)
    requires p < |s| && s[p] == '1' && forall i :: p < i < |s| ==> s[i] != '1'
    ensures LastOne(s) == p
  {}

  /** Printable characters, not in both cases. */
  ghost predicate Legible(s: string) {
    && (forall i :: 0 <= i < |s| ==> IsPrintable(s[i]))
    && ((forall i :: 0 <= i < |s| ==> !IsUpper(s[i])) || (forall i :: 0 <= i < |s| ==> !IsLower(s[i])))
  }

  ghost predicate InSet(s: string) { forall i :: 0 <= i < |s| ==> Rev(s[i]) >= 0 }

  ghost function ValuesOf(s: string): (vs: seq<Symbol>)
    requires InSet(s)
    ensures |vs| == |s| && forall i :: 0 <= i < |s| ==> vs[i] == Rev(s[i])
  {
    seq(|s|, i requires 0 <= i < |s| => Rev(s[i]))
  }

  /** The symbols that a text stands for. */
  ghost function Reading(text: string): Option<seq<Symbol>> { if InSet(text) then Some(ValuesOf(text)) else None }

  datatype DecodeResult = Invalid | Valid(encoding: Encoding, hrp: string, data: seq<Symbol>)

  /** What the symbols after the last '1' stand for. */
  ghost function Received(hrp: string, values: seq<Symbol>): DecodeResult
    requires |values| >= 6
  {
    match Verified(hrp, values)
    case None => Invalid
    case Some(e) => Valid(e, hrp, values[..|values| - 6])
  }

  ghost function Parsed(hrp: string, text: string): DecodeResult
    requires |text| >= 6
  {
    match Reading(text)
    case None => Invalid
    case Some(values) => if |values| >= 6 then Received(hrp, values) else Invalid
  }

  ghost function Decoded(s: string, ext_length: bool): DecodeResult {
    var pos := LastOne(s);
    if !Legible(s) || (|s| > 90 && !ext_length) || pos <= 0 || pos + 7 > |s| then Invalid
    else Parsed(Lowered(s[..pos]), s[pos + 1..])
  }

  method ScanCase(str: string) returns (ok: bool)
    ensures ok == Legible(str)
  {
    var lower, upper := false, false;
    for i := 0 to |str|
      invariant forall j :: 0 <= j < i ==> IsPrintable(str[j])
      invariant lower <==> exists j :: 0 <= j < i && IsLower(str[j])
      invariant upper <==> exists j :: 0 <= j < i && IsUpper(str[j])
    {
      var c := str[i];
      if IsLower(c) {
        lower := true;
      } else if IsUpper(c) {
        upper := true;
      } else if c as int < 33 || c as int > 126 {
        return false;
      }
    }
    return !(lower && upper);
  }

  method ReadSymbols(text: string) returns (r: Option<seq<Symbol>>)
    ensures r == Reading(text)
  {
    var values: seq<Symbol> := [];
    for i := 0 to |text|
      invariant |values| == i && forall j :: 0 <= j < i ==> Rev(text[j]) == values[j]
    {
      RevIs(text[i]);
      var rev := CharsetRev(text[i]);
      if rev == -1 { return None; }
      values := values + [rev];
    }
    assert values == ValuesOf(text);
    r := Some(values);
  }

  method LowerPart(s: string) returns (hrp: string)
    ensures hrp == Lowered(s)
  {
    hrp := "";
    for i := 0 to |s|
      invariant |hrp| == i && forall j :: 0 <= j < i ==> hrp[j] == LowerCase(s[j])
    {
      hrp := hrp + [LowerCase(s[i])];
    }
  }

  /** Decode from the checked separator on. */
  method DecodeParts(hrp: string, text: string) returns (r: DecodeResult)
    requires |text| >= 6
    ensures r == Parsed(hrp, text)
  {
    var read := ReadSymbols(text);
    if read.None? { return Invalid; }
    var values := read.value;
    var result := VerifyChecksum(hrp, values);
    r := if result.None? then Invalid else Valid(result.value, hrp, values[..|values| - 6]);
  }

  method Decode(str: string, ext_length: bool) returns (r: DecodeResult)
    ensures r == Decoded(str, ext_length)
  {
    var ok := ScanCase(str);
    var pos := LastOne(str);
    if !ok || (|str| > 90 && !ext_length) || pos <= 0 || pos + 7 > |str| { return Invalid; }
    r := DecodeAt(str, pos);
  }

  method DecodeAt(str: string, pos: nat) returns (r: DecodeResult)
    requires pos + 7 <= |str|
    ensures r == Parsed(Lowered(str[..pos]), str[pos + 1..])
  {
    var hrp := LowerPart(str[..pos]);
    r := DecodeParts(hrp, str[pos + 1..]);
  }

  lemma TextInverse(vs: seq<Symbol>)
    ensures InSet(Text(vs)) && ValuesOf(Text(vs)) == vs
    ensures forall i :: 0 <= i < |vs| ==> IsPrintable(Text(vs)[i]) && !IsUpper(Text(vs)[i]) && Text(vs)[i] != '1'
  {
    forall i | 0 <= i < |vs| ensures Rev(Text(vs)[i]) == vs[i] && IsPrintable(Text(vs)[i]) && !IsUpper(Text(vs)[i])
        && Text(vs)[i] != '1' {
      CharsetInverse(vs[i]);
      RevIs(Text(vs)[i]);
    }
  }

  /** Symbols are received as (e, data) exactly when they are data followed by its closing symbols. */
  lemma ReceivedIs(e: Encoding, hrp: string, data: seq<Symbol>, r: seq<Symbol>)
    requires |r| == 6
    ensures Received(hrp, data + r) == Valid(e, hrp, data) <==> r == Closing(ExpandHRP(hrp) + data, e)
  {
    var vs := ExpandHRP(hrp) + data;
    assert vs + r == ExpandHRP(hrp) + (data + r);
    assert (data + r)[..|data + r| - 6] == data;
    VerifiedIs(hrp, data + r, e);
    ClosingCloses(vs, e);
    if Checksum(vs + r) == EncodingConstant(e) { ClosingIsUnique(vs, r, e); }
  }

  /** A human-readable part that an encoder may be given. */
  ghost predicate LegalPart(hrp: string) { hrp != [] && forall i :: 0 <= i < |hrp| ==>
      IsPrintable(hrp[i]) && !IsUpper(hrp[i]) }

  lemma EncodedShape(hrp: string, text: string)
    requires LegalPart(hrp) && forall i :: 0 <= i < |text| ==> IsPrintable(text[i]) && !IsUpper(text[i]) && text[i] != '1'
    ensures var s := hrp + "1" + text;
            Legible(s) && LastOne(s) == |hrp| && s[..|hrp|] == hrp && s[|hrp| + 1..] == text && Lowered(hrp) == hrp
  {
    var s := hrp + "1" + text;
    forall i | 0 <= i < |s| ensures IsPrintable(s[i]) && !IsUpper(s[i]) && (i > |hrp| ==> s[i] != '1') {
      if i > |hrp| { assert s[i] == text[i - |hrp| - 1]; }
    }
    LastOneIs(s, |hrp|);
  }

  /** Decoding inverts encoding, for every legal lower-case part and every payload within the limit. */
  lemma DecodeInvertsEncode(e: Encoding, hrp: string, values: seq<Symbol>, ext_length: bool)
    requires LegalPart(hrp) && (|hrp| + 1 + |values| + 6 <= 90 || ext_length)
    ensures Decoded(Encoded(e, hrp, values), ext_length) == Valid(e, hrp, values)
  {
    var r := Closing(ExpandHRP(hrp) + values, e);
    TextInverse(values + r);
    EncodedShape(hrp, Text(values + r));
    ReceivedIs(e, hrp, values, r);
  }

  lemma TextOfValues(text: string)
    requires InSet(text)
    ensures Text(ValuesOf(text)) == Lowered(text)
  {
    forall i | 0 <= i < |text| ensures Text(ValuesOf(text))[i] == LowerCase(text[i]) {
      RevIs(text[i]);
      CharsetRevInverse(text[i]);
    }
  }

  lemma LoweredParts(h: string, text: string)
    ensures Lowered(h + "1" + text) == Lowered(h) + "1" + Lowered(text)
  {}

  lemma ParsedIs(hrp: string, text: string)
    requires |text| >= 6 && Parsed(hrp, text).Valid?
    ensures var r := Parsed(hrp, text);
            r.hrp == hrp && Text(r.data + Closing(ExpandHRP(hrp) + r.data, r.encoding)) == Lowered(text)
  {
    ReceivedSplits(hrp, ValuesOf(text));
    TextOfValues(text);
  }

  lemma ReceivedSplits(hrp: string, values: seq<Symbol>)
    requires |values| >= 6 && Received(hrp, values).Valid?
    ensures var r := Received(hrp, values); r.hrp == hrp && values == r.data + Closing(ExpandHRP(hrp) + r.data, r.encoding)
  {
    var r, n := Received(hrp, values), |values| - 6;
    assert values == values[..n] + values[n..];
    ReceivedIs(r.encoding, hrp, values[..n], values[n..]);
  }

  lemma ParsedEncodes(h: string, text: string)
    requires |text| >= 6 && Parsed(Lowered(h), text).Valid?
    ensures var r := Parsed(Lowered(h), text); Encoded(r.encoding, r.hrp, r.data) == Lowered(h + "1" + text)
  {
    ParsedIs(Lowered(h), text);
    LoweredParts(h, text);
  }

  lemma SplitAt(s: string, pos: nat)
    requires pos < |s| && s[pos] == '1'
    ensures s == s[..pos] + "1" + s[pos + 1..]
  {}

  /** Encoding what a string was decoded to gives the string back in lower case. */
  lemma EncodeInvertsDecode(s: string, ext_length: bool)
    requires Decoded(s, ext_length).Valid?
    ensures var r := Decoded(s, ext_length); Encoded(r.encoding, r.hrp, r.data) == Lowered(s)
  {
    var pos := LastOne(s);
    SplitAt(s, pos);
    ParsedEncodes(s[..pos], s[pos + 1..]);
  }

  /** An accepted string has 8 to 90 characters unless it may be longer, all of them printable and none in
      another case than the rest, with a part of one or more before the last separator and six or more after it. */
  lemma AcceptedShape(s: string, ext_length: bool)
    requires Decoded(s, ext_length).Valid?
    ensures |s| >= 8 && (|s| <= 90 || ext_length) && forall i :: 0 <= i < |s| ==> 33 <= s[i] as int <= 126
    ensures !exists i, j :: 0 <= i < |s| && 0 <= j < |s| && 'a' <= s[i] <= 'z' && 'A' <= s[j] <= 'Z'
    ensures var r := Decoded(s, ext_length); |r.hrp| >= 1 && |s| == |r.hrp| + 1 + |r.data| + 6 && s[|r.hrp|] == '1'
  {
    var pos := LastOne(s);
    ParsedIs(Lowered(s[..pos]), s[pos + 1..]);
  }

  lemma LastOneLowered(s: string)
    ensures LastOne(Lowered(s)) == LastOne(s)
  {
    var t, p := Lowered(s), LastOne(s);
    if p >= 0 { LastOneIs(t, p); } else { NoOne(t); }
  }

  lemma {:induction false} NoOne(s: string)
    requires forall i :: 0 <= i < |s| ==> s[i] != '1'
    ensures LastOne(s) == -1
  {
    if s != [] { NoOne(s[..|s| - 1]); }
  }

  lemma LegibleLowered(s: string)
    requires forall i :: 0 <= i < |s| ==> IsPrintable(s[i])
    ensures Legible(Lowered(s))
  {
    var t := Lowered(s);
    forall i | 0 <= i < |t| ensures IsPrintable(t[i]) && !IsUpper(t[i]) {}
  }

  lemma ReadingLowered(s: string)
    ensures Reading(Lowered(s)) == Reading(s)
  {
    forall i | 0 <= i < |s| ensures Rev(Lowered(s)[i]) == Rev(s[i]) {
      RevIs(s[i]);
      RevIs(LowerCase(s[i]));
    }
    if InSet(s) { assert InSet(Lowered(s)) && ValuesOf(Lowered(s)) == ValuesOf(s); }
    if InSet(Lowered(s)) { assert forall i :: 0 <= i < |s| ==> Rev(Lowered(s)[i]) >= 0; }
  }

  lemma LoweredTwice(s: string)
    ensures Lowered(Lowered(s)) == Lowered(s)
  {}

  /** A string in upper case stands for what it stands for in lower case. */
  lemma CaseDoesNotMatter(s: string, ext_length: bool)
    requires Legible(s)
    ensures Decoded(Lowered(s), ext_length) == Decoded(s, ext_length)
  {
    var t, pos := Lowered(s), LastOne(s);
    LastOneLowered(s);
    LegibleLowered(s);
    if pos > 0 {
      assert t[..pos] == Lowered(s[..pos]) && t[pos + 1..] == Lowered(s[pos + 1..]);
      LoweredTwice(s[..pos]);
      ReadingLowered(s[pos + 1..]);
    }
  }

  lemma BurstIsSeen(hrp: string, a: seq<Symbol>, b: seq<Symbol>, b': seq<Symbol>, c: seq<Symbol>)
    requires |b| == |b'| <= 6 && b != b'
    ensures Verified(hrp, a + b + c) == None || Verified(hrp, a + b' + c) != Verified(hrp, a + b + c)
  {
    var x := ExpandHRP(hrp);
    assert x + (a + b + c) == x + a + b + c;
    assert x + (a + b' + c) == x + a + b' + c;
    ChangeIsSeen(x + a, b, b', c);
    VerifiedDiffers(hrp, a + b + c, a + b' + c);
  }

  lemma VerifiedDiffers(hrp: string, us: seq<Symbol>, vs: seq<Symbol>)
    requires Checksum(ExpandHRP(hrp) + us) != Checksum(ExpandHRP(hrp) + vs)
    ensures Verified(hrp, us) == None || Verified(hrp, vs) != Verified(hrp, us)
  {
    match Verified(hrp, us)
    case None =>
    case Some(e) =>
      VerifiedIs(hrp, us, e);
      VerifiedIs(hrp, vs, e);
  }

  lemma ReadingAppend(s: string, t: string)
    ensures Reading(s + t) == if Reading(s).Some?
            && Reading(t).Some? then Some(Reading(s).value + Reading(t).value) else None
  {
    forall i | 0 <= i < |s| ensures s[i] == (s + t)[i] {}
    forall i | 0 <= i < |t| ensures t[i] == (s + t)[|s| + i] {}
    if InSet(s) && InSet(t) { assert ValuesOf(s + t) == ValuesOf(s) + ValuesOf(t); }
  }

  lemma ReadingDiffers(b: string, b': string)
    requires Reading(b).Some? && Reading(b').Some? && Lowered(b) != Lowered(b')
    ensures Reading(b).value != Reading(b').value
  {
    TextOfValues(b);
    TextOfValues(b');
  }

  lemma ParsedBurst(hrp: string, a: string, b: string, b': string, c: string)
    requires |a + b + c| >= 6 && Parsed(hrp, a + b + c).Valid?
    requires |b| == |b'| <= 6 && Lowered(b) != Lowered(b')
    ensures var r := Parsed(hrp, a + b' + c); r.Invalid? || r.encoding != Parsed(hrp, a + b + c).encoding
  {
    ReadingAppend(a, b);
    ReadingAppend(a + b, c);
    ReadingAppend(a, b');
    ReadingAppend(a + b', c);
    if Reading(b').Some? {
      ReadingDiffers(b, b');
      BurstIsSeen(hrp, Reading(a).value, Reading(b).value, Reading(b').value, Reading(c).value);
    }
  }

  lemma LastOneOf(h: string, text: string)
    requires '1' !in text
    ensures LastOne(h + "1" + text) == |h|
  {
    LastOneIs(h + "1" + text, |h|);
  }

  lemma DecodedOf(h: string, text: string, ext_length: bool)
    requires '1' !in text
    ensures var r := Decoded(h + "1" + text, ext_length); r.Valid? ==> |text| >= 6 && r == Parsed(Lowered(h), text)
  {
    var s := h + "1" + text;
    LastOneOf(h, text);
    assert s[..|h|] == h && s[|h| + 1..] == text;
  }

  /**
   * With characters after the separator changed, other than in case, within six places, a string is not accepted
   * under its encoding.
   */
  lemma ChangedCharacters(h: string, a: string, b: string, b': string, c: string, ext_length: bool)
    requires '1' !in a + b + c && '1' !in b'
    requires Decoded(h + "1" + (a + b + c), ext_length).Valid?
    requires |b| == |b'| <= 6 && Lowered(b) != Lowered(b')
    ensures var r := Decoded(h + "1" + (a + b' + c), ext_length);
            r.Invalid? || r.encoding != Decoded(h + "1" + (a + b + c), ext_length).encoding
  {
    DecodedOf(h, a + b + c, ext_length);
    DecodedOf(h, a + b' + c, ext_length);
    ParsedBurst(Lowered(h), a, b, b', c);
  }
}
