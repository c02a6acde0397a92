/**
 The Base58 codec of base58.cpp.

 A byte string is its leading zero bytes and a number in base 256; its text is as many '1' characters
 and the number in base 58.  Both conversions run in a buffer of digits, most significant first, of a
 size computed beforehand.
 */
module Base58 {
  import opened Basics
  import opened Numbers
  import opened Radix

  type Byte = x: nat | x < 256

  // ----- The alphabet

  /** pszBase58: all alphanumeric characters except 0, I, O and l. */
  function Symbol(d: nat): (c: char)
    requires d < 58
  {
    if d < 9 then '1' + d as char
    else if d < 17 then 'A' + (d - 9) as char
    else if d < 22 then 'J' + (d - 17) as char
    else if d < 33 then 'P' + (d - 22) as char
    else if d < 44 then 'a' + (d - 33) as char
    else 'm' + (d - 44) as char
  }

  /** mapBase58, with -1 for what is not in the alphabet. */
  function DigitOf(c: char): (d: int)
    ensures -1 <= d < 58
  {
    var n := c as int;
    if '1' <= c <= '9' then n - '1' as int
    else if 'A' <= c <= 'H' then n - 'A' as int + 9
    else if 'J' <= c <= 'N' then n - 'J' as int + 17
    else if 'P' <= c <= 'Z' then n - 'P' as int + 22
    else if 'a' <= c <= 'k' then n - 'a' as int + 33
    else if 'm' <= c <= 'z' then n - 'm' as int + 44
    else -1
  }

  /** The two tables are inverse to each other. */
  lemma SymbolsAndDigits(d: nat, c: char)
    ensures d < 58 ==> DigitOf(Symbol(d)) == d
    ensures DigitOf(c) >= 0 ==> Symbol(DigitOf(c)) == c
  {}

  /** The alphabet: ascending, and of the letters and digits all but 0, I, O and l. */
  lemma Alphabet(d: nat, c: char)
    ensures d + 1 < 58 ==> Symbol(d) < Symbol(d + 1)
    ensures DigitOf(c) >= 0 <==>
            ('0' <= c <= '9' || 'A' <= c <= 'Z' || 'a' <= c <= 'z') && c != '0' && c != 'I' && c != 'O' && c != 'l'
  {}

  predicate IsSpace(c: char) { c == ' ' || c == '\U{000C}' || c == '\n' || c == '\r' || c == '\t' || c == '\U{000B}' }

  lemma SymbolIsNotSpace(d: nat)
    requires d < 58
    ensures !IsSpace(Symbol(d)) && Symbol(d) != '\0' && (Symbol(d) == '1' <==> d == 0)
  {}

  // ----- Reversal

  function Rev<T>(s: seq<T>): (r: seq<T>)
    ensures |r| == |s| && forall i :: 0 <= i < |s| ==> r[i] == s[|s| - 1 - i]
  {
    seq(|s|, i requires 0 <= i < |s| => s[|s| - 1 - i])
  }

  lemma RevTwice<T>(s: seq<T>)
    ensures Rev(Rev(s)) == s
  {}

  lemma RevAppend<T>(s: seq<T>, x: T)
    ensures Rev(s + [x]) == [x] + Rev(s)
  {}

  // ----- The digit buffer

  /** The digits, least significant first, hold v in their first `length` places, the last not zero. */
  ghost predicate Holds(b: nat, ds: seq<nat>, length: nat, v: nat) {
    && InBase(b, ds) && length <= |ds| && ZerosFrom(ds, length) && (length > 0 ==> ds[length - 1] != 0)
    && Value(b, ds) == v
  }

  lemma HoldsDigits(b: nat, ds: seq<nat>, length: nat, v: nat)
    requires b > 1 && Holds(b, ds, length, v)
    ensures ds[..length] == Digits(b, v)
  {
    ValueCut(b, ds, length);
    DigitsUnique(b, ds[..length]);
  }

  lemma HoldsNothing(b: nat, n: nat)
    requires b > 0
    ensures Holds(b, Rev(seq(n, _ => 0)), 0, 0)
  {
    ValueOfZeros(b, Rev(seq(n, _ => 0)));
  }

  /** One step of a carry loop; everything stays far below the width of an int. */
  method Column(b: nat, m: nat, carry: nat, d: nat) returns (digit: nat, carry': nat)
    requires b > 0 && carry < m && d < b
    ensures var n := carry + Mul(m, d); n < Mul(m, b) && digit == Rem(n, b) < b && carry' == Quot(n, b) < m
  {
    MulIs(m, d);
    var n := carry + m * d;
    QuotRemIs(n, b);
    digit, carry' := n % b, n / b;
    MulStrictly(d, b, m);
    MulCommutes(m, d);
    MulCommutes(m, b);
    Divides(n, b);
    if carry' >= m { MulGrows(m, carry', b); }
  }

  /** The carry into digit i. */
  ghost function CarryAt(b: nat, m: nat, ds: seq<nat>, c: nat, i: nat): nat
    requires b > 0 && i <= |ds|
  {
    if i == 0 then c else Quot(CarryAt(b, m, ds, c, i - 1) + Mul(m, ds[i - 1]), b)
  }

  lemma {:induction false} ScaleFrom(b: nat, m: nat, ds: seq<nat>, c: nat, i: nat)
    requires b > 0 && i <= |ds|
    ensures Scale(b, m, ds, c)[i..] == Scale(b, m, ds[i..], CarryAt(b, m, ds, c, i))
    ensures CarryOut(b, m, ds, c) == CarryOut(b, m, ds[i..], CarryAt(b, m, ds, c, i))
  {
    if i == 0 {
      assert ds[0..] == ds && Scale(b, m, ds, c)[0..] == Scale(b, m, ds, c);
    } else {
      ScaleFrom(b, m, ds, c, i - 1);
      var r, t := Scale(b, m, ds, c), ds[i - 1..];
      assert t[1..] == ds[i..] && t[0] == ds[i - 1] && r[i..] == r[i - 1..][1..];
    }
  }

  ghost function DigitAt(b: nat, m: nat, ds: seq<nat>, c: nat, i: nat): nat
    requires b > 0 && i < |ds|
  {
    Rem(CarryAt(b, m, ds, c, i) + Mul(m, ds[i]), b)
  }

  /** r has the digits that the columns yield. */
  ghost predicate Follows(b: nat, m: nat, ds: seq<nat>, c: nat, r: seq<nat>)
    requires b > 0 && |r| == |ds|
  {
    forall i {:trigger DigitAt(b, m, ds, c, i)} :: 0 <= i < |ds| ==> r[i] == DigitAt(b, m, ds, c, i)
  }

  lemma ScaleFollows(b: nat, m: nat, ds: seq<nat>, c: nat)
    requires b > 0
    ensures Follows(b, m, ds, c, Scale(b, m, ds, c))
  {
    forall i | 0 <= i < |ds| ensures Scale(b, m, ds, c)[i] == DigitAt(b, m, ds, c, i) { ScaleAt(b, m, ds, c, i); }
  }

  lemma ScaleAt(b: nat, m: nat, ds: seq<nat>, c: nat, i: nat)
    requires b > 0 && i < |ds|
    ensures Scale(b, m, ds, c)[i] == DigitAt(b, m, ds, c, i)
  {
    ScaleFrom(b, m, ds, c, i);
    assert Scale(b, m, ds, c)[i] == Scale(b, m, ds, c)[i..][0];
  }

  /** Where the carry loop stops, the digits are done. */
  lemma LoopEnds(b: nat, m: nat, ds: seq<nat>, c: nat, i: nat, length: nat)
    requires b > 0 && i <= |ds| && length <= |ds| && ZerosFrom(ds, length) && CarryOut(b, m, ds, c) == 0
    requires i == |ds| || (CarryAt(b, m, ds, c, i) == 0 && i >= length)
    ensures CarryAt(b, m, ds, c, i) == 0
    ensures Mixed(ds, Scale(b, m, ds, c), i) == Scale(b, m, ds, c) && ZerosFrom(Scale(b, m, ds, c), i)
  {
    var r := Scale(b, m, ds, c);
    ScaleFrom(b, m, ds, c, i);
    ScaleZeros(b, m, ds[i..]);
    forall k | i <= k < |ds| ensures r[k] == ds[k] { assert r[k] == r[i..][k - i] && ds[k] == ds[i..][k - i]; }
    MixedAt(ds, r, i);
  }

  /** The last digit that a carry makes is not zero. */
  lemma NewTop(b: nat, m: nat, carry: nat)
    requires b > 0
    ensures var n := carry + Mul(m, 0); carry != 0 && Quot(n, b) == 0 ==> Rem(n, b) != 0
  {
    MulOne(m);
    MulOne(b);
    Divides(carry, b);
  }

  /** The digits while the loop runs: new ones below i, old ones from there on. */
  ghost function Mixed(ds: seq<nat>, r: seq<nat>, i: nat): (s: seq<nat>)
    requires |r| == |ds| && i <= |ds|
    ensures |s| == |ds|
  {
    if i == 0 then ds else Mixed(ds, r, i - 1)[i - 1 := r[i - 1]]
  }

  lemma {:induction false} MixedAt(ds: seq<nat>, r: seq<nat>, i: nat)
    requires |r| == |ds| && i <= |ds|
    ensures forall k :: 0 <= k < |ds| ==> Mixed(ds, r, i)[k] == if k < i then r[k] else ds[k]
  {
    if i > 0 { MixedAt(ds, r, i - 1); }
  }

  lemma MixedNext(ds: seq<nat>, r: seq<nat>, i: nat, s: seq<nat>, s': seq<nat>)
    requires |r| == |ds| == |s| && i < |ds| && Rev(s) == Mixed(ds, r, i) && s' == s[|s| - 1 - i := r[i]]
    ensures Rev(s') == Mixed(ds, r, i + 1)
  {
    assert Rev(s') == Rev(s)[i := r[i]];
  }

  /** The highest digit of the result is not zero. */
  lemma TopStays(b: nat, ds: seq<nat>, k: nat, v: nat, v': nat)
    requires b > 1 && InBase(b, ds) && 0 < k <= |ds| && ZerosFrom(ds, k) && Value(b, ds) == v' && v <= v'
             && k == |Digits(b, v)|
    ensures ds[k - 1] != 0
  {
    DigitsGrow(b, v, v');
    if ds[k - 1] == 0 { DigitsAtMost(b, ds, k - 1); }
  }

  lemma ScaledGrows(m: nat, v: nat, c: nat)
    requires m > 0
    ensures v <= Mul(m, v) + c
  {
    MulGrows(1, m, v);
    MulOne(v);
  }

  /** One digit of the carry loop. */
  method CarryStep(buf: array<nat>, i: nat, b: nat, m: nat, carry: nat, ghost ds: seq<nat>, ghost c: nat, ghost r: seq<nat>)
    returns (carry': nat)
    requires b > 0 && i < buf.Length == |ds| && InBase(b, ds) && carry == CarryAt(b, m, ds, c, i) < m
    requires |r| == |ds| && Follows(b, m, ds, c, r) && Rev(buf[..]) == Mixed(ds, r, i)
    modifies buf
    ensures carry' == CarryAt(b, m, ds, c, i + 1) < m && Rev(buf[..]) == Mixed(ds, r, i + 1)
    ensures ds[i] == 0 && carry != 0 && carry' == 0 ==> r[i] != 0
  {
    ghost var was := buf[..];
    var n := buf.Length;
    assert buf[n - 1 - i] == ds[i] by {
      MixedAt(ds, r, i);
      assert Rev(buf[..])[i] == ds[i];
    }
    var digit;
    digit, carry' := Column(b, m, carry, buf[n - 1 - i]);
    assert r[i] == DigitAt(b, m, ds, c, i);
    if ds[i] == 0 { NewTop(b, m, carry); }
    buf[n - 1 - i] := digit;
    MixedNext(ds, r, i, was, buf[..]);
  }

  /** The carry loop.  It may stop before the end of the buffer. */
  method CarryLoop(buf: array<nat>, length: nat, b: nat, m: nat, c: nat, ghost ds: seq<nat>, ghost r: seq<nat>)
      returns (i: nat, carry: nat)
    requires b > 1 && c < m && length <= buf.Length == |ds| && InBase(b, ds) && ZerosFrom(ds, length)
    requires Rev(buf[..]) == ds && |r| == |ds| && Follows(b, m, ds, c, r)
    modifies buf
    ensures length <= i <= buf.Length && carry == CarryAt(b, m, ds, c, i) && (i == buf.Length || carry == 0)
    ensures Rev(buf[..]) == Mixed(ds, r, i)
    ensures i > length && carry == 0 ==> r[i - 1] != 0
  {
    carry, i := c, 0;
    while (carry != 0 || i < length) && i < buf.Length
      invariant 0 <= i <= buf.Length && carry == CarryAt(b, m, ds, c, i) < m
      invariant Rev(buf[..]) == Mixed(ds, r, i)
      invariant i > length && carry == 0 ==> r[i - 1] != 0
      decreases buf.Length - i
    {
      carry := CarryStep(buf, i, b, m, carry, ds, c, r);
      i := i + 1;
    }
  }

  /** "buffer = buffer * m + c", as long as the buffer is large enough; then nothing is carried out. */
  method MultiplyAdd(buf: array<nat>, length: nat, b: nat, m: nat, c: nat, ghost v: nat) returns (length': nat)
    requires b > 1 && c < m && Holds(b, Rev(buf[..]), length, v) && Mul(m, v) + c < Pow(b, buf.Length)
    modifies buf
    ensures length <= length' && Holds(b, Rev(buf[..]), length', Mul(m, v) + c)
  {
    ghost var ds := Rev(buf[..]);
    NoCarryOut(b, m, ds, c);
    ScaleValue(b, m, ds, c);
    ScaleFollows(b, m, ds, c);
    var carry;
    length', carry := CarryLoop(buf, length, b, m, c, ds, Scale(b, m, ds, c));
    LoopEnds(b, m, ds, c, length', length);
    assert carry == 0;
    assert Rev(buf[..]) == Scale(b, m, ds, c);
    if 0 < length' == length {
      HoldsDigits(b, ds, length, v);
      ScaledGrows(m, v, c);
      TopStays(b, Rev(buf[..]), length, v, Mul(m, v) + c);
    }
  }

  // ----- The buffers suffice

  lemma PowDouble(b: nat, e: nat, f: nat, v: nat)
    requires Pow(b, e) == v && f == e + e
    ensures Pow(b, f) == v * v
  {
    PowSum(b, e, e);
    MulIs(v, v);
  }

  lemma PowTimes(b: nat, e: nat, f: nat, g: nat, v: nat, w: nat)
    requires Pow(b, e) == v && Pow(b, f) == w && g == e + f
    ensures Pow(b, g) == v * w
  {
    PowSum(b, e, f);
    MulIs(v, w);
  }

  lemma PowFirst(b: nat, e: nat)
    requires e == 1
    ensures Pow(b, e) == b
  {
    MulOne(b);
    assert Pow(b, e - 1) == 1;
  }

  /** 58^11 >= 256^8 */
  lemma EncodeRate(p: nat, q: nat)
    requires p == 8 && q == 11
    ensures Pow(256, p) <= Pow(58, q)
  {
    PowFirst(256, p - 7);
    PowDouble(256, p - 7, p - 6, 256);
    PowDouble(256, p - 6, p - 4, 65536);
    PowDouble(256, p - 4, p, 4294967296);
    PowFirst(58, q - 10);
    PowDouble(58, q - 10, q - 9, 58);
    PowTimes(58, q - 9, q - 10, q - 8, 3364, 58);
    PowDouble(58, q - 9, q - 7, 3364);
    PowDouble(58, q - 7, q - 3, 11316496);
    PowTimes(58, q - 3, q - 8, q, 128063081718016, 195112);
  }

  /** 58^71 <= 256^52 */
  lemma DecodeRate(p: nat, q: nat)
    requires p == 71 && q == 52
    ensures Pow(58, p) <= Pow(256, q)
  {
    PowFirst(58, p - 70);
    PowDouble(58, p - 70, p - 69, 58);
    PowTimes(58, p - 69, p - 70, p - 68, 3364, 58);
    PowDouble(58, p - 69, p - 67, 3364);
    PowTimes(58, p - 67, p - 68, p - 64, 11316496, 195112);
    PowDouble(58, p - 67, p - 63, 11316496);
    PowDouble(58, p - 63, p - 55, 128063081718016);
    PowDouble(58, p - 55, p - 39, 16400152899115243850138976256);
    PowDouble(58, p - 39, p - 7, 268965015114358137726910587140455987105619365599731777536);
    PowTimes(58, p - 7, p - 64, p,
             72342179355466901471258927612150153907721848234316445933056526044582001260898145151856420451025374266490194231296,
             2207984167552);
    PowFirst(256, q - 51);
    PowDouble(256, q - 51, q - 50, 256);
    PowDouble(256, q - 50, q - 48, 65536);
    PowDouble(256, q - 48, q - 44, 4294967296);
    PowDouble(256, q - 44, q - 36, 18446744073709551616);
    PowDouble(256, q - 36, q - 20, 340282366920938463463374607431768211456);
    PowTimes(256, q - 36, q - 48, q - 32, 340282366920938463463374607431768211456, 4294967296);
    PowTimes(256, q - 20, q - 32, q,
             115792089237316195423570985008687907853269984665640564039457584007913129639936,
             1461501637330902918203684832716283019655932542976);
  }

  /** Every number of n bytes fits n * 138 / 100 + 1 digits in base 58. */
  lemma EncodeBufferSuffices(n: nat)
    ensures Pow(256, n) <= Pow(58, n * 138 / 100 + 1)
  {
    var s := n * 138 / 100 + 1;
    EncodeRate(8, 11);
    MulIs(11, n);
    MulIs(8, s);
    PowRate(256, 8, 58, 11, n, s);
  }

  /** Every number of n digits in base 58 fits n * 733 / 1000 + 1 bytes. */
  lemma DecodeBufferSuffices(n: nat)
    ensures Pow(58, n) <= Pow(256, n * 733 / 1000 + 1)
  {
    var s := n * 733 / 1000 + 1;
    DecodeRate(71, 52);
    MulIs(52, n);
    MulIs(71, s);
    PowRate(58, 71, 256, 52, n, s);
  }

  // ----- What encoding and decoding mean

  /** The number that digits, most significant first, stand for. */
  ghost function Number(b: nat, s: seq<nat>): nat { Value(b, Rev(s)) }

  lemma NumberAppend(b: nat, s: seq<nat>, x: nat)
    ensures Number(b, s + [x]) == Mul(b, Number(b, s)) + x
  {
    RevAppend(s, x);
    assert ([x] + Rev(s))[1..] == Rev(s);
  }

  lemma NumberBelow(b: nat, s: seq<nat>)
    requires InBase(b, s)
    ensures Number(b, s) < Pow(b, |s|)
  {
    ValueBelow(b, Rev(s));
  }

  /** The digits of a number, most significant first. */
  ghost function Numeral(b: nat, v: nat): seq<nat>
    requires b > 1
  {
    Rev(Digits(b, v))
  }

  lemma NumeralIs(b: nat, v: nat)
    requires b > 1
    ensures Number(b, Numeral(b, v)) == v && InBase(b, Numeral(b, v)) && (Numeral(b, v) != [] ==> Numeral(b, v)[0] != 0)
  {
    DigitsValue(b, v);
    RevTwice(Digits(b, v));
  }

  lemma NumeralUnique(b: nat, s: seq<nat>)
    requires b > 1 && InBase(b, s) && (s != [] ==> s[0] != 0)
    ensures Numeral(b, Number(b, s)) == s
  {
    DigitsUnique(b, Rev(s));
    RevTwice(s);
  }

  /** How many times x leads s. */
  function Leading<T(==)>(s: seq<T>, x: T): (n: nat)
    ensures n <= |s| && (forall i :: 0 <= i < n ==> s[i] == x) && (n < |s| ==> s[n] != x)
  {
    if s == [] || s[0] != x then 0 else 1 + Leading(s[1..], x)
  }

  lemma LeadingIs<T>(s: seq<T>, x: T, n: nat)
    requires n <= |s| && (forall i :: 0 <= i < n ==> s[i] == x) && (n < |s| ==> s[n] != x)
    ensures Leading(s, x) == n
  {}

  function Repeat<T>(n: nat, x: T): (s: seq<T>)
    ensures |s| == n && forall i :: 0 <= i < n ==> s[i] == x
  {
    seq(n, _ => x)
  }

  function Symbols(ds: seq<nat>): (s: string)
    requires forall i :: 0 <= i < |ds| ==> ds[i] < 58
    ensures |s| == |ds| && forall i :: 0 <= i < |s| ==> s[i] == Symbol(ds[i])
  {
    seq(|ds|, i requires 0 <= i < |ds| => Symbol(ds[i]))
  }

  ghost predicate AllSymbols(s: string) { forall i :: 0 <= i < |s| ==> DigitOf(s[i]) >= 0 }

  ghost function DigitsOf(s: string): (ds: seq<nat>)
    requires AllSymbols(s)
    ensures |ds| == |s| && forall i :: 0 <= i < |s| ==> ds[i] == DigitOf(s[i]) < 58
  {
    seq(|s|, i requires 0 <= i < |s| => DigitOf(s[i]))
  }

  lemma SymbolsOfDigits(s: string)
    requires AllSymbols(s)
    ensures Symbols(DigitsOf(s)) == s
  {
    forall i | 0 <= i < |s| ensures Symbols(DigitsOf(s))[i] == s[i] { SymbolsAndDigits(0, s[i]); }
  }

  lemma DigitsOfSymbols(ds: seq<nat>)
    requires InBase(58, ds)
    ensures AllSymbols(Symbols(ds)) && DigitsOf(Symbols(ds)) == ds
  {
    forall i | 0 <= i < |ds| ensures DigitOf(Symbols(ds)[i]) == ds[i] { SymbolsAndDigits(ds[i], 'x'); }
  }

  /** A '1' for each leading zero byte, then the number in base 58. */
  ghost function Encoded(x: seq<nat>): string {
    var z := Leading(x, 0);
    var v := Number(256, x[z..]);
    NumeralIs(58, v);
    Repeat(z, '1') + Symbols(Numeral(58, v))
  }

  function SkipSpaces(s: string, p: nat): (r: nat)
    requires p <= |s|
    ensures p <= r <= |s| && (forall i :: p <= i < r ==> IsSpace(s[i])) && (r < |s| ==> !IsSpace(s[r]))
    decreases |s| - p
  {
    if p < |s| && IsSpace(s[p]) then SkipSpaces(s, p + 1) else p
  }

  function SkipText(s: string, p: nat): (r: nat)
    requires p <= |s|
    ensures p <= r <= |s| && (forall i :: p <= i < r ==> !IsSpace(s[i])) && (r < |s| ==> IsSpace(s[r]))
    decreases |s| - p
  {
    if p < |s| && !IsSpace(s[p]) then SkipText(s, p + 1) else p
  }

  /** A zero byte for each leading '1', then the number in base 256.  `BytesOfIs` says which bytes they are. */
  ghost function BytesOf(zeroes: nat, text: string): seq<nat>
    requires AllSymbols(text)
  {
    assert AreBytes(Repeat(zeroes, 0) + Numeral(256, Number(58, DigitsOf(text))), zeroes, text);
    var r :| AreBytes(r, zeroes, text);
    r
  }

  ghost predicate AreBytes(r: seq<nat>, zeroes: nat, text: string)
    requires AllSymbols(text)
  {
    forall k: int {:trigger Spelled(k)} :: k == zeroes ==> r == Repeat(zeroes, 0) + Numeral(256, Number(58, DigitsOf(text)))
  }

  lemma BytesOfIs(zeroes: nat, text: string)
    requires AllSymbols(text)
    ensures BytesOf(zeroes, text) == Repeat(zeroes, 0) + Numeral(256, Number(58, DigitsOf(text)))
  {
    assert AreBytes(BytesOf(zeroes, text), zeroes, text);
    assert Spelled(zeroes);
  }

  /** Text between spaces, all of the alphabet and not too long, is a zero byte for each leading '1' and
      the number in base 256; anything else is refused. */
  ghost function Decoded(s: string, max: int): Option<seq<nat>> {
    if '\0' in s then None
    else
      var a := SkipSpaces(s, 0);
      var z := Leading(s[a..], '1');
      DecodedRest(s, a + z, z, max)
  }

  ghost predicate IsRest(r: Option<seq<nat>>, s: string, p: nat, z: nat, max: int)
    requires p <= |s|
  {
    forall k: int {:trigger Spelled(k)} :: k == z ==>
      var e := SkipText(s, p);
      r == if SkipSpaces(s, e) != |s| then None else DecodedPlain(z, s[p..e], max)
  }

  /** The same after leading spaces and z characters '1', which `DecodedRestIs` says. */
  ghost function DecodedRest(s: string, p: nat, z: nat, max: int): Option<seq<nat>>
    requires p <= |s|
  {
    var e := SkipText(s, p);
    assert IsRest(if SkipSpaces(s, e) != |s| then None else DecodedPlain(z, s[p..e], max), s, p, z, max);
    var r :| IsRest(r, s, p, z, max);
    r
  }

  lemma DecodedRestIs(s: string, p: nat, z: nat, max: int)
    requires p <= |s|
    ensures var e := SkipText(s, p);
            DecodedRest(s, p, z, max) == if SkipSpaces(s, e) != |s| then None else DecodedPlain(z, s[p..e], max)
  {
    assert IsRest(DecodedRest(s, p, z, max), s, p, z, max);
    assert Spelled(z);
  }

  /** The meaning of text without spaces. */
  ghost function DecodedPlain(z: nat, text: string, max: int): Option<seq<nat>> {
    if !AllSymbols(text) then None else Limited(BytesOf(z, text), max)
  }

  /** Bytes, or a refusal of too many of them. */
  function Limited(r: seq<nat>, max: int): Option<seq<nat>> { if r != [] && |r| > max then None else Some(r) }

  // ----- The round trips

  ghost predicate Plain(s: string) { forall i :: 0 <= i < |s| ==> !IsSpace(s[i]) && s[i] != '\0' }

  lemma SymbolsArePlain(ds: seq<nat>)
    requires InBase(58, ds)
    ensures Plain(Symbols(ds)) && forall i :: 0 <= i < |ds| ==> (Symbols(ds)[i] == '1' <==> ds[i] == 0)
  {
    forall i | 0 <= i < |ds| ensures !IsSpace(Symbols(ds)[i]) && Symbols(ds)[i] != '\0'
        && (Symbols(ds)[i] == '1' <==> ds[i] == 0) {
      SymbolIsNotSpace(ds[i]);
    }
  }

  lemma TextIs(z: nat, ds: seq<nat>, t: string)
    requires InBase(58, ds) && (ds != [] ==> ds[0] != 0) && t == Repeat(z, '1') + Symbols(ds)
    ensures Plain(t) && Leading(t, '1') == z && t[z..] == Symbols(ds)
  {
    SymbolsArePlain(ds);
    assert t[z..] == Symbols(ds);
    forall i | 0 <= i < |t| ensures !IsSpace(t[i]) && t[i] != '\0' {
      if i >= z { assert t[i] == Symbols(ds)[i - z]; }
    }
    if z < |t| { assert t[z] == Symbols(ds)[0]; }
    LeadingIs(t, '1', z);
  }

  lemma PlainText(s: string, max: int)
    requires Plain(s)
    ensures var z := Leading(s, '1'); Decoded(s, max) == DecodedPlain(z, s[z..], max)
  {
    var z := Leading(s, '1');
    DecodedRestIs(s, z, z, max);
    assert SkipSpaces(s, 0) == 0 && s[0..] == s;
    assert SkipText(s, z) == |s| && SkipSpaces(s, |s|) == |s| && s[z..|s|] == s[z..];
  }

  /** Blanks, tabs, line ends, returns and the vertical tab and form feed. */
  ghost predicate Blank(s: string) { forall i :: 0 <= i < |s| ==> s[i] in " \t\n\r\U{000B}\U{000C}" }

  /** What a text between spaces stands for. */
  lemma DecodedBetween(s: string, n: nat, m: nat, z: nat, max: int)
    requires n < m <= |s| && '\0' !in s && z == Leading(s[n..], '1') && n + z <= m
    requires (forall i :: 0 <= i < n ==> IsSpace(s[i])) && (forall i :: m <= i < |s| ==> IsSpace(s[i]))
    requires forall i :: n <= i < m ==> !IsSpace(s[i])
    ensures Decoded(s, max) == DecodedPlain(z, s[n + z..m], max)
  {
    SkipSpacesTo(s, 0, n);
    SkipTextTo(s, n + z, m);
    SkipSpacesTo(s, m, |s|);
    DecodedVia(s, n, m, z, max);
  }

  lemma DecodedVia(s: string, n: nat, m: nat, z: nat, max: int)
    requires '\0' !in s && n == SkipSpaces(s, 0) && z == Leading(s[n..], '1') && n + z <= m <= |s|
    requires m == SkipText(s, n + z) && SkipSpaces(s, m) == |s|
    ensures Decoded(s, max) == DecodedPlain(z, s[n + z..m], max)
  {
    DecodedStart(s, n, z, max);
    DecodedRestIs(s, n + z, z, max);
  }

  lemma DecodedStart(s: string, n: nat, z: nat, max: int)
    requires '\0' !in s && n == SkipSpaces(s, 0) && z == Leading(s[n..], '1')
    ensures Decoded(s, max) == DecodedRest(s, n + z, z, max)
  {}

  /** The spaces around a text do not matter. */
  lemma SpacesIgnored(a: string, t: string, b: string, max: int)
    requires Blank(a) && Plain(t) && t != [] && Blank(b)
    ensures Decoded(a + t + b, max) == Decoded(t, max)
  {
    var s, z, n, m := a + t + b, Leading(t, '1'), |a|, |a| + |t|;
    assert s[n..] == t + b && s[n + z..m] == t[z..];
    assert Leading(s[n..], '1') == z by {
      assert '1' !in b by { BlankIsSpace(b); }
      LeadingWithin(t, b, z);
    }
    Between(a, t, b);
    DecodedBetween(s, n, m, z, max);
    PlainText(t, max);
  }

  lemma Between(a: string, t: string, b: string)
    requires Blank(a) && Plain(t) && Blank(b)
    ensures var s, n, m := a + t + b, |a|, |a| + |t|;
            && '\0' !in s && (forall i :: 0 <= i < n ==> IsSpace(s[i])) && (forall i :: m <= i < |s| ==> IsSpace(s[i]))
            && (forall i :: n <= i < m ==> !IsSpace(s[i]))
  {
    var s, n, m := a + t + b, |a|, |a| + |t|;
    BlankIsSpace(a);
    BlankIsSpace(b);
    forall i | 0 <= i < |s| ensures s[i] != '\0' && (IsSpace(s[i]) <==> i < n || i >= m) {
      if i < n { assert s[i] == a[i]; } else if i < m { assert s[i] == t[i - n]; } else { assert s[i] == b[i - m]; }
    }
  }

  lemma BlankIsSpace(s: string)
    requires Blank(s)
    ensures forall i :: 0 <= i < |s| ==> IsSpace(s[i]) && s[i] != '\0' && s[i] != '1'
  {}

  lemma {:induction false} SkipSpacesTo(s: string, p: nat, q: nat)
    requires p <= q <= |s| && (forall i :: p <= i < q ==> IsSpace(s[i])) && (q < |s| ==> !IsSpace(s[q]))
    ensures SkipSpaces(s, p) == q
    decreases q - p
  {
    if p < q { SkipSpacesTo(s, p + 1, q); }
  }

  lemma {:induction false} SkipTextTo(s: string, p: nat, q: nat)
    requires p <= q <= |s| && (forall i :: p <= i < q ==> !IsSpace(s[i])) && (q < |s| ==> IsSpace(s[q]))
    ensures SkipText(s, p) == q
    decreases q - p
  {
    if p < q { SkipTextTo(s, p + 1, q); }
  }

  lemma LeadingWithin(t: string, b: string, z: nat)
    requires z == Leading(t, '1') && '1' !in b
    ensures Leading(t + b, '1') == z
  {
    if z < |t| { assert (t + b)[z] == t[z]; } else if b != [] { assert (t + b)[z] == b[0]; }
    LeadingIs(t + b, '1', z);
  }

  lemma DecodedText(z: nat, ds: seq<nat>, max: int)
    requires InBase(58, ds) && (ds != [] ==> ds[0] != 0)
    ensures Decoded(Repeat(z, '1') + Symbols(ds), max) == Limited(Repeat(z, 0) + Numeral(256, Number(58, ds)), max)
  {
    var t := Repeat(z, '1') + Symbols(ds);
    TextIs(z, ds, t);
    PlainText(t, max);
    DigitsOfSymbols(ds);
    BytesOfIs(z, Symbols(ds));
  }

  lemma LeadingZeros(z: nat, ds: seq<nat>)
    requires ds != [] ==> ds[0] != 0
    ensures Leading(Repeat(z, 0) + ds, 0) == z && (Repeat(z, 0) + ds)[z..] == ds
  {
    var x := Repeat(z, 0) + ds;
    assert x[z..] == ds;
    if z < |x| { assert x[z] == ds[0]; }
    LeadingIs(x, 0, z);
  }

  /** Decoding inverts encoding, for every byte string within the limit. */
  lemma DecodeInvertsEncode(x: seq<nat>, max: int)
    requires InBase(256, x) && (x == [] || |x| <= max)
    ensures Decoded(Encoded(x), max) == Some(x)
  {
    var z := Leading(x, 0);
    assert x == Repeat(z, 0) + x[z..];
    BytesComeBack(x, z, x[z..], Encoded(x), max);
  }

  lemma BytesComeBack(x: seq<nat>, z: nat, t: seq<nat>, s: string, max: int)
    requires x == Repeat(z, 0) + t && InBase(256, t) && (t != [] ==> t[0] != 0)
    requires var ds := Numeral(58, Number(256, t)); InBase(58, ds) ==> s == Repeat(z, '1') + Symbols(ds)
    ensures Decoded(s, max) == Limited(x, max)
  {
    var v := Number(256, t);
    NumeralIs(58, v);
    NumeralUnique(256, t);
    DecodedText(z, Numeral(58, v), max);
  }

  lemma TextLeads(s: string, z: nat)
    requires z == Leading(s, '1') && AllSymbols(s[z..])
    ensures Numeral(58, Number(58, DigitsOf(s[z..]))) == DigitsOf(s[z..])
  {
    var ds := DigitsOf(s[z..]);
    if ds != [] {
      assert ds[0] == DigitOf(s[z]) && s[z] != '1';
      SymbolsAndDigits(0, s[z]);
    }
    NumeralUnique(58, ds);
  }

  lemma EncodedBytes(z: nat, v: nat)
    ensures var x := Repeat(z, 0) + Numeral(256, v);
            InBase(256, x) && InBase(58, Numeral(58, v)) && Encoded(x) == Repeat(z, '1') + Symbols(Numeral(58, v))
  {
    NumeralIs(256, v);
    NumeralIs(58, v);
    LeadingZeros(z, Numeral(256, v));
  }

  /** Encoding inverts decoding, for every accepted text without spaces. */
  lemma EncodeInvertsDecode(s: string, max: int)
    requires (forall i :: 0 <= i < |s| ==> !IsSpace(s[i])) && Decoded(s, max).Some?
    ensures InBase(256, Decoded(s, max).value) && Encoded(Decoded(s, max).value) == s
  {
    var z := Leading(s, '1');
    PlainText(s, max);
    assert s == Repeat(z, '1') + s[z..];
    TextComesBack(s, z, s[z..]);
  }

  lemma TextComesBack(s: string, z: nat, text: string)
    requires z == Leading(s, '1') && text == s[z..] && s == Repeat(z, '1') + text && AllSymbols(text)
    ensures InBase(256, BytesOf(z, text)) && Encoded(BytesOf(z, text)) == s
  {
    BytesOfIs(z, text);
    TextLeads(s, z);
    EncodedBytes(z, Number(58, DigitsOf(text)));
    SymbolsOfDigits(text);
  }

  // ----- Encoding

  method SkipZeros(buf: array<nat>, from: nat) returns (it: nat)
    requires from <= buf.Length
    ensures from <= it <= buf.Length && (forall i :: from <= i < it ==> buf[i] == 0) && (it < buf.Length ==> buf[it] != 0)
  {
    it := from;
    while it < buf.Length && buf[it] == 0
      invariant from <= it <= buf.Length && forall i :: from <= i < it ==> buf[i] == 0
    {
      it := it + 1;
    }
  }

  method CountLeading<T(==)>(s: seq<T>, x: T) returns (n: nat)
    ensures n == Leading(s, x)
  {
    n := 0;
    while n < |s| && s[n] == x
      invariant n <= |s| && forall i :: 0 <= i < n ==> s[i] == x
    {
      n := n + 1;
    }
    LeadingIs(s, x, n);
  }

  method ToText(zeroes: nat, ds: seq<nat>) returns (str: string)
    requires InBase(58, ds)
    ensures str == Repeat(zeroes, '1') + Symbols(ds)
  {
    str := Repeat(zeroes, '1');
    for i := 0 to |ds|
      invariant str == Repeat(zeroes, '1') + Symbols(ds[..i])
    {
      assert ds[..i + 1] == ds[..i] + [ds[i]];
      str := str + [Symbol(ds[i])];
    }
    assert ds[..|ds|] == ds;
  }

  /** The used end of a buffer is the numeral of the number it holds. */
  lemma BufferNumeral(b: nat, s: seq<nat>, length: nat, v: nat)
    requires b > 1 && Holds(b, Rev(s), length, v)
    ensures s[|s| - length..] == Numeral(b, v)
  {
    HoldsDigits(b, Rev(s), length, v);
    assert s[|s| - length..] == Rev(Rev(s)[..length]);
  }

  lemma NumberStep(rest: seq<nat>, k: nat)
    requires k < |rest|
    ensures Number(256, rest[..k + 1]) == Mul(256, Number(256, rest[..k])) + rest[k]
  {
    assert rest[..k + 1] == rest[..k] + [rest[k]];
    NumberAppend(256, rest[..k], rest[k]);
  }

  /** Byte by byte, the number fits the buffer. */
  lemma EncodeStepFits(rest: seq<nat>, k: nat)
    requires InBase(256, rest) && k < |rest|
    ensures Number(256, rest[..k + 1]) == Mul(256, Number(256, rest[..k])) + rest[k] < Pow(58, |rest| * 138 / 100 + 1)
  {
    NumberStep(rest, k);
    NumberBelow(256, rest[..k + 1]);
    PowExponent(256, k + 1, |rest|);
    EncodeBufferSuffices(|rest|);
  }

  method EncodeNumber(rest: seq<Byte>) returns (b58: array<nat>, length: nat)
    ensures fresh(b58) && Holds(58, Rev(b58[..]), length, Number(256, rest))
  {
    b58 := new nat[|rest| * 138 / 100 + 1](_ => 0);
    length := 0;
    assert b58[..] == seq(b58.Length, _ => 0);
    HoldsNothing(58, b58.Length);
    for k := 0 to |rest|
      invariant fresh(b58) && b58.Length == |rest| * 138 / 100 + 1 && Holds(58, Rev(b58[..]), length, Number(256, rest[..k]))
    {
      EncodeStepFits(rest, k);
      length := MultiplyAdd(b58, length, 58, 256, rest[k], Number(256, rest[..k]));
    }
    assert rest[..|rest|] == rest;
  }

  /** Skip leading zeroes in the result. */
  method UsedDigits(buf: array<nat>, length: nat, b: nat, ghost v: nat) returns (digits: seq<nat>)
    requires b > 1 && Holds(b, Rev(buf[..]), length, v)
    ensures digits == Numeral(b, v)
  {
    BufferNumeral(b, buf[..], length, v);
    NumeralIs(b, v);
    var it := SkipZeros(buf, buf.Length - length);
    assert buf[buf.Length - length..] == Numeral(b, v);
    if length > 0 { assert buf[buf.Length - length] == Numeral(b, v)[0]; }
    digits := buf[it..];
  }

  /** EncodeBase58 */
  method EncodeBase58(input: seq<Byte>) returns (str: string)
    ensures str == Encoded(input)
  {
    var zeroes := CountLeading(input, 0);
    var b58, length := EncodeNumber(input[zeroes..]);
    ghost var v := Number(256, input[zeroes..]);
    NumeralIs(58, v);
    var digits := UsedDigits(b58, length, 58, v);
    str := ToText(zeroes, digits);
  }

  // ----- Decoding

  /** The number of the first k characters. */
  ghost function NumberTo(text: string, k: nat): nat
    requires k <= |text| && SymbolsTo(text, k)
  {
    if k == 0 then 0 else Mul(58, NumberTo(text, k - 1)) + DigitOf(text[k - 1])
  }

  ghost predicate SymbolsTo(text: string, k: nat)
    requires k <= |text|
  {
    forall i :: 0 <= i < k ==> DigitOf(text[i]) >= 0
  }

  lemma {:induction false} NumberToIs(text: string, k: nat)
    requires k <= |text| && SymbolsTo(text, k)
    ensures AllSymbols(text[..k]) && NumberTo(text, k) == Number(58, DigitsOf(text[..k])) < Pow(58, k)
  {
    if k == 0 {
      assert DigitsOf(text[..0]) == [] && Rev<nat>([]) == [];
    } else {
      NumberToIs(text, k - 1);
      assert DigitsOf(text[..k]) == DigitsOf(text[..k - 1]) + [DigitOf(text[k - 1])];
      NumberAppend(58, DigitsOf(text[..k - 1]), DigitOf(text[k - 1]));
    }
    NumberBelow(58, DigitsOf(text[..k]));
  }

  /** Character by character, the number fits the buffer. */
  lemma DecodeStepFits(text: string, k: nat, n: nat)
    requires k < |text| <= n && SymbolsTo(text, k + 1)
    ensures Mul(58, NumberTo(text, k)) + DigitOf(text[k]) == NumberTo(text, k + 1) < Pow(256, n * 733 / 1000 + 1)
  {
    NumberToIs(text, k + 1);
    PowExponent(58, k + 1, n);
    DecodeBufferSuffices(n);
  }

  lemma {:induction false} NumberGrows(text: string, j: nat, k: nat)
    requires j <= k <= |text| && SymbolsTo(text, k)
    ensures NumberTo(text, j) <= NumberTo(text, k)
  {
    if j < k {
      NumberGrows(text, j, k - 1);
      ScaledGrows(58, NumberTo(text, k - 1), DigitOf(text[k - 1]));
    }
  }

  /** The bytes of the number of a text. */
  ghost function TextBytes(text: string): seq<nat>
    requires AllSymbols(text)
  {
    Numeral(256, NumberTo(text, |text|))
  }

  lemma TextBytesAre(text: string)
    requires AllSymbols(text)
    ensures TextBytes(text) == Numeral(256, Number(58, DigitsOf(text)))
    ensures text != [] && text[0] != '1' ==> TextBytes(text) != []
  {
    NumberToIs(text, |text|);
    assert text[..|text|] == text;
    if text != [] && text[0] != '1' {
      SymbolsAndDigits(0, text[0]);
      NumberGrows(text, 1, |text|);
      MulOne(58);
      assert NumberTo(text, 1) == DigitOf(text[0]);
      DigitsValue(256, NumberTo(text, |text|));
    }
  }

  ghost function TextResult(text: string, zeroes: nat, max: int): Option<seq<nat>> {
    if !AllSymbols(text) then None
    else if text != [] && zeroes + |TextBytes(text)| > max then None
    else Some(TextBytes(text))
  }

  lemma TooLong(text: string, k: nat, s: seq<nat>, length: nat, zeroes: nat, max: int)
    requires 0 < k <= |text| && SymbolsTo(text, k) && Holds(256, Rev(s), length, NumberTo(text, k)) && length + zeroes > max
    ensures TextResult(text, zeroes, max) == None
  {
    BufferNumeral(256, s, length, NumberTo(text, k));
    if AllSymbols(text) {
      NumberGrows(text, k, |text|);
      DigitsGrow(256, NumberTo(text, k), NumberTo(text, |text|));
    }
  }

  method DecodeChar(b256: array<nat>, length: nat, text: string, k: nat, n: nat) returns (length': nat)
    requires k < |text| <= n && SymbolsTo(text, k) && DigitOf(text[k]) != -1
    requires b256.Length == n * 733 / 1000 + 1 && Holds(256, Rev(b256[..]), length, NumberTo(text, k))
    modifies b256
    ensures SymbolsTo(text, k + 1) && Holds(256, Rev(b256[..]), length', NumberTo(text, k + 1))
  {
    DecodeStepFits(text, k, n);
    length' := MultiplyAdd(b256, length, 256, 58, DigitOf(text[k]), NumberTo(text, k));
  }

  /** The character loop: the number of the text, unless a character is not of the alphabet or the
      result would be too long.  `n` is the length that the buffer was made for. */
  method DecodeText(text: string, n: nat, zeroes: nat, max: int) returns (r: Option<seq<nat>>)
    requires |text| <= n
    ensures r == TextResult(text, zeroes, max)
  {
    var b256 := new nat[n * 733 / 1000 + 1](_ => 0);
    var length: nat := 0;
    assert b256[..] == seq(b256.Length, _ => 0);
    HoldsNothing(256, b256.Length);
    for k := 0 to |text|
      invariant fresh(b256) && b256.Length == n * 733 / 1000 + 1 && SymbolsTo(text, k)
      invariant Holds(256, Rev(b256[..]), length, NumberTo(text, k))
      invariant k > 0 ==> length + zeroes <= max
    {
      if DigitOf(text[k]) == -1 { return None; }
      length := DecodeChar(b256, length, text, k, n);
      if length + zeroes > max {
        TooLong(text, k + 1, b256[..], length, zeroes, max);
        return None;
      }
    }
    BufferNumeral(256, b256[..], length, NumberTo(text, |text|));
    return Some(b256[b256.Length - length..]);
  }

  /** Leading '1' characters, refused as soon as there are too many. */
  method SkipOnes(s: string, from: nat, max: int) returns (ok: bool, zeroes: nat)
    requires from <= |s|
    ensures var z := Leading(s[from..], '1'); if ok then zeroes == z && (z > 0 ==> z <= max) else z > 0 && z > max
  {
    zeroes := 0;
    while from + zeroes < |s| && s[from + zeroes] == '1'
      invariant from + zeroes <= |s| && (forall i :: 0 <= i < zeroes ==> s[from..][i] == '1')
                && (zeroes > 0 ==> zeroes <= max)
    {
      zeroes := zeroes + 1;
      if zeroes > max {
        LeadingAtLeast(s[from..], '1', zeroes);
        return false, zeroes;
      }
    }
    LeadingIs(s[from..], '1', zeroes);
    return true, zeroes;
  }

  lemma LeadingAtLeast<T>(s: seq<T>, x: T, n: nat)
    requires n <= |s| && forall i :: 0 <= i < n ==> s[i] == x
    ensures Leading(s, x) >= n
  {}

  method SpaceLoop(s: string, p: nat) returns (r: nat)
    requires p <= |s|
    ensures r == SkipSpaces(s, p)
  {
    r := p;
    while r < |s| && IsSpace(s[r])
      invariant p <= r <= |s| && SkipSpaces(s, r) == SkipSpaces(s, p)
    {
      r := r + 1;
    }
  }

  method TextLoop(s: string, p: nat) returns (r: nat)
    requires p <= |s|
    ensures r == SkipText(s, p)
  {
    r := p;
    while r < |s| && !IsSpace(s[r])
      invariant p <= r <= |s| && SkipText(s, r) == SkipText(s, p)
    {
      r := r + 1;
    }
  }

  /** What the character loop finds is what the text means. */
  lemma PlainResult(z: nat, text: string, max: int)
    requires (z > 0 ==> z <= max) && (text != [] ==> text[0] != '1')
    ensures var t := TextResult(text, z, max); DecodedPlain(z, text, max) == if t.None? then None
            else Some(Repeat(z, 0) + t.value)
  {
    if AllSymbols(text) {
      TextBytesAre(text);
      BytesOfIs(z, text);
    }
  }

  lemma TooManyOnes(s: string, p: nat, z: nat, max: int)
    requires p <= |s| && z > 0 && z > max
    ensures DecodedRest(s, p, z, max) == None
  {
    var text := s[p..SkipText(s, p)];
    DecodedRestIs(s, p, z, max);
    if AllSymbols(text) { BytesOfIs(z, text); }
  }

  method DecodeRest(str: string, p: nat, zeroes: nat, max: int) returns (r: Option<seq<nat>>)
    requires p <= |str| && (p < |str| ==> str[p] != '1') && (zeroes > 0 ==> zeroes <= max)
    ensures r == DecodedRest(str, p, zeroes, max)
  {
    var e := TextLoop(str, p);
    var text := str[p..e];
    DecodedRestIs(str, p, zeroes, max);
    PlainResult(zeroes, text, max);
    var bytes := DecodeText(text, |str| - p, zeroes, max);
    if bytes.None? { return None; }
    e := SpaceLoop(str, e);
    if e != |str| { return None; }
    r := Some(Repeat(zeroes, 0) + bytes.value);
  }

  /** DecodeBase58; a string with a NUL character is refused.  `None` leaves the output as it was. */
  method DecodeBase58(str: string, max_ret_len: int) returns (r: Option<seq<nat>>)
    ensures r == Decoded(str, max_ret_len)
  {
    if '\0' in str {
      r := None;
    } else {
      var a := SpaceLoop(str, 0);
      r := DecodeFrom(str, a, max_ret_len);
    }
  }

  method DecodeFrom(str: string, a: nat, max: int) returns (r: Option<seq<nat>>)
    requires a <= |str|
    ensures var z := Leading(str[a..], '1'); r == DecodedRest(str, a + z, z, max)
  {
    var ok, zeroes := SkipOnes(str, a, max);
    ghost var z := Leading(str[a..], '1');
    if ok {
      if a + z < |str| { assert str[a + z] == str[a..][z]; }
      r := DecodeRest(str, a + zeroes, zeroes, max);
    } else {
      TooManyOnes(str, a + z, z, max);
      r := None;
    }
  }
}
