/**
 Two strings of bech32_tests.cpp, from the test vectors of BIP 173 and BIP 350.  The first one has every character of the
 set and a part of several letters, the second one fixes the constant of Bech32m.
 */
module Bech32Vectors {
  import opened Basics
  import opened Bech32

  /** if (b) x ^= k */
  function Plus(x: bv32, b: bool, k: bv32): bv32 { if b then x ^ k else x }

  lemma PlusIs(x: bv32, b: bool, k: bv32)
    ensures Plus(x, b, k) == Xor(x, if b then k else 0)
  {
    XorIs(x, k);
    XorSelf(x);
  }

  /** The value of the checksum within one turn of its loop. */
  datatype Turn = Turn(t0: bv32, t1: bv32, t2: bv32, t3: bv32, t4: bv32, t5: bv32)

  predicate IsTurn(t: Turn, c: bv32, v: bv32) {
    && t.t0 == Shift(c) ^ v && t.t1 == Plus(t.t0, (c >> 25) & 1 != 0, 0x3b6a57b2)
    && t.t2 == Plus(t.t1, (c >> 25) & 2 != 0, 0x26508e6d) && t.t3 == Plus(t.t2, (c >> 25) & 4 != 0, 0x1ea119fa)
    && t.t4 == Plus(t.t3, (c >> 25) & 8 != 0, 0x3d4233dd) && t.t5 == Plus(t.t4, (c >> 25) & 16 != 0, 0x2a1462b3)
  }

  lemma TurnIs(t: Turn, c: bv32, v: bv32)
    requires IsTurn(t, c, v)
    ensures Step(c, v) == t.t5
  {
    StepIs(c, v);
    XorIs(Shift(c), v);
    PlusIs(t.t0, (c >> 25) & 1 != 0, 0x3b6a57b2);
    PlusIs(t.t1, (c >> 25) & 2 != 0, 0x26508e6d);
    PlusIs(t.t2, (c >> 25) & 4 != 0, 0x1ea119fa);
    PlusIs(t.t3, (c >> 25) & 8 != 0, 0x3d4233dd);
    PlusIs(t.t4, (c >> 25) & 16 != 0, 0x2a1462b3);
  }

  lemma SomeTurn(c: bv32, v: bv32) returns (t: Turn)
    ensures IsTurn(t, c, v)
  {
    var t0 := Shift(c) ^ v;
    var t1 := Plus(t0, (c >> 25) & 1 != 0, 0x3b6a57b2);
    var t2 := Plus(t1, (c >> 25) & 2 != 0, 0x26508e6d);
    var t3 := Plus(t2, (c >> 25) & 4 != 0, 0x1ea119fa);
    var t4 := Plus(t3, (c >> 25) & 8 != 0, 0x3d4233dd);
    t := Turn(t0, t1, t2, t3, t4, Plus(t4, (c >> 25) & 16 != 0, 0x2a1462b3));
  }

  /** The checksum with one more symbol. */
  lemma Next(vs: seq<Symbol>, c: bv32, a: Symbol) returns (t: Turn)
    requires Checksum(vs) == c
    ensures IsTurn(t, c, ToWord(a)) && Checksum(vs + [a]) == t.t5
  {
    t := SomeTurn(c, ToWord(a));
    WordIs(a);
    TurnIs(t, c, ToWord(a));
    assert Words(vs + [a])[..|vs|] == Words(vs);
  }

  // ----- The string with every character of the set

  lemma Part0(vs: seq<Symbol>)
    requires Checksum(vs) == 1
    ensures Checksum(vs + [3, 3, 3, 3]) == 0x118c63
  {
    var t := Next(vs, 1, 3);
    t := Next(vs + [3], 0x23, 3);
    t := Next(vs + [3] + [3], 0x463, 3);
    t := Next(vs + [3] + [3] + [3], 0x8c63, 3);
    assert vs + [3] + [3] + [3] + [3] == vs + [3, 3, 3, 3];
  }

  lemma Part1(vs: seq<Symbol>)
    requires Checksum(vs) == 0x118c63
    ensures Checksum(vs + [3, 3, 0, 1]) == 0x3dc7154c
  {
    var t := Next(vs, 0x118c63, 3);
    t := Next(vs + [3], 0x2318c63, 3);
    t := Next(vs + [3] + [3], 0x3d5bdbd1, 0);
    t := Next(vs + [3] + [3] + [0], 0x4dcbcd9, 1);
    assert vs + [3] + [3] + [0] + [1] == vs + [3, 3, 0, 1];
  }

  lemma Part2(vs: seq<Symbol>)
    requires Checksum(vs) == 0x3dc7154c
    ensures Checksum(vs + [2, 3, 4, 5]) == 0x266635a8
  {
    var t := Next(vs, 0x3dc7154c, 2);
    t := Next(vs + [2], 0x17456f7b, 3);
    t := Next(vs + [2] + [3], 0x8d50561, 4);
    t := Next(vs + [2] + [3] + [4], 0x401b5de, 5);
    assert vs + [2] + [3] + [4] + [5] == vs + [2, 3, 4, 5];
  }

  lemma Part3(vs: seq<Symbol>)
    requires Checksum(vs) == 0x266635a8
    ensures Checksum(vs + [6]) == 0x3be80e6a
  {
    var t := Next(vs, 0x266635a8, 6);
  }

  lemma ExpandAt(hrp: string, i: nat, b: nat)
    requires i < |hrp| && hrp[i] as int == b < 256
    ensures ExpandHRP(hrp)[i] as int == b / 32 && ExpandHRP(hrp)[|hrp| + 1 + i] as int == b % 32
  {}

  lemma PartIs()
    ensures ExpandHRP("abcdef") == [3, 3, 3, 3, 3, 3, 0, 1, 2, 3, 4, 5, 6]
  {
    ExpandAt("abcdef", 0, 97);
    ExpandAt("abcdef", 1, 98);
    ExpandAt("abcdef", 2, 99);
    ExpandAt("abcdef", 3, 100);
    ExpandAt("abcdef", 4, 101);
    ExpandAt("abcdef", 5, 102);
  }

  lemma PartSum()
    ensures Checksum(ExpandHRP("abcdef")) == 0x3be80e6a
  {
    assert Checksum([]) == 1;
    Part0([]);
    Part1([] + [3, 3, 3, 3]);
    Part2([] + [3, 3, 3, 3] + [3, 3, 0, 1]);
    Part3([] + [3, 3, 3, 3] + [3, 3, 0, 1] + [2, 3, 4, 5]);
    PartIs();
    assert [] + [3, 3, 3, 3] + [3, 3, 0, 1] + [2, 3, 4, 5] + [6] == [3, 3, 3, 3, 3, 3, 0, 1, 2, 3, 4, 5, 6];
  }

  /** The symbols in order, 0 to 31. */
  function AllSymbols(): (data: seq<Symbol>)
    ensures |data| == 32 && forall i :: 0 <= i < 32 ==> data[i] as int == i
  {
    seq(32, i requires 0 <= i < 32 => i)
  }

  ghost function Summed(us: seq<Symbol>, vs: seq<Symbol>, n: nat): bv32
    requires n <= |vs|
  {
    Checksum(us + vs[..n])
  }

  lemma SummedNext(us: seq<Symbol>, vs: seq<Symbol>, n: nat, c: bv32, a: Symbol) returns (t: Turn)
    requires n < |vs| && vs[n] == a && Summed(us, vs, n) == c
    ensures IsTurn(t, c, ToWord(a)) && Summed(us, vs, n + 1) == t.t5
  {
    t := Next(us + vs[..n], c, a);
    assert us + vs[..n] + [a] == us + vs[..n + 1];
  }

  ghost predicate InOrder(vs: seq<Symbol>) { |vs| == 32 && forall i :: 0 <= i < 32 ==> vs[i] as int == i }

  lemma Summed4(us: seq<Symbol>, vs: seq<Symbol>)
    requires InOrder(vs) && Summed(us, vs, 0) == 0x3be80e6a
    ensures Summed(us, vs, 4) == 0xc815781
  {
    var t := SummedNext(us, vs, 0, 0x3be80e6a, 0);
    t := SummedNext(us, vs, 1, 0xf9cd266, 1);
    t := SummedNext(us, vs, 2, 0x30018ce4, 2);
    t := SummedNext(us, vs, 3, 0x1767cdec, 3);
  }

  lemma Summed8(us: seq<Symbol>, vs: seq<Symbol>)
    requires InOrder(vs) && Summed(us, vs, 4) == 0xc815781
    ensures Summed(us, vs, 8) == 0x11e88668
  {
    var t := SummedNext(us, vs, 4, 0xc815781, 4);
    t := SummedNext(us, vs, 5, 0x28db67b3, 5);
    t := SummedNext(us, vs, 6, 0x2fd98d2c, 6);
    t := SummedNext(us, vs, 7, 0x12be0710, 7);
  }

  lemma Summed12(us: seq<Symbol>, vs: seq<Symbol>)
    requires InOrder(vs) && Summed(us, vs, 8) == 0x11e88668
    ensures Summed(us, vs, 12) == 0x2f8ccedd
  {
    var t := SummedNext(us, vs, 8, 0x11e88668, 8);
    t := SummedNext(us, vs, 9, 0x52fed5, 9);
    t := SummedNext(us, vs, 10, 0xa5fdaa9, 10);
    t := SummedNext(us, vs, 11, 0x2e301b62, 11);
  }

  lemma Summed16(us: seq<Symbol>, vs: seq<Symbol>)
    requires InOrder(vs) && Summed(us, vs, 12) == 0x2f8ccedd
    ensures Summed(us, vs, 16) == 0x31223f8a
  {
    var t := SummedNext(us, vs, 12, 0x2f8ccedd, 12);
    t := SummedNext(us, vs, 13, 0x1816793a, 13);
    t := SummedNext(us, vs, 14, 0x212c0d6a, 14);
    t := SummedNext(us, vs, 15, 0xf95cffd, 15);
  }

  lemma Summed20(us: seq<Symbol>, vs: seq<Symbol>)
    requires InOrder(vs) && Summed(us, vs, 16) == 0x31223f8a
    ensures Summed(us, vs, 20) == 0x28166541
  {
    var t := SummedNext(us, vs, 16, 0x31223f8a, 16);
    t := SummedNext(us, vs, 17, 0x3311a03e, 17);
    t := SummedNext(us, vs, 18, 0xe08010d, 18);
    t := SummedNext(us, vs, 19, 0x29be197, 19);
  }

  lemma Summed24(us: seq<Symbol>, vs: seq<Symbol>)
    requires InOrder(vs) && Summed(us, vs, 20) == 0x28166541
    ensures Summed(us, vs, 24) == 0x297c48e0
  {
    var t := SummedNext(us, vs, 20, 0x28166541, 20);
    t := SummedNext(us, vs, 21, 0x3679d37d, 21);
    t := SummedNext(us, vs, 22, 0x556e704, 22);
    t := SummedNext(us, vs, 23, 0xc8c6efb, 23);
  }

  lemma Summed28(us: seq<Symbol>, vs: seq<Symbol>)
    requires InOrder(vs) && Summed(us, vs, 24) == 0x297c48e0
    ensures Summed(us, vs, 28) == 0x3eea4538
  {
    var t := SummedNext(us, vs, 24, 0x297c48e0, 24);
    t := SummedNext(us, vs, 25, 0x1b3c6751, 25);
    t := SummedNext(us, vs, 26, 0x3f0597ac, 26);
    t := SummedNext(us, vs, 27, 0x347f64d1, 27);
  }

  lemma Summed32(us: seq<Symbol>, vs: seq<Symbol>)
    requires InOrder(vs) && Summed(us, vs, 28) == 0x3eea4538
    ensures Summed(us, vs, 32) == 0x1a0d3656
  {
    var t := SummedNext(us, vs, 28, 0x3eea4538, 28);
    t := SummedNext(us, vs, 29, 0x9853657, 29);
    t := SummedNext(us, vs, 30, 0x2e07d307, 30);
    t := SummedNext(us, vs, 31, 0x2975c268, 31);
  }

  lemma Closing0(vs: seq<Symbol>)
    requires Checksum(vs) == 0x1a0d3656
    ensures Checksum(vs + [27, 0, 0]) == 0x1f82a53f
  {
    var t := Next(vs, 0x1a0d3656, 27);
    t := Next(vs + [27], 0x192fb74e, 0);
    t := Next(vs + [27] + [0], 0x615c3e7, 0);
    assert vs + [27] + [0] + [0] == vs + [27, 0, 0];
  }

  lemma Closing1(vs: seq<Symbol>)
    requires Checksum(vs) == 0x1f82a53f
    ensures Checksum(vs + [0, 6, 14]) == 1
  {
    var t := Next(vs, 0x1f82a53f, 0);
    t := Next(vs + [0], 0xe8d5418, 6);
    t := Next(vs + [0] + [6], 0x12314323, 14);
    assert vs + [0] + [6] + [14] == vs + [0, 6, 14];
  }

  lemma AlphabetSum()
    ensures Checksum(ExpandHRP("abcdef") + AllSymbols() + [27, 0, 0, 0, 6, 14]) == 1
  {
    var us, data := ExpandHRP("abcdef"), AllSymbols();
    var vs := us + data;
    PartSum();
    assert us + data[..0] == us && data[..32] == data;
    Summed4(us, data);
    Summed8(us, data);
    Summed12(us, data);
    Summed16(us, data);
    Summed20(us, data);
    Summed24(us, data);
    Summed28(us, data);
    Summed32(us, data);
    Closing0(vs);
    Closing1(vs + [27, 0, 0]);
    assert vs + [27, 0, 0] + [0, 6, 14] == vs + [27, 0, 0, 0, 6, 14];
  }

  lemma EncodedIs(e: Encoding, hrp: string, data: seq<Symbol>, closing: seq<Symbol>, text: string)
    requires |closing| == 6 && Checksum(ExpandHRP(hrp) + data + closing) == EncodingConstant(e)
    requires Text(data + closing) == text
    ensures Encoded(e, hrp, data) == hrp + "1" + text
  {
    ClosingIsUnique(ExpandHRP(hrp) + data, closing, e);
  }

  lemma AlphabetText(data: seq<Symbol>, closing: seq<Symbol>)
    requires |data| == 32 && closing == [27, 0, 0, 0, 6, 14] && forall i :: 0 <= i < 32 ==> data[i] as int == i
    ensures Text(data + closing) == "qpzry9x8gf2tvdw0s3jn54khce6mua7l" + "mqqqxw"
  {
    assert Text(data + closing) == Text(data) + Text(closing);
    assert Text(data) == "qpzry9x8gf2tvdw0s3jn54khce6mua7l";
    assert Text(closing) == "mqqqxw" by { ClosingText(closing); }
  }

  lemma ClosingText(closing: seq<Symbol>)
    requires closing == [27, 0, 0, 0, 6, 14]
    ensures Text(closing) == "mqqqxw"
  {
    assert Text(closing)[0] == Charset(27) && Text(closing)[4] == Charset(6) && Text(closing)[5] == Charset(14);
  }

  /** The string with every character of the set. */
  lemma AlphabetVector()
    ensures Encoded(BECH32, "abcdef", AllSymbols()) == "abcdef" + "1" + ("qpzry9x8gf2tvdw0s3jn54khce6mua7l" + "mqqqxw")
  {
    var closing: seq<Symbol> := [27, 0, 0, 0, 6, 14];
    AlphabetSum();
    AlphabetText(AllSymbols(), closing);
    EncodedIs(BECH32, "abcdef", AllSymbols(), closing, "qpzry9x8gf2tvdw0s3jn54khce6mua7l" + "mqqqxw");
  }

  // ----- A Bech32m string without payload

  lemma Short0(vs: seq<Symbol>)
    requires Checksum(vs) == 1
    ensures Checksum(vs + [3, 0, 1]) == 0x8c01
  {
    var t := Next(vs, 1, 3);
    t := Next(vs + [3], 0x23, 0);
    t := Next(vs + [3] + [0], 0x460, 1);
    assert vs + [3] + [0] + [1] == vs + [3, 0, 1];
  }

  lemma Short1(vs: seq<Symbol>)
    requires Checksum(vs) == 0x8c01
    ensures Checksum(vs + [31, 0, 9]) == 0x3d6aabbb
  {
    var t := Next(vs, 0x8c01, 31);
    t := Next(vs + [31], 0x11803f, 0);
    t := Next(vs + [31] + [0], 0x23007e0, 9);
    assert vs + [31] + [0] + [9] == vs + [31, 0, 9];
  }

  lemma Short2(vs: seq<Symbol>)
    requires Checksum(vs) == 0x3d6aabbb
    ensures Checksum(vs + [19, 17, 29]) == 0x2bc830a3
  {
    var t := Next(vs, 0x3d6aabbb, 19);
    t := Next(vs + [19], 0x2f2b18a, 17);
    t := Next(vs + [19] + [17], 0x253c66e3, 29);
    assert vs + [19] + [17] + [29] == vs + [19, 17, 29];
  }

  lemma ShortSum()
    ensures Checksum([3, 0, 1, 31, 0, 9, 19, 17, 29]) == 0x2bc830a3
  {
    assert Checksum([]) == 1;
    Short0([]);
    Short1([] + [3, 0, 1]);
    Short2([] + [3, 0, 1] + [31, 0, 9]);
    assert [] + [3, 0, 1] + [31, 0, 9] + [19, 17, 29] == [3, 0, 1, 31, 0, 9, 19, 17, 29];
  }

  lemma ShortText(closing: seq<Symbol>)
    requires closing == [31, 0, 9, 19, 17, 29]
    ensures Text(closing) == "lqfn3a"
  {
    assert Text(closing)[0] == Charset(31) && Text(closing)[1] == Charset(0) && Text(closing)[2] == Charset(9);
    assert Text(closing)[3] == Charset(19) && Text(closing)[4] == Charset(17) && Text(closing)[5] == Charset(29);
  }

  /** A Bech32m string without payload. */
  lemma ShortVector()
    ensures Encoded(BECH32M, "a", []) == "a" + "1" + "lqfn3a"
  {
    var closing: seq<Symbol> := [31, 0, 9, 19, 17, 29];
    ShortSum();
    ExpandAt("a", 0, 97);
    assert ExpandHRP("a") + [] + closing == [3, 0, 1, 31, 0, 9, 19, 17, 29];
    ShortText(closing);
    assert [] + closing == closing;
    EncodedIs(BECH32M, "a", [], closing, "lqfn3a");
  }
}
