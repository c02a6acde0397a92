/** Booleans packed eight to a byte, least significant bit first. */
module BitFlags {

  /** The byte 1 << i. */
  function Mask(i: nat): bv8 {
    if i == 0 then 1 else Mask(i - 1) << 1
  }

  lemma MaskValue(i: nat)
    requires i < 8
    ensures Mask(i) == [0x01, 0x02, 0x04, 0x08, 0x10, 0x20, 0x40, 0x80][i]
  {
    if i > 0 { MaskValue(i - 1); }
  }

  predicate BitIsSet(mem: seq<bv8>, s: nat)
    requires s < 8 * |mem|
  {
    FlagAt(mem, s / 8, s % 8)
  }

  function BitSet(mem: seq<bv8>, s: nat): seq<bv8>
    requires s < 8 * |mem|
  {
    mem[s / 8 := With(mem[s / 8], s % 8)]
  }

  function BitUnset(mem: seq<bv8>, s: nat): seq<bv8>
    requires s < 8 * |mem|
  {
    mem[s / 8 := Without(mem[s / 8], s % 8)]
  }

  predicate Has(x: bv8, i: nat) { x & Mask(i) != 0 }

  function With(x: bv8, i: nat): bv8 { x | Mask(i) }

  function Without(x: bv8, i: nat): bv8 { x & !Mask(i) }

  lemma MaskBits(x: bv8, i: nat, j: nat)
    requires i < 8 && j < 8
    ensures Has(With(x, i), j) <==> i == j || Has(x, j)
    ensures Has(Without(x, i), j) <==> i != j && Has(x, j)
  {
    MaskValue(i);
    MaskValue(j);
  }

  predicate FlagAt(mem: seq<bv8>, b: nat, i: nat)
    requires b < |mem|
  {
    Has(mem[b], i)
  }

  lemma FlagsAt(mem: seq<bv8>, b: nat, i: nat, c: nat, j: nat)
    requires b < |mem| && c < |mem| && i < 8 && j < 8
    ensures FlagAt(mem[b := With(mem[b], i)], c, j) <==> (b == c && i == j) || FlagAt(mem, c, j)
    ensures FlagAt(mem[b := Without(mem[b], i)], c, j) <==> !(b == c && i == j) && FlagAt(mem, c, j)
  {
    if b == c { MaskBits(mem[b], i, j); }
  }

  lemma SamePlace(s: nat, t: nat)
    ensures s / 8 == t / 8 && s % 8 == t % 8 <==> s == t
  {}

  /** Setting and clearing a flag touches that flag and no other. */
  lemma FlagsAreSeparate(mem: seq<bv8>, s: nat, t: nat)
    requires s < 8 * |mem| && t < 8 * |mem|
    ensures BitIsSet(BitSet(mem, s), t) <==> s == t || BitIsSet(mem, t)
    ensures BitIsSet(BitUnset(mem, s), t) <==> s != t && BitIsSet(mem, t)
  {
    FlagsAt(mem, s / 8, s % 8, t / 8, t % 8);
    SamePlace(s, t);
  }
}
