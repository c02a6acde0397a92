/**
 The rolling bloom filter of bloom.cpp.

 The hash functions are an arbitrary function of number, tweak and key.  A 64-bit word is the set of
 its one bits, so that the bitwise operators are the operators on sets.  The label of a place, 0 for
 unset or 1 to 3 for the generation that set it, is kept in two bit planes: bit b of words 2k and
 2k + 1 hold the low and high bit of the label of place (k, b).
 */
module Bloom {

  type Key = seq<bv8>

  const TWO32: nat := 0x1_0000_0000

  // ----- 64-bit words

  type Word = set<nat>

  predicate IsBit(b: nat) { b < 64 }

  /** 0 - v for a bit v: no bits or all of them. */
  function Spread(v: bool): (w: Word)
    ensures forall b: nat :: b in w <==> v && b < 64
  {
    if v then set b: nat | b < 64 && IsBit(b) else {}
  }

  function Xor(x: Word, y: Word): (w: Word)
    ensures forall b :: b in w <==> (b in x) != (b in y)
  {
    (x - y) + (y - x)
  }

  /** nGeneration & 1 and nGeneration >> 1, for a generation number up to 3. */
  predicate Low(g: nat) { g % 2 == 1 }

  predicate High(g: nat) { g / 2 == 1 }

  // ----- Labels in two words

  function Label(w1: Word, w2: Word, b: nat): nat { (if b in w1 then 1 else 0) + (if b in w2 then 2 else 0) }

  /** One word of a pair after storing a label bit. */
  function Stored(w: Word, b: nat, v: bool): Word { (w - {b}) + if v then {b} else {} }

  /** Storing a label changes the label of that place and of no other. */
  lemma StoredLabel(w1: Word, w2: Word, b: nat, g: nat, c: nat)
    requires g < 4
    ensures Label(Stored(w1, b, Low(g)), Stored(w2, b, High(g)), c) == if b == c then g else Label(w1, w2, c)
  {}

  /** The bits of a word pair that do not carry the generation's label. */
  function Keep(w1: Word, w2: Word, g: nat): Word { Xor(w1, Spread(Low(g))) + Xor(w2, Spread(High(g))) }

  /** The wipe mask clears exactly the places that carry the generation's label. */
  lemma KeptLabel(w1: Word, w2: Word, g: nat, c: nat)
    requires g < 4 && c < 64
    ensures var k := Keep(w1, w2, g);
            Label(w1 * k, w2 * k, c) == if Label(w1, w2, c) == g then 0 else Label(w1, w2, c)
  {}

  // ----- The table of labels

  datatype Place = Place(k: nat, b: nat)

  ghost predicate Table(data: seq<Word>) { 0 < |data| < TWO32 && |data| % 2 == 0 }

  ghost predicate Within(data: seq<Word>, p: Place) { 2 * p.k + 1 < |data| && p.b < 64 }

  ghost function LabelAt(data: seq<Word>, p: Place): nat
    requires Within(data, p)
  {
    Label(data[2 * p.k], data[2 * p.k + 1], p.b)
  }

  /** The product of two numbers, as repeated addition. */
  function Times(x: nat, n: nat): nat { if n == 0 then 0 else x + Times(x, n - 1) }

  lemma {:induction false} TimesIsProduct(x: nat, n: nat)
    ensures Times(x, n) == x * n
  {
    if n > 0 {
      TimesIsProduct(x, n - 1);
      assert x * n == x + x * (n - 1);
    }
  }

  lemma {:induction false} TimesIsBelow(x: nat, n: nat, bound: nat)
    requires x < bound && n > 0
    ensures Times(x, n) < Times(bound, n)
  {
    if n > 1 { TimesIsBelow(x, n - 1, bound); }
  }

  /** (x * n) >> 32 for a 32-bit x. */
  function FastMod(x: nat, n: nat): (r: nat)
    requires x < TWO32 && 0 < n < TWO32
    ensures r < n
  {
    TimesIsBelow(x, n, TWO32);
    TimesIsProduct(TWO32, n);
    Times(x, n) / TWO32
  }

  /** FastMod is the scaled hash, and its 64-bit product does not overflow. */
  lemma FastModScales(x: nat, n: nat)
    requires x < TWO32 && 0 < n < TWO32
    ensures x * n < TWO32 * TWO32 && FastMod(x, n) == x * n / TWO32
  {
    TimesIsProduct(x, n);
    TimesIsBelow(x, n, TWO32);
    TimesIsProduct(TWO32, n);
  }

  /** The hash functions: number, tweak and key to 32 bits. */
  datatype Hashing = Hashing(nHashFuncs: nat, nTweak: nat, hash: (nat, nat, Key) -> nat)

  function PlaceOf(c: Hashing, n: nat, key: Key, size: nat): (p: Place)
    requires 0 < size < TWO32 && size % 2 == 0
    ensures 2 * p.k + 1 < size && p.b < 64
  {
    var h := c.hash(n, c.nTweak, key) % TWO32;
    Place(FastMod(h, size) / 2, h % 64)
  }

  function Mark(data: seq<Word>, p: Place, g: nat): seq<Word>
    requires 2 * p.k + 1 < |data|
  {
    data[2 * p.k := Stored(data[2 * p.k], p.b, Low(g))][2 * p.k + 1 := Stored(data[2 * p.k + 1], p.b, High(g))]
  }

  lemma MarkedLabel(data: seq<Word>, p: Place, g: nat, q: Place)
    requires Within(data, p) && Within(data, q) && g < 4
    ensures LabelAt(Mark(data, p, g), q) == if p == q then g else LabelAt(data, q)
  {
    StoredLabel(data[2 * p.k], data[2 * p.k + 1], p.b, g, q.b);
  }

  function Wipe(data: seq<Word>, g: nat): (r: seq<Word>)
    requires |data| % 2 == 0
    ensures |r| == |data|
  {
    seq(|data|, i requires 0 <= i < |data| => data[i] * Keep(data[i - i % 2], data[i - i % 2 + 1], g))
  }

  ghost predicate PairWiped(d: seq<Word>, w: seq<Word>, g: nat, p: nat)
    requires p + 1 < |d| == |w|
  {
    var k := Keep(d[p], d[p + 1], g);
    w[p] == d[p] * k && w[p + 1] == d[p + 1] * k
  }

  ghost predicate AllWiped(d: seq<Word>, w: seq<Word>, g: nat)
    requires |w| == |d|
  {
    forall p: nat :: p % 2 == 0 && p + 1 < |d| ==> PairWiped(d, w, g, p)
  }

  lemma AllPairsWiped(d: seq<Word>, g: nat)
    requires |d| % 2 == 0
    ensures AllWiped(d, Wipe(d, g), g)
  {
    forall p: nat | p % 2 == 0 && p + 1 < |d| ensures PairWiped(d, Wipe(d, g), g, p) {
      assert (p + 1) - (p + 1) % 2 == p;
    }
  }

  lemma WipedLabel(data: seq<Word>, g: nat, q: Place)
    requires |data| % 2 == 0 && Within(data, q) && g < 4
    ensures LabelAt(Wipe(data, g), q) == if LabelAt(data, q) == g then 0 else LabelAt(data, q)
  {
    KeptLabel(data[2 * q.k], data[2 * q.k + 1], g, q.b);
  }

  /** Marking the places of the first n hash functions. */
  function MarkAll(data: seq<Word>, c: Hashing, key: Key, n: nat, g: nat): (r: seq<Word>)
    requires Table(data)
    ensures |r| == |data|
  {
    if n == 0 then data else Mark(MarkAll(data, c, key, n - 1, g), PlaceOf(c, n - 1, key, |data|), g)
  }

  ghost predicate IsPlace(c: Hashing, n: nat, key: Key, size: nat, q: Place)
    requires 0 < size < TWO32 && size % 2 == 0
  {
    exists i: nat :: i < n && PlaceOf(c, i, key, size) == q
  }

  lemma {:induction false} AllMarkedLabel(data: seq<Word>, c: Hashing, key: Key, n: nat, g: nat, q: Place)
    requires Table(data) && Within(data, q) && g < 4
    ensures LabelAt(MarkAll(data, c, key, n, g), q) == if IsPlace(c, n, key, |data|, q) then g else LabelAt(data, q)
  {
    if n > 0 {
      AllMarkedLabel(data, c, key, n - 1, g, q);
      MarkedLabel(MarkAll(data, c, key, n - 1, g), PlaceOf(c, n - 1, key, |data|), g, q);
    }
  }

  // ----- Runs

  datatype Filter = Filter(data: seq<Word>, entries: nat, generation: nat)

  function NextGeneration(g: nat): nat { if g + 1 == 4 then 1 else g + 1 }

  /** The filter after a full generation has been closed. */
  function Roll(s: Filter): Filter
    requires |s.data| % 2 == 0
  {
    var g := NextGeneration(s.generation);
    Filter(Wipe(s.data, g), 0, g)
  }

  function Insert(s: Filter, c: Hashing, perGeneration: nat, key: Key): (r: Filter)
    requires Table(s.data)
    ensures |r.data| == |s.data|
  {
    var t := if s.entries == perGeneration then Roll(s) else s;
    Filter(MarkAll(t.data, c, key, c.nHashFuncs, t.generation), t.entries + 1, t.generation)
  }

  function Fresh(size: nat): Filter { Filter(seq(size, _ => {}), 0, 1) }

  /** A whole run of insertions after a reset. */
  function Run(size: nat, c: Hashing, perGeneration: nat, keys: seq<Key>): (r: Filter)
    requires 0 < size < TWO32 && size % 2 == 0
    ensures |r.data| == size
  {
    if keys == [] then Fresh(size)
    else Insert(Run(size, c, perGeneration, keys[..|keys| - 1]), c, perGeneration, keys[|keys| - 1])
  }

  ghost predicate Contains(data: seq<Word>, c: Hashing, key: Key)
    requires Table(data)
  {
    forall n: nat :: n < c.nHashFuncs ==> LabelAt(data, PlaceOf(c, n, key, |data|)) != 0
  }

  /** The number given to the r-th generation since the reset. */
  function Number(r: nat): nat { r % 3 + 1 }

  /** The place belongs to a key inserted at `from` or later. */
  ghost predicate Since(c: Hashing, keys: seq<Key>, size: nat, from: int, q: Place)
    requires 0 < size < TWO32 && size % 2 == 0
  {
    exists t :: 0 <= t < |keys| && t >= from && IsPlace(c, c.nHashFuncs, keys[t], size, q)
  }

  /** The label a place should carry in the r-th generation, with e entries in it so far: that of the
      last of the three latest generations with a key there. */
  ghost function Due(c: Hashing, keys: seq<Key>, size: nat, perGeneration: nat, e: nat, r: nat, q: Place): nat
    requires 0 < size < TWO32 && size % 2 == 0
  {
    var start := |keys| - e;
    if Since(c, keys, size, start, q) then Number(r)
    else if Since(c, keys, size, start - perGeneration, q) then Number(r + 2)
    else if Since(c, keys, size, start - 2 * perGeneration, q) then Number(r + 1)
    else 0
  }

  /** Every place carries the label it should. */
  ghost predicate Tracked(s: Filter, c: Hashing, perGeneration: nat, keys: seq<Key>, r: nat)
    requires Table(s.data)
  {
    && s.generation == Number(r)
    && forall q :: Within(s.data, q) ==> LabelAt(s.data, q) == Due(c, keys, |s.data|, perGeneration, s.entries, r, q)
  }

  /** At the end of a full generation the oldest label is due to go, and the others stay. */
  lemma DueRolls(c: Hashing, keys: seq<Key>, size: nat, perGeneration: nat, r: nat, q: Place)
    requires 0 < size < TWO32 && size % 2 == 0
    ensures var l := Due(c, keys, size, perGeneration, perGeneration, r, q);
            Due(c, keys, size, perGeneration, 0, r + 1, q) == if l == Number(r + 1) then 0 else l
  {
    assert !Since(c, keys, size, |keys|, q);
    assert Number(r) != Number(r + 1) && Number(r + 2) != Number(r + 1) && Number(r + 1 + 2) == Number(r);
  }

  lemma RolledLabel(s: Filter, c: Hashing, perGeneration: nat, keys: seq<Key>, r: nat, q: Place)
    requires Table(s.data) && Within(s.data, q) && s.generation == Number(r)
    requires LabelAt(s.data, q) == Due(c, keys, |s.data|, perGeneration, perGeneration, r, q)
    ensures LabelAt(Wipe(s.data, NextGeneration(s.generation)), q) == Due(c, keys, |s.data|, perGeneration, 0, r + 1, q)
  {
    assert NextGeneration(s.generation) == Number(r + 1);
    WipedLabel(s.data, Number(r + 1), q);
    DueRolls(c, keys, |s.data|, perGeneration, r, q);
  }

  lemma RollKeeps(s: Filter, c: Hashing, perGeneration: nat, keys: seq<Key>, r: nat)
    requires Table(s.data) && Tracked(s, c, perGeneration, keys, r) && s.entries == perGeneration
    ensures Tracked(Roll(s), c, perGeneration, keys, r + 1)
  {
    var d := Wipe(s.data, NextGeneration(s.generation));
    forall q | Within(d, q) ensures LabelAt(d, q) == Due(c, keys, |d|, perGeneration, 0, r + 1, q) {
      RolledLabel(s, c, perGeneration, keys, r, q);
    }
  }

  lemma SinceMore(c: Hashing, keys: seq<Key>, key: Key, size: nat, from: int, q: Place)
    requires 0 < size < TWO32 && size % 2 == 0 && from <= |keys|
    ensures Since(c, keys + [key], size, from, q)
            <==> Since(c, keys, size, from, q) || IsPlace(c, c.nHashFuncs, key, size, q)
  {
    var ks := keys + [key];
    if Since(c, keys, size, from, q) {
      var t :| 0 <= t < |keys| && t >= from && IsPlace(c, c.nHashFuncs, keys[t], size, q);
      assert ks[t] == keys[t];
    }
    if IsPlace(c, c.nHashFuncs, key, size, q) { assert ks[|keys|] == key; }
    if Since(c, ks, size, from, q) {
      var t :| 0 <= t < |ks| && t >= from && IsPlace(c, c.nHashFuncs, ks[t], size, q);
      if t < |keys| { assert ks[t] == keys[t]; }
    }
  }

  lemma MarkKeeps(s: Filter, c: Hashing, perGeneration: nat, keys: seq<Key>, r: nat, key: Key)
    requires Table(s.data) && Tracked(s, c, perGeneration, keys, r)
    ensures var d := MarkAll(s.data, c, key, c.nHashFuncs, s.generation);
            Tracked(Filter(d, s.entries + 1, s.generation), c, perGeneration, keys + [key], r)
  {
    var d, n := MarkAll(s.data, c, key, c.nHashFuncs, s.generation), |keys| - s.entries;
    forall q | Within(d, q)
      ensures LabelAt(d, q) == Due(c, keys + [key], |s.data|, perGeneration, s.entries + 1, r, q)
    {
      AllMarkedLabel(s.data, c, key, c.nHashFuncs, s.generation, q);
      SinceMore(c, keys, key, |s.data|, n, q);
      SinceMore(c, keys, key, |s.data|, n - perGeneration, q);
      SinceMore(c, keys, key, |s.data|, n - 2 * perGeneration, q);
    }
  }

  lemma InsertKeeps(s: Filter, c: Hashing, perGeneration: nat, keys: seq<Key>, r: nat, key: Key) returns (r': nat)
    requires Table(s.data) && Tracked(s, c, perGeneration, keys, r)
    ensures Tracked(Insert(s, c, perGeneration, key), c, perGeneration, keys + [key], r')
  {
    if s.entries == perGeneration {
      RollKeeps(s, c, perGeneration, keys, r);
      MarkKeeps(Roll(s), c, perGeneration, keys, r + 1, key);
      r' := r + 1;
    } else {
      MarkKeeps(s, c, perGeneration, keys, r, key);
      r' := r;
    }
  }

  lemma {:induction false} RunIsTracked(size: nat, c: Hashing, perGeneration: nat, keys: seq<Key>) returns (r: nat)
    requires 0 < size < TWO32 && size % 2 == 0
    ensures Tracked(Run(size, c, perGeneration, keys), c, perGeneration, keys, r)
  {
    if keys == [] {
      r := 0;
    } else {
      var before, key := keys[..|keys| - 1], keys[|keys| - 1];
      r := RunIsTracked(size, c, perGeneration, before);
      r := InsertKeeps(Run(size, c, perGeneration, before), c, perGeneration, before, r, key);
      assert before + [key] == keys;
    }
  }

  /** After any run of insertions a key is reported present if and only if each of its places belongs to a
      key of the current generation or of the two generations' worth of insertions before it. */
  lemma ContainsExactly(size: nat, c: Hashing, perGeneration: nat, keys: seq<Key>, key: Key)
    requires 0 < size < TWO32 && size % 2 == 0
    ensures var s := Run(size, c, perGeneration, keys);
            Contains(s.data, c, key) <==> forall n: nat :: n < c.nHashFuncs ==>
              Since(c, keys, size, |keys| - s.entries - 2 * perGeneration, PlaceOf(c, n, key, size))
  {
    var s := Run(size, c, perGeneration, keys);
    var r := RunIsTracked(size, c, perGeneration, keys);
    forall n: nat | n < c.nHashFuncs
      ensures LabelAt(s.data, PlaceOf(c, n, key, size)) != 0
              <==> Since(c, keys, size, |keys| - s.entries - 2 * perGeneration, PlaceOf(c, n, key, size))
    {
      var q := PlaceOf(c, n, key, size);
      assert Within(s.data, q);
      assert LabelAt(s.data, q) == Due(c, keys, size, perGeneration, s.entries, r, q);
    }
  }

  /** So every such key is itself reported present. */
  lemma LastKeysArePresent(size: nat, c: Hashing, perGeneration: nat, keys: seq<Key>, t: nat)
    requires 0 < size < TWO32 && size % 2 == 0 && t < |keys|
    requires t >= |keys| - Run(size, c, perGeneration, keys).entries - 2 * perGeneration
    ensures Contains(Run(size, c, perGeneration, keys).data, c, keys[t])
  {
    var from := |keys| - Run(size, c, perGeneration, keys).entries - 2 * perGeneration;
    ContainsExactly(size, c, perGeneration, keys, keys[t]);
    forall n: nat | n < c.nHashFuncs ensures Since(c, keys, size, from, PlaceOf(c, n, keys[t], size)) {
      assert IsPlace(c, c.nHashFuncs, keys[t], size, PlaceOf(c, n, keys[t], size));
    }
  }

  /** Every key of the current generation and of the two generations' worth before it is present. */
  ghost predicate RecentPresent(s: Filter, c: Hashing, perGeneration: nat, keys: seq<Key>)
    requires Table(s.data)
  {
    forall t :: 0 <= t < |keys| && t >= |keys| - s.entries - 2 * perGeneration ==> Contains(s.data, c, keys[t])
  }

  lemma AllRecentPresent(size: nat, c: Hashing, perGeneration: nat, keys: seq<Key>)
    requires 0 < size < TWO32 && size % 2 == 0
    ensures RecentPresent(Run(size, c, perGeneration, keys), c, perGeneration, keys)
  {
    var s := Run(size, c, perGeneration, keys);
    forall t | 0 <= t < |keys| && t >= |keys| - s.entries - 2 * perGeneration ensures Contains(s.data, c, keys[t]) {
      LastKeysArePresent(size, c, perGeneration, keys, t);
    }
  }

  /** In particular each of the last two generations' worth of keys is. */
  lemma LastTwoGenerations(size: nat, c: Hashing, perGeneration: nat, keys: seq<Key>, t: nat)
    requires 0 < size < TWO32 && size % 2 == 0 && |keys| - 2 * perGeneration <= t < |keys|
    ensures Contains(Run(size, c, perGeneration, keys).data, c, keys[t])
  {
    LastKeysArePresent(size, c, perGeneration, keys, t);
  }

  // ----- The object

  class CRollingBloomFilter {
    const nEntriesPerGeneration: nat
    const nHashFuncs: nat
    const hash: (nat, nat, Key) -> nat
    const data: array<Word>
    var nEntriesThisGeneration: nat
    var nGeneration: nat
    var nTweak: nat
    ghost var log: seq<Key>

    ghost predicate Valid()
      reads this, data
    {
      && 0 < data.Length < TWO32 && data.Length % 2 == 0
      && View() == Run(data.Length, Parameters(), nEntriesPerGeneration, log)
    }

    ghost function View(): Filter
      reads this, data
    {
      Filter(data[..], nEntriesThisGeneration, nGeneration)
    }

    ghost function Parameters(): Hashing
      reads this
    {
      Hashing(nHashFuncs, nTweak, hash)
    }

    /** The number of hash functions and of words, which come from floating point formulas, are given. */
    constructor (nElements: nat, nHashFuncs: nat, words: nat, tweak: nat, hash: (nat, nat, Key) -> nat)
      requires 0 < words < TWO32 && words % 2 == 0
      ensures Valid() && log == [] && nEntriesPerGeneration == (nElements + 1) / 2 && fresh(data) && data.Length == words
      ensures this.nHashFuncs == nHashFuncs && this.hash == hash && nTweak == tweak
    {
      this.nHashFuncs, this.hash, nEntriesPerGeneration := nHashFuncs, hash, (nElements + 1) / 2;
      data := new Word[words];
      new;
      Reset(tweak);
    }

    method Reset(tweak: nat)
      requires 0 < data.Length < TWO32 && data.Length % 2 == 0
      modifies this, data
      ensures Valid() && log == [] && nTweak == tweak
    {
      nTweak, nEntriesThisGeneration, nGeneration, log := tweak, 0, 1, [];
      var i := 0;
      while i < data.Length
        invariant 0 <= i <= data.Length && forall j :: 0 <= j < i ==> data[j] == {}
        modifies data
      {
        data[i] := {};
        i := i + 1;
      }
      assert data[..] == Fresh(data.Length).data;
    }

    method WipeGeneration()
      requires data.Length % 2 == 0
      modifies data
      ensures data[..] == Wipe(old(data[..]), nGeneration)
    {
      ghost var d := data[..];
      AllPairsWiped(d, nGeneration);
      WipeLoop(d, Wipe(d, nGeneration));
    }

    method WipeLoop(ghost d: seq<Word>, ghost w: seq<Word>)
      requires data.Length % 2 == 0 && data[..] == d && |w| == |d| && AllWiped(d, w, nGeneration)
      modifies data
      ensures data[..] == w
    {
      var p := 0;
      while p < data.Length
        invariant 0 <= p <= data.Length && p % 2 == 0
        invariant forall i :: 0 <= i < p ==> data[i] == w[i]
        invariant forall i :: p <= i < data.Length ==> data[i] == d[i]
      {
        assert PairWiped(d, w, nGeneration, p);
        var p1, p2 := data[p], data[p + 1];
        var mask := Keep(p1, p2, nGeneration);
        data[p] := p1 * mask;
        data[p + 1] := p2 * mask;
        p := p + 2;
      }
    }

    /** One hash function of a key. */
    method MarkPlace(n: nat, key: Key)
      requires 0 < data.Length < TWO32 && data.Length % 2 == 0
      modifies data
      ensures data[..] == Mark(old(data[..]), PlaceOf(Parameters(), n, key, data.Length), nGeneration)
    {
      var h := hash(n, nTweak, key) % TWO32;
      var bit, pos := h % 64, FastMod(h, data.Length);
      var even := pos - pos % 2;
      data[even] := Stored(data[even], bit, Low(nGeneration));
      data[even + 1] := Stored(data[even + 1], bit, High(nGeneration));
    }

    method MarkKey(key: Key)
      requires 0 < data.Length < TWO32 && data.Length % 2 == 0
      modifies data
      ensures data[..] == MarkAll(old(data[..]), Parameters(), key, nHashFuncs, nGeneration)
    {
      var n := 0;
      while n < nHashFuncs
        invariant 0 <= n <= nHashFuncs
        invariant data[..] == MarkAll(old(data[..]), Parameters(), key, n, nGeneration)
      {
        MarkPlace(n, key);
        n := n + 1;
      }
    }

    method InsertKey(key: Key)
      requires Valid()
      modifies this, data
      ensures Valid() && log == old(log) + [key] && nTweak == old(nTweak)
    {
      if nEntriesThisGeneration == nEntriesPerGeneration {
        nEntriesThisGeneration := 0;
        nGeneration := NextGeneration(nGeneration);
        WipeGeneration();
      }
      nEntriesThisGeneration := nEntriesThisGeneration + 1;
      MarkKey(key);
      log := log + [key];
      assert log[..|log| - 1] == old(log);
    }

    method Insert(key: Key)
      requires Valid()
      modifies this, data
      ensures Valid() && log == old(log) + [key] && nTweak == old(nTweak)
      ensures RecentPresent(View(), Parameters(), nEntriesPerGeneration, log)
    {
      InsertKey(key);
      AllRecentPresent(data.Length, Parameters(), nEntriesPerGeneration, log);
    }

    method Has(key: Key) returns (found: bool)
      requires Valid()
      ensures found == Contains(data[..], Parameters(), key)
    {
      ghost var d, c := data[..], Parameters();
      var n := 0;
      while n < nHashFuncs
        invariant 0 <= n <= nHashFuncs
        invariant forall i: nat :: i < n ==> LabelAt(d, PlaceOf(c, i, key, |d|)) != 0
      {
        var h := hash(n, nTweak, key) % TWO32;
        var bit, pos := h % 64, FastMod(h, data.Length);
        var even := pos - pos % 2;
        assert LabelAt(d, PlaceOf(c, n, key, |d|)) == Label(data[even], data[even + 1], bit);
        if bit !in data[even] + data[even + 1] { return false; }
        n := n + 1;
      }
      return true;
    }
  }
}
