/**
 The cuckoo cache of cuckoocache.h: a table in which every element may sit at one of eight
 positions, with lazy deletion through bit-packed collection flags and two epochs.

 A slot is live when its collection flag is unset.
 */
module Cuckoo {
  import opened Basics
  import opened BitFlags

  const TWO32 := 0x1_0000_0000

  // ----- bit_packed_atomic_flags

  method MakeFlags(size: nat) returns (mem: seq<bv8>)
    ensures |mem| == (size + 7) / 8 && forall s :: 0 <= s < 8 * |mem| ==> BitIsSet(mem, s)
  {
    mem := seq((size + 7) / 8, _ => 0xFF);
    forall s | 0 <= s < 8 * |mem| ensures BitIsSet(mem, s) { AllBits(s % 8); }
  }

  lemma AllBits(i: nat)
    requires i < 8
    ensures 0xFF & Mask(i) != 0
  {
    MaskValue(i);
  }

  // ----- Slots

  /** The fixed-point replacement for the remainder: a 32-bit hash times size, shifted down. */
  function Scale(h: nat, size: nat): (r: nat)
    ensures size > 0 ==> r < size
    ensures r * TWO32 <= (h % TWO32) * size < (r + 1) * TWO32
  {
    assert (h % TWO32) * size <= (TWO32 - 1) * size;
    (h % TWO32) * size / TWO32
  }

  /** compute_hashes: the eight positions of an element. */
  function Hashes<E>(hash: (nat, E) -> nat, size: nat, e: E): (locs: seq<nat>)
    ensures |locs| == 8 && (size > 0 ==> forall k :: 0 <= k < 8 ==> locs[k] < size)
    ensures forall k :: 0 <= k < 8 ==> locs[k] == Scale(hash(k, e), size)
  {
    [Scale(hash(0, e), size), Scale(hash(1, e), size), Scale(hash(2, e), size), Scale(hash(3, e), size),
     Scale(hash(4, e), size), Scale(hash(5, e), size), Scale(hash(6, e), size), Scale(hash(7, e), size)]
  }

  predicate Given(size: nat) { true }

  ghost predicate AreLocs<E>(locs: seq<nat>, hash: (nat, E) -> nat, size: nat, e: E) {
    && |locs| == 8 && (size > 0 ==> forall k :: 0 <= k < 8 ==> locs[k] < size)
    && forall n: nat {:trigger Given(n)} :: n == size ==> locs == Hashes(hash, n, e)
  }

  /** The eight positions, which `LocsAre` says. */
  ghost function Locs<E>(hash: (nat, E) -> nat, size: nat, e: E): (locs: seq<nat>)
    ensures |locs| == 8 && (size > 0 ==> forall k :: 0 <= k < 8 ==> locs[k] < size)
  {
    assert AreLocs(Hashes(hash, size, e), hash, size, e);
    var locs :| AreLocs(locs, hash, size, e);
    locs
  }

  lemma LocsAre<E>(hash: (nat, E) -> nat, size: nat, e: E)
    ensures Locs(hash, size, e) == Hashes(hash, size, e)
  {
    assert AreLocs(Locs(hash, size, e), hash, size, e);
    assert Given(size);
  }

  // ----- The table as a value

  datatype Slots<E> = Slots(table: seq<E>, flags: seq<bv8>, epoch: seq<bool>)
  {
    ghost predicate Sized() { |epoch| == |table| && |flags| == (|table| + 7) / 8 }

    predicate Live(i: nat)
      requires i < 8 * |flags|
    {
      !BitIsSet(flags, i)
    }

    /** The elements the cache is bound to keep. */
    ghost function LiveSet(): set<E>
      requires Sized()
    {
      set i: nat | i < |table| && Live(i) :: table[i]
    }

    /** Those of them that belong to the current epoch. */
    ghost function RecentSet(): set<E>
      requires Sized()
    {
      set i: nat | i < |table| && Live(i) && epoch[i] :: table[i]
    }

    /** Which slots are live and of the current epoch. */
    ghost function Recent(): (r: seq<bool>)
      requires Sized()
      ensures |r| == |table|
    {
      seq(|table|, i requires 0 <= i < |table| => Live(i) && epoch[i])
    }

    lemma LiveHas(i: nat)
      requires Sized() && i < |table| && Live(i)
      ensures table[i] in LiveSet()
    {}

    /** Overwrites slot i and keeps it. */
    function Put(i: nat, e: E, recent: bool): (s: Slots<E>)
      requires Sized() && i < |table|
      ensures s.Sized()
    {
      Slots(table[i := e], BitUnset(flags, i), epoch[i := recent])
    }

    lemma PutLive(i: nat, e: E, recent: bool, j: nat)
      requires Sized() && i < |table| && j < |table|
      ensures Put(i, e, recent).Live(j) <==> i == j || Live(j)
    {
      FlagsAreSeparate(flags, i, j);
    }

    lemma PutRecent(i: nat, e: E, recent: bool)
      requires Sized() && i < |table|
      ensures Put(i, e, recent).Recent() == Recent()[i := recent]
    {
      forall j | 0 <= j < |table| ensures Put(i, e, recent).Recent()[j]
          == Recent()[i := recent][j] { PutLive(i, e, recent, j); }
    }

    /** Writing over a dead slot adds an element; over a live one it exchanges two. */
    lemma PutSet(i: nat, e: E, recent: bool)
      requires Sized() && i < |table|
      ensures !Live(i) ==> Put(i, e, recent).LiveSet() == LiveSet() + {e}
      ensures Live(i) ==> Put(i, e, recent).LiveSet() + {table[i]} == LiveSet() + {e}
    {
      var s := Put(i, e, recent);
      forall j: nat | j < |table| ensures s.Live(j) <==> i == j || Live(j) { PutLive(i, e, recent, j); }
      forall x | x in s.LiveSet() ensures x == e || x in LiveSet() {
        var j: nat :| j < |table| && s.Live(j) && s.table[j] == x;
        if j != i { assert table[j] == x; }
      }
      assert s.table[i] == e && e in s.LiveSet();
      forall x | x in LiveSet() && (x != table[i] || !Live(i)) ensures x in s.LiveSet() {
        var j: nat :| j < |table| && Live(j) && table[j] == x;
        assert s.Live(j) && s.table[j] == x;
      }
      if Live(i) { assert table[i] in LiveSet(); }
    }
  }

  /** How many entries of s are true. */
  function Count(s: seq<bool>): nat {
    if s == [] then 0 else Count(s[..|s| - 1]) + if s[|s| - 1] then 1 else 0
  }

  lemma {:induction false} CountUpdate(s: seq<bool>, i: nat, b: bool)
    requires i < |s|
    ensures Count(s[i := b]) == Count(s) + (if b then 1 else 0) - if s[i] then 1 else 0
  {
    var n := |s| - 1;
    if i == n {
      assert s[i := b][..n] == s[..n];
    } else {
      assert s[i := b][..n] == s[..n][i := b];
      CountUpdate(s[..n], i, b);
    }
  }

  lemma {:induction false} CountNone(s: seq<bool>)
    requires forall i :: 0 <= i < |s| ==> !s[i]
    ensures Count(s) == 0
  {
    if s != [] { CountNone(s[..|s| - 1]); }
  }

  lemma {:induction false} CountFewer(s: seq<bool>, t: seq<bool>)
    requires |s| == |t| && forall i :: 0 <= i < |s| && s[i] ==> t[i]
    ensures Count(s) <= Count(t)
  {
    if s != [] { CountFewer(s[..|s| - 1], t[..|t| - 1]); }
  }

  /** Exchanging a live element for another, flags untouched. */
  lemma Exchanged<E>(v: Slots<E>, w: Slots<E>, loc: nat, e: E, recent: bool)
    requires v.Sized() && loc < |v.table| && v.Live(loc)
    requires w == Slots(v.table[loc := e], v.flags, v.epoch[loc := recent])
    ensures w.Sized() && w.LiveSet() + {v.table[loc]} == v.LiveSet() + {e}
    ensures forall j: nat :: j < |v.table| ==> (w.Live(j) <==> v.Live(j))
    ensures Count(w.Recent()) + (if v.epoch[loc] then 1 else 0) == Count(v.Recent()) + (if recent then 1 else 0)
  {
    v.PutSet(loc, e, recent);
    v.PutRecent(loc, e, recent);
    CountUpdate(v.Recent(), loc, recent);
    forall j: nat | j < |v.table| ensures v.Put(loc, e, recent).Live(j) <==> v.Live(j) { v.PutLive(loc, e, recent, j); }
    SameLiveness(w, v.Put(loc, e, recent));
  }

  // ----- Where live elements sit

  /** Position k is the first of an element's eight that holds it. */
  predicate FirstHit<E(==)>(table: seq<E>, locs: seq<nat>, e: E, k: nat)
    requires k < |locs| && forall j :: 0 <= j < |locs| ==> locs[j] < |table|
  {
    table[locs[k]] == e && forall j :: 0 <= j < k ==> table[locs[j]] != e
  }

  /** Slot i is the first position of its element that holds it. */
  ghost predicate HoldsFirst<E>(hash: (nat, E) -> nat, table: seq<E>, i: nat)
    requires i < |table|
  {
    var locs := Locs(hash, |table|, table[i]);
    exists k | 0 <= k < 8 :: locs[k] == i && FirstHit(table, locs, table[i], k)
  }

  ghost predicate AllFirst<E>(hash: (nat, E) -> nat, v: Slots<E>)
    requires v.Sized()
  {
    forall i: nat :: i < |v.table| && v.Live(i) ==> HoldsFirst(hash, v.table, i)
  }

  lemma FewerFirst<E>(hash: (nat, E) -> nat, v: Slots<E>, w: Slots<E>)
    requires v.Sized() && w.Sized() && v.table == w.table && AllFirst(hash, v)
    requires forall i: nat :: i < |v.table| && w.Live(i) ==> v.Live(i)
    ensures AllFirst(hash, w)
  {}

  lemma SameFirst<E>(hash: (nat, E) -> nat, table: seq<E>, e: E, k: nat, i: nat)
    requires |table| > 0 && k < 8 && FirstHit(table, Locs(hash, |table|, e), e, k)
    requires i < |table| && table[i] == e && HoldsFirst(hash, table, i)
    ensures i == Locs(hash, |table|, e)[k]
  {}

  /** A live element is in one slot only. */
  lemma OneSlot<E>(hash: (nat, E) -> nat, v: Slots<E>, i: nat, j: nat)
    requires v.Sized() && AllFirst(hash, v)
    requires i < |v.table| && j < |v.table| && v.Live(i) && v.Live(j) && v.table[i] == v.table[j]
    ensures i == j
  {
    var e := v.table[i];
    var k :| 0 <= k < 8 && Locs(hash, |v.table|, e)[k] == i && FirstHit(v.table, Locs(hash, |v.table|, e), e, k);
    SameFirst(hash, v.table, e, k, j);
  }

  /** An element at none of its positions is not live. */
  lemma NotLive<E>(hash: (nat, E) -> nat, v: Slots<E>, e: E)
    requires v.Sized() && |v.table| > 0 && AllFirst(hash, v)
    requires forall k :: 0 <= k < 8 ==> v.table[Locs(hash, |v.table|, e)[k]] != e
    ensures e !in v.LiveSet()
  {
    forall i: nat | i < |v.table| && v.Live(i) ensures v.table[i] != e { assert HoldsFirst(hash, v.table, i); }
  }

  /** Unsetting the first hit takes an element out of the live set. */
  lemma Erased<E>(hash: (nat, E) -> nat, v: Slots<E>, w: Slots<E>, e: E, k: nat)
    requires v.Sized() && w.Sized() && |v.table| > 0 && v.table == w.table && AllFirst(hash, v)
    requires k < 8 && FirstHit(v.table, Locs(hash, |v.table|, e), e, k)
    requires forall i: nat :: i < |v.table| ==> (w.Live(i) <==> i != Locs(hash, |v.table|, e)[k] && v.Live(i))
    ensures w.LiveSet() == v.LiveSet() - {e}
  {
    forall i: nat | i < |v.table| && v.Live(i) && v.table[i] == e ensures !w.Live(i) {
      SameFirst(hash, v.table, e, k, i);
    }
    forall x | x in v.LiveSet() && x != e ensures x in w.LiveSet() {
      var i: nat :| i < |v.table| && v.Live(i) && v.table[i] == x;
      w.LiveHas(i);
    }
  }

  /** Writing an element over a slot does not make any other element's slot a later one. */
  lemma OtherFirst<E>(hash: (nat, E) -> nat, table: seq<E>, loc: nat, e: E, i: nat)
    requires loc < |table| && i < |table| && i != loc && table[i] != e && HoldsFirst(hash, table, i)
    ensures HoldsFirst(hash, table[loc := e], i)
  {
    var locs := Locs(hash, |table|, table[i]);
    var k :| 0 <= k < 8 && locs[k] == i && FirstHit(table, locs, table[i], k);
    assert FirstHit(table[loc := e], locs, table[i], k);
  }

  /** A position before which only others sit is the first to hold the element. */
  lemma OwnFirst<E>(hash: (nat, E) -> nat, table: seq<E>, e: E, k: nat)
    requires |table| > 0 && k < 8
    requires forall j :: 0 <= j < k ==> table[Locs(hash, |table|, e)[j]] != e
    ensures HoldsFirst(hash, table[Locs(hash, |table|, e)[k] := e], Locs(hash, |table|, e)[k])
  {
    var locs := Locs(hash, |table|, e);
    var j := IndexOf(locs, locs[k]);
    assert FirstHit(table[locs[k] := e], locs, e, j);
  }

  /** The first position that may be overwritten suits an element that is not live. */
  lemma PutFirst<E>(hash: (nat, E) -> nat, v: Slots<E>, e: E, recent: bool, k: nat)
    requires v.Sized() && |v.table| > 0 && AllFirst(hash, v) && e !in v.LiveSet() && k < 8
    requires forall j :: 0 <= j < k ==> v.Live(Locs(hash, |v.table|, e)[j])
    ensures AllFirst(hash, v.Put(Locs(hash, |v.table|, e)[k], e, recent))
  {
    var locs := Locs(hash, |v.table|, e);
    forall j | 0 <= j < k ensures v.table[locs[j]] != e { v.LiveHas(locs[j]); }
    OwnFirst(hash, v.table, e, k);
    var w := v.Put(locs[k], e, recent);
    forall i: nat | i < |v.table| && w.Live(i) && i != locs[k] ensures HoldsFirst(hash, w.table, i) {
      v.PutLive(locs[k], e, recent, i);
      v.LiveHas(i);
      OtherFirst(hash, v.table, locs[k], e, i);
    }
  }

  /** So does the first position that holds it already. */
  lemma RevivedFirst<E>(hash: (nat, E) -> nat, v: Slots<E>, e: E, recent: bool, k: nat)
    requires v.Sized() && |v.table| > 0 && AllFirst(hash, v)
    requires k < 8 && FirstHit(v.table, Locs(hash, |v.table|, e), e, k)
    ensures AllFirst(hash, v.Put(Locs(hash, |v.table|, e)[k], e, recent))
  {
    var loc := Locs(hash, |v.table|, e)[k];
    var w := v.Put(loc, e, recent);
    assert w.table == v.table;
    assert HoldsFirst(hash, v.table, loc);
    forall i: nat | i < |v.table| && w.Live(i) && i != loc ensures HoldsFirst(hash, w.table, i) {
      v.PutLive(loc, e, recent, i);
    }
  }

  /** After an exchange every live element is still at its first position, and the one that
      comes out is not live any more. */
  lemma ExchangedFirst<E>(hash: (nat, E) -> nat, v: Slots<E>, w: Slots<E>, loc: nat, e: E, recent: bool)
    requires v.Sized() && |v.table| > 0 && AllFirst(hash, v) && e !in v.LiveSet()
    requires forall k :: 0 <= k < 8 ==> v.Live(Locs(hash, |v.table|, e)[k])
    requires loc < |v.table| && loc in Locs(hash, |v.table|, e)
    requires w == Slots(v.table[loc := e], v.flags, v.epoch[loc := recent])
    ensures AllFirst(hash, w) && v.table[loc] !in w.LiveSet()
  {
    var locs := Locs(hash, |v.table|, e);
    var k :| 0 <= k < 8 && locs[k] == loc;
    forall j | 0 <= j < 8 ensures v.table[locs[j]] != e { v.LiveHas(locs[j]); }
    OwnFirst(hash, v.table, e, k);
    forall i: nat | i < |v.table| && w.Live(i) && i != loc
      ensures HoldsFirst(hash, w.table, i) && w.table[i] != v.table[loc]
    {
      v.LiveHas(i);
      OtherFirst(hash, v.table, loc, e, i);
      if v.table[i] == v.table[loc] { OneSlot(hash, v, i, loc); }
    }
  }

  class Cache<E(==)> {
    const hash: (nat, E) -> nat
    var table: seq<E>
    var size: nat
    var collection_flags: seq<bv8>
    var epoch_flags: seq<bool>
    var epoch_heuristic_counter: nat
    var epoch_size: nat
    var depth_limit: nat

    ghost function View(): Slots<E>
      reads this
    {
      Slots(table, collection_flags, epoch_flags)
    }

    ghost function Positions(e: E): (locs: seq<nat>)
      reads this
      ensures |locs| == 8 && (size > 0 ==> forall k :: 0 <= k < 8 ==> locs[k] < size)
    {
      Locs(hash, size, e)
    }

    method ComputeHashes(e: E) returns (locs: seq<nat>)
      ensures locs == Positions(e)
    {
      LocsAre(hash, size, e);
      locs := Hashes(hash, size, e);
    }

    /** Every live element sits at the first of its eight positions that holds it, so at one only. */
    ghost predicate InPlace()
      reads this
    {
      View().Sized() && |table| == size >= 2 && AllFirst(hash, View())
    }

    /** How far the current epoch may grow before the next scan. */
    ghost function EpochBound(): int
      reads this
    {
      epoch_size + Max(1, epoch_size / 16)
    }

    ghost function Room(): int
      reads this
      requires View().Sized()
    {
      EpochBound() - Count(View().Recent()) - epoch_heuristic_counter
    }

    ghost predicate Valid()
      reads this
    {
      InPlace() && epoch_size >= 1 && Room() >= 0
    }

    /** The constructor followed by setup; `blank` is the default element. */
    constructor (hashFunction: (nat, E) -> nat, new_size: nat, depth: nat, blank: E)
      requires new_size < TWO32
      ensures Valid() && size == Max(2, new_size) && View().LiveSet() == {}
      ensures hash == hashFunction && depth_limit == depth
      ensures epoch_heuristic_counter == epoch_size == Max(1, (45 * size) % TWO32 / 100)
    {
      hash := hashFunction;
      depth_limit := depth;
      var n := Max(2, new_size);
      size := n;
      table := seq(n, _ => blank);
      var mem := MakeFlags(n);
      collection_flags := mem;
      epoch_flags := seq(n, _ => false);
      var es := Max(1, (45 * n) % TWO32 / 100);
      epoch_size := es;
      epoch_heuristic_counter := es;
      new;
      CountNone(View().Recent());
    }

    /** The linear scan of epoch_check. */
    method CountRecent() returns (n: nat)
      requires View().Sized() && |table| == size
      ensures n == Count(View().Recent())
    {
      n := 0;
      ghost var r := View().Recent();
      for i := 0 to size
        invariant n == Count(r[..i])
      {
        assert r[..i + 1][..i] == r[..i];
        if epoch_flags[i] && !BitIsSet(collection_flags, i) { n := n + 1; }
      }
      assert r[..size] == r;
    }

    /** Starting a new epoch: the old epoch may be overwritten, the current one becomes old. */
    method Age()
      requires View().Sized() && |table| == size
      modifies this`collection_flags, this`epoch_flags
      ensures View().Sized() && forall i :: 0 <= i < size ==> !epoch_flags[i]
      ensures forall i: nat :: i < size ==> (View().Live(i) <==> old(View().Live(i)) && old(epoch_flags[i]))
    {
      for i := 0 to size
        invariant View().Sized()
        invariant forall j :: 0 <= j < i ==> !epoch_flags[j]
        invariant forall j :: i <= j < size ==> epoch_flags[j] == old(epoch_flags[j])
        invariant forall j: nat :: j < i ==> (View().Live(j) <==> old(View().Live(j)) && old(epoch_flags[j]))
        invariant forall j: nat :: i <= j < size ==> (View().Live(j) <==> old(View().Live(j)))
      {
        if epoch_flags[i] {
          epoch_flags := epoch_flags[i := false];
        } else {
          forall j: nat | j < size ensures BitIsSet(BitSet(collection_flags, i), j)
              <==> i == j || BitIsSet(collection_flags, j) {
            FlagsAreSeparate(collection_flags, i, j);
          }
          collection_flags := BitSet(collection_flags, i);
        }
      }
    }

    /** Afterwards one more recent element fits under the bound.  Elements only ever lose their
        liveness here in a scan that finds the current epoch full, and then exactly those of
        the old epoch do. */
    method EpochCheck()
      requires Valid()
      modifies this`collection_flags, this`epoch_flags, this`epoch_heuristic_counter
      ensures InPlace() && Room() >= 1
      ensures if old(epoch_heuristic_counter) == 0 && Count(old(View().Recent())) >= epoch_size
              then forall i: nat :: i < size ==> (View().Live(i) <==> old(View().Live(i)) && old(epoch_flags[i]))
              else View() == old(View())
      ensures Checked(old(View()), old(epoch_heuristic_counter), epoch_size, View())
      ensures epoch_heuristic_counter ==
              if old(epoch_heuristic_counter) != 0 then old(epoch_heuristic_counter) - 1
              else if Count(old(View().Recent())) >= epoch_size then epoch_size
              else Max(1, Max(epoch_size / 16, epoch_size - Count(old(View().Recent()))))
    {
      if epoch_heuristic_counter != 0 {
        epoch_heuristic_counter := epoch_heuristic_counter - 1;
      } else {
        Scan();
      }
    }

    /** The epoch check when the counter has run out. */
    method Scan()
      requires Valid() && epoch_heuristic_counter == 0
      modifies this`collection_flags, this`epoch_flags, this`epoch_heuristic_counter
      ensures InPlace() && Room() >= 1
      ensures if Count(old(View().Recent())) >= epoch_size
              then epoch_heuristic_counter == epoch_size
                   && forall i: nat :: i < size ==> (View().Live(i) <==> old(View().Live(i)) && old(epoch_flags[i]))
              else epoch_heuristic_counter == Max(1, Max(epoch_size / 16, epoch_size - Count(old(View().Recent()))))
                   && View() == old(View())
      ensures Checked(old(View()), 0, epoch_size, View())
    {
      var epoch_unused_count := CountRecent();
      if epoch_unused_count >= epoch_size {
        ghost var v := View();
        Age();
        AgedSet(v, View());
        FewerFirst(hash, v, View());
        CountNone(View().Recent());
        epoch_heuristic_counter := epoch_size;
      } else {
        epoch_heuristic_counter := Max(1, Max(epoch_size / 16, epoch_size - epoch_unused_count));
      }
    }

    /** contains, with the flag of the first hit set if asked for. */
    method Contains(e: E, erase: bool) returns (found: bool)
      requires Valid()
      modifies this`collection_flags
      ensures Valid()
      ensures found <==> exists k :: 0 <= k < 8 && table[Positions(e)[k]] == e
      ensures e in old(View().LiveSet()) ==> found
      ensures !erase || !found ==> View() == old(View())
      ensures erase ==> View().LiveSet() == old(View().LiveSet()) - {e}
      ensures erase && found ==>
                exists k | 0 <= k < 8 :: FirstHit(table, Positions(e), e, k)
                  && collection_flags == BitSet(old(collection_flags), Positions(e)[k])
    {
      var locs := ComputeHashes(e);
      found := false;
      ghost var v := View();
      for k := 0 to 8
        invariant !found && View() == old(View())
        invariant forall j :: 0 <= j < k ==> table[locs[j]] != e
      {
        if table[locs[k]] == e {
          found := true;
          if erase {
            AllowErase(locs[k]);
            Erased(hash, v, View(), e, k);
          }
          assert table[Positions(e)[k]] == e && FirstHit(table, Positions(e), e, k);
          return;
        }
      }
      NotLive(hash, v, e);
    }

    method AllowErase(n: nat)
      requires Valid() && n < size
      modifies this`collection_flags
      ensures Valid() && collection_flags == BitSet(old(collection_flags), n)
      ensures forall j: nat :: j < size ==> (View().Live(j) <==> j != n && old(View().Live(j)))
    {
      ghost var r, v := View().Recent(), View();
      forall j: nat | j < size ensures BitIsSet(BitSet(collection_flags, n), j)
          <==> n == j || BitIsSet(collection_flags, j) {
        FlagsAreSeparate(collection_flags, n, j);
      }
      collection_flags := BitSet(collection_flags, n);
      CountFewer(View().Recent(), r);
      FewerFirst(hash, v, View());
    }

    /** Writes an element into a position that suits it: `PutFirst` and `RevivedFirst` say which. */
    method Store(loc: nat, e: E, recent: bool)
      requires InPlace() && loc < size && AllFirst(hash, View().Put(loc, e, recent))
      modifies this`table, this`collection_flags, this`epoch_flags
      ensures InPlace() && View() == old(View()).Put(loc, e, recent)
      ensures !old(View().Live(loc)) ==> View().LiveSet() == old(View().LiveSet()) + {e}
      ensures old(View().Live(loc)) ==> View().LiveSet() + {old(table[loc])} == old(View().LiveSet()) + {e}
      ensures var was := old(View().Recent());
              Count(View().Recent()) == Count(was) + (if recent then 1 else 0) - if was[loc] then 1 else 0
    {
      ghost var v := View();
      v.PutSet(loc, e, recent);
      v.PutRecent(loc, e, recent);
      CountUpdate(v.Recent(), loc, recent);
      table := table[loc := e];
      collection_flags := BitUnset(collection_flags, loc);
      epoch_flags := epoch_flags[loc := recent];
    }

    /** Exchanges the element in hand with a live one in the table. */
    method Exchange(loc: nat, e: E, recent: bool) returns (e': E, recent': bool)
      requires InPlace() && loc < size && loc in Positions(e) && e !in View().LiveSet()
      requires forall k :: 0 <= k < 8 ==> View().Live(Positions(e)[k])
      modifies this`table, this`epoch_flags
      ensures InPlace() && e' == old(table[loc]) && recent' == old(epoch_flags[loc]) && e' !in View().LiveSet()
      ensures View().LiveSet() + {e'} == old(View().LiveSet()) + {e}
      ensures Count(View().Recent()) + (if recent' then 1 else 0) == Count(old(View().Recent())) + (if recent then 1 else 0)
      ensures loc in Positions(e')
      ensures View() == Slots(old(table)[loc := e], collection_flags, old(epoch_flags)[loc := recent])
    {
      ghost var v := View();
      e', recent' := table[loc], epoch_flags[loc];
      table := table[loc := e];
      epoch_flags := epoch_flags[loc := recent];
      Exchanged(v, View(), loc, e, recent);
      ExchangedFirst(hash, v, View(), loc, e, recent);
    }

    /** The first of the positions that holds the element, or 8. */
    method FindSame(e: E, locs: seq<nat>) returns (k: nat)
      requires |locs| == 8 && forall j :: 0 <= j < 8 ==> locs[j] < |table|
      ensures k <= 8 && (k < 8 ==> table[locs[k]] == e) && forall j :: 0 <= j < k ==> table[locs[j]] != e
    {
      k := 0;
      while k < 8
        invariant k <= 8 && forall j :: 0 <= j < k ==> table[locs[j]] != e
      {
        if table[locs[k]] == e { return; }
        k := k + 1;
      }
    }

    /** The first of the positions that may be overwritten, or 8. */
    method FindFree(locs: seq<nat>) returns (k: nat)
      requires |locs| == 8 && forall j :: 0 <= j < 8 ==> locs[j] < 8 * |collection_flags|
      ensures k <= 8 && (k < 8 ==> BitIsSet(collection_flags, locs[k]))
      ensures forall j :: 0 <= j < k ==> !BitIsSet(collection_flags, locs[j])
    {
      k := 0;
      while k < 8
        invariant k <= 8 && forall j :: 0 <= j < k ==> !BitIsSet(collection_flags, locs[j])
      {
        if BitIsSet(collection_flags, locs[k]) { return; }
        k := k + 1;
      }
    }

    /** One round of the chain: place the element in hand, or exchange it. */
    method Turn(e: E, last_loc: int, recent: bool) returns (done: bool, e': E, loc: int, recent': bool)
      requires InPlace() && e !in View().LiveSet()
      modifies this`table, this`collection_flags, this`epoch_flags
      ensures InPlace() && done == HasRoom(hash, old(InHand(e, last_loc, recent)))
      ensures !done ==> e' !in View().LiveSet() && InHand(e', loc, recent') == Swap(hash, old(InHand(e, last_loc, recent)))
      ensures var g := old(InHand(e, last_loc, recent));
              if done then View().LiveSet() == g.All() && Count(View().Recent()) == g.AllRecent()
              else InHand(e', loc, recent').All() == g.All() && InHand(e', loc, recent').AllRecent() == g.AllRecent()
    {
      HasRoomMeans(hash, InHand(e, last_loc, recent));
      SwapIs(hash, InHand(e, last_loc, recent));
      var locs := ComputeHashes(e);
      var k := FindFree(locs);
      if k < 8 {
        PutFirst(hash, View(), e, recent, k);
        Store(locs[k], e, recent);
        return true, e, last_loc, recent;
      }
      done, loc := false, NextLoc(locs, last_loc);
      e', recent' := Exchange(loc, e, recent);
    }

    ghost function InHand(e: E, last_loc: int, recent: bool): Hand<E>
      reads this
    {
      Hand(View(), e, last_loc, recent)
    }

    method Round(e: E, last_loc: int, recent: bool, ghost h: Hand<E>, ghost n: nat)
      returns (done: bool, e': E, loc: int, recent': bool)
      requires InPlace() && h.Sized() && Chained(hash, h, n, InHand(e, last_loc, recent))
      modifies this`table, this`collection_flags, this`epoch_flags
      ensures InPlace()
      ensures if done then FindsRoom(hash, h, n + 1)
              && Arrived(h, View()) else Chained(hash, h, n + 1, InHand(e', loc, recent'))
    {
      ghost var g := InHand(e, last_loc, recent);
      ChainedMeans(hash, h, n, g);
      done, e', loc, recent' := Turn(e, last_loc, recent);
      if done {
        ChainEnds(hash, h, n, g, View());
      } else {
        ChainGoesOn(hash, h, n, g, InHand(e', loc, recent'));
      }
    }

    /** The chain of exchanges, up to the depth limit. */
    method Chain(element: E, ghost h: Hand<E>) returns (done: bool, e: E, last_loc: int, last_epoch: bool)
      requires InPlace() && h == InHand(element, INVALID, true) && element !in View().LiveSet()
      modifies this`table, this`collection_flags, this`epoch_flags
      ensures InPlace()
      ensures if done then FindsRoom(hash, h, depth_limit) && Arrived(h, View())
              else Chained(hash, h, depth_limit, InHand(e, last_loc, last_epoch))
    {
      e, last_loc, last_epoch := element, INVALID, true;
      ChainedMeans(hash, h, 0, h);
      for depth := 0 to depth_limit
        invariant InPlace() && Chained(hash, h, depth, InHand(e, last_loc, last_epoch))
      {
        done, e, last_loc, last_epoch := Round(e, last_loc, last_epoch, h, depth);
        if done {
          FindsRoomLater(hash, h, depth + 1, depth_limit);
          return;
        }
      }
      done := false;
    }

    method Place(element: E) returns (ghost lost: Option<E>)
      requires InPlace() && epoch_size >= 1 && Room() >= 1 && element !in View().LiveSet()
      modifies this`table, this`collection_flags, this`epoch_flags
      ensures Valid() && Gained(old(View().LiveSet()), element, lost, View().LiveSet())
      ensures lost == Dropped(hash, old(InHand(element, INVALID, true)), depth_limit)
    {
      ghost var h := InHand(element, INVALID, true);
      var done, e, loc, recent := Chain(element, h);
      ChainedMeans(hash, h, depth_limit, InHand(e, loc, recent));
      lost := if done then None else Some(e);
    }

    /** insert after its epoch check.  The element and everything live before are live afterwards,
        except that the element in hand is dropped if and only if it and all those in hand
        before it, as many as the depth limit, found eight live positions. */
    method InsertChecked(e: E) returns (ghost lost: Option<E>)
      requires InPlace() && epoch_size >= 1 && Room() >= 1
      modifies this`table, this`collection_flags, this`epoch_flags
      ensures Valid() && Gained(old(View().LiveSet()), e, lost, View().LiveSet())
      ensures lost.None? <==> View().LiveSet() == old(View().LiveSet()) + {e}
      ensures lost == Lost(hash, old(View()), e, depth_limit)
    {
      var locs := ComputeHashes(e);
      var k := FindSame(e, locs);
      if k < 8 {
        ghost var v := View();
        if v.Live(locs[k]) { v.LiveHas(locs[k]); }
        RevivedFirst(hash, v, e, true, k);
        Store(locs[k], e, true);
        v.PutLive(locs[k], e, true, locs[k]);
        View().LiveHas(locs[k]);
        lost := None;
      } else {
        NotLive(hash, View(), e);
        lost := Place(e);
      }
    }

    /** `kept` is the cache that the epoch check leaves: the old one or, when a scan found the
        current epoch full, the old one with exactly that epoch live. */
    method Insert(e: E) returns (ghost kept: Slots<E>, ghost lost: Option<E>)
      requires Valid()
      modifies this`table, this`collection_flags, this`epoch_flags, this`epoch_heuristic_counter
      ensures Valid() && Checked(old(View()), old(epoch_heuristic_counter), epoch_size, kept)
      ensures Gained(kept.LiveSet(), e, lost, View().LiveSet())
      ensures lost.None? <==> View().LiveSet() == kept.LiveSet() + {e}
      ensures lost == Lost(hash, kept, e, depth_limit)
    {
      EpochCheck();
      kept := View();
      lost := InsertChecked(e);
    }
  }

  /** What the epoch check makes of a cache. */
  ghost predicate Checked<E>(v: Slots<E>, counter: nat, epoch_size: nat, kept: Slots<E>)
    requires v.Sized()
  {
    && kept.Sized() && kept.table == v.table && |v.table| > 0
    && if counter == 0 && Count(v.Recent()) >= epoch_size
       then kept.LiveSet() == v.RecentSet() && forall i :: 0 <= i < |v.table| ==> !kept.epoch[i]
       else kept == v
  }

  /** The live set gained an element, less exactly the one that was dropped in the end. */
  ghost predicate Gained<E>(before: set<E>, e: E, lost: Option<E>, after: set<E>) {
    match lost
    case None => after == before + {e}
    case Some(x) => x in before + {e} && after == before + {e} - {x}
  }

  /** The element still in hand after n exchanges, unless one found room before. */
  ghost function Dropped<E>(hash: (nat, E) -> nat, h: Hand<E>, n: nat): Option<E>
    requires h.Sized()
  {
    if FindsRoom(hash, h, n) then None else Some(Swaps(hash, h, n).e)
  }

  /** What an insertion loses: nothing when the element is in the table, live or not, or when
      some element in hand finds room within the limit. */
  ghost function Lost<E>(hash: (nat, E) -> nat, v: Slots<E>, e: E, limit: nat): Option<E>
    requires v.Sized() && |v.table| > 0
  {
    if exists k | 0 <= k < 8 :: v.table[Locs(hash, |v.table|, e)[k]] == e then None
    else Dropped(hash, Hand(v, e, INVALID, true), limit)
  }

  const INVALID := TWO32 - 1

  /** The position after last_loc among the eight, cyclically; the source's search ends at
      index 8 when last_loc is not among them, which makes it the second position. */
  function NextLoc(locs: seq<nat>, last_loc: int): (loc: nat)
    requires |locs| == 8
    ensures loc in locs
  {
    locs[(1 + IndexOf(locs, last_loc)) % 8]
  }

  /** The first exchange goes to the second position, and every other one to the position after the last. */
  lemma NextLocIs(locs: seq<nat>, last_loc: int, k: nat)
    requires |locs| == 8 && k <= 8 && (forall j :: 0 <= j < k ==> locs[j] != last_loc) && (k < 8 ==> locs[k] == last_loc)
    ensures NextLoc(locs, last_loc) == if k == 8 then locs[1] else locs[(k + 1) % 8]
  {
    assert IndexOf(locs, last_loc) == k;
  }

  /** The table with the element in hand, its last position and its epoch. */
  datatype Hand<E> = Hand(v: Slots<E>, e: E, last_loc: int, recent: bool)
  {
    ghost predicate Sized() { v.Sized() && |v.table| > 0 }

    /** The live elements and the one in hand, and how many of them are recent. */
    ghost function All(): set<E>
      requires Sized()
    {
      v.LiveSet() + {e}
    }

    ghost function AllRecent(): int
      requires Sized()
    {
      Count(v.Recent()) + if recent then 1 else 0
    }
  }

  ghost predicate RoomIs<E>(b: bool, hash: (nat, E) -> nat, h: Hand<E>)
    requires h.Sized()
  {
    forall n: nat {:trigger Given(n)} :: n == |h.v.table| ==> b == exists k | 0 <= k < 8 :: !h.v.Live(Locs(hash, n, h.e)[k])
  }

  /** One of the element's eight positions may be overwritten, which `HasRoomMeans` says. */
  ghost predicate HasRoom<E>(hash: (nat, E) -> nat, h: Hand<E>)
    requires h.Sized()
  {
    assert RoomIs(exists k | 0 <= k < 8 :: !h.v.Live(Locs(hash, |h.v.table|, h.e)[k]), hash, h);
    var b :| RoomIs(b, hash, h);
    b
  }

  lemma HasRoomMeans<E>(hash: (nat, E) -> nat, h: Hand<E>)
    requires h.Sized()
    ensures HasRoom(hash, h) == exists k | 0 <= k < 8 :: !h.v.Live(Locs(hash, |h.v.table|, h.e)[k])
  {
    assert RoomIs(HasRoom(hash, h), hash, h);
    assert Given(|h.v.table|);
  }

  ghost function Swapped<E>(h: Hand<E>, loc: nat): (r: Hand<E>)
    requires h.Sized() && loc < |h.v.table|
    ensures r.Sized() && |r.v.table| == |h.v.table|
  {
    Hand(Slots(h.v.table[loc := h.e], h.v.flags, h.v.epoch[loc := h.recent]), h.v.table[loc], loc, h.v.epoch[loc])
  }

  ghost predicate IsSwap<E>(r: Hand<E>, hash: (nat, E) -> nat, h: Hand<E>)
    requires h.Sized()
  {
    && r.Sized() && |r.v.table| == |h.v.table|
    && forall n: nat {:trigger Given(n)} :: n == |h.v.table| ==> r == Swapped(h, NextLoc(Locs(hash, n, h.e), h.last_loc))
  }

  /** One exchange of the element in hand with one in the table, which `SwapIs` says. */
  ghost function Swap<E>(hash: (nat, E) -> nat, h: Hand<E>): (r: Hand<E>)
    requires h.Sized()
    ensures r.Sized() && |r.v.table| == |h.v.table|
  {
    assert IsSwap(Swapped(h, NextLoc(Locs(hash, |h.v.table|, h.e), h.last_loc)), hash, h);
    var r :| IsSwap(r, hash, h);
    r
  }

  lemma SwapIs<E>(hash: (nat, E) -> nat, h: Hand<E>)
    requires h.Sized()
    ensures NextLoc(Locs(hash, |h.v.table|, h.e), h.last_loc) < |h.v.table|
    ensures Swap(hash, h) == Swapped(h, NextLoc(Locs(hash, |h.v.table|, h.e), h.last_loc))
  {
    assert IsSwap(Swap(hash, h), hash, h);
    assert Given(|h.v.table|);
  }

  ghost function Swaps<E>(hash: (nat, E) -> nat, h: Hand<E>, n: nat): (r: Hand<E>)
    requires h.Sized()
    ensures r.Sized() && |r.v.table| == |h.v.table|
  {
    if n == 0 then h else Swap(hash, Swaps(hash, h, n - 1))
  }

  /** Some element in hand, of the first n, finds room. */
  ghost predicate FindsRoom<E>(hash: (nat, E) -> nat, h: Hand<E>, n: nat)
    requires h.Sized()
  {
    n > 0 && (FindsRoom(hash, h, n - 1) || HasRoom(hash, Swaps(hash, h, n - 1)))
  }

  /** The element in hand after d exchanges finds room. */
  ghost predicate RoomAfter<E>(hash: (nat, E) -> nat, h: Hand<E>, d: nat)
    requires h.Sized()
  {
    HasRoom(hash, Swaps(hash, h, d))
  }

  /** The chain that began with h after n exchanges, none of which found room. */
  ghost predicate HasChained<E>(hash: (nat, E) -> nat, h: Hand<E>, n: nat, g: Hand<E>)
    requires h.Sized()
  {
    && g == Swaps(hash, h, n) && !FindsRoom(hash, h, n) && g.All() == h.All() && g.AllRecent() == h.AllRecent()
    && g.e !in g.v.LiveSet()
  }

  /** HasChained, which `ChainedMeans` says. */
  ghost predicate Chained<E>(hash: (nat, E) -> nat, h: Hand<E>, n: nat, g: Hand<E>)
    requires h.Sized()
  {
    forall k: nat {:trigger Given(k)} :: k == n ==> HasChained(hash, h, k, g)
  }

  lemma ChainedMeans<E>(hash: (nat, E) -> nat, h: Hand<E>, n: nat, g: Hand<E>)
    requires h.Sized()
    ensures Chained(hash, h, n, g) <==> HasChained(hash, h, n, g)
  {
    assert Given(n);
  }

  /** The table of h with the element in hand put away. */
  ghost predicate Arrived<E>(h: Hand<E>, v: Slots<E>)
    requires h.Sized()
  {
    v.Sized() && v.LiveSet() == h.All() && Count(v.Recent()) == h.AllRecent()
  }

  lemma FindsRoomNext<E>(hash: (nat, E) -> nat, h: Hand<E>, n: nat)
    requires h.Sized()
    ensures FindsRoom(hash, h, n + 1) <==> FindsRoom(hash, h, n) || HasRoom(hash, Swaps(hash, h, n))
    ensures Swaps(hash, h, n + 1) == Swap(hash, Swaps(hash, h, n))
  {}

  lemma ChainGoesOn<E>(hash: (nat, E) -> nat, h: Hand<E>, n: nat, g: Hand<E>, g': Hand<E>)
    requires h.Sized() && g.Sized() && Chained(hash, h, n, g) && !HasRoom(hash, g) && g' == Swap(hash, g)
    requires g'.All() == g.All() && g'.AllRecent() == g.AllRecent() && g'.e !in g'.v.LiveSet()
    ensures Chained(hash, h, n + 1, g')
  {
    ChainedMeans(hash, h, n, g);
    FindsRoomNext(hash, h, n);
    ChainedMeans(hash, h, n + 1, g');
  }

  lemma ChainEnds<E>(hash: (nat, E) -> nat, h: Hand<E>, n: nat, g: Hand<E>, v: Slots<E>)
    requires h.Sized() && g.Sized() && Chained(hash, h, n, g) && HasRoom(hash, g)
    requires v.Sized() && v.LiveSet() == g.All() && Count(v.Recent()) == g.AllRecent()
    ensures FindsRoom(hash, h, n + 1) && Arrived(h, v)
  {
    ChainedMeans(hash, h, n, g);
    FindsRoomNext(hash, h, n);
  }

  lemma {:induction false} FindsRoomLater<E>(hash: (nat, E) -> nat, h: Hand<E>, m: nat, n: nat)
    requires h.Sized() && m <= n && FindsRoom(hash, h, m)
    ensures FindsRoom(hash, h, n)
    decreases n - m
  {
    if m < n { FindsRoomLater(hash, h, m, n - 1); }
  }

  /** Nothing is lost exactly when one of the elements in hand, before the limit, has a position
      that may be overwritten. */
  lemma {:induction false} FindsRoomMeans<E>(hash: (nat, E) -> nat, h: Hand<E>, n: nat)
    requires h.Sized()
    ensures FindsRoom(hash, h, n) <==> exists d: nat :: d < n && RoomAfter(hash, h, d)
  {
    if n > 0 {
      FindsRoomMeans(hash, h, n - 1);
      if HasRoom(hash, Swaps(hash, h, n - 1)) { assert RoomAfter(hash, h, n - 1); }
    }
  }

  /** What was live before an insertion, and the element, are live after it exactly when the
      element is in the table or one of the elements in hand before the limit has a position
      that may be overwritten. */
  lemma NothingLost<E>(hash: (nat, E) -> nat, v: Slots<E>, e: E, limit: nat, w: Slots<E>)
    requires v.Sized() && |v.table| > 0 && w.Sized()
    requires Gained(v.LiveSet(), e, Lost(hash, v, e, limit), w.LiveSet())
    ensures v.LiveSet() + {e} <= w.LiveSet() <==>
            || (exists k | 0 <= k < 8 :: v.table[Locs(hash, |v.table|, e)[k]] == e)
            || exists d: nat | d < limit :: RoomAfter(hash, Hand(v, e, INVALID, true), d)
  {
    FindsRoomMeans(hash, Hand(v, e, INVALID, true), limit);
  }

  lemma AgedSet<E>(v: Slots<E>, w: Slots<E>)
    requires v.Sized() && w.Sized() && v.table == w.table
    requires forall i: nat :: i < |v.table| ==> (w.Live(i) <==> v.Live(i) && v.epoch[i])
    ensures w.LiveSet() == v.RecentSet()
  {}

  function IndexOf(locs: seq<nat>, x: int): (k: nat)
    ensures k <= |locs| && (k < |locs| ==> locs[k] == x) && forall j :: 0 <= j < k ==> locs[j] != x
  {
    if locs == [] || locs[0] == x then 0 else 1 + IndexOf(locs[1..], x)
  }

  lemma SameLiveness<E>(s: Slots<E>, t: Slots<E>)
    requires s.Sized() && t.Sized() && s.table == t.table && s.epoch == t.epoch
    requires forall i: nat :: i < |s.table| ==> (s.Live(i) <==> t.Live(i))
    ensures s.LiveSet() == t.LiveSet() && s.Recent() == t.Recent()
  {}
}
