/**
 The block tree and the active chain of chain.cpp and chain.h.

 A block index entry is linked to its parent and to one farther ancestor, its skip entry.  `Ancestor`
 is the plain walk over parents; the skip entries only make it faster.
 */
module Chain {
  import opened Basics
  import opened Numbers

  // ----- Skip heights

  /** Bitwise and. */
  function And(x: nat, y: nat): (r: nat)
    ensures r <= x && r <= y
    decreases x
  {
    if x == 0 || y == 0 then 0 else (if x % 2 == 1 && y % 2 == 1 then 1 else 0) + 2 * And(x / 2, y / 2)
  }

  function InvertLowestOne(n: nat): (r: nat)
    ensures n > 0 ==> r < n
  {
    if n == 0 then 0 else And(n, n - 1)
  }

  /** And-ing with the predecessor unsets the lowest one bit and no other. */
  lemma LowestOneGoes(m: nat)
    ensures InvertLowestOne(2 * m + 1) == 2 * m && InvertLowestOne(2 * m) == 2 * InvertLowestOne(m)
  {
    AndSelf(m);
    if m > 0 { assert And(2 * m, 2 * m - 1) == 2 * And(m, m - 1); }
  }

  lemma {:induction false} AndSelf(x: nat)
    ensures And(x, x) == x
  {
    if x > 0 { AndSelf(x / 2); }
  }

  function GetSkipHeight(height: nat): (r: nat)
    ensures height > 0 ==> r < height
  {
    if height < 2 then 0
    else if height % 2 == 1 then InvertLowestOne(InvertLowestOne(height - 1)) + 1
    else InvertLowestOne(height)
  }

  lemma {:induction false} LowestOneAt(k: nat, m: nat)
    ensures InvertLowestOne(Mul(Pow2(k), 2 * m + 1)) == Mul(Pow2(k), 2 * m)
  {
    if k == 0 {
      MulOne(2 * m + 1);
      MulOne(2 * m);
      LowestOneGoes(m);
    } else {
      LowestOneAt(k - 1, m);
      MulAdd(Pow2(k - 1), Pow2(k - 1), 2 * m + 1);
      MulAdd(Pow2(k - 1), Pow2(k - 1), 2 * m);
      LowestOneGoes(Mul(Pow2(k - 1), 2 * m + 1));
    }
  }

  /** An even height skips what its lowest one bit is worth. */
  lemma EvenSkip(k: nat, m: nat)
    requires k > 0
    ensures var h := Mul(Pow2(k), 2 * m + 1); h % 2 == 0 && GetSkipHeight(h) == h - Pow2(k) == Mul(Pow2(k), 2 * m)
  {
    LowestOneAt(k, m);
    MulAdd(Pow2(k - 1), Pow2(k - 1), 2 * m + 1);
    MulAddRight(Pow2(k), 2 * m, 1);
    MulOne(Pow2(k));
  }

  /** The two lowest one bits of an even number. */
  lemma TwoLowest(k: nat, j: nat, m: nat, q: nat)
    requires k > 0 && q == Mul(Pow2(j), 2 * m + 1)
    ensures InvertLowestOne(InvertLowestOne(Mul(Pow2(k), 2 * q + 1))) == Mul(Pow2(k), 2 * Mul(Pow2(j), 2 * m))
  {
    LowestOneAt(k, q);
    TwoPowers(k, j, 2 * m + 1);
    TwoPowers(k, j, 2 * m);
    LowestOneAt(k + 1 + j, m);
  }

  lemma IsEven(k: nat, x: nat)
    requires k > 0
    ensures Mul(Pow2(k), x) % 2 == 0 && (x > 0 ==> Mul(Pow2(k), x) > 0)
  {
    MulAdd(Pow2(k - 1), Pow2(k - 1), x);
    if x > 0 { MulGrows(1, Pow2(k), x); MulOne(x); }
  }

  /** An odd height skips what the two lowest one bits of its predecessor are worth. */
  lemma OddSkip(k: nat, j: nat, m: nat, q: nat)
    requires k > 0 && q == Mul(Pow2(j), 2 * m + 1)
    ensures GetSkipHeight(Mul(Pow2(k), 2 * q + 1) + 1) == Mul(Pow2(k), 2 * Mul(Pow2(j), 2 * m)) + 1
  {
    TwoLowest(k, j, m, q);
    IsEven(k, 2 * q + 1);
  }

  /** A height just above a power of two skips to 1. */
  lemma PowerSkip(k: nat)
    requires k > 0
    ensures GetSkipHeight(Pow2(k) + 1) == 1
  {
    LowestOneAt(k, 0);
    IsEven(k, 1);
    MulOne(Pow2(k));
  }

  /** Every positive number is an odd multiple of a power of two. */
  lemma {:induction false} OddPart(n: nat) returns (k: nat, m: nat)
    requires n > 0
    ensures n == Mul(Pow2(k), 2 * m + 1)
  {
    if n % 2 == 1 {
      k, m := 0, n / 2;
      MulOne(n);
    } else {
      k, m := OddPart(n / 2);
      MulAdd(Pow2(k), Pow2(k), 2 * m + 1);
      k := k + 1;
    }
  }

  lemma TwoPowers(k: nat, j: nat, x: nat)
    ensures Mul(Pow2(k), 2 * Mul(Pow2(j), x)) == Mul(Pow2(k + 1 + j), x)
  {
    MulAdd(Pow2(j), Pow2(j), x);
    MulAssociates(Pow2(k), Pow2(j + 1), x);
    PowAdd(k, j + 1);
  }

  // ----- The block tree

  class BlockIndex {
    const hash: nat
    const pprev: BlockIndex?
    const nHeight: nat
    const pskip: BlockIndex?

    /** A block without parent. */
    constructor Genesis(hash: nat)
      ensures this.hash == hash && pprev == null && nHeight == 0 && Linked(this)
    {
      this.hash, pprev, nHeight, pskip := hash, null, 0, null;
    }

    /** A child of a linked block; the skip entry is set by BuildSkip. */
    constructor Child(hash: nat, parent: BlockIndex)
      requires Linked(parent)
      ensures this.hash == hash && pprev == parent && nHeight == parent.nHeight + 1
      ensures Linked(this) && pskip == Ancestor(parent, GetSkipHeight(nHeight))
    {
      var skip := parent.GetAncestor(GetSkipHeight(parent.nHeight + 1));
      this.hash, pprev, nHeight, pskip := hash, parent, parent.nHeight + 1, skip;
    }

    /** The skip list finds what the walk over parents finds. */
    method GetAncestor(height: int) returns (r: BlockIndex?)
      requires Linked(this)
      ensures r == if 0 <= height <= nHeight then Ancestor(this, height) else null
    {
      if height > nHeight || height < 0 { return null; }
      var pindexWalk: BlockIndex, heightWalk := this, nHeight;
      while heightWalk > height
        invariant height <= heightWalk <= nHeight
        invariant pindexWalk.nHeight == heightWalk && Linked(pindexWalk) && pindexWalk == Ancestor(this, heightWalk)
      {
        var heightSkip := GetSkipHeight(heightWalk);
        var heightSkipPrev := GetSkipHeight(heightWalk - 1);
        if pindexWalk.pskip != null &&
           (heightSkip == height || (heightSkip > height && !(heightSkipPrev < heightSkip - 2 && heightSkipPrev >= height)))
        {
          AncestorAt(pindexWalk, heightSkip);
          AncestorTwice(this, heightWalk, heightSkip);
          pindexWalk := pindexWalk.pskip;
          heightWalk := heightSkip;
        } else {
          AncestorAt(pindexWalk, heightWalk - 1);
          AncestorTwice(this, heightWalk, heightWalk - 1);
          pindexWalk := pindexWalk.pprev;
          heightWalk := heightWalk - 1;
        }
      }
      return pindexWalk;
    }
  }

  /** Heights count the parents, and a skip entry, where there is one, is the ancestor it should be. */
  ghost predicate Linked(b: BlockIndex)
    decreases b.nHeight, 0
  {
    if b.pprev == null then b.nHeight == 0 && b.pskip == null
    else
      && b.nHeight == b.pprev.nHeight + 1 && Linked(b.pprev)
      && (b.pskip == null || b.pskip == Ancestor(b.pprev, GetSkipHeight(b.nHeight)))
  }

  /** The plain walk over parents. */
  ghost function Ancestor(b: BlockIndex, height: nat): BlockIndex
    requires Linked(b) && height <= b.nHeight
    decreases b.nHeight, 1
  {
    if height == b.nHeight then b else Ancestor(b.pprev, height)
  }

  lemma {:induction false} AncestorAt(b: BlockIndex, height: nat)
    requires Linked(b) && height <= b.nHeight
    ensures Ancestor(b, height).nHeight == height && Linked(Ancestor(b, height))
    decreases b.nHeight
  {
    if height < b.nHeight { AncestorAt(b.pprev, height); }
  }

  lemma {:induction false} AncestorTwice(b: BlockIndex, h: nat, k: nat)
    requires Linked(b) && k <= h <= b.nHeight
    ensures Ancestor(b, h).nHeight == h && Linked(Ancestor(b, h)) && Ancestor(Ancestor(b, h), k) == Ancestor(b, k)
    decreases b.nHeight
  {
    AncestorAt(b, h);
    if h < b.nHeight { AncestorTwice(b.pprev, h, k); }
  }

  /** a is b or an ancestor of it. */
  ghost predicate IsAncestor(a: BlockIndex, b: BlockIndex)
    requires Linked(b)
  {
    a.nHeight <= b.nHeight && Ancestor(b, a.nHeight) == a
  }

  /** The tip and all its ancestors, each at its height. */
  ghost predicate IsChainOf(s: seq<BlockIndex?>, tip: BlockIndex) {
    && Linked(tip) && |s| == tip.nHeight + 1
    && forall i :: 0 <= i < |s| ==> s[i] == Ancestor(tip, i)
  }

  ghost predicate IsChain(s: seq<BlockIndex?>) { s == [] || (s[|s| - 1] != null && IsChainOf(s, s[|s| - 1])) }

  /** Two chains that share an entry share everything below it. */
  lemma SharedBelow(s: seq<BlockIndex?>, b: BlockIndex, p: BlockIndex, i: nat)
    requires IsChain(s) && Linked(b) && p.nHeight < |s| && s[p.nHeight] == p && IsAncestor(p, b) && i <= p.nHeight
    ensures s[i] == Ancestor(b, i)
  {
    AncestorTwice(s[|s| - 1], p.nHeight, i);
    AncestorTwice(b, p.nHeight, i);
  }

  class CChain {
    var vChain: seq<BlockIndex?>

    ghost predicate Valid()
      reads this
    {
      IsChain(vChain)
    }

    constructor ()
      ensures Valid() && vChain == []
    {
      vChain := [];
    }

    function Tip(): BlockIndex?
      reads this
    {
      if |vChain| > 0 then vChain[|vChain| - 1] else null
    }

    function At(nHeight: int): BlockIndex?
      reads this
    {
      if nHeight < 0 || nHeight >= |vChain| then null else vChain[nHeight]
    }

    predicate Contains(pindex: BlockIndex)
      reads this
    {
      At(pindex.nHeight) == pindex
    }

    function Height(): int
      reads this
    {
      |vChain| - 1
    }

    /** A block is in the chain if and only if it is the tip or an ancestor of it. */
    lemma ContainsMeans(b: BlockIndex)
      requires Valid()
      ensures Contains(b) <==> Tip() != null && Linked(Tip()) && IsAncestor(b, Tip())
    {}

    function Next(pindex: BlockIndex): BlockIndex?
      reads this
    {
      if Contains(pindex) then At(pindex.nHeight + 1) else null
    }

    /** The successor of a block in the chain is its child in the chain; only the tip has none. */
    lemma NextIsChild(pindex: BlockIndex)
      requires Valid()
      ensures var r := Next(pindex);
              && (r != null <==> Contains(pindex) && pindex != Tip())
              && (r != null ==> r.pprev == pindex && Contains(r))
    {
      if Contains(pindex) && pindex != Tip() { ChildIsNext(Tip(), pindex.nHeight); }
    }

    /** SetTip leaves exactly the ancestor chain of the new tip, although it stops as soon as it meets
        the old chain. */
    method SetTip(pindex: BlockIndex?)
      requires Valid() && (pindex != null ==> Linked(pindex))
      modifies this
      ensures Valid() && Tip() == pindex && (pindex != null ==> IsChainOf(vChain, pindex))
    {
      if pindex == null {
        vChain := [];
        return;
      }
      ghost var was := vChain;
      vChain := if pindex.nHeight + 1 <= |vChain| then vChain[..pindex.nHeight + 1]
                else vChain + seq(pindex.nHeight + 1 - |vChain|, _ => null);
      var p: BlockIndex?, h: int := pindex, pindex.nHeight;
      while p != null && vChain[p.nHeight] != p
        invariant |vChain| == pindex.nHeight + 1 && -1 <= h <= pindex.nHeight
        invariant if p == null then h == -1 else p.nHeight == h && Linked(p) && IsAncestor(p, pindex)
        invariant forall i :: h < i < |vChain| ==> vChain[i] == Ancestor(pindex, i)
        invariant forall i :: 0 <= i <= h ==> vChain[i] == if i < |was| then was[i] else null
        decreases h
      {
        vChain := vChain[p.nHeight := p];
        if h > 0 { AncestorTwice(pindex, h, h - 1); }
        p := p.pprev;
        h := h - 1;
      }
      forall i | 0 <= i <= h ensures vChain[i] == Ancestor(pindex, i) { SharedBelow(was, pindex, p, i); }
    }

    /** FindFork: the highest block that is in the chain and an ancestor of the given one, if any. */
    method FindFork(pindex: BlockIndex?) returns (r: BlockIndex?)
      requires Valid() && (pindex != null ==> Linked(pindex))
      ensures r != null ==> pindex != null && IsAncestor(r, pindex) && Contains(r)
      ensures pindex != null ==> forall i :: 0 <= i <= pindex.nHeight && Contains(Ancestor(pindex, i)) ==>
              r != null && i <= r.nHeight
    {
      if pindex == null { return null; }
      ghost var h: int := pindex.nHeight;
      r := pindex;
      forall i | 0 <= i <= pindex.nHeight ensures Ancestor(pindex, i).nHeight == i
          && Linked(Ancestor(pindex, i)) { AncestorAt(pindex, i); }
      if pindex.nHeight > Height() {
        r := pindex.GetAncestor(Height());
        h := Height();
      }
      while r != null && !Contains(r)
        invariant -1 <= h <= pindex.nHeight && if r == null then h == -1 else r.nHeight == h && Linked(r) && IsAncestor(r, pindex)
        invariant forall i :: h < i <= pindex.nHeight ==> !Contains(Ancestor(pindex, i))
        decreases h
      {
        if h > 0 { AncestorTwice(pindex, h, h - 1); }
        r := r.pprev;
        h := h - 1;
      }
    }

    /** The ancestor at a height, from the chain where possible and by the skip list otherwise. */
    method Back(p: BlockIndex, nHeight: nat) returns (r: BlockIndex)
      requires Valid() && Linked(p) && nHeight <= p.nHeight
      ensures r == Ancestor(p, nHeight) && r.nHeight == nHeight && Linked(r)
    {
      AncestorAt(p, nHeight);
      if Contains(p) {
        AncestorTwice(Tip(), p.nHeight, nHeight);
        r := At(nHeight);
      } else {
        r := p.GetAncestor(nHeight);
      }
    }

    /** GetLocator: hashes of ancestors of the given block, or of the tip, from itself down to the
        genesis block, strictly descending and few. */
    method GetLocator(pindex: BlockIndex?) returns (vHave: seq<nat>, ghost blocks: seq<BlockIndex>)
      requires Valid() && (pindex != null ==> Linked(pindex))
      ensures vHave == Hashes(blocks)
      ensures var start := if pindex == null then Tip() else pindex;
              if start == null then blocks == [] else Linked(start) && IsLocator(blocks, start)
    {
      var start := if pindex == null then Tip() else pindex;
      if start == null {
        vHave, blocks := [], [];
      } else {
        vHave, blocks := LocatorFrom(start);
      }
    }

    method LocatorFrom(start: BlockIndex) returns (vHave: seq<nat>, ghost blocks: seq<BlockIndex>)
      requires Valid() && Linked(start)
      ensures vHave == Hashes(blocks) && IsLocator(blocks, start)
    {
      vHave, blocks := [], [];
      var nStep: nat := 1;
      var p := start;
      while p.nHeight != 0
        invariant vHave == Hashes(blocks) && Midway(blocks, start, p, nStep)
        decreases p.nHeight
      {
        var nHeight := if p.nHeight - nStep > 0 then p.nHeight - nStep else 0;
        var q := Back(p, nHeight);
        ghost var before, step := blocks, nStep;
        vHave, blocks := vHave + [p.hash], blocks + [p];
        if |vHave| > 10 { nStep := nStep * 2; }
        MidwayNext(before, start, p, step, q, nStep);
        p := q;
      }
      LocatorEnds(blocks, start, p, nStep);
      vHave, blocks := vHave + [p.hash], blocks + [p];
    }
  }

  lemma ChildIsNext(tip: BlockIndex, i: nat)
    requires Linked(tip) && i < tip.nHeight
    ensures Ancestor(tip, i + 1).pprev == Ancestor(tip, i) && Ancestor(tip, i + 1).nHeight == i + 1
  {
    AncestorTwice(tip, i + 1, i);
  }

  /** Ancestors of start, strictly descending from start itself down to height 0: the eleven highest
      blocks, then steps that double.  There are at most 12 and the binary logarithm of the height. */
  ghost predicate IsLocator(blocks: seq<BlockIndex>, start: BlockIndex)
    requires Linked(start)
  {
    && |blocks| > 0 && blocks[0] == start && blocks[|blocks| - 1].nHeight == 0
    && (forall i :: 0 <= i < |blocks| ==> IsAncestor(blocks[i], start))
    && (forall i: nat :: i < |blocks| ==>
          blocks[i].nHeight == Max(0, start.nHeight - if i <= 10 then i else 9 + Pow2(i - 10)))
    && (forall i, j :: 0 <= i < j < |blocks| ==> blocks[i].nHeight > blocks[j].nHeight)
    && |blocks| <= if start.nHeight == 0 then 1 else 12 + Log2(start.nHeight)
  }

  /** The entries so far, one below the other and all above p, the first being start. */
  ghost predicate Descends(blocks: seq<BlockIndex>, start: BlockIndex, p: BlockIndex)
    requires Linked(start)
  {
    if blocks == [] then p == start
    else
      var last := blocks[|blocks| - 1];
      && last.nHeight > p.nHeight && last.nHeight == HeightAfter(start.nHeight, |blocks| - 1)
      && IsAncestor(last, start) && Descends(blocks[..|blocks| - 1], start, last)
  }

  lemma {:induction false} DescendsMeans(blocks: seq<BlockIndex>, start: BlockIndex, p: BlockIndex)
    requires Linked(start) && Descends(blocks, start, p)
    ensures blocks != [] ==> blocks[0] == start
    ensures forall i :: 0 <= i < |blocks| ==> IsAncestor(blocks[i], start) && blocks[i].nHeight > p.nHeight
    ensures forall i, j :: 0 <= i < j < |blocks| ==> blocks[i].nHeight > blocks[j].nHeight
  {
    if blocks != [] { DescendsMeans(blocks[..|blocks| - 1], start, blocks[|blocks| - 1]); }
  }

  lemma {:induction false} DescendsHeight(blocks: seq<BlockIndex>, start: BlockIndex, p: BlockIndex, i: nat)
    requires Linked(start) && Descends(blocks, start, p) && i < |blocks|
    ensures blocks[i].nHeight == HeightAfter(start.nHeight, i)
  {
    var n := |blocks| - 1;
    if i < n { DescendsHeight(blocks[..n], start, blocks[n], i); }
  }

  lemma DescendsOn(blocks: seq<BlockIndex>, start: BlockIndex, p: BlockIndex, q: BlockIndex)
    requires Linked(start) && Descends(blocks, start, p) && IsAncestor(p, start) && q.nHeight < p.nHeight
    requires p.nHeight == HeightAfter(start.nHeight, |blocks|)
    ensures Descends(blocks + [p], start, q)
  {
    assert (blocks + [p])[..|blocks|] == blocks;
    DescendsTo(blocks + [p], |blocks|, start, p, q);
  }

  lemma DescendsTo(blocks: seq<BlockIndex>, n: nat, start: BlockIndex, p: BlockIndex, q: BlockIndex)
    requires Linked(start) && |blocks| == n + 1 && blocks[n] == p && Descends(blocks[..n], start, p)
    requires IsAncestor(p, start) && q.nHeight < p.nHeight && p.nHeight == HeightAfter(start.nHeight, n)
    ensures Descends(blocks, start, q)
  {}

  /** The state of the loop between two entries. */
  ghost predicate Midway(blocks: seq<BlockIndex>, start: BlockIndex, p: BlockIndex, nStep: nat)
    requires Linked(start)
  {
    && Linked(p) && IsAncestor(p, start) && Descends(blocks, start, p)
    && nStep == StepAfter(|blocks|) && p.nHeight == HeightAfter(start.nHeight, |blocks|)
    && (|blocks| > 0 ==> HeightAfter(start.nHeight, |blocks| - 1) > 0)
  }

  lemma MidwayNext(blocks: seq<BlockIndex>, start: BlockIndex, p: BlockIndex, nStep: nat, q: BlockIndex, nStep': nat)
    requires Linked(start) && Midway(blocks, start, p, nStep) && p.nHeight > 0
    requires var h := if p.nHeight - nStep > 0 then p.nHeight - nStep else 0; q == Ancestor(p, h) && q.nHeight == h && Linked(q)
    requires nStep' == if |blocks| + 1 > 10 then nStep * 2 else nStep
    ensures Midway(blocks + [p], start, q, nStep') && q.nHeight < p.nHeight
  {
    NextHeight(start.nHeight, |blocks|);
    AncestorTwice(start, p.nHeight, q.nHeight);
    DescendsOn(blocks, start, p, q);
  }

  lemma LocatorEnds(blocks: seq<BlockIndex>, start: BlockIndex, p: BlockIndex, nStep: nat)
    requires Linked(start) && Midway(blocks, start, p, nStep) && p.nHeight == 0
    ensures IsLocator(blocks + [p], start)
  {
    DescendsMeans(blocks, start, p);
    forall i: nat | i < |blocks + [p]|
      ensures (blocks + [p])[i].nHeight == Max(0, start.nHeight - if i <= 10 then i else 9 + Pow2(i - 10))
    {
      if i < |blocks| { DescendsHeight(blocks, start, p, i); }
    }
    FewEntries(start.nHeight, |blocks| + 1);
  }

  /** The hashes of some blocks. */
  function Hashes(blocks: seq<BlockIndex>): (s: seq<nat>)
    ensures |s| == |blocks| && forall i :: 0 <= i < |s| ==> s[i] == blocks[i].hash
  {
    seq(|blocks|, i requires 0 <= i < |blocks| => blocks[i].hash)
  }

  function Log2(n: nat): nat { if n <= 1 then 0 else 1 + Log2(n / 2) }

  lemma {:induction false} Log2Bounds(n: nat, k: nat)
    requires n > 0 && Pow2(k) <= n
    ensures k <= Log2(n)
  {
    if k > 0 { Log2Bounds(n / 2, k - 1); }
  }

  /** The step width after n entries, and the height then reached. */
  ghost function StepAfter(n: nat): (r: nat)
    ensures r >= 1
  {
    if n <= 10 then 1 else Pow2(n - 10)
  }

  ghost function HeightAfter(height: nat, n: nat): nat {
    var down := if n <= 10 then n else 9 + Pow2(n - 10);
    if down < height then height - down else 0
  }

  lemma NextHeight(height: nat, n: nat)
    requires HeightAfter(height, n) > 0
    ensures var h := HeightAfter(height, n);
            HeightAfter(height, n + 1) == if h - StepAfter(n) > 0 then h - StepAfter(n) else 0
    ensures StepAfter(n + 1) == if n + 1 > 10 then 2 * StepAfter(n) else 1
  {
    assert Pow2(1) == 2;
  }

  lemma FewEntries(height: nat, n: nat)
    requires n > 0 && HeightAfter(height, n - 1) == 0 && (n > 1 ==> HeightAfter(height, n - 2) > 0)
    ensures n <= if height == 0 then 1 else 12 + Log2(height)
  {
    if n > 12 { Log2Bounds(height, n - 12); }
  }

  /** LastCommonAncestor: the highest block that is an ancestor of both, if they are in the same tree. */
  method LastCommonAncestor(a: BlockIndex, b: BlockIndex) returns (r: BlockIndex?)
    requires Linked(a) && Linked(b)
    ensures r != null ==> IsAncestor(r, a) && IsAncestor(r, b)
    ensures forall i :: 0 <= i <= a.nHeight && i <= b.nHeight && Ancestor(a, i) == Ancestor(b, i) ==>
            r != null && i <= r.nHeight
  {
    var pa: BlockIndex?, pb: BlockIndex? := a, b;
    if a.nHeight > b.nHeight {
      AncestorAt(a, b.nHeight);
      pa := a.GetAncestor(b.nHeight);
    } else if b.nHeight > a.nHeight {
      AncestorAt(b, a.nHeight);
      pb := b.GetAncestor(a.nHeight);
    }
    ghost var h: int := pa.nHeight;
    while pa != pb && pa != null && pb != null
      invariant -1 <= h <= a.nHeight && h <= b.nHeight
      invariant if h == -1 then pa == null && pb == null
                else pa != null && pb != null && Linked(pa) && Linked(pb) && pa.nHeight == h && pb.nHeight == h && IsAncestor(pa, a) && IsAncestor(pb, b)
      invariant forall i :: h < i <= a.nHeight && i <= b.nHeight ==> Ancestor(a, i) != Ancestor(b, i)
      decreases h
    {
      if h > 0 {
        AncestorTwice(a, h, h - 1);
        AncestorTwice(b, h, h - 1);
      }
      pa, pb := pa.pprev, pb.pprev;
      h := h - 1;
    }
    assert pa == pb;
    return pa;
  }
}
