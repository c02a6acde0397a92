/**
 Partial Merkle trees of merkleblock.cpp and merkleblock.h (the "Partial Merkle branch format"
 section of BIP 37).

 The hash of two child hashes is an arbitrary function; soundness and completeness assume it
 injective.  A node is named by its height and position; it covers the leaves from
 pos * 2^height up to (pos + 1) * 2^height or the end of the list.
 */
module Merkle {
  import opened BitFlags
  import Numbers

  const MAX_BLOCK_WEIGHT := 4000000
  const MIN_TRANSACTION_WEIGHT := 240

  type H = nat

  type Hash2 = (H, H) -> H

  const ZERO: H := 0

  ghost predicate Injective(f: Hash2) { forall a, b, c, d :: f(a, b) == f(c, d) ==> a == c && b == d }

  // ----- The shape of the tree

  /** x >> h. */
  function ShiftRight(x: nat, h: nat): nat { if h == 0 then x else ShiftRight(x / 2, h - 1) }

  function CalcTreeWidth(n: nat, height: nat): nat { ShiftRight(n + Numbers.Pow2(height) - 1, height) }

  /** The first leaf below a node, pos << height, and the one after the last. */
  function Lo(height: nat, pos: nat): nat { if height == 0 then pos else Lo(height - 1, 2 * pos) }

  function Hi(n: nat, height: nat, pos: nat): nat { if Lo(height, pos + 1) < n then Lo(height, pos + 1) else n }

  lemma {:induction false} LoStep(height: nat, pos: nat)
    ensures Lo(height, pos + 1) == Lo(height, pos) + Numbers.Pow2(height)
    ensures Lo(height, 2 * pos) == 2 * Lo(height, pos)
  {
    if height > 0 {
      LoStep(height - 1, 2 * pos);
      LoStep(height - 1, 2 * pos + 1);
      LoStep(height - 1, pos);
    }
  }

  lemma {:induction false} ShiftRightMeans(x: nat, h: nat, pos: nat)
    ensures pos < ShiftRight(x, h) <==> Lo(h, pos + 1) <= x
  {
    if h > 0 {
      ShiftRightMeans(x / 2, h - 1, pos);
      LoStep(h - 1, pos + 1);
    }
  }

  /** The width counts the nodes that have a leaf. */
  lemma WidthMeans(n: nat, height: nat, pos: nat)
    ensures pos < CalcTreeWidth(n, height) <==> Lo(height, pos) < n
  {
    ShiftRightMeans(n + Numbers.Pow2(height) - 1, height, pos);
    LoStep(height, pos);
  }

  lemma Inside(n: nat, height: nat, pos: nat)
    requires Lo(height, pos) < n
    ensures Lo(height, pos) < Hi(n, height, pos) <= n
  {
    LoStep(height, pos);
  }

  predicate HasRight(n: nat, height: nat, pos: nat)
    requires height > 0
  {
    2 * pos + 1 < CalcTreeWidth(n, height - 1)
  }

  /** The leaves of a node are those of its one or two children. */
  lemma Split(n: nat, height: nat, pos: nat)
    requires height > 0 && Lo(height, pos) < n
    ensures Lo(height - 1, 2 * pos) == Lo(height, pos) < Lo(height - 1, 2 * pos + 1)
    ensures HasRight(n, height, pos) ==>
              Lo(height - 1, 2 * pos + 1) < n && Hi(n, height - 1, 2 * pos) == Lo(height - 1, 2 * pos + 1)
                  && Hi(n, height - 1, 2 * pos + 1) == Hi(n, height, pos) > Lo(height - 1, 2 * pos + 1)
    ensures !HasRight(n, height, pos) ==> Hi(n, height - 1, 2 * pos) == Hi(n, height, pos) == n
  {
    LoStep(height - 1, 2 * pos);
    LoStep(height - 1, 2 * pos + 1);
    WidthMeans(n, height - 1, 2 * pos + 1);
  }

  // ----- Hashes of whole subtrees

  function CalcHash(f: Hash2, vTxid: seq<H>, height: nat, pos: nat): H
    requires Lo(height, pos) < |vTxid|
  {
    if height == 0 then vTxid[pos]
    else
      Split(|vTxid|, height, pos);
      var left := CalcHash(f, vTxid, height - 1, 2 * pos);
      var right := if HasRight(|vTxid|, height, pos) then CalcHash(f, vTxid, height - 1, 2 * pos + 1) else left;
      f(left, right)
  }

  /** Equal subtree hashes start with the same leaf. */
  lemma {:induction false} FirstLeaf(f: Hash2, vTxid: seq<H>, height: nat, p: nat, q: nat)
    requires Injective(f) && Lo(height, p) < |vTxid| && Lo(height, q) < |vTxid|
    requires CalcHash(f, vTxid, height, p) == CalcHash(f, vTxid, height, q)
    ensures vTxid[Lo(height, p)] == vTxid[Lo(height, q)]
  {
    if height > 0 {
      Split(|vTxid|, height, p);
      Split(|vTxid|, height, q);
      FirstLeaf(f, vTxid, height - 1, 2 * p, 2 * q);
    }
  }

  ghost predicate Distinct(s: seq<H>) { forall i, j :: 0 <= i < j < |s| ==> s[i] != s[j] }

  /** No node has two children with the same hash. */
  ghost predicate NoTwins(f: Hash2, vTxid: seq<H>) {
    forall height: nat, pos: nat {:trigger HasRight(|vTxid|, height, pos)} ::
      height > 0 && HasRight(|vTxid|, height, pos) ==> ChildrenApart(f, vTxid, height, pos)
  }

  ghost predicate ChildrenApart(f: Hash2, vTxid: seq<H>, height: nat, pos: nat)
    requires height > 0
  {
    && Lo(height - 1, 2 * pos) < |vTxid| && Lo(height - 1, 2 * pos + 1) < |vTxid|
    && CalcHash(f, vTxid, height - 1, 2 * pos) != CalcHash(f, vTxid, height - 1, 2 * pos + 1)
  }

  /** Distinct leaves under an injective hash leave no twins. */
  lemma DistinctHasNoTwins(f: Hash2, vTxid: seq<H>)
    requires Injective(f) && Distinct(vTxid)
    ensures NoTwins(f, vTxid)
  {
    forall height: nat, pos: nat | height > 0 && HasRight(|vTxid|, height, pos)
      ensures ChildrenApart(f, vTxid, height, pos)
    {
      WidthMeans(|vTxid|, height - 1, 2 * pos + 1);
      LoStep(height - 1, 2 * pos);
      if CalcHash(f, vTxid, height - 1, 2 * pos) == CalcHash(f, vTxid, height - 1, 2 * pos + 1) {
        FirstLeaf(f, vTxid, height - 1, 2 * pos, 2 * pos + 1);
      }
    }
  }

  // ----- Matched leaves

  /** The matched leaves from lo up to hi, with their indexes, in order. */
  function Selected(vTxid: seq<H>, vMatch: seq<bool>, lo: nat, hi: nat): seq<(H, nat)>
    requires |vTxid| == |vMatch| && lo <= hi <= |vTxid|
    decreases hi - lo
  {
    if lo == hi then [] else (if vMatch[lo] then [(vTxid[lo], lo)] else []) + Selected(vTxid, vMatch, lo + 1, hi)
  }

  lemma {:induction false} SelectedSplit(vTxid: seq<H>, vMatch: seq<bool>, lo: nat, mid: nat, hi: nat)
    requires |vTxid| == |vMatch| && lo <= mid <= hi <= |vTxid|
    ensures Selected(vTxid, vMatch, lo, hi) == Selected(vTxid, vMatch, lo, mid) + Selected(vTxid, vMatch, mid, hi)
    decreases hi - lo
  {
    if lo < mid { SelectedSplit(vTxid, vMatch, lo + 1, mid, hi); }
  }

  // ----- Building

  datatype Proof = Proof(bits: seq<bool>, hashes: seq<H>)

  function Join(p: Proof, q: Proof): Proof { Proof(p.bits + q.bits, p.hashes + q.hashes) }

  predicate ParentOfMatch(vMatch: seq<bool>, height: nat, pos: nat)
  {
    exists p | Lo(height, pos) <= p < Hi(|vMatch|, height, pos) :: vMatch[p]
  }

  /** What TraverseAndBuild appends for one subtree. */
  function Build(f: Hash2, vTxid: seq<H>, vMatch: seq<bool>, height: nat, pos: nat): (r: Proof)
    requires |vTxid| == |vMatch| && Lo(height, pos) < |vTxid|
    ensures |r.bits| >= 1 && |r.bits| >= |r.hashes| >= 1
  {
    var fParentOfMatch := ParentOfMatch(vMatch, height, pos);
    if height == 0 || !fParentOfMatch then Proof([fParentOfMatch], [CalcHash(f, vTxid, height, pos)])
    else
      Split(|vTxid|, height, pos);
      var left := Build(f, vTxid, vMatch, height - 1, 2 * pos);
      var rest := if HasRight(|vTxid|, height, pos) then Join(left, Build(f, vTxid, vMatch, height - 1, 2 * pos + 1))
          else left;
      Proof([true] + rest.bits, rest.hashes)
  }

  // ----- Extracting

  /** What reading one subtree gives, and the bits and hashes left for the rest. */
  datatype Extracted = Extracted(hash: H, rest: Proof, matches: seq<(H, nat)>, bad: bool)

  /** What TraverseAndExtract does for one subtree. */
  function Extract(f: Hash2, n: nat, p: Proof, height: nat, pos: nat): (r: Extracted)
    decreases height
  {
    if p.bits == [] then Extracted(ZERO, p, [], true)
    else
      var fParentOfMatch := p.bits[0];
      if height == 0 || !fParentOfMatch then
        if p.hashes == [] then Extracted(ZERO, Proof(p.bits[1..], []), [], true)
        else Extracted(p.hashes[0], Proof(p.bits[1..], p.hashes[1..]), if height == 0
            && fParentOfMatch then [(p.hashes[0], pos)] else [], false)
      else ExtractBelow(f, n, Proof(p.bits[1..], p.hashes), height, pos)
  }

  /** What it does for the children of a node above a match. */
  function ExtractBelow(f: Hash2, n: nat, p: Proof, height: nat, pos: nat): (r: Extracted)
    requires height > 0
    decreases height, 0
  {
    var l := Extract(f, n, p, height - 1, 2 * pos);
    if HasRight(n, height, pos) then
      var r := Extract(f, n, l.rest, height - 1, 2 * pos + 1);
      Extracted(f(l.hash, r.hash), r.rest, l.matches + r.matches, l.bad || r.bad || l.hash == r.hash)
    else l.(hash := f(l.hash, l.hash))
  }

  /** Whatever the proof, a subtree that comes out with the true hash reports only true leaves. */
  lemma {:induction false} SubtreeSound(f: Hash2, vTxid: seq<H>, p: Proof, height: nat, pos: nat)
    requires Injective(f) && Lo(height, pos) < |vTxid|
    requires var r := Extract(f, |vTxid|, p, height, pos); !r.bad && r.hash == CalcHash(f, vTxid, height, pos)
    ensures forall m :: m in Extract(f, |vTxid|, p, height, pos).matches ==> m.1 < |vTxid| && vTxid[m.1] == m.0
    decreases height
  {
    var n := |vTxid|;
    if height > 0 && p.bits[0] {
      Split(n, height, pos);
      var q := Proof(p.bits[1..], p.hashes);
      SubtreeSound(f, vTxid, q, height - 1, 2 * pos);
      if HasRight(n, height, pos) {
        SubtreeSound(f, vTxid, Extract(f, n, q, height - 1, 2 * pos).rest, height - 1, 2 * pos + 1);
      }
    }
  }

  /** A node above a match has two children with the same hash. */
  ghost predicate MeetsTwins(f: Hash2, vTxid: seq<H>, vMatch: seq<bool>, height: nat, pos: nat)
    requires |vTxid| == |vMatch| && Lo(height, pos) < |vTxid|
    decreases height
  {
    height > 0 && ParentOfMatch(vMatch, height, pos) && (
      Split(|vTxid|, height, pos);
      || MeetsTwins(f, vTxid, vMatch, height - 1, 2 * pos)
      || (HasRight(|vTxid|, height, pos) && (MeetsTwins(f, vTxid, vMatch, height - 1, 2 * pos + 1)
          || !ChildrenApart(f, vTxid, height, pos))))
  }

  lemma {:induction false} NoTwinsMeetsNone(f: Hash2, vTxid: seq<H>, vMatch: seq<bool>, height: nat, pos: nat)
    requires NoTwins(f, vTxid) && |vTxid| == |vMatch| && Lo(height, pos) < |vTxid|
    ensures !MeetsTwins(f, vTxid, vMatch, height, pos)
    decreases height
  {
    if height > 0 {
      Split(|vTxid|, height, pos);
      NoTwinsMeetsNone(f, vTxid, vMatch, height - 1, 2 * pos);
      if HasRight(|vTxid|, height, pos) { NoTwinsMeetsNone(f, vTxid, vMatch, height - 1, 2 * pos + 1); }
    }
  }

  /** What reading a subtree's own part of a proof must give: its true hash, exactly its matches, and
      failure just when twins were met. */
  ghost function Expected(f: Hash2, vTxid: seq<H>, vMatch: seq<bool>, height: nat, pos: nat, rest: Proof): Extracted
    requires |vTxid| == |vMatch| && Lo(height, pos) < |vTxid|
  {
    Inside(|vTxid|, height, pos);
    Extracted(CalcHash(f, vTxid, height, pos), rest, Selected(vTxid, vMatch, Lo(height, pos), Hi(|vTxid|, height, pos)),
              MeetsTwins(f, vTxid, vMatch, height, pos))
  }

  lemma {:induction false} SubtreeComplete(f: Hash2, vTxid: seq<H>, vMatch: seq<bool>, height: nat, pos: nat, rest: Proof)
    requires |vTxid| == |vMatch| && Lo(height, pos) < |vTxid|
    ensures Extract(f, |vTxid|, Join(Build(f, vTxid, vMatch, height, pos), rest), height, pos)
            == Expected(f, vTxid, vMatch, height, pos, rest)
    decreases height
  {
    var n := |vTxid|;
    if height == 0 || !ParentOfMatch(vMatch, height, pos) {
      StopComplete(f, vTxid, vMatch, height, pos, rest);
    } else {
      Split(n, height, pos);
      if HasRight(n, height, pos) {
        SubtreeComplete(f, vTxid, vMatch, height - 1, 2 * pos, Join(Build(f, vTxid, vMatch, height - 1, 2 * pos + 1), rest));
        SubtreeComplete(f, vTxid, vMatch, height - 1, 2 * pos + 1, rest);
        TwoComplete(f, vTxid, vMatch, height, pos, rest);
      } else {
        SubtreeComplete(f, vTxid, vMatch, height - 1, 2 * pos, rest);
        OneComplete(f, vTxid, vMatch, height, pos, rest);
      }
    }
  }

  lemma {:induction false} NothingSelected(vTxid: seq<H>, vMatch: seq<bool>, lo: nat, hi: nat)
    requires |vTxid| == |vMatch| && lo <= hi <= |vTxid| && forall p :: lo <= p < hi ==> !vMatch[p]
    ensures Selected(vTxid, vMatch, lo, hi) == []
    decreases hi - lo
  {
    if lo < hi { NothingSelected(vTxid, vMatch, lo + 1, hi); }
  }

  lemma LeafSelected(vTxid: seq<H>, vMatch: seq<bool>, pos: nat)
    requires |vTxid| == |vMatch| && pos < |vTxid| && ParentOfMatch(vMatch, 0, pos)
    ensures Lo(0, pos) == pos && Hi(|vTxid|, 0, pos) == pos + 1
            && Selected(vTxid, vMatch, pos, pos + 1) == [(vTxid[pos], pos)]
  {
    assert Selected(vTxid, vMatch, pos + 1, pos + 1) == [];
  }

  /** A subtree of which only the hash was stored. */
  lemma StopComplete(f: Hash2, vTxid: seq<H>, vMatch: seq<bool>, height: nat, pos: nat, rest: Proof)
    requires |vTxid| == |vMatch| && Lo(height, pos) < |vTxid| && (height == 0 || !ParentOfMatch(vMatch, height, pos))
    ensures Extract(f, |vTxid|, Join(Build(f, vTxid, vMatch, height, pos), rest), height, pos)
            == Expected(f, vTxid, vMatch, height, pos, rest)
  {
    Inside(|vTxid|, height, pos);
    var b := ParentOfMatch(vMatch, height, pos);
    JoinStop(b, CalcHash(f, vTxid, height, pos), rest);
    if b {
      LeafSelected(vTxid, vMatch, pos);
    } else {
      NothingSelected(vTxid, vMatch, Lo(height, pos), Hi(|vTxid|, height, pos));
    }
  }

  lemma OneComplete(f: Hash2, vTxid: seq<H>, vMatch: seq<bool>, height: nat, pos: nat, rest: Proof)
    requires |vTxid| == |vMatch| && Lo(height, pos) < |vTxid| && height > 0 && ParentOfMatch(vMatch, height, pos)
    requires !HasRight(|vTxid|, height, pos) && Lo(height - 1, 2 * pos) < |vTxid|
    requires Extract(f, |vTxid|, Join(Build(f, vTxid, vMatch, height - 1, 2 * pos), rest), height - 1, 2 * pos)
             == Expected(f, vTxid, vMatch, height - 1, 2 * pos, rest)
    ensures Extract(f, |vTxid|, Join(Build(f, vTxid, vMatch, height, pos), rest), height, pos)
            == Expected(f, vTxid, vMatch, height, pos, rest)
  {
    Split(|vTxid|, height, pos);
    JoinTail(Build(f, vTxid, vMatch, height - 1, 2 * pos), rest);
  }

  lemma TwoComplete(f: Hash2, vTxid: seq<H>, vMatch: seq<bool>, height: nat, pos: nat, rest: Proof)
    requires height > 0 && |vTxid| == |vMatch| && Lo(height, pos) < |vTxid| && ParentOfMatch(vMatch, height, pos)
    requires HasRight(|vTxid|, height, pos) && Lo(height - 1, 2 * pos) < |vTxid| && Lo(height - 1, 2 * pos + 1) < |vTxid|
    requires var p := Join(Build(f, vTxid, vMatch, height - 1, 2 * pos + 1), rest);
             && Extract(f, |vTxid|, Join(Build(f, vTxid, vMatch, height - 1, 2 * pos), p), height - 1, 2 * pos)
                == Expected(f, vTxid, vMatch, height - 1, 2 * pos, p)
             && Extract(f, |vTxid|, p, height - 1, 2 * pos + 1) == Expected(f, vTxid, vMatch, height - 1, 2 * pos + 1, rest)
    ensures Extract(f, |vTxid|, Join(Build(f, vTxid, vMatch, height, pos), rest), height, pos)
            == Expected(f, vTxid, vMatch, height, pos, rest)
  {
    var l, r := Build(f, vTxid, vMatch, height - 1, 2 * pos), Build(f, vTxid, vMatch, height - 1, 2 * pos + 1);
    JoinTail(Join(l, r), rest);
    JoinAssociates(l, r, rest);
    Split(|vTxid|, height, pos);
    SelectedSplit(vTxid, vMatch, Lo(height, pos), Lo(height - 1, 2 * pos + 1), Hi(|vTxid|, height, pos));
  }

  lemma JoinStop(b: bool, h: H, rest: Proof)
    ensures var p := Join(Proof([b], [h]), rest);
            && |p.bits| > 0 && p.bits[0] == b && |p.hashes| > 0 && p.hashes[0] == h
            && Proof(p.bits[1..], p.hashes[1..]) == rest
  {}

  lemma JoinTail(q: Proof, rest: Proof)
    ensures var p := Join(Proof([true] + q.bits, q.hashes), rest);
            |p.bits| > 0 && p.bits[0] && Proof(p.bits[1..], p.hashes) == Join(q, rest)
  {
    assert ([true] + q.bits + rest.bits)[1..] == q.bits + rest.bits;
  }

  lemma JoinAssociates(p: Proof, q: Proof, r: Proof)
    ensures Join(Join(p, q), r) == Join(p, Join(q, r))
  {
    assert p.bits + q.bits + r.bits == p.bits + (q.bits + r.bits);
    assert p.hashes + q.hashes + r.hashes == p.hashes + (q.hashes + r.hashes);
  }

  // ----- The whole tree

  /** Level widths halve, rounding up. */
  lemma WidthHalves(n: nat, height: nat)
    ensures CalcTreeWidth(n, height + 1) == (CalcTreeWidth(n, height) + 1) / 2
  {
    var w, v := CalcTreeWidth(n, height + 1), (CalcTreeWidth(n, height) + 1) / 2;
    WidthMeans(n, height + 1, w);
    WidthMeans(n, height, 2 * w);
    WidthMeans(n, height + 1, v);
    WidthMeans(n, height, 2 * v);
  }

  /** The first level, from the given one up, with at most one node. */
  function HeightFrom(n: nat, h: nat): nat
    decreases CalcTreeWidth(n, h)
  {
    if CalcTreeWidth(n, h) <= 1 then h else WidthHalves(n, h); HeightFrom(n, h + 1)
  }

  function Height(n: nat): nat { HeightFrom(n, 0) }

  lemma {:induction false} HeightIsNarrow(n: nat, h: nat)
    ensures CalcTreeWidth(n, HeightFrom(n, h)) <= 1
    decreases CalcTreeWidth(n, h)
  {
    if CalcTreeWidth(n, h) > 1 {
      WidthHalves(n, h);
      HeightIsNarrow(n, h + 1);
    }
  }

  method CalcHeight(n: nat) returns (nHeight: nat)
    ensures nHeight == Height(n)
    ensures CalcTreeWidth(n, nHeight) <= 1 && forall k :: 0 <= k < nHeight ==> CalcTreeWidth(n, k) > 1
  {
    nHeight := 0;
    while CalcTreeWidth(n, nHeight) > 1
      invariant HeightFrom(n, nHeight) == Height(n)
      invariant forall k :: 0 <= k < nHeight ==> CalcTreeWidth(n, k) > 1
      decreases CalcTreeWidth(n, nHeight)
    {
      WidthHalves(n, nHeight);
      nHeight := nHeight + 1;
    }
  }

  /** The node at the top covers every leaf. */
  lemma TopCoversAll(n: nat)
    requires n > 0
    ensures Lo(Height(n), 0) == 0 && Hi(n, Height(n), 0) == n
  {
    HeightIsNarrow(n, 0);
    LoStep(Height(n), 0);
    WidthMeans(n, Height(n), 1);
  }

  ghost function Root(f: Hash2, vTxid: seq<H>): H
    requires |vTxid| > 0
  {
    TopCoversAll(|vTxid|);
    CalcHash(f, vTxid, Height(|vTxid|), 0)
  }

  /** Left before right, and the last one of an odd level twice. */
  lemma PairOfLeaves(f: Hash2, v: seq<H>, h: nat, pos: nat)
    requires h == 1 && 2 * pos < |v| && Lo(h, pos) < |v|
    ensures CalcHash(f, v, h, pos) == f(v[2 * pos], if 2 * pos + 1 < |v| then v[2 * pos + 1] else v[2 * pos])
  {
    Split(|v|, h, pos);
    WidthHalves(|v|, h - 1);
  }

  lemma RootOfTwo(f: Hash2, v: seq<H>)
    requires |v| == 2
    ensures Root(f, v) == f(v[0], v[1])
  {
    WidthHalves(2, 0);
    TopCoversAll(|v|);
    PairOfLeaves(f, v, Height(|v|), 0);
  }

  /** The root with the value used for an empty list. */
  ghost function RootOf(f: Hash2, vTxid: seq<H>): H { if |vTxid| == 0 then ZERO else Root(f, vTxid) }

  // ----- The root computed level by level (consensus/merkle.cpp)

  function Combine(f: Hash2, s: seq<H>): (r: seq<H>)
    ensures |r| == |s| / 2 && forall i :: 0 <= i < |r| ==> r[i] == f(s[2 * i], s[2 * i + 1])
  {
    seq(|s| / 2, i requires 0 <= i < |s| / 2 => f(s[2 * i], s[2 * i + 1]))
  }

  /** s is the given level of the tree over v. */
  ghost predicate IsLevel(f: Hash2, v: seq<H>, height: nat, s: seq<H>) {
    && |s| == CalcTreeWidth(|v|, height)
    && forall pos :: 0 <= pos < |s| ==> Lo(height, pos) < |v| && s[pos] == CalcHash(f, v, height, pos)
  }

  /** The level with its last hash repeated when the number is odd. */
  function Evened(s: seq<H>): (t: seq<H>)
    requires |s| > 1
    ensures |t| / 2 == (|s| + 1) / 2 && |t| % 2 == 0
  {
    if |s| % 2 == 1 then s + [s[|s| - 1]] else s
  }

  lemma LevelNode(f: Hash2, v: seq<H>, height: nat, left: H, right: H, pos: nat)
    requires Lo(height, 2 * pos) < |v| && left == CalcHash(f, v, height, 2 * pos)
    requires if HasRight(|v|, height + 1, pos) then Lo(height, 2 * pos + 1) < |v|
             && right == CalcHash(f, v, height, 2 * pos + 1) else right == left
    ensures Lo(height + 1, pos) < |v| && f(left, right) == CalcHash(f, v, height + 1, pos)
  {}

  lemma LevelUp(f: Hash2, v: seq<H>, height: nat, s: seq<H>)
    requires IsLevel(f, v, height, s) && |s| > 1
    ensures IsLevel(f, v, height + 1, Combine(f, Evened(s)))
  {
    var t := Evened(s);
    WidthHalves(|v|, height);
    forall pos | 0 <= pos < |t| / 2
      ensures Lo(height + 1, pos) < |v| && Combine(f, t)[pos] == CalcHash(f, v, height + 1, pos)
    {
      var i, j := 2 * pos, if 2 * pos + 1 < |s| then 2 * pos + 1 else 2 * pos;
      assert t[i] == s[i] && t[i + 1] == s[j];
      LevelNode(f, v, height, s[i], s[j], pos);
    }
  }

  /** Some node of the given level, or a lower one, has twin children. */
  ghost predicate TwinsUpTo(f: Hash2, v: seq<H>, height: nat) {
    height > 0 && (TwinsUpTo(f, v, height - 1) || TwinsAt(f, v, height))
  }

  ghost predicate TwinsAt(f: Hash2, v: seq<H>, height: nat)
    requires height > 0
  {
    exists pos: nat {:trigger HasRight(|v|, height, pos)} :: HasRight(|v|, height, pos) && !ChildrenApart(f, v, height, pos)
  }

  lemma TwinsNextLevel(f: Hash2, v: seq<H>, height: nat, s: seq<H>, mutation: bool)
    requires IsLevel(f, v, height, s) && mutation == exists i :: 0 <= i < |s| / 2 && s[2 * i] == s[2 * i + 1]
    ensures TwinsAt(f, v, height + 1) <==> mutation
  {
    if mutation {
      var i :| 0 <= i < |s| / 2 && s[2 * i] == s[2 * i + 1];
      assert HasRight(|v|, height + 1, i) && !ChildrenApart(f, v, height + 1, i);
    }
    if TwinsAt(f, v, height + 1) {
      var pos: nat :| HasRight(|v|, height + 1, pos) && !ChildrenApart(f, v, height + 1, pos);
      assert 0 <= pos < |s| / 2 && s[2 * pos] == s[2 * pos + 1];
    }
  }

  lemma {:induction false} NarrowAbove(n: nat, h: nat, k: nat)
    requires CalcTreeWidth(n, h) <= 1 && h <= k
    ensures CalcTreeWidth(n, k) <= 1
    decreases k - h
  {
    if h < k {
      WidthHalves(n, h);
      NarrowAbove(n, h + 1, k);
    }
  }

  lemma {:induction false} TwinsUpToMeans(f: Hash2, v: seq<H>, height: nat)
    ensures TwinsUpTo(f, v, height) <==> exists h :: 0 < h <= height && TwinsAt(f, v, h)
  {
    if height > 0 { TwinsUpToMeans(f, v, height - 1); }
  }

  lemma NoTwinsIsBelow(f: Hash2, v: seq<H>)
    ensures NoTwins(f, v) <==> !TwinsUpTo(f, v, Height(|v|))
  {
    HeightIsNarrow(|v|, 0);
    TwinsUpToMeans(f, v, Height(|v|));
    if !NoTwins(f, v) {
      var h: nat, pos: nat :| h > 0 && HasRight(|v|, h, pos) && !ChildrenApart(f, v, h, pos);
      if h > Height(|v|) { NarrowAbove(|v|, Height(|v|), h - 1); }
      assert TwinsAt(f, v, h);
    }
  }

  /** After combining up to a level: its hashes, and whether twins were met on the way. */
  ghost predicate Climbed(f: Hash2, v: seq<H>, height: nat, s: seq<H>, mutated: bool) {
    && IsLevel(f, v, height, s)
    && HeightFrom(|v|, height) == Height(|v|)
    && mutated == TwinsUpTo(f, v, height)
  }

  lemma ClimbsOn(f: Hash2, v: seq<H>, height: nat, s: seq<H>, mutated: bool, m: bool)
    requires Climbed(f, v, height, s, mutated) && |s| > 1 && m == exists i :: 0 <= i < |s| / 2 && s[2 * i] == s[2 * i + 1]
    ensures Climbed(f, v, height + 1, Combine(f, Evened(s)), mutated || m)
  {
    TwinsNextLevel(f, v, height, s, m);
    LevelUp(f, v, height, s);
  }

  lemma TopOfLevels(f: Hash2, v: seq<H>, height: nat, s: seq<H>, mutated: bool)
    requires Climbed(f, v, height, s, mutated) && |s| <= 1
    ensures (if |s| == 0 then ZERO else s[0]) == RootOf(f, v) && mutated == !NoTwins(f, v)
  {
    NoTwinsIsBelow(f, v);
    WidthMeans(|v|, height, 0);
    if |v| > 0 { TopCoversAll(|v|); } else { LoStep(height, 0); }
  }

  method CheckTwins(hashes: seq<H>) returns (mutation: bool)
    ensures mutation == exists i :: 0 <= i < |hashes| / 2 && hashes[2 * i] == hashes[2 * i + 1]
  {
    mutation := false;
    var pos := 0;
    while 2 * pos + 1 < |hashes|
      invariant 0 <= pos <= |hashes| / 2
      invariant mutation == exists i :: 0 <= i < pos && hashes[2 * i] == hashes[2 * i + 1]
    {
      if hashes[2 * pos] == hashes[2 * pos + 1] { mutation := true; }
      pos := pos + 1;
    }
  }

  lemma ClimbStarts(f: Hash2, v: seq<H>)
    ensures Climbed(f, v, 0, v, false)
  {}

  /** One round of the loop: look for twins, even out, and hash the pairs. */
  method ClimbLevel(f: Hash2, ghost v: seq<H>, ghost height: nat, hashes: seq<H>, mutated: bool)
      returns (next: seq<H>, mutation: bool)
    requires Climbed(f, v, height, hashes, mutated) && |hashes| > 1
    ensures Climbed(f, v, height + 1, next, mutation) && |next| == (|hashes| + 1) / 2
  {
    var m := CheckTwins(hashes);
    ClimbsOn(f, v, height, hashes, mutated, m);
    mutation := mutated || m;
    next := Combine(f, Evened(hashes));
  }

  method ClimbToTop(f: Hash2, v: seq<H>) returns (hashes: seq<H>, mutated: bool, ghost height: nat)
    ensures Climbed(f, v, height, hashes, mutated) && |hashes| <= 1
  {
    hashes, mutated, height := v, false, 0;
    ClimbStarts(f, v);
    while |hashes| > 1
      invariant Climbed(f, v, height, hashes, mutated)
      decreases |hashes|
    {
      hashes, mutated := ClimbLevel(f, v, height, hashes, mutated);
      height := height + 1;
    }
  }

  /** The level-by-level root is the hash at the top of the tree, and the mutation flag says whether
      some node has two equal children. */
  method ComputeMerkleRoot(f: Hash2, v: seq<H>) returns (root: H, mutated: bool)
    ensures root == RootOf(f, v)
    ensures mutated == !NoTwins(f, v)
  {
    var hashes;
    ghost var height;
    hashes, mutated, height := ClimbToTop(f, v);
    TopOfLevels(f, v, height, hashes, mutated);
    root := if |hashes| == 0 then ZERO else hashes[0];
  }

  // ----- The documented size of a proof

  lemma {:induction false} SomethingSelected(vTxid: seq<H>, vMatch: seq<bool>, lo: nat, p: nat, hi: nat)
    requires |vTxid| == |vMatch| && lo <= p < hi <= |vTxid| && vMatch[p]
    ensures |Selected(vTxid, vMatch, lo, hi)| > 0
    decreases hi - lo
  {
    if lo < p { SomethingSelected(vTxid, vMatch, lo + 1, p, hi); }
  }

  /** The matches below a node. */
  ghost function Matched(vTxid: seq<H>, vMatch: seq<bool>, height: nat, pos: nat): nat
    requires |vTxid| == |vMatch| && Lo(height, pos) < |vTxid|
  {
    Inside(|vTxid|, height, pos);
    |Selected(vTxid, vMatch, Lo(height, pos), Hi(|vTxid|, height, pos))|
  }

  lemma MatchedSplit(vTxid: seq<H>, vMatch: seq<bool>, height: nat, pos: nat)
    requires |vTxid| == |vMatch| && Lo(height, pos) < |vTxid| && height > 0 && ParentOfMatch(vMatch, height, pos)
    requires Lo(height - 1, 2 * pos) < |vTxid| && (HasRight(|vTxid|, height, pos) ==> Lo(height - 1, 2 * pos + 1) < |vTxid|)
    ensures Matched(vTxid, vMatch, height, pos) >= 1
    ensures Matched(vTxid, vMatch, height, pos) == Matched(vTxid, vMatch, height - 1, 2 * pos)
              + if HasRight(|vTxid|, height, pos) then Matched(vTxid, vMatch, height - 1, 2 * pos + 1) else 0
  {
    var n := |vTxid|;
    Inside(n, height, pos);
    var p :| Lo(height, pos) <= p < Hi(n, height, pos) && vMatch[p];
    SomethingSelected(vTxid, vMatch, Lo(height, pos), p, Hi(n, height, pos));
    Split(n, height, pos);
    if HasRight(n, height, pos) {
      SelectedSplit(vTxid, vMatch, Lo(height, pos), Lo(height - 1, 2 * pos + 1), Hi(n, height, pos));
    }
  }

  /** A subtree's proof holds at most one hash for each leaf. */
  lemma {:induction false} HashPerLeaf(f: Hash2, vTxid: seq<H>, vMatch: seq<bool>, height: nat, pos: nat)
    requires |vTxid| == |vMatch| && Lo(height, pos) < |vTxid|
    ensures |Build(f, vTxid, vMatch, height, pos).hashes| <= Hi(|vTxid|, height, pos) - Lo(height, pos)
    decreases height
  {
    var n := |vTxid|;
    Inside(n, height, pos);
    if height > 0 {
      Split(n, height, pos);
      HashPerLeaf(f, vTxid, vMatch, height - 1, 2 * pos);
      if HasRight(n, height, pos) { HashPerLeaf(f, vTxid, vMatch, height - 1, 2 * pos + 1); }
    }
  }

  /** And at most one, plus one for each match and level. */
  lemma {:induction false} HashPerMatch(f: Hash2, vTxid: seq<H>, vMatch: seq<bool>, height: nat, pos: nat)
    requires |vTxid| == |vMatch| && Lo(height, pos) < |vTxid|
    ensures |Build(f, vTxid, vMatch, height, pos).hashes| <= 1 + Matched(vTxid, vMatch, height, pos) * height
    decreases height
  {
    if height > 0 && ParentOfMatch(vMatch, height, pos) {
      Split(|vTxid|, height, pos);
      MatchedSplit(vTxid, vMatch, height, pos);
      HashPerMatch(f, vTxid, vMatch, height - 1, 2 * pos);
      var a := Matched(vTxid, vMatch, height - 1, 2 * pos);
      if HasRight(|vTxid|, height, pos) {
        HashPerMatch(f, vTxid, vMatch, height - 1, 2 * pos + 1);
        Distribute(a, Matched(vTxid, vMatch, height - 1, 2 * pos + 1), height);
      } else {
        Distribute(a, 0, height);
      }
    }
  }

  lemma Distribute(a: nat, b: nat, h: nat)
    requires h > 0
    ensures (a + b) * h == a * (h - 1) + b * (h - 1) + a + b
  {}

  // ----- How many flag bits

  /** The expanded nodes below and at a node that have a single child. */
  ghost function OnlyChildren(vMatch: seq<bool>, height: nat, pos: nat): nat
    requires Lo(height, pos) < |vMatch|
    decreases height
  {
    if height == 0 || !ParentOfMatch(vMatch, height, pos) then 0
    else
      Split(|vMatch|, height, pos);
      OnlyChildren(vMatch, height - 1, 2 * pos)
      + if HasRight(|vMatch|, height, pos) then OnlyChildren(vMatch, height - 1, 2 * pos + 1) else 1
  }

  /** One bit for each node that is visited: two for each hash but one, and one for each expanded
      node with a single child. */
  lemma {:induction false} BitsPerHash(f: Hash2, vTxid: seq<H>, vMatch: seq<bool>, height: nat, pos: nat)
    requires |vTxid| == |vMatch| && Lo(height, pos) < |vTxid|
    ensures var p := Build(f, vTxid, vMatch, height, pos); |p.bits| == 2 * |p.hashes| - 1 + OnlyChildren(vMatch, height, pos)
    decreases height
  {
    if height > 0 {
      Split(|vTxid|, height, pos);
      BitsPerHash(f, vTxid, vMatch, height - 1, 2 * pos);
      if HasRight(|vTxid|, height, pos) { BitsPerHash(f, vTxid, vMatch, height - 1, 2 * pos + 1); }
    }
  }

  /** The last node of a level above the leaves has one child and a match below it. */
  ghost predicate Lonely(vMatch: seq<bool>, height: nat)
    requires height > 0 && vMatch != []
  {
    WidthMeans(|vMatch|, height, 0);
    LoZero(height);
    CalcTreeWidth(|vMatch|, height - 1) % 2 == 1 && ParentOfMatch(vMatch, height, CalcTreeWidth(|vMatch|, height) - 1)
  }

  ghost function LonelyLevels(vMatch: seq<bool>, height: nat): nat
    requires vMatch != []
  {
    if height == 0 then 0 else LonelyLevels(vMatch, height - 1) + if Lonely(vMatch, height) then 1 else 0
  }

  lemma {:induction false} LoZero(height: nat)
    ensures Lo(height, 0) == 0
  {
    if height > 0 { LoZero(height - 1); }
  }

  /** The last node of a level lies above the last node of the level below. */
  lemma LastAbove(vMatch: seq<bool>, height: nat, w: nat, v: nat)
    requires height > 0 && vMatch != [] && w == CalcTreeWidth(|vMatch|, height) && v == CalcTreeWidth(|vMatch|, height - 1)
    ensures w > 0 && v > 0 && w == (v + 1) / 2
    ensures ParentOfMatch(vMatch, height - 1, v - 1) ==> ParentOfMatch(vMatch, height, w - 1)
  {
    var n := |vMatch|;
    LoZero(height);
    WidthMeans(n, height, 0);
    WidthHalves(n, height - 1);
    WidthMeans(n, height, w);
    LoStep(height - 1, 2 * (w - 1));
    if ParentOfMatch(vMatch, height - 1, v - 1) {
      var p :| Lo(height - 1, v - 1) <= p < Hi(n, height - 1, v - 1) && vMatch[p];
      assert Lo(height, w - 1) <= p < Hi(n, height, w - 1);
    }
  }

  lemma {:induction false} QuietSpine(vMatch: seq<bool>, height: nat)
    requires vMatch != [] && CalcTreeWidth(|vMatch|, height) > 0
             && !ParentOfMatch(vMatch, height, CalcTreeWidth(|vMatch|, height) - 1)
    ensures LonelyLevels(vMatch, height) == 0
  {
    if height > 0 {
      LastAbove(vMatch, height, CalcTreeWidth(|vMatch|, height), CalcTreeWidth(|vMatch|, height - 1));
      QuietSpine(vMatch, height - 1);
    }
  }

  lemma LastChild(v: nat, w: nat, pos: nat)
    requires w == (v + 1) / 2 && pos < w
    ensures 2 * pos + 1 < v ==> 2 * pos != v - 1 && (pos == w - 1 <==> 2 * pos + 1 == v - 1) && (pos == w - 1 ==> v % 2 == 0)
    ensures 2 * pos + 1 >= v ==> pos == w - 1 && 2 * pos == v - 1 && v % 2 == 1
  {}

  /** Only the last node of a level can have a single child. */
  lemma {:induction false} OnlyOnSpine(vMatch: seq<bool>, height: nat, pos: nat)
    requires Lo(height, pos) < |vMatch|
    ensures OnlyChildren(vMatch, height, pos)
            == if pos == CalcTreeWidth(|vMatch|, height) - 1 then LonelyLevels(vMatch, height) else 0
    decreases height
  {
    var n := |vMatch|;
    if height > 0 {
      var w, v := CalcTreeWidth(n, height), CalcTreeWidth(n, height - 1);
      LastAbove(vMatch, height, w, v);
      WidthMeans(n, height, pos);
      if !ParentOfMatch(vMatch, height, pos) {
        if pos == w - 1 { QuietSpine(vMatch, height); }
      } else {
        Split(n, height, pos);
        WidthMeans(n, height - 1, 2 * pos);
        LastChild(v, w, pos);
        OnlyOnSpine(vMatch, height - 1, 2 * pos);
        if HasRight(n, height, pos) { OnlyOnSpine(vMatch, height - 1, 2 * pos + 1); }
      }
    }
  }

  lemma {:induction false} NoLonelyLevel(vMatch: seq<bool>, height: nat)
    requires vMatch != []
    ensures LonelyLevels(vMatch, height) == 0 <==> forall h :: 0 < h <= height ==> !Lonely(vMatch, h)
  {
    if height > 0 { NoLonelyLevel(vMatch, height - 1); }
  }

  // ----- Flag bits as bytes

  ghost predicate Packs(bytes: seq<bv8>, bits: seq<bool>) {
    && |bytes| == (|bits| + 7) / 8
    && forall p: nat :: p < 8 * |bytes| ==> BitIsSet(bytes, p) == (p < |bits| && bits[p])
  }

  ghost predicate Unpacks(bits: seq<bool>, bytes: seq<bv8>) {
    |bits| == 8 * |bytes| && forall p: nat :: p < |bits| ==> bits[p] == BitIsSet(bytes, p)
  }

  lemma NoFlags(n: nat, p: nat)
    requires p < 8 * n
    ensures !BitIsSet(seq(n, _ => 0 as bv8), p)
  {
    MaskValue(p % 8);
  }

  method BitsToBytes(bits: seq<bool>) returns (ret: seq<bv8>)
    ensures Packs(ret, bits)
  {
    ret := seq((|bits| + 7) / 8, _ => 0 as bv8);
    forall q: nat | q < 8 * |ret| ensures !BitIsSet(ret, q) { NoFlags(|ret|, q); }
    var p := 0;
    while p < |bits|
      invariant 0 <= p <= |bits| && |ret| == (|bits| + 7) / 8
      invariant forall q: nat :: q < 8 * |ret| ==> BitIsSet(ret, q) == (q < p && bits[q])
    {
      if bits[p] {
        forall q: nat | q < 8 * |ret| ensures BitIsSet(BitSet(ret, p), q) == (q == p || BitIsSet(ret, q)) {
          FlagsAreSeparate(ret, p, q);
        }
        ret := BitSet(ret, p);
      }
      p := p + 1;
    }
  }

  method BytesToBits(bytes: seq<bv8>) returns (ret: seq<bool>)
    ensures Unpacks(ret, bytes)
  {
    ret := [];
    while |ret| < 8 * |bytes|
      invariant |ret| <= 8 * |bytes| && forall p: nat :: p < |ret| ==> ret[p] == BitIsSet(bytes, p)
    {
      ret := ret + [BitIsSet(bytes, |ret|)];
    }
  }

  /** Packing and unpacking gives the bits back, followed by fewer than eight unset ones. */
  lemma PackedComesBack(bits: seq<bool>, bytes: seq<bv8>, back: seq<bool>)
    requires Packs(bytes, bits) && Unpacks(back, bytes)
    ensures |bits| <= |back| < |bits| + 8 && (|back| + 7) / 8 == (|bits| + 7) / 8
    ensures back[..|bits|] == bits && forall p :: |bits| <= p < |back| ==> !back[p]
  {}

  // ----- Reading a whole proof

  datatype Reading = Reading(root: H, matches: seq<(H, nat)>, bad: bool)

  /** What ExtractMatches answers: the root, or zero on failure. */
  function Read(f: Hash2, n: nat, p: Proof, fBad: bool): Reading {
    if n == 0 || n > MAX_BLOCK_WEIGHT / MIN_TRANSACTION_WEIGHT || |p.hashes| > n
        || |p.bits| < |p.hashes| then Reading(ZERO, [], fBad)
    else
      var r := Extract(f, n, p, Height(n), 0);
      var bad := fBad || r.bad;
      var nBitsUsed := |p.bits| - |r.rest.bits|;
      Reading(if bad || (nBitsUsed + 7) / 8 != (|p.bits| + 7) / 8
          || r.rest.hashes != [] then ZERO else r.hash, r.matches, bad)
  }

  /** A proof that gives a root is for a possible number of transactions, has no more hashes than
      transactions or bits, and is used up but for the padding of the last byte. */
  lemma AcceptedIsUsedUp(f: Hash2, n: nat, p: Proof, fBad: bool)
    requires Read(f, n, p, fBad).root != ZERO
    ensures !fBad && 0 < n <= 16666 && |p.hashes| <= n && |p.hashes| <= |p.bits|
    ensures var r := Extract(f, n, p, Height(n), 0); !r.bad && r.rest.hashes == [] && |r.rest.bits| < 8
  {}

  /** Soundness.  A proof that gives the root of a list of ids reports, at each index, the id in that
      place, and each index at most once, in ascending order. */
  lemma ReadIsSound(f: Hash2, vTxid: seq<H>, p: Proof, fBad: bool)
    requires Injective(f) && |vTxid| > 0
    requires Read(f, |vTxid|, p, fBad).root == Root(f, vTxid) != ZERO
    ensures var m := Read(f, |vTxid|, p, fBad).matches;
            && (forall i :: 0 <= i < |m| ==> m[i].1 < |vTxid| && vTxid[m[i].1] == m[i].0)
            && (forall i, j :: 0 <= i < j < |m| ==> m[i].1 < m[j].1)
  {
    TopCoversAll(|vTxid|);
    SubtreeSound(f, vTxid, p, Height(|vTxid|), 0);
    SubtreeInOrder(f, |vTxid|, p, Height(|vTxid|), 0);
  }

  ghost predicate Ascending(m: seq<(H, nat)>, lo: nat, hi: nat) {
    && (forall i :: 0 <= i < |m| ==> lo <= m[i].1 < hi)
    && (forall i, j :: 0 <= i < j < |m| ==> m[i].1 < m[j].1)
  }

  lemma {:induction false} SubtreeInOrder(f: Hash2, n: nat, p: Proof, height: nat, pos: nat)
    requires Lo(height, pos) < n
    ensures Ascending(Extract(f, n, p, height, pos).matches, Lo(height, pos), Hi(n, height, pos))
    decreases height
  {
    Inside(n, height, pos);
    if height > 0 && p.bits != [] && p.bits[0] {
      Split(n, height, pos);
      var q := Proof(p.bits[1..], p.hashes);
      SubtreeInOrder(f, n, q, height - 1, 2 * pos);
      if HasRight(n, height, pos) {
        SubtreeInOrder(f, n, Extract(f, n, q, height - 1, 2 * pos).rest, height - 1, 2 * pos + 1);
      }
    }
  }

  /** The proof for a whole list. */
  ghost function ProofFor(f: Hash2, vTxid: seq<H>, vMatch: seq<bool>): Proof
    requires |vTxid| == |vMatch| > 0
  {
    TopCoversAll(|vTxid|);
    Build(f, vTxid, vMatch, Height(|vTxid|), 0)
  }

  ghost predicate MeetsNoTwins(f: Hash2, vTxid: seq<H>, vMatch: seq<bool>)
    requires |vTxid| == |vMatch| > 0
  {
    TopCoversAll(|vTxid|);
    !MeetsTwins(f, vTxid, vMatch, Height(|vTxid|), 0)
  }

  /** Built from any list, sent as bytes and read back, a proof reports exactly the matched ids with
      their indexes, in order; it gives the true root if and only if no node above a match has two
      equal children, and is refused otherwise. */
  lemma ReadBack(f: Hash2, vTxid: seq<H>, vMatch: seq<bool>, bytes: seq<bv8>, bits: seq<bool>)
    requires |vTxid| == |vMatch| && 0 < |vTxid| <= MAX_BLOCK_WEIGHT / MIN_TRANSACTION_WEIGHT
    requires Packs(bytes, ProofFor(f, vTxid, vMatch).bits) && Unpacks(bits, bytes)
    ensures Read(f, |vTxid|, Proof(bits, ProofFor(f, vTxid, vMatch).hashes), false)
            == if MeetsNoTwins(f, vTxid, vMatch) then Reading(Root(f, vTxid), Selected(vTxid, vMatch, 0, |vTxid|), false)
               else Reading(ZERO, Selected(vTxid, vMatch, 0, |vTxid|), true)
  {
    var h := Height(|vTxid|);
    var b := ProofFor(f, vTxid, vMatch);
    TopCoversAll(|vTxid|);
    PackedComesBack(b.bits, bytes, bits);
    var rest := Proof(bits[|b.bits|..], []);
    assert Join(b, rest) == Proof(bits, b.hashes) by {
      assert bits == bits[..|b.bits|] + bits[|b.bits|..] && b.hashes + [] == b.hashes;
    }
    SubtreeComplete(f, vTxid, vMatch, h, 0, rest);
    HashPerLeaf(f, vTxid, vMatch, h, 0);
  }

  /** Completeness for distinct ids. */
  lemma ReadIsComplete(f: Hash2, vTxid: seq<H>, vMatch: seq<bool>, bytes: seq<bv8>, bits: seq<bool>)
    requires Injective(f) && Distinct(vTxid)
    requires |vTxid| == |vMatch| && 0 < |vTxid| <= MAX_BLOCK_WEIGHT / MIN_TRANSACTION_WEIGHT
    requires Packs(bytes, ProofFor(f, vTxid, vMatch).bits) && Unpacks(bits, bytes)
    ensures Read(f, |vTxid|, Proof(bits, ProofFor(f, vTxid, vMatch).hashes), false)
            == Reading(Root(f, vTxid), Selected(vTxid, vMatch, 0, |vTxid|), false)
  {
    DistinctHasNoTwins(f, vTxid);
    TopCoversAll(|vTxid|);
    NoTwinsMeetsNone(f, vTxid, vMatch, Height(|vTxid|), 0);
    ReadBack(f, vTxid, vMatch, bytes, bits);
  }

  /** The two documented bounds on the number of hashes in a proof. */
  lemma ProofBounds(f: Hash2, vTxid: seq<H>, vMatch: seq<bool>)
    requires |vTxid| == |vMatch| > 0
    ensures var N := |ProofFor(f, vTxid, vMatch).hashes|;
            N <= |vTxid| && N <= 1 + |Selected(vTxid, vMatch, 0, |vTxid|)| * Height(|vTxid|)
  {
    TopCoversAll(|vTxid|);
    HashPerLeaf(f, vTxid, vMatch, Height(|vTxid|), 0);
    HashPerMatch(f, vTxid, vMatch, Height(|vTxid|), 0);
  }

  /** The number of flag bits: the documented bound of two for each hash less one holds if and
      only if no level below the top has an odd width with a match under its last node's parent. */
  lemma FlagBits(f: Hash2, vTxid: seq<H>, vMatch: seq<bool>)
    requires |vTxid| == |vMatch| > 0
    ensures var p, H := ProofFor(f, vTxid, vMatch), Height(|vTxid|);
            && |p.bits| == 2 * |p.hashes| - 1 + LonelyLevels(vMatch, H)
            && (|p.bits| <= 2 * |p.hashes| - 1 <==> forall h :: 0 < h <= H ==> !Lonely(vMatch, h))
  {
    var n := |vTxid|;
    TopCoversAll(n);
    HeightIsNarrow(n, 0);
    WidthMeans(n, Height(n), 0);
    BitsPerHash(f, vTxid, vMatch, Height(n), 0);
    OnlyOnSpine(vMatch, Height(n), 0);
    NoLonelyLevel(vMatch, Height(n));
  }

  lemma ThreeLeaves(n: nat, h: nat)
    requires n == 3 && h == 1
    ensures CalcTreeWidth(n, h - 1) == 3 && CalcTreeWidth(n, h) == 2 && Lo(h, 1) == 2 && Hi(n, h, 1) == 3 && Height(n) >= 1
  {
    WidthHalves(n, 0);
    LoStep(h, 1);
  }

  /** Three ids with only the last matched break it. */
  lemma TooManyFlagBits(f: Hash2, vTxid: seq<H>, vMatch: seq<bool>)
    requires |vTxid| == 3 && vMatch == [false, false, true]
    ensures var p := ProofFor(f, vTxid, vMatch); |p.bits| > 2 * |p.hashes| - 1
  {
    ThreeLeaves(3, 1);
    assert ParentOfMatch(vMatch, 1, 1) by { assert vMatch[2]; }
    assert Lonely(vMatch, 1);
    FlagBits(f, vTxid, vMatch);
  }

  // ----- The object

  function Firsts(m: seq<(H, nat)>): (r: seq<H>)
    ensures |r| == |m| && forall i :: 0 <= i < |m| ==> r[i] == m[i].0
  {
    seq(|m|, i requires 0 <= i < |m| => m[i].0)
  }

  function Seconds(m: seq<(H, nat)>): (r: seq<nat>)
    ensures |r| == |m| && forall i :: 0 <= i < |m| ==> r[i] == m[i].1
  {
    seq(|m|, i requires 0 <= i < |m| => m[i].1)
  }

  /** The lists of hashes and of indexes that the caller passes in. */
  datatype Lists = Lists(vMatch: seq<H>, vnIndex: seq<nat>) {
    ghost function Plus(m: seq<(H, nat)>): Lists { Lists(vMatch + Firsts(m), vnIndex + Seconds(m)) }
  }

  lemma PlusNothing(l: Lists)
    ensures l.Plus([]) == l
  {
    assert l.vMatch + Firsts([]) == l.vMatch && l.vnIndex + Seconds([]) == l.vnIndex;
  }

  lemma PlusOne(l: Lists, m: (H, nat))
    ensures l.Plus([m]) == Lists(l.vMatch + [m.0], l.vnIndex + [m.1])
  {
    assert Firsts([m]) == [m.0] && Seconds([m]) == [m.1];
  }

  lemma PlusPlus(l: Lists, a: seq<(H, nat)>, b: seq<(H, nat)>)
    ensures l.Plus(a).Plus(b) == l.Plus(a + b)
  {
    assert Firsts(a + b) == Firsts(a) + Firsts(b) && Seconds(a + b) == Seconds(a) + Seconds(b);
    assert l.vMatch + Firsts(a) + Firsts(b) == l.vMatch + (Firsts(a) + Firsts(b));
    assert l.vnIndex + Seconds(a) + Seconds(b) == l.vnIndex + (Seconds(a) + Seconds(b));
  }

  method AnyMatch(vMatch: seq<bool>, height: nat, pos: nat) returns (fParentOfMatch: bool)
    ensures fParentOfMatch == ParentOfMatch(vMatch, height, pos)
  {
    fParentOfMatch := false;
    var p := Lo(height, pos);
    while p < Lo(height, pos + 1) && p < |vMatch|
      invariant Lo(height, pos) <= p && (p <= Hi(|vMatch|, height, pos) || p == Lo(height, pos))
      invariant fParentOfMatch == exists q | Lo(height, pos) <= q < p && q < |vMatch| :: vMatch[q]
    {
      fParentOfMatch := fParentOfMatch || vMatch[p];
      p := p + 1;
    }
  }

  class CPartialMerkleTree {
    const hash: Hash2
    var nTransactions: nat
    var vBits: seq<bool>
    var vHash: seq<H>
    var fBad: bool

    ghost function View(): Proof
      reads this
    {
      Proof(vBits, vHash)
    }

    constructor (hash: Hash2, vTxid: seq<H>, vMatch: seq<bool>)
      requires |vTxid| == |vMatch| > 0
      ensures this.hash == hash && nTransactions == |vTxid| && !fBad && View() == ProofFor(hash, vTxid, vMatch)
    {
      this.hash := hash;
      nTransactions, vBits, vHash, fBad := |vTxid|, [], [], false;
      new;
      var nHeight := CalcHeight(|vTxid|);
      TopCoversAll(|vTxid|);
      TraverseAndBuild(nHeight, 0, vTxid, vMatch);
    }

    constructor Empty(hash: Hash2)
      ensures this.hash == hash && nTransactions == 0 && fBad && View() == Proof([], [])
    {
      this.hash := hash;
      nTransactions, vBits, vHash, fBad := 0, [], [], true;
    }

    /** Reading the object from a stream. */
    constructor Unserialize(hash: Hash2, nTransactions: nat, vHash: seq<H>, bytes: seq<bv8>)
      ensures this.hash == hash && this.nTransactions == nTransactions && this.vHash == vHash && !fBad
              && Unpacks(vBits, bytes)
    {
      this.hash := hash;
      this.nTransactions, this.vHash, this.fBad := nTransactions, vHash, false;
      var bits := BytesToBits(bytes);
      vBits := bits;
    }

    method Serialize() returns (n: nat, hashes: seq<H>, bytes: seq<bv8>)
      ensures n == nTransactions && hashes == vHash && Packs(bytes, vBits)
    {
      n, hashes := nTransactions, vHash;
      bytes := BitsToBytes(vBits);
    }

    method TraverseAndBuild(height: nat, pos: nat, vTxid: seq<H>, vMatch: seq<bool>)
      requires |vTxid| == |vMatch| == nTransactions && Lo(height, pos) < |vTxid|
      modifies this`vBits, this`vHash
      ensures View() == Join(old(View()), Build(hash, vTxid, vMatch, height, pos))
      decreases height
    {
      ghost var v := View();
      var fParentOfMatch := AnyMatch(vMatch, height, pos);
      vBits := vBits + [fParentOfMatch];
      if height == 0 || !fParentOfMatch {
        vHash := vHash + [CalcHash(hash, vTxid, height, pos)];
      } else {
        Split(|vTxid|, height, pos);
        TraverseAndBuild(height - 1, 2 * pos, vTxid, vMatch);
        ghost var l := Build(hash, vTxid, vMatch, height - 1, 2 * pos);
        if 2 * pos + 1 < CalcTreeWidth(nTransactions, height - 1) {
          TraverseAndBuild(height - 1, 2 * pos + 1, vTxid, vMatch);
          Appended(v, l, Build(hash, vTxid, vMatch, height - 1, 2 * pos + 1));
        } else {
          Appended(v, l, Proof([], []));
        }
      }
    }

    /** What is left unread. */
    ghost function Unread(nBitsUsed: nat, nHashUsed: nat): Proof
      requires nBitsUsed <= |vBits| && nHashUsed <= |vHash|
      reads this
    {
      Proof(vBits[nBitsUsed..], vHash[nHashUsed..])
    }

    method TraverseAndExtract(height: nat, pos: nat, nBitsUsed: nat, nHashUsed: nat, lists: Lists)
      returns (h: H, nBits: nat, nHash: nat, out: Lists)
      requires nBitsUsed <= |vBits| && nHashUsed <= |vHash|
      modifies this`fBad
      ensures nBitsUsed <= nBits <= |vBits| && nHashUsed <= nHash <= |vHash|
      ensures var r := Extract(hash, nTransactions, Unread(nBitsUsed, nHashUsed), height, pos);
              && h == r.hash && Unread(nBits, nHash) == r.rest && out == lists.Plus(r.matches)
              && fBad == (old(fBad) || r.bad)
      decreases height
    {
      nBits, nHash, out := nBitsUsed, nHashUsed, lists;
      PlusNothing(lists);
      if nBits >= |vBits| {
        fBad := true;
        return ZERO, nBits, nHash, out;
      }
      var fParentOfMatch := vBits[nBits];
      nBits := nBits + 1;
      if height == 0 || !fParentOfMatch {
        if nHash >= |vHash| {
          fBad := true;
          return ZERO, nBits, nHash, out;
        }
        h := vHash[nHash];
        nHash := nHash + 1;
        if height == 0 && fParentOfMatch {
          PlusOne(lists, (h, pos));
          out := Lists(out.vMatch + [h], out.vnIndex + [pos]);
        }
      } else {
        assert Unread(nBits, nHash) == Proof(Unread(nBitsUsed, nHashUsed).bits[1..], Unread(nBitsUsed, nHashUsed).hashes);
        h, nBits, nHash, out := ExtractChildren(height, pos, nBits, nHash, out);
      }
    }

    method ExtractChildren(height: nat, pos: nat, nBitsUsed: nat, nHashUsed: nat, lists: Lists)
      returns (h: H, nBits: nat, nHash: nat, out: Lists)
      requires height > 0 && nBitsUsed <= |vBits| && nHashUsed <= |vHash|
      modifies this`fBad
      ensures nBitsUsed <= nBits <= |vBits| && nHashUsed <= nHash <= |vHash|
      ensures var r := ExtractBelow(hash, nTransactions, Unread(nBitsUsed, nHashUsed), height, pos);
              && h == r.hash && Unread(nBits, nHash) == r.rest && out == lists.Plus(r.matches)
              && fBad == (old(fBad) || r.bad)
      decreases height, 0
    {
      ghost var l := Extract(hash, nTransactions, Unread(nBitsUsed, nHashUsed), height - 1, 2 * pos);
      var left, right;
      left, nBits, nHash, out := TraverseAndExtract(height - 1, 2 * pos, nBitsUsed, nHashUsed, lists);
      if 2 * pos + 1 < CalcTreeWidth(nTransactions, height - 1) {
        ghost var r := Extract(hash, nTransactions, l.rest, height - 1, 2 * pos + 1);
        right, nBits, nHash, out := TraverseAndExtract(height - 1, 2 * pos + 1, nBits, nHash, out);
        if right == left { fBad := true; }
        PlusPlus(lists, l.matches, r.matches);
      } else {
        right := left;
      }
      h := hash(left, right);
    }

    method ExtractMatches(vnIndex: seq<nat>) returns (root: H, out: Lists)
      modifies this`fBad
      ensures var r := Read(hash, nTransactions, View(), old(fBad));
              root == r.root && out == Lists([], vnIndex).Plus(r.matches) && fBad == r.bad
    {
      out := Lists([], vnIndex);
      PlusNothing(out);
      if nTransactions == 0 { return ZERO, out; }
      if nTransactions > MAX_BLOCK_WEIGHT / MIN_TRANSACTION_WEIGHT { return ZERO, out; }
      if |vHash| > nTransactions { return ZERO, out; }
      if |vBits| < |vHash| { return ZERO, out; }
      var nHeight := CalcHeight(nTransactions);
      var nBitsUsed, nHashUsed;
      assert Unread(0, 0) == View();
      root, nBitsUsed, nHashUsed, out := TraverseAndExtract(nHeight, 0, 0, 0, out);
      if fBad { return ZERO, out; }
      if (nBitsUsed + 7) / 8 != (|vBits| + 7) / 8 { return ZERO, out; }
      if nHashUsed != |vHash| { return ZERO, out; }
    }
  }

  lemma Appended(v: Proof, l: Proof, r: Proof)
    ensures Join(Join(Proof(v.bits + [true], v.hashes), l), r) == Join(v, Proof([true] + Join(l, r).bits, Join(l, r).hashes))
    ensures Join(Proof(v.bits + [true], v.hashes), l) == Join(v, Proof([true] + l.bits, l.hashes))
  {
    assert v.bits + [true] + l.bits + r.bits == v.bits + ([true] + (l.bits + r.bits));
    assert v.hashes + l.hashes + r.hashes == v.hashes + (l.hashes + r.hashes);
    assert v.bits + [true] + l.bits == v.bits + ([true] + l.bits);
  }
}
