/**
 Block template selection of miner.cpp and miner.h: packages of a transaction and its
 unconfirmed ancestors are taken greedily from a mempool, with an auxiliary index of package
 totals for descendants of what was already taken.

 The mempool is fixed while a template is built: a finite ancestor relation and, for every
 transaction, its own figures and the cached figures of its whole ancestor package.
 */
module Miner {
  import opened Basics

  const MAX_BLOCK_WEIGHT := 4000000
  const MAX_BLOCK_SIGOPS_COST := 80000
  const MAX_MINE_WEIGHT := 20000
  const WITNESS_SCALE_FACTOR := 4
  const MAX_CONSECUTIVE_FAILURES := 1000

  datatype Tx = Tx(hash: nat)

  datatype Totals = Totals(size: int, modFees: int, sigOps: int, mweb: int)

  datatype Entry = Entry(size: nat, weight: nat, fee: int, modFee: int, sigOps: nat, mweb: nat,
                         isFinal: bool, hasWitness: bool, hasMweb: bool, mwebOnly: bool,
                         mwebFee: Option<nat>, mwebSigOps: nat,
                         nCountWithAncestors: nat, withAncestors: Totals)

  datatype Mempool = Mempool(mapTx: map<Tx, Entry>, anc: map<Tx, set<Tx>>)
  {
    function Size(t: Tx): int { if t in mapTx then mapTx[t].size else 0 }
    function Weight(t: Tx): int { if t in mapTx then mapTx[t].weight else 0 }
    function SigOps(t: Tx): int { if t in mapTx then mapTx[t].sigOps else 0 }
    function Mweb(t: Tx): int { if t in mapTx then mapTx[t].mweb else 0 }
    /** What the size of a transaction overstates of its weight. */
    function Slack(t: Tx): int { WITNESS_SCALE_FACTOR * Size(t) - Weight(t) }
    function Fee(t: Tx): int { if t in mapTx then mapTx[t].fee else 0 }

    /** Ancestors are strict, transitively closed, and counted. */
    ghost predicate Relation() {
      && mapTx.Keys == anc.Keys
      && (forall t :: t in anc ==> anc[t] <= mapTx.Keys && t !in anc[t] && mapTx[t].nCountWithAncestors == |anc[t]| + 1)
      && (forall t, a {:trigger IsAncestor(a, t)} :: IsAncestor(a, t) ==> a in anc && anc[a] <= anc[t])
    }

    ghost predicate IsAncestor(a: Tx, t: Tx) { t in anc && a in anc[t] }

    /** Sizes cover weights, and the figures cached with an entry are those of its package. */
    ghost predicate Figures() {
      && mapTx.Keys == anc.Keys
      && (forall t :: t in mapTx ==> mapTx[t].weight <= WITNESS_SCALE_FACTOR * mapTx[t].size)
      && (forall t :: t in mapTx ==>
            && mapTx[t].withAncestors.size == Sum(Size, anc[t] + {t})
            && mapTx[t].withAncestors.sigOps == Sum(SigOps, anc[t] + {t})
            && mapTx[t].withAncestors.mweb == Sum(Mweb, anc[t] + {t}))
    }

    ghost predicate Clause(k: int) {
      match k
      case 0 => Relation()
      case 1 => Figures()
      case _ => mapTx.Keys == anc.Keys
    }

    /** How many of the first n clauses fail; proofs see them only where `WellFormedMeans` brings
        them in. */
    ghost function Failing(n: nat): nat { if n == 0 then 0 else Failing(n - 1) + if Clause(n - 1) then 0 else 1 }

    ghost predicate WellFormed() { Failing(3) == 0 }

    lemma FailingStep(n: nat)
      ensures Failing(n + 1) == 0 <==> Clause(n) && Failing(n) == 0
    {}

    lemma WellFormedMeans()
      ensures WellFormed() <==> Relation() && Figures()
    {
      FailingStep(2);
      FailingStep(1);
      FailingStep(0);
    }

    function Descendants(t: Tx): set<Tx> { set d | d in anc && t in anc[d] }
  }

  // ----- Sums over sets of transactions

  ghost function Any(s: set<Tx>): (t: Tx)
    requires s != {}
    ensures t in s
  {
    var t :| t in s;
    t
  }

  ghost function Sum(f: Tx -> int, s: set<Tx>): int
    decreases |s|
  {
    if s == {} then 0 else f(Any(s)) + Sum(f, s - {Any(s)})
  }

  lemma {:induction false} SumWithout(f: Tx -> int, s: set<Tx>, t: Tx)
    requires t in s
    ensures Sum(f, s) == f(t) + Sum(f, s - {t})
    decreases |s|
  {
    var k := Any(s);
    if k != t {
      SumWithout(f, s - {k}, t);
      SumWithout(f, s - {t}, k);
      assert s - {k} - {t} == s - {t} - {k};
    }
  }

  lemma SumWith(f: Tx -> int, s: set<Tx>, t: Tx)
    requires t !in s
    ensures Sum(f, s + {t}) == Sum(f, s) + f(t)
  {
    SumWithout(f, s + {t}, t);
    assert s + {t} - {t} == s;
  }

  lemma {:induction false} SumWithin(f: Tx -> int, s: set<Tx>, u: set<Tx>)
    requires s <= u && forall t :: f(t) >= 0
    ensures Sum(f, s) <= Sum(f, u)
    decreases |u|
  {
    if u - s == {} {
      assert s == u;
    } else {
      var t := Any(u - s);
      SumWithout(f, u, t);
      SumWithin(f, s, u - {t});
    }
  }

  lemma {:induction false} SumScaled(f: Tx -> int, g: Tx -> int, s: set<Tx>)
    requires forall t :: t in s ==> f(t) <= WITNESS_SCALE_FACTOR * g(t)
    ensures Sum(f, s) <= WITNESS_SCALE_FACTOR * Sum(g, s)
    decreases |s|
  {
    if s != {} { SumScaled(f, g, s - {Any(s)}); }
  }

  // ----- Package totals

  /** What would still have to be added for t: itself and its ancestors outside the block. */
  ghost function Package(mp: Mempool, inBlock: set<Tx>, t: Tx): set<Tx>
    requires t in mp.anc
  {
    mp.anc[t] + {t} - inBlock
  }

  /** The recorded totals do not under-count a set of transactions. */
  ghost predicate Covers(mp: Mempool, e: Totals, s: set<Tx>) {
    e.size >= Sum(mp.Size, s) && e.sigOps >= Sum(mp.SigOps, s) && e.mweb >= Sum(mp.Mweb, s)
  }

  /** Every recorded entry is outside the block and covers what is missing for it when the
      transactions in `done` count as added. */
  ghost predicate ModifiedOk(mp: Mempool, inBlock: set<Tx>, done: set<Tx>, m: map<Tx, Totals>) {
    forall t :: t in m ==> t in mp.anc && t !in inBlock && Covers(mp, m[t], Package(mp, done, t))
  }

  lemma CoversLess(mp: Mempool, e: Totals, s: set<Tx>, u: set<Tx>)
    requires Covers(mp, e, u) && s <= u
    ensures Covers(mp, e, s)
  {
    SumWithin(mp.Size, s, u);
    SumWithin(mp.SigOps, s, u);
    SumWithin(mp.Mweb, s, u);
  }

  function Less(mp: Mempool, e: Totals, it: Tx, fee: int): Totals
    requires it in mp.mapTx
  {
    Totals(e.size - mp.mapTx[it].size, e.modFees - fee, e.sigOps - mp.mapTx[it].sigOps, e.mweb - mp.mapTx[it].mweb)
  }

  lemma CoversWithout(mp: Mempool, e: Totals, s: set<Tx>, it: Tx, fee: int)
    requires Covers(mp, e, s) && it in s && it in mp.mapTx
    ensures Covers(mp, Less(mp, e, it, fee), s - {it})
  {
    SumWithout(mp.Size, s, it);
    SumWithout(mp.SigOps, s, it);
    SumWithout(mp.Mweb, s, it);
  }

  /** The entry for descendant d after its ancestor `it` was added: the first time the mempool's
      own totals less the modified fee, later the recorded ones less the plain fee. */
  function Updated(mp: Mempool, m: map<Tx, Totals>, it: Tx, d: Tx): Totals
    requires it in mp.mapTx && d in mp.mapTx
  {
    if d in m then Less(mp, m[d], it, mp.mapTx[it].fee) else Less(mp, mp.mapTx[d].withAncestors, it, mp.mapTx[it].modFee)
  }

  lemma UpdatedCovers(mp: Mempool, m: map<Tx, Totals>, done: set<Tx>, it: Tx, d: Tx)
    requires mp.Figures() && it in mp.anc && d in mp.anc && it in mp.anc[d] && it !in done
    requires d in m ==> Covers(mp, m[d], Package(mp, done, d))
    ensures Covers(mp, Updated(mp, m, it, d), Package(mp, done + {it}, d))
  {
    var s := Package(mp, done, d);
    assert s - {it} == Package(mp, done + {it}, d);
    if d in m {
      CoversWithout(mp, m[d], s, it, mp.mapTx[it].fee);
    } else {
      CoversLess(mp, mp.mapTx[d].withAncestors, s, mp.anc[d] + {d});
      CoversWithout(mp, mp.mapTx[d].withAncestors, s, it, mp.mapTx[it].modFee);
    }
  }

  /** The mempool's totals for d less the figures of s, of which s0 was the first to go: its
      modified fee was taken off, and of the others the plain one. */
  ghost predicate IsReduced(mp: Mempool, d: Tx, e: Totals, b: set<Tx>, s: set<Tx>, s0: Tx)
    requires d in mp.mapTx && d in mp.anc
  {
    var w := mp.mapTx[d].withAncestors;
    && s0 in s && s <= mp.anc[d] && s <= b && s0 in mp.mapTx
    && e.size == w.size - Sum(mp.Size, s) && e.sigOps == w.sigOps - Sum(mp.SigOps, s) && e.mweb == w.mweb - Sum(mp.Mweb, s)
    && e.modFees == w.modFees - Sum(mp.Fee, s) - (mp.mapTx[s0].modFee - mp.mapTx[s0].fee)
  }

  ghost predicate Reduced(mp: Mempool, d: Tx, e: Totals, b: set<Tx>) {
    d in mp.mapTx && d in mp.anc && exists s, s0 :: IsReduced(mp, d, e, b, s, s0)
  }

  /** Every recorded entry is the mempool's own less some ancestors that are in b. */
  ghost predicate Accounted(mp: Mempool, b: set<Tx>, m: map<Tx, Totals>) { forall t :: t in m ==> Reduced(mp, t, m[t], b) }

  lemma ReducedMore(mp: Mempool, d: Tx, e: Totals, b: set<Tx>, b': set<Tx>)
    requires Reduced(mp, d, e, b) && b <= b'
    ensures Reduced(mp, d, e, b')
  {
    var s, s0 :| IsReduced(mp, d, e, b, s, s0);
    assert IsReduced(mp, d, e, b', s, s0);
  }

  ghost predicate AtMost(e: Totals, w: Totals) { e.size <= w.size && e.sigOps <= w.sigOps && e.mweb <= w.mweb }

  lemma ReducedIsLess(mp: Mempool, d: Tx, e: Totals, b: set<Tx>)
    requires Reduced(mp, d, e, b)
    ensures AtMost(e, mp.mapTx[d].withAncestors)
  {
    var s, s0 :| IsReduced(mp, d, e, b, s, s0);
    SumWithin(mp.Size, {}, s);
    SumWithin(mp.SigOps, {}, s);
    SumWithin(mp.Mweb, {}, s);
  }

  lemma SumOne(f: Tx -> int, t: Tx)
    ensures Sum(f, {t}) == f(t)
  {
    SumWith(f, {}, t);
    assert {} + {t} == {t};
  }

  lemma ReducedFirst(mp: Mempool, b: set<Tx>, it: Tx, d: Tx)
    requires it in mp.mapTx && d in mp.mapTx && d in mp.anc && it in mp.anc[d] && it in b
    ensures Reduced(mp, d, Less(mp, mp.mapTx[d].withAncestors, it, mp.mapTx[it].modFee), b)
  {
    SumOne(mp.Size, it);
    SumOne(mp.SigOps, it);
    SumOne(mp.Mweb, it);
    SumOne(mp.Fee, it);
    assert IsReduced(mp, d, Less(mp, mp.mapTx[d].withAncestors, it, mp.mapTx[it].modFee), b, {it}, it);
  }

  lemma ReducedNext(mp: Mempool, b: set<Tx>, it: Tx, d: Tx, e: Totals)
    requires it in mp.mapTx && d in mp.mapTx && d in mp.anc && it in mp.anc[d] && it !in b && Reduced(mp, d, e, b)
    ensures Reduced(mp, d, Less(mp, e, it, mp.mapTx[it].fee), b + {it})
  {
    var s, s0 :| IsReduced(mp, d, e, b, s, s0);
    SumWith(mp.Size, s, it);
    SumWith(mp.SigOps, s, it);
    SumWith(mp.Mweb, s, it);
    SumWith(mp.Fee, s, it);
    assert IsReduced(mp, d, Less(mp, e, it, mp.mapTx[it].fee), b + {it}, s + {it}, s0);
  }

  // ----- Bringing the modified index up to date

  /** The index after the descendants in ds were updated for `it`. */
  ghost function UpdatedAll(mp: Mempool, m: map<Tx, Totals>, it: Tx, ds: set<Tx>): map<Tx, Totals>
    requires it in mp.mapTx && ds <= mp.mapTx.Keys
  {
    map t | t in m.Keys + ds :: if t in ds then Updated(mp, m, it, t) else m[t]
  }

  lemma UpdatedAllOk(mp: Mempool, m: map<Tx, Totals>, it: Tx, ds: set<Tx>, done: set<Tx>, inBlock: set<Tx>)
    requires mp.Figures() && it in mp.anc && it in inBlock && it !in done && ModifiedOk(mp, inBlock, done, m)
    requires ds <= mp.Descendants(it) && ds !! inBlock && mp.Descendants(it) - ds <= inBlock
    ensures ModifiedOk(mp, inBlock, done + {it}, UpdatedAll(mp, m, it, ds))
  {
    var m' := UpdatedAll(mp, m, it, ds);
    forall t | t in m' ensures t in mp.anc && t !in inBlock && Covers(mp, m'[t], Package(mp, done + {it}, t)) {
      if t in ds {
        UpdatedCovers(mp, m, done, it, t);
      } else {
        assert t !in mp.Descendants(it);
        assert Package(mp, done + {it}, t) == Package(mp, done, t);
      }
    }
  }

  lemma UpdatedAllAccounted(mp: Mempool, m: map<Tx, Totals>, it: Tx, ds: set<Tx>, done: set<Tx>)
    requires mp.mapTx.Keys == mp.anc.Keys && it in mp.mapTx && ds <= mp.Descendants(it) && it !in done
             && Accounted(mp, done, m)
    requires ds <= mp.mapTx.Keys
    ensures Accounted(mp, done + {it}, UpdatedAll(mp, m, it, ds))
  {
    var m' := UpdatedAll(mp, m, it, ds);
    forall t | t in m' ensures Reduced(mp, t, m'[t], done + {it}) {
      if t in ds {
        assert t in mp.mapTx.Keys;
        if t in m { ReducedNext(mp, done, it, t, m[t]); } else { ReducedFirst(mp, done + {it}, it, t); }
      } else {
        ReducedMore(mp, t, m[t], done, done + {it});
      }
    }
  }

  lemma UpdatedNext(mp: Mempool, m: map<Tx, Totals>, it: Tx, ds: set<Tx>, d: Tx)
    requires it in mp.mapTx && ds <= mp.mapTx.Keys && d in mp.mapTx && d !in ds
    ensures var m1 := UpdatedAll(mp, m, it, ds); UpdatedAll(mp, m, it, ds + {d}) == m1[d := Updated(mp, m1, it, d)]
  {
    var m1 := UpdatedAll(mp, m, it, ds);
    assert d in m1 <==> d in m;
    assert Updated(mp, m1, it, d) == Updated(mp, m, it, d);
    assert UpdatedAll(mp, m, it, ds + {d}) == m1[d := Updated(mp, m, it, d)];
  }

  lemma OneMore(all: set<Tx>, todo: set<Tx>, t: Tx)
    requires t in todo && todo <= all
    ensures t !in all - todo && all - (todo - {t}) == all - todo + {t}
    ensures todo - {t} < todo && todo - {t} <= all
  {}

  function One(t: Tx): int { 1 }

  lemma {:induction false} SumOfOnes(s: set<Tx>)
    ensures Sum(One, s) == |s|
    decreases |s|
  {
    if s != {} {
      var t := Any(s);
      SumOfOnes(s - {t});
      assert s == s - {t} + {t};
    }
  }

  /** The inner loop of UpdatePackagesForAdded: all descendants of `it` that are not themselves
      among the added ones. */
  method UpdateDescendants(mp: Mempool, it: Tx, ds: set<Tx>, mapModifiedTx: map<Tx, Totals>)
      returns (m: map<Tx, Totals>, nUpdated: nat)
    requires it in mp.mapTx && ds <= mp.mapTx.Keys
    ensures m == UpdatedAll(mp, mapModifiedTx, it, ds) && nUpdated == |ds|
  {
    var todo := ds;
    m, nUpdated := mapModifiedTx, 0;
    assert ds - ds == {} && m == UpdatedAll(mp, mapModifiedTx, it, {});
    while todo != {}
      invariant todo <= ds && nUpdated == Sum(One, ds - todo)
      invariant m == UpdatedAll(mp, mapModifiedTx, it, ds - todo)
      decreases todo
    {
      var desc :| desc in todo;
      OneMore(ds, todo, desc);
      SumWith(One, ds - todo, desc);
      UpdatedNext(mp, mapModifiedTx, it, ds - todo, desc);
      var e := if desc in m then Less(mp, m[desc], it, mp.mapTx[it].fee)
               else Less(mp, mp.mapTx[desc].withAncestors, it, mp.mapTx[it].modFee);
      m := m[desc := e];
      todo := todo - {desc};
      nUpdated := nUpdated + 1;
    }
    assert ds - todo == ds;
    SumOfOnes(ds);
  }

  /** With a transaction all its ancestors are in the block. */
  ghost predicate Closed(mp: Mempool, b: set<Tx>) { forall t :: t in b ==> t in mp.anc && mp.anc[t] <= b }

  /** How many entries are touched for one added transaction. */
  ghost function Touched(mp: Mempool, added: set<Tx>): Tx -> int { (t: Tx) => |mp.Descendants(t) - added| }

  /** After transactions went into the block, the recorded totals of everything outside cover
      what is missing now, whichever of them were recorded before, and account for what was
      taken off. */
  method UpdatePackagesForAdded(mp: Mempool, alreadyAdded: set<Tx>, mapModifiedTx: map<Tx, Totals>, ghost inBlock: set<Tx>)
    returns (m: map<Tx, Totals>, nDescendantsUpdated: nat)
    requires mp.WellFormed() && alreadyAdded <= inBlock <= mp.mapTx.Keys && Closed(mp, inBlock - alreadyAdded)
    requires Brought(mp, inBlock, inBlock - alreadyAdded, mapModifiedTx)
    ensures Brought(mp, inBlock, inBlock, m) && mapModifiedTx.Keys <= m.Keys
    ensures TakenOff(mp, mapModifiedTx, m, alreadyAdded, alreadyAdded)
    ensures nDescendantsUpdated == Sum(Touched(mp, alreadyAdded), alreadyAdded)
  {
    var todo := alreadyAdded;
    m, nDescendantsUpdated := mapModifiedTx, 0;
    assert alreadyAdded - todo == {};
    UnderwayFirst(mp, m, inBlock, alreadyAdded);
    while todo != {}
      invariant todo <= alreadyAdded && Underway(mp, mapModifiedTx, m, inBlock, alreadyAdded, todo)
      invariant nDescendantsUpdated == Sum(Touched(mp, alreadyAdded), alreadyAdded - todo)
      decreases todo
    {
      var it :| it in todo;
      OneMore(alreadyAdded, todo, it);
      SumWith(Touched(mp, alreadyAdded), alreadyAdded - todo, it);
      UnderwayNext(mp, mapModifiedTx, m, inBlock, alreadyAdded, todo, it);
      var n;
      m, n := UpdateDescendants(mp, it, mp.Descendants(it) - alreadyAdded, m);
      nDescendantsUpdated := nDescendantsUpdated + n;
      todo := todo - {it};
    }
    assert alreadyAdded - todo == alreadyAdded;
    UnderwayEnds(mp, mapModifiedTx, m, inBlock, alreadyAdded);
  }

  /** The index while the added ones in `todo` are still to be taken off. */
  ghost predicate IsUnderway(mp: Mempool, m0: map<Tx, Totals>, m: map<Tx, Totals>, inBlock: set<Tx>, added: set<Tx>,
      todo: set<Tx>)
  {
    Brought(mp, inBlock, inBlock - todo, m) && m0.Keys <= m.Keys && TakenOff(mp, m0, m, added, added - todo)
  }

  predicate Left(todo: set<Tx>) { true }

  ghost predicate TellsUnderway(yes: bool, mp: Mempool, m0: map<Tx, Totals>, m: map<Tx, Totals>, inBlock: set<Tx>, added: set<Tx>,
      todo: set<Tx>)
  {
    forall x: set<Tx> {:trigger Left(x)} :: x == todo ==> yes == IsUnderway(mp, m0, m, inBlock, added, x)
  }

  /** IsUnderway, which `UnderwayMeans` says. */
  ghost predicate Underway(mp: Mempool, m0: map<Tx, Totals>, m: map<Tx, Totals>, inBlock: set<Tx>, added: set<Tx>,
      todo: set<Tx>)
  {
    assert TellsUnderway(IsUnderway(mp, m0, m, inBlock, added, todo), mp, m0, m, inBlock, added, todo);
    var yes :| TellsUnderway(yes, mp, m0, m, inBlock, added, todo);
    yes
  }

  lemma UnderwayMeans(mp: Mempool, m0: map<Tx, Totals>, m: map<Tx, Totals>, inBlock: set<Tx>, added: set<Tx>, todo: set<Tx>)
    ensures Underway(mp, m0, m, inBlock, added, todo) <==> IsUnderway(mp, m0, m, inBlock, added, todo)
  {
    assert TellsUnderway(Underway(mp, m0, m, inBlock, added, todo), mp, m0, m, inBlock, added, todo);
    assert Left(todo);
  }

  lemma UnderwayFirst(mp: Mempool, m: map<Tx, Totals>, inBlock: set<Tx>, added: set<Tx>)
    requires Brought(mp, inBlock, inBlock - added, m)
    ensures Underway(mp, m, m, inBlock, added, added)
  {
    assert added - added == {};
    forall d | d in mp.mapTx && d in mp.anc && d !in added ensures OffBy(mp, m, m, d, mp.anc[d] * {}) {
      assert mp.anc[d] * {} == {};
    }
    UnderwayMeans(mp, m, m, inBlock, added, added);
  }

  lemma UnderwayEnds(mp: Mempool, m0: map<Tx, Totals>, m: map<Tx, Totals>, inBlock: set<Tx>, added: set<Tx>)
    requires Underway(mp, m0, m, inBlock, added, {})
    ensures Brought(mp, inBlock, inBlock, m) && m0.Keys <= m.Keys && TakenOff(mp, m0, m, added, added)
  {
    assert inBlock - {} == inBlock && added - {} == added;
    UnderwayMeans(mp, m0, m, inBlock, added, {});
  }

  lemma UnderwayNext(mp: Mempool, m0: map<Tx, Totals>, m: map<Tx, Totals>, inBlock: set<Tx>, added: set<Tx>, todo: set<Tx>,
      it: Tx)
    requires mp.WellFormed() && added <= inBlock <= mp.mapTx.Keys && Closed(mp, inBlock - added)
    requires it in todo && todo <= added && Underway(mp, m0, m, inBlock, added, todo)
    ensures it in mp.mapTx && mp.Descendants(it) - added <= mp.mapTx.Keys
    ensures Underway(mp, m0, UpdatedAll(mp, m, it, mp.Descendants(it) - added), inBlock, added, todo - {it})
  {
    UnderwayMeans(mp, m0, m, inBlock, added, todo);
    BroughtNext(mp, m, it, added, todo, inBlock);
    TakenOffNext(mp, m0, m, it, added, added - todo);
    assert added - (todo - {it}) == added - todo + {it};
    UnderwayMeans(mp, m0, UpdatedAll(mp, m, it, mp.Descendants(it) - added), inBlock, added, todo - {it});
  }

  /** The recorded totals of d or, without a record, the mempool's own. */
  function Current(mp: Mempool, m: map<Tx, Totals>, d: Tx): Totals
    requires d in mp.mapTx
  {
    if d in m then m[d] else mp.mapTx[d].withAncestors
  }

  /** The figures of s were taken off the totals of d. */
  ghost predicate OffBy(mp: Mempool, m: map<Tx, Totals>, m': map<Tx, Totals>, d: Tx, s: set<Tx>)
    requires d in mp.mapTx
  {
    var e, e' := Current(mp, m, d), Current(mp, m', d);
    && (d in m' <==> d in m || s != {})
    && e'.size == e.size - Sum(mp.Size, s) && e'.sigOps == e.sigOps - Sum(mp.SigOps, s) && e'.mweb == e.mweb - Sum(mp.Mweb, s)
  }

  /** The figures of its ancestors in s were taken off the totals of everything that was not added. */
  ghost predicate TakenOff(mp: Mempool, m: map<Tx, Totals>, m': map<Tx, Totals>, added: set<Tx>, s: set<Tx>) {
    forall d :: d in mp.mapTx && d in mp.anc && d !in added ==> OffBy(mp, m, m', d, mp.anc[d] * s)
  }

  lemma OffByNext(mp: Mempool, m: map<Tx, Totals>, m1: map<Tx, Totals>, m2: map<Tx, Totals>, d: Tx, s: set<Tx>, it: Tx)
    requires d in mp.mapTx && it in mp.mapTx && it !in s && OffBy(mp, m, m1, d, s) && d in m2
    requires exists fee :: m2[d] == Less(mp, Current(mp, m1, d), it, fee)
    ensures OffBy(mp, m, m2, d, s + {it})
  {
    SumWith(mp.Size, s, it);
    SumWith(mp.SigOps, s, it);
    SumWith(mp.Mweb, s, it);
  }

  lemma TakenOffNext(mp: Mempool, m: map<Tx, Totals>, m1: map<Tx, Totals>, it: Tx, added: set<Tx>, s: set<Tx>)
    requires it in mp.mapTx && it !in s && TakenOff(mp, m, m1, added, s) && mp.Descendants(it) - added <= mp.mapTx.Keys
    ensures TakenOff(mp, m, UpdatedAll(mp, m1, it, mp.Descendants(it) - added), added, s + {it})
  {
    var ds := mp.Descendants(it) - added;
    var m2 := UpdatedAll(mp, m1, it, ds);
    forall d | d in mp.mapTx && d in mp.anc && d !in added ensures OffBy(mp, m, m2, d, mp.anc[d] * (s + {it})) {
      if d in ds {
        assert mp.anc[d] * (s + {it}) == mp.anc[d] * s + {it};
        OffByNext(mp, m, m1, m2, d, mp.anc[d] * s, it);
      } else {
        assert mp.anc[d] * (s + {it}) == mp.anc[d] * s;
      }
    }
  }

  /** The totals are those of a set of transactions. */
  ghost predicate Exact(mp: Mempool, e: Totals, s: set<Tx>) {
    e.size == Sum(mp.Size, s) && e.sigOps == Sum(mp.SigOps, s) && e.mweb == Sum(mp.Mweb, s)
  }

  /** Unless it failed, what is outside the block has the totals of exactly what is missing for
      it when the transactions in `counted` are there. */
  ghost predicate Tallied(mp: Mempool, inBlock: set<Tx>, counted: set<Tx>, failed: set<Tx>, m: map<Tx, Totals>) {
    forall t :: t in mp.mapTx && t in mp.anc && t !in inBlock && t !in failed ==>
      Exact(mp, Current(mp, m, t), Package(mp, counted, t))
  }

  lemma ExactLess(mp: Mempool, m: map<Tx, Totals>, m': map<Tx, Totals>, t: Tx, counted: set<Tx>, added: set<Tx>)
    requires t in mp.mapTx && t in mp.anc && t !in added && counted !! added
    requires OffBy(mp, m, m', t, mp.anc[t] * added) && Exact(mp, Current(mp, m, t), Package(mp, counted, t))
    ensures Exact(mp, Current(mp, m', t), Package(mp, counted + added, t))
  {
    var rest, off := Package(mp, counted + added, t), mp.anc[t] * added;
    assert rest + off == Package(mp, counted, t) && rest !! off;
    SumUnion(mp.Size, rest, off);
    SumUnion(mp.SigOps, rest, off);
    SumUnion(mp.Mweb, rest, off);
  }

  /** Taking the added ones off makes the index count them. */
  lemma TalliedNext(mp: Mempool, inBlock: set<Tx>, counted: set<Tx>, failed: set<Tx>, m: map<Tx, Totals>,
      m': map<Tx, Totals>, added: set<Tx>)
    requires Tallied(mp, inBlock, counted, failed, m) && TakenOff(mp, m, m', added, added)
    requires added <= inBlock && counted !! added
    ensures Tallied(mp, inBlock, counted + added, failed, m')
  {
    forall t | t in mp.mapTx && t in mp.anc && t !in inBlock && t !in failed
      ensures Exact(mp, Current(mp, m', t), Package(mp, counted + added, t))
    {
      ExactLess(mp, m, m', t, counted, added);
    }
  }

  /** Without records the mempool's own totals count nothing as added. */
  lemma TalliedFirst(mp: Mempool, inBlock: set<Tx>)
    requires mp.WellFormed()
    ensures Tallied(mp, inBlock, {}, {}, map[])
  {
    forall t | t in mp.mapTx && t in mp.anc ensures Exact(mp, mp.mapTx[t].withAncestors, Package(mp, {}, t)) {
      CachedIs(mp, t);
      assert Package(mp, {}, t) == mp.anc[t] + {t};
    }
  }

  /** Nothing changes for the others when records go whose transactions are in the block or failed. */
  lemma TalliedWithout(mp: Mempool, b: set<Tx>, b': set<Tx>, counted: set<Tx>, failed: set<Tx>, failed': set<Tx>,
      m: map<Tx, Totals>, gone: set<Tx>)
    requires Tallied(mp, b, counted, failed, m) && b <= b' && failed <= failed' && gone <= b' + failed'
    ensures Tallied(mp, b', counted, failed', m - gone)
  {
    forall t | t in mp.mapTx && t in mp.anc && t !in b' && t !in failed'
      ensures Exact(mp, Current(mp, m - gone, t), Package(mp, counted, t))
    {
      assert Current(mp, m - gone, t) == Current(mp, m, t);
    }
  }

  /** The index is right when the transactions in `done` count as added. */
  ghost predicate Brought(mp: Mempool, inBlock: set<Tx>, done: set<Tx>, m: map<Tx, Totals>) {
    ModifiedOk(mp, inBlock, done, m) && Accounted(mp, done, m)
  }

  lemma BroughtNext(mp: Mempool, m: map<Tx, Totals>, it: Tx, alreadyAdded: set<Tx>, todo: set<Tx>, inBlock: set<Tx>)
    requires mp.WellFormed() && alreadyAdded <= inBlock <= mp.mapTx.Keys && Closed(mp, inBlock - alreadyAdded)
    requires it in todo && todo <= alreadyAdded && Brought(mp, inBlock, inBlock - todo, m)
    ensures it in mp.mapTx && mp.Descendants(it) - alreadyAdded <= mp.mapTx.Keys
    ensures var m' := UpdatedAll(mp, m, it, mp.Descendants(it) - alreadyAdded);
            Brought(mp, inBlock, inBlock - (todo - {it}), m') && m.Keys <= m'.Keys
  {
    var ds := mp.Descendants(it) - alreadyAdded;
    assert it in mp.mapTx.Keys && mp.Figures() by { mp.WellFormedMeans(); }
    DescendantsOutside(mp, it, alreadyAdded, inBlock);
    UpdatedAllOk(mp, m, it, ds, inBlock - todo, inBlock);
    UpdatedAllAccounted(mp, m, it, ds, inBlock - todo);
    assert inBlock - (todo - {it}) == inBlock - todo + {it};
  }

  lemma DescendantsOutside(mp: Mempool, it: Tx, alreadyAdded: set<Tx>, inBlock: set<Tx>)
    requires mp.mapTx.Keys == mp.anc.Keys && it in alreadyAdded && alreadyAdded <= inBlock
             && Closed(mp, inBlock - alreadyAdded)
    ensures mp.Descendants(it) <= mp.mapTx.Keys
    ensures mp.Descendants(it) - alreadyAdded !! inBlock
  {
    forall d | d in mp.Descendants(it) - alreadyAdded ensures d !in inBlock { assert d in inBlock ==>
        d in inBlock - alreadyAdded; }
    assert forall d :: d in mp.Descendants(it) ==> d in mp.anc.Keys;
  }

  // ----- Ordering a package

  /** CompareTxIterByAncestorCount. */
  predicate Before(mp: Mempool, a: Tx, b: Tx)
    requires a in mp.mapTx && b in mp.mapTx
  {
    if mp.mapTx[a].nCountWithAncestors != mp.mapTx[b].nCountWithAncestors
    then mp.mapTx[a].nCountWithAncestors < mp.mapTx[b].nCountWithAncestors
    else a.hash < b.hash
  }

  lemma {:induction false} HasFirst(mp: Mempool, s: set<Tx>) returns (t: Tx)
    requires s != {} && s <= mp.mapTx.Keys
    ensures t in s && forall u :: u in s && u != t ==> Before(mp, t, u)
    decreases |s|
  {
    var k := Any(s);
    if s - {k} == {} {
      t := k;
      assert s == {k};
    } else {
      var first := HasFirst(mp, s - {k});
      t := if Before(mp, k, first) then k else first;
      forall u | u in s && u != t ensures Before(mp, t, u) {
        assert u == k || u in s - {k};
        Comparable(mp, k, first);
      }
    }
  }

  lemma Comparable(mp: Mempool, a: Tx, b: Tx)
    requires a in mp.mapTx && b in mp.mapTx && a != b
    ensures Before(mp, a, b) || Before(mp, b, a)
  {
    assert a == Tx(a.hash) && b == Tx(b.hash);
  }

  lemma ElementsAppend(s: seq<Tx>, t: Tx)
    ensures Elements(s + [t]) == Elements(s) + {t}
  {}

  ghost predicate Sorted(mp: Mempool, s: seq<Tx>) {
    && (forall i :: 0 <= i < |s| ==> s[i] in mp.mapTx)
    && (forall i, j :: 0 <= i < j < |s| ==> Before(mp, s[i], s[j]))
  }

  ghost function Elements(s: seq<Tx>): set<Tx> { set t | t in s }

  method SortForBlock(mp: Mempool, package: set<Tx>) returns (sortedEntries: seq<Tx>)
    requires package <= mp.mapTx.Keys
    ensures Sorted(mp, sortedEntries) && Elements(sortedEntries) == package
  {
    sortedEntries := [];
    var todo := package;
    while todo != {}
      invariant todo <= package && Elements(sortedEntries) == package - todo
      invariant Sorted(mp, sortedEntries)
      invariant forall i, t :: 0 <= i < |sortedEntries| && t in todo ==> Before(mp, sortedEntries[i], t)
      decreases todo
    {
      ghost var some := HasFirst(mp, todo);
      var t :| t in todo && forall u | u in todo && u != t :: Before(mp, t, u);
      ElementsAppend(sortedEntries, t);
      sortedEntries := sortedEntries + [t];
      todo := todo - {t};
    }
  }

  /** An ancestor has fewer ancestors, so sorting by their number puts it first. */
  lemma AncestorBefore(mp: Mempool, t: Tx, a: Tx)
    requires mp.Relation() && t in mp.anc && a in mp.anc[t]
    ensures a in mp.mapTx && mp.mapTx[a].nCountWithAncestors < mp.mapTx[t].nCountWithAncestors
  {
    assert mp.IsAncestor(a, t);
    assert mp.anc[a] + {a} <= mp.anc[t] && a !in mp.anc[a];
    CardinalityWithin(mp.anc[a] + {a}, mp.anc[t]);
  }

  lemma {:induction false} CardinalityWithin(s: set<Tx>, u: set<Tx>)
    requires s <= u
    ensures |s| <= |u|
    decreases |s|
  {
    if s != {} {
      var t := Any(s);
      CardinalityWithin(s - {t}, u - {t});
    }
  }

  /** A sorted package can be added front to back: ancestors are in the block or further ahead. */
  lemma PackageInOrder(mp: Mempool, inBlock: set<Tx>, iter: Tx, s: seq<Tx>, i: nat)
    requires mp.Relation() && iter in mp.anc && Sorted(mp, s) && Elements(s) == Package(mp, inBlock, iter) && i < |s|
    ensures s[i] in mp.anc && mp.anc[s[i]] <= inBlock + Elements(s[..i])
  {
    var t := s[i];
    assert t in Elements(s);
    AncestorsInPackage(mp, inBlock, iter, t);
    forall a | a in mp.anc[t] && a !in inBlock ensures a in Elements(s[..i]) {
      assert a in Elements(s);
      var j :| 0 <= j < |s| && s[j] == a;
      AncestorBefore(mp, t, a);
      SortedBefore(mp, s, j, i);
      assert s[..i][j] == a;
    }
  }

  lemma AncestorsInPackage(mp: Mempool, inBlock: set<Tx>, iter: Tx, t: Tx)
    requires mp.Relation() && iter in mp.anc && t in Package(mp, inBlock, iter)
    ensures t in mp.anc && mp.anc[t] <= inBlock + Package(mp, inBlock, iter)
  {
    if t != iter { assert mp.IsAncestor(t, iter); }
  }

  lemma PackageWithin(mp: Mempool, inBlock: set<Tx>, iter: Tx)
    requires mp.WellFormed() && iter in mp.anc
    ensures Package(mp, inBlock, iter) <= mp.mapTx.Keys
  {
    mp.WellFormedMeans();
  }

  lemma SortedBefore(mp: Mempool, s: seq<Tx>, j: nat, i: nat)
    requires Sorted(mp, s) && j < |s| && i < |s| && mp.mapTx[s[j]].nCountWithAncestors < mp.mapTx[s[i]].nCountWithAncestors
    ensures j < i
  {}

  // ----- The block being built

  /** The transactions of a block in the order in which they were added. */
  ghost predicate InOrder(mp: Mempool, order: seq<Tx>) {
    && (forall i :: 0 <= i < |order| ==> order[i] in mp.anc && mp.anc[order[i]] <= Elements(order[..i]))
    && (forall i, j :: 0 <= i < j < |order| ==> order[i] != order[j])
  }

  lemma InOrderAppend(mp: Mempool, order: seq<Tx>, t: Tx)
    requires InOrder(mp, order) && t in mp.anc && t !in Elements(order) && mp.anc[t] <= Elements(order)
    ensures InOrder(mp, order + [t])
  {
    var o := order + [t];
    forall i | 0 <= i < |o| ensures o[i] in mp.anc && mp.anc[o[i]] <= Elements(o[..i]) {
      if i < |order| { assert o[..i] == order[..i]; } else { assert o[..i] == order; }
    }
    forall i | 0 <= i < |order| ensures order[i] != t { assert order[i] in Elements(order); }
  }

  /** Adding ancestors first keeps the block closed under ancestors. */
  lemma InOrderIsClosed(mp: Mempool, order: seq<Tx>)
    requires InOrder(mp, order)
    ensures Closed(mp, Elements(order))
  {
    forall t | t in Elements(order) ensures t in mp.anc && mp.anc[t] <= Elements(order) {
      var i :| 0 <= i < |order| && order[i] == t;
      assert mp.anc[t] <= Elements(order[..i]);
    }
  }

  /** The transactions with a part outside the MWEB, which are those that get into vtx. */
  ghost function Listed(mp: Mempool, order: seq<Tx>): seq<Tx> {
    if order == [] then []
    else
      var t := order[|order| - 1];
      Listed(mp, order[..|order| - 1]) + if t in mp.mapTx && !mp.mapTx[t].mwebOnly then [t] else []
  }

  datatype Block = Block(inBlock: set<Tx>, vtx: seq<Tx>, vTxFees: seq<int>, vTxSigOpsCost: seq<int>, nBlockTx: int,
                         weight: int, sigOps: int, mweb: int, fees: int, order: seq<Tx>)

  /** What a transaction pays and costs outside the MWEB. */
  function OwnFee(mp: Mempool, t: Tx): int {
    if t !in mp.mapTx then 0
    else mp.mapTx[t].fee - if mp.mapTx[t].hasMweb && mp.mapTx[t].mwebFee.Some? then mp.mapTx[t].mwebFee.value else 0
  }

  function OwnSigOps(mp: Mempool, t: Tx): int {
    if t !in mp.mapTx then 0 else mp.mapTx[t].sigOps - if mp.mapTx[t].hasMweb then mp.mapTx[t].mwebSigOps else 0
  }

  ghost function OwnFees(mp: Mempool, s: seq<Tx>): seq<int> { seq(|s|, i requires 0 <= i < |s| => OwnFee(mp, s[i])) }

  ghost function OwnCosts(mp: Mempool, s: seq<Tx>): seq<int> { seq(|s|, i requires 0 <= i < |s| => OwnSigOps(mp, s[i])) }

  lemma OwnAppend(mp: Mempool, s: seq<Tx>, t: Tx)
    ensures OwnFees(mp, s + [t]) == OwnFees(mp, s) + [OwnFee(mp, t)]
    ensures OwnCosts(mp, s + [t]) == OwnCosts(mp, s) + [OwnSigOps(mp, t)]
  {}

  /** The counters are exact. */
  ghost predicate CountersOk(mp: Mempool, b: Block) {
    && b.weight == 4000 + Sum(mp.Weight, b.inBlock)
    && b.sigOps == 400 + Sum(mp.SigOps, b.inBlock)
    && b.mweb == Sum(mp.Mweb, b.inBlock)
    && b.fees == Sum(mp.Fee, b.inBlock)
  }

  ghost predicate LimitsOk(b: Block, nBlockMaxWeight: int) {
    b.weight <= nBlockMaxWeight && b.sigOps < MAX_BLOCK_SIGOPS_COST && b.mweb < MAX_MINE_WEIGHT
  }

  /** Transactions were added after their ancestors, each once, and vtx lists them in that order. */
  ghost predicate OrderOk(mp: Mempool, b: Block) {
    && b.inBlock == Elements(b.order) && b.inBlock <= mp.mapTx.Keys && InOrder(mp, b.order)
    && b.vtx == Listed(mp, b.order) && b.nBlockTx == |b.vtx|
    && b.vTxFees == OwnFees(mp, b.vtx) && b.vTxSigOpsCost == OwnCosts(mp, b.vtx)
  }

  ghost predicate BlockClause(k: int, mp: Mempool, b: Block, nBlockMaxWeight: int) {
    match k
    case 0 => CountersOk(mp, b)
    case 1 => OrderOk(mp, b)
    case _ => LimitsOk(b, nBlockMaxWeight)
  }

  /** How many of the first n clauses fail. */
  ghost function BlockFailing(n: nat, mp: Mempool, b: Block, nBlockMaxWeight: int): nat {
    if n == 0 then 0
    else BlockFailing(n - 1, mp, b, nBlockMaxWeight) + if BlockClause(n - 1, mp, b, nBlockMaxWeight) then 0 else 1
  }

  ghost predicate BlockOk(mp: Mempool, b: Block, nBlockMaxWeight: int) { BlockFailing(3, mp, b, nBlockMaxWeight) == 0 }

  lemma BlockOkMeans(mp: Mempool, b: Block, nBlockMaxWeight: int)
    ensures BlockOk(mp, b, nBlockMaxWeight) <==> CountersOk(mp, b) && LimitsOk(b, nBlockMaxWeight) && OrderOk(mp, b)
  {
    BlockFailingStep(2, mp, b, nBlockMaxWeight);
    BlockFailingStep(1, mp, b, nBlockMaxWeight);
    BlockFailingStep(0, mp, b, nBlockMaxWeight);
  }

  lemma BlockFailingStep(n: nat, mp: Mempool, b: Block, nBlockMaxWeight: int)
    ensures BlockFailing(n + 1, mp, b, nBlockMaxWeight) == 0
            <==> BlockClause(n, mp, b, nBlockMaxWeight) && BlockFailing(n, mp, b, nBlockMaxWeight) == 0
  {}

  ghost function Added(mp: Mempool, b: Block, t: Tx): Block
    requires t in mp.mapTx
  {
    var e := mp.mapTx[t];
    var list := !e.mwebOnly;
    Block(b.inBlock + {t}, if list then b.vtx + [t] else b.vtx,
          if list then b.vTxFees + [OwnFee(mp, t)] else b.vTxFees,
          if list then b.vTxSigOpsCost + [OwnSigOps(mp, t)] else b.vTxSigOpsCost, if list then b.nBlockTx + 1
              else b.nBlockTx,
          b.weight + e.weight, b.sigOps + e.sigOps, b.mweb + e.mweb, b.fees + e.fee, b.order + [t])
  }

  lemma AddedOrder(mp: Mempool, b: Block, t: Tx)
    requires OrderOk(mp, b) && t in mp.mapTx && t in mp.anc && t !in b.inBlock && mp.anc[t] <= b.inBlock
    ensures OrderOk(mp, Added(mp, b, t))
  {
    var a := Added(mp, b, t);
    assert InOrder(mp, a.order) by { InOrderAppend(mp, b.order, t); }
    assert a.inBlock == Elements(a.order) by { ElementsAppend(b.order, t); }
    assert a.vtx == Listed(mp, a.order) by { ListedAppend(mp, b.order, t); }
    OwnAppend(mp, b.vtx, t);
  }

  lemma ListedAppend(mp: Mempool, order: seq<Tx>, t: Tx)
    requires t in mp.mapTx
    ensures Listed(mp, order + [t]) == if mp.mapTx[t].mwebOnly then Listed(mp, order) else Listed(mp, order) + [t]
  {
    assert (order + [t])[..|order|] == order;
  }

  ghost function AddedAll(mp: Mempool, b: Block, s: seq<Tx>): Block
    requires forall i :: 0 <= i < |s| ==> s[i] in mp.mapTx
  {
    if s == [] then b else Added(mp, AddedAll(mp, b, s[..|s| - 1]), s[|s| - 1])
  }

  lemma {:induction false} SortedIsDistinct(mp: Mempool, s: seq<Tx>, k: nat)
    requires Sorted(mp, s) && k < |s|
    ensures s[k] !in Elements(s[..k]) && Elements(s[..k + 1]) == Elements(s[..k]) + {s[k]}
  {
    assert s[..k + 1] == s[..k] + [s[k]];
  }

  /** Block x is b with the transactions p and their figures. */
  ghost predicate With(mp: Mempool, b: Block, x: Block, p: set<Tx>) {
    && x.inBlock == b.inBlock + p
    && x.weight == b.weight + Sum(mp.Weight, p) && x.sigOps == b.sigOps + Sum(mp.SigOps, p)
    && x.mweb == b.mweb + Sum(mp.Mweb, p) && x.fees == b.fees + Sum(mp.Fee, p)
  }

  lemma WithNext(mp: Mempool, b: Block, x: Block, p: set<Tx>, t: Tx)
    requires With(mp, b, x, p) && t in mp.mapTx && t !in p
    ensures With(mp, b, Added(mp, x, t), p + {t})
  {
    SumWith(mp.Weight, p, t);
    SumWith(mp.SigOps, p, t);
    SumWith(mp.Mweb, p, t);
    SumWith(mp.Fee, p, t);
  }

  /** What a prefix of a sorted package adds. */
  lemma {:induction false} AddedPrefix(mp: Mempool, b: Block, s: seq<Tx>, k: nat)
    requires Sorted(mp, s) && k <= |s|
    ensures With(mp, b, AddedAll(mp, b, s[..k]), Elements(s[..k]))
  {
    if k == 0 {
      assert s[..0] == [];
    } else {
      AddedPrefix(mp, b, s, k - 1);
      SortedIsDistinct(mp, s, k - 1);
      AddedNext(mp, b, s, k);
      WithNext(mp, b, AddedAll(mp, b, s[..k - 1]), Elements(s[..k - 1]), s[k - 1]);
    }
  }

  /** A package that passed the test fits, however far its addition gets. */
  lemma PrefixFits(mp: Mempool, b: Block, s: seq<Tx>, k: nat, e: Totals, nBlockMaxWeight: int)
    requires mp.Figures() && Sorted(mp, s) && k <= |s| && Covers(mp, e, Elements(s))
    requires b.weight + WITNESS_SCALE_FACTOR * e.size < nBlockMaxWeight
    requires b.sigOps + e.sigOps < MAX_BLOCK_SIGOPS_COST && b.mweb + e.mweb < MAX_MINE_WEIGHT
    ensures LimitsOk(AddedAll(mp, b, s[..k]), nBlockMaxWeight)
  {
    var p := Elements(s[..k]);
    AddedPrefix(mp, b, s, k);
    assert p <= Elements(s) by { assert forall t :: t in s[..k] ==> t in s; }
    CoversLess(mp, e, p, Elements(s));
    SumScaled(mp.Weight, mp.Size, p);
  }

  lemma {:induction false} SumUnion(f: Tx -> int, s: set<Tx>, u: set<Tx>)
    requires s !! u
    ensures Sum(f, s + u) == Sum(f, s) + Sum(f, u)
    decreases |u|
  {
    if u == {} {
      assert s + u == s;
    } else {
      var t := Any(u);
      SumUnion(f, s, u - {t});
      assert s + (u - {t}) + {t} == s + u;
      SumWith(f, s + (u - {t}), t);
    }
  }

  lemma PrefixCounters(mp: Mempool, b: Block, s: seq<Tx>, k: nat)
    requires CountersOk(mp, b) && Sorted(mp, s) && Elements(s) !! b.inBlock && k <= |s|
    ensures CountersOk(mp, AddedAll(mp, b, s[..k]))
  {
    var p := Elements(s[..k]);
    AddedPrefix(mp, b, s, k);
    assert p !! b.inBlock by { assert forall t :: t in s[..k] ==> t in s; }
    SumUnion(mp.Weight, b.inBlock, p);
    SumUnion(mp.SigOps, b.inBlock, p);
    SumUnion(mp.Mweb, b.inBlock, p);
    SumUnion(mp.Fee, b.inBlock, p);
  }

  lemma AddedNext(mp: Mempool, b: Block, s: seq<Tx>, k: nat)
    requires (forall i :: 0 <= i < |s| ==> s[i] in mp.mapTx) && 0 < k <= |s|
    ensures AddedAll(mp, b, s[..k]) == Added(mp, AddedAll(mp, b, s[..k - 1]), s[k - 1])
  {
    assert s[..k][..k - 1] == s[..k - 1];
  }

  /** The next of a list of transactions comes after its ancestors and is new. */
  ghost predicate Appendable(mp: Mempool, b: Block, s: seq<Tx>, k: nat)
    requires k < |s| && forall i :: 0 <= i < |s| ==> s[i] in mp.mapTx
  {
    var x := AddedAll(mp, b, s[..k]);
    s[k] in mp.anc && s[k] !in x.inBlock && mp.anc[s[k]] <= x.inBlock
  }

  lemma {:induction false} PrefixOrder(mp: Mempool, b: Block, s: seq<Tx>, k: nat)
    requires OrderOk(mp, b) && k <= |s| && forall i :: 0 <= i < |s| ==> s[i] in mp.mapTx
    requires forall j: nat :: j < |s| ==> Appendable(mp, b, s, j)
    ensures OrderOk(mp, AddedAll(mp, b, s[..k]))
  {
    if k == 0 {
      assert s[..0] == [];
    } else {
      PrefixOrder(mp, b, s, k - 1);
      AddedNext(mp, b, s, k);
      assert Appendable(mp, b, s, k - 1);
      AddedOrder(mp, AddedAll(mp, b, s[..k - 1]), s[k - 1]);
    }
  }

  lemma PackageNext(mp: Mempool, b: Block, iter: Tx, s: seq<Tx>, k: nat)
    requires mp.Relation() && iter in mp.anc && Sorted(mp, s) && Elements(s) == Package(mp, b.inBlock, iter) && k < |s|
    ensures Appendable(mp, b, s, k)
  {
    AddedPrefix(mp, b, s, k);
    SortedIsDistinct(mp, s, k);
    PackageInOrder(mp, b.inBlock, iter, s, k);
    assert s[k] in Elements(s);
  }

  /** However far the addition of a tested package gets, the block stays consistent. */
  lemma PrefixKeeps(mp: Mempool, b: Block, iter: Tx, s: seq<Tx>, k: nat, e: Totals, nBlockMaxWeight: int)
    requires mp.WellFormed() && BlockOk(mp, b, nBlockMaxWeight) && iter in mp.anc
    requires Sorted(mp, s) && Elements(s) == Package(mp, b.inBlock, iter) && k <= |s| && Covers(mp, e, Elements(s))
    requires b.weight + WITNESS_SCALE_FACTOR * e.size < nBlockMaxWeight
    requires b.sigOps + e.sigOps < MAX_BLOCK_SIGOPS_COST && b.mweb + e.mweb < MAX_MINE_WEIGHT
    ensures BlockOk(mp, AddedAll(mp, b, s[..k]), nBlockMaxWeight) && Closed(mp, b.inBlock)
    ensures AddedAll(mp, b, s[..k]).inBlock == b.inBlock + Elements(s[..k])
  {
    var x := AddedAll(mp, b, s[..k]);
    assert CountersOk(mp, b) && OrderOk(mp, b) by { BlockOkMeans(mp, b, nBlockMaxWeight); }
    assert CountersOk(mp, x) by { PrefixCounters(mp, b, s, k); }
    assert OrderOk(mp, x) by {
      mp.WellFormedMeans();
      forall j: nat | j < |s| ensures Appendable(mp, b, s, j) { PackageNext(mp, b, iter, s, j); }
      PrefixOrder(mp, b, s, k);
    }
    assert LimitsOk(x, nBlockMaxWeight) by {
      mp.WellFormedMeans();
      PrefixFits(mp, b, s, k, e, nBlockMaxWeight);
    }
    BlockOkMeans(mp, x, nBlockMaxWeight);
    InOrderIsClosed(mp, b.order);
    AddedPrefix(mp, b, s, k);
  }

  /** Growing the block by anything outside the index keeps the index right. */
  lemma ModifiedAfterAdding(mp: Mempool, b: set<Tx>, b': set<Tx>, m: map<Tx, Totals>, gone: set<Tx>)
    requires ModifiedOk(mp, b, b, m) && b <= b' && b' - b <= gone
    ensures ModifiedOk(mp, b', b', m - gone) && ModifiedOk(mp, b', b, m - gone)
  {
    forall t | t in m - gone ensures Covers(mp, m[t], Package(mp, b', t)) {
      CoversLess(mp, m[t], Package(mp, b', t), Package(mp, b, t));
    }
  }

  lemma BroughtTo(mp: Mempool, b: set<Tx>, b': set<Tx>, m: map<Tx, Totals>, gone: set<Tx>)
    requires Brought(mp, b, b, m) && b <= b' && b' - b <= gone
    ensures Brought(mp, b', b', m - gone) && Brought(mp, b', b, m - gone)
  {
    ModifiedAfterAdding(mp, b, b', m, gone);
    forall t | t in m - gone ensures Reduced(mp, t, m[t], b') { ReducedMore(mp, t, m[t], b, b'); }
  }

  // ----- What is left out, and why

  datatype Rules = Rules(fIncludeWitness: bool, fIncludeMWEB: bool)

  /** The tests on a single transaction: final, and of a kind the template may have. */
  predicate Allowed(mp: Mempool, r: Rules, t: Tx) {
    && t in mp.mapTx && mp.mapTx[t].isFinal
    && (r.fIncludeWitness || !mp.mapTx[t].hasWitness) && (r.fIncludeMWEB || !mp.mapTx[t].hasMweb)
  }

  /** The totals fit into what is left of the block. */
  predicate Fits(b: Block, nBlockMaxWeight: int, e: Totals) {
    && b.weight + WITNESS_SCALE_FACTOR * e.size < nBlockMaxWeight
    && b.sigOps + e.sigOps < MAX_BLOCK_SIGOPS_COST && b.mweb + e.mweb < MAX_MINE_WEIGHT
  }

  /** What refusals by the MWEB leave behind: the transactions that stay out, and those that went
      in before them, which the index does not count as added. */
  datatype Refusals = Refusals(out: set<Tx>, uncounted: set<Tx>)

  const NONE := Refusals({}, {})

  /** Something still missing for t must not go in, or was refused by the MWEB. */
  ghost predicate Hindered(mp: Mempool, r: Rules, inBlock: set<Tx>, refused: Refusals, t: Tx)
    requires t in mp.anc
  {
    exists u :: u in Package(mp, inBlock, t) && (u in refused.out || !Allowed(mp, r, u))
  }

  /** What is missing for t next to the counted transactions does not fit.  The test counts sizes
      where the block counts weights, so the slack of what went in since may have decided it. */
  ghost predicate Crowded(mp: Mempool, b: Block, nBlockMaxWeight: int, counted: set<Tx>, t: Tx)
    requires t in mp.anc
  {
    var missing, present := Package(mp, counted, t), (mp.anc[t] + {t}) * counted;
    || b.weight + WITNESS_SCALE_FACTOR * Sum(mp.Size, missing) + Sum(mp.Slack, present) >= nBlockMaxWeight
    || b.sigOps + Sum(mp.SigOps, missing) >= MAX_BLOCK_SIGOPS_COST
    || b.mweb + Sum(mp.Mweb, missing) >= MAX_MINE_WEIGHT
  }

  /** Why t is not in the block: what is missing for it does not fit, or it is hindered. */
  ghost predicate Blocked(mp: Mempool, r: Rules, b: Block, nBlockMaxWeight: int, refused: Refusals, t: Tx) {
    && t in mp.mapTx && t in mp.anc
    && (Crowded(mp, b, nBlockMaxWeight, b.inBlock - refused.uncounted, t) || Hindered(mp, r, b.inBlock, refused, t))
  }

  /** The failed transactions stay out for a reason. */
  ghost predicate FailedOk(mp: Mempool, r: Rules, b: Block, nBlockMaxWeight: int, refused: Refusals, failed: set<Tx>) {
    && failed !! b.inBlock && refused.out <= failed && refused.uncounted <= b.inBlock
    && forall t :: t in failed ==> Blocked(mp, r, b, nBlockMaxWeight, refused, t)
  }

  /** The block grew by the figures of what it gained. */
  ghost predicate Heavier(mp: Mempool, b: Block, b': Block) {
    var more := b'.inBlock - b.inBlock;
    && b.inBlock <= b'.inBlock && b'.weight == b.weight + Sum(mp.Weight, more)
    && b'.sigOps == b.sigOps + Sum(mp.SigOps, more) && b'.mweb == b.mweb + Sum(mp.Mweb, more)
  }

  lemma PrefixIsHeavier(mp: Mempool, b: Block, s: seq<Tx>, k: nat)
    requires Sorted(mp, s) && Elements(s) !! b.inBlock && k <= |s|
    ensures Heavier(mp, b, AddedAll(mp, b, s[..k]))
  {
    var p := Elements(s[..k]);
    AddedPrefix(mp, b, s, k);
    assert p !! b.inBlock by { assert forall t :: t in s[..k] ==> t in s; }
    assert b.inBlock + p - b.inBlock == p;
  }

  /** Refusals add up, and what they leave uncounted is new in the block. */
  ghost predicate MoreRefused(inBlock: set<Tx>, refused: Refusals, refused': Refusals) {
    && refused.out <= refused'.out && refused.uncounted <= refused'.uncounted
    && refused'.uncounted - refused.uncounted !! inBlock
  }

  /** The block grew by allowed transactions that had not failed, and refused ones stay out. */
  ghost predicate Grew(mp: Mempool, r: Rules, b: Block, b': Block, failed: set<Tx>, refused: Refusals, refused': Refusals) {
    && Heavier(mp, b, b') && refused'.out !! b'.inBlock && MoreRefused(b.inBlock, refused, refused')
    && forall t :: t in b'.inBlock && t !in b.inBlock ==> Allowed(mp, r, t) && t !in failed
  }

  lemma {:induction false} SlackIs(mp: Mempool, s: set<Tx>)
    ensures Sum(mp.Slack, s) == WITNESS_SCALE_FACTOR * Sum(mp.Size, s) - Sum(mp.Weight, s)
    decreases |s|
  {
    if s != {} { SlackIs(mp, s - {Any(s)}); }
  }

  /** What is counted moves from the missing to the present, and its weight into the block. */
  lemma CrowdedLater(mp: Mempool, b: Block, b': Block, nBlockMaxWeight: int, counted: set<Tx>, more: set<Tx>, t: Tx)
    requires t in mp.anc && Crowded(mp, b, nBlockMaxWeight, counted, t) && Heavier(mp, b, b')
    requires more !! counted && more <= b'.inBlock - b.inBlock
    ensures Crowded(mp, b', nBlockMaxWeight, counted + more, t)
  {
    var whole := mp.anc[t] + {t};
    var q, missing, present := whole * more, Package(mp, counted + more, t), whole * counted;
    assert missing + q == Package(mp, counted, t) && present + q == whole * (counted + more);
    SumUnion(mp.Size, missing, q);
    SumUnion(mp.SigOps, missing, q);
    SumUnion(mp.Mweb, missing, q);
    SumUnion(mp.Slack, present, q);
    SlackIs(mp, q);
    SumWithin(mp.Weight, q, b'.inBlock - b.inBlock);
    SumWithin(mp.SigOps, q, b'.inBlock - b.inBlock);
    SumWithin(mp.Mweb, q, b'.inBlock - b.inBlock);
  }

  lemma BlockedLater(mp: Mempool, r: Rules, b: Block, b': Block, nBlockMaxWeight: int, failed: set<Tx>,
      refused: Refusals, refused': Refusals, t: Tx)
    requires Blocked(mp, r, b, nBlockMaxWeight, refused, t) && Grew(mp, r, b, b', failed, refused, refused')
    ensures Blocked(mp, r, b', nBlockMaxWeight, refused', t)
  {
    if Hindered(mp, r, b.inBlock, refused, t) {
      var u :| u in Package(mp, b.inBlock, t) && (u in refused.out || !Allowed(mp, r, u));
      assert u in Package(mp, b'.inBlock, t);
    } else {
      var counted, more := b.inBlock - refused.uncounted, b'.inBlock - b.inBlock - refused'.uncounted;
      CrowdedLater(mp, b, b', nBlockMaxWeight, counted, more, t);
      assert counted + more == b'.inBlock - refused'.uncounted;
    }
  }

  lemma FailedLater(mp: Mempool, r: Rules, b: Block, b': Block, nBlockMaxWeight: int, failed: set<Tx>,
      refused: Refusals, refused': Refusals, more: set<Tx>)
    requires FailedOk(mp, r, b, nBlockMaxWeight, refused, failed) && Grew(mp, r, b, b', failed, refused, refused')
    requires refused'.out == refused.out + more && refused'.uncounted <= b'.inBlock
    requires forall t :: t in more ==> t in mp.mapTx && t in mp.anc
    ensures FailedOk(mp, r, b', nBlockMaxWeight, refused', failed + more)
  {
    forall t | t in failed + more ensures Blocked(mp, r, b', nBlockMaxWeight, refused', t) {
      if t in failed {
        BlockedLater(mp, r, b, b', nBlockMaxWeight, failed, refused, refused', t);
      } else {
        assert t in Package(mp, b'.inBlock, t);
      }
    }
  }

  lemma CachedIs(mp: Mempool, t: Tx)
    requires mp.WellFormed() && t in mp.anc
    ensures t in mp.mapTx
    ensures var w, s := mp.mapTx[t].withAncestors, mp.anc[t] + {t};
            w.size == Sum(mp.Size, s) && w.sigOps == Sum(mp.SigOps, s) && w.mweb == Sum(mp.Mweb, s)
  {
    mp.WellFormedMeans();
    assert t in mp.anc.Keys;
  }

  lemma WithinAncestors(mp: Mempool, u: Tx, t: Tx)
    requires mp.WellFormed() && t in mp.anc && u in mp.anc[t] + {t}
    ensures u in mp.anc && mp.anc[u] + {u} <= mp.anc[t] + {t}
  {
    mp.WellFormedMeans();
    if u != t { assert mp.IsAncestor(u, t); }
  }

  lemma NoNegativeSlack(mp: Mempool)
    requires mp.WellFormed()
    ensures forall t :: mp.Slack(t) >= 0
  {
    mp.WellFormedMeans();
  }

  lemma CrowdedThrough(mp: Mempool, b: Block, nBlockMaxWeight: int, counted: set<Tx>, u: Tx, t: Tx)
    requires mp.WellFormed() && t in mp.anc && u in mp.anc[t] + {t}
    requires u in mp.anc && Crowded(mp, b, nBlockMaxWeight, counted, u)
    ensures Crowded(mp, b, nBlockMaxWeight, counted, t)
  {
    WithinAncestors(mp, u, t);
    NoNegativeSlack(mp);
    SumWithin(mp.Size, Package(mp, counted, u), Package(mp, counted, t));
    SumWithin(mp.SigOps, Package(mp, counted, u), Package(mp, counted, t));
    SumWithin(mp.Mweb, Package(mp, counted, u), Package(mp, counted, t));
    SumWithin(mp.Slack, (mp.anc[u] + {u}) * counted, (mp.anc[t] + {t}) * counted);
  }

  /** What keeps a missing ancestor out keeps its descendants out. */
  lemma BlockedThrough(mp: Mempool, r: Rules, b: Block, nBlockMaxWeight: int, refused: Refusals, u: Tx, t: Tx)
    requires mp.WellFormed() && t in mp.anc && u in Package(mp, b.inBlock, t)
             && Blocked(mp, r, b, nBlockMaxWeight, refused, u)
    ensures Blocked(mp, r, b, nBlockMaxWeight, refused, t)
  {
    CachedIs(mp, t);
    WithinAncestors(mp, u, t);
    if Hindered(mp, r, b.inBlock, refused, u) {
      var v :| v in Package(mp, b.inBlock, u) && (v in refused.out || !Allowed(mp, r, v));
      assert v in Package(mp, b.inBlock, t);
    } else {
      CrowdedThrough(mp, b, nBlockMaxWeight, b.inBlock - refused.uncounted, u, t);
    }
  }

  /** A package that is tested and fails the tests is blocked. */
  lemma TestedIsBlocked(mp: Mempool, r: Rules, b: Block, nBlockMaxWeight: int, refused: Refusals, failed: set<Tx>, t: Tx,
      e: Totals)
    requires mp.WellFormed() && t in mp.anc && t !in b.inBlock && FailedOk(mp, r, b, nBlockMaxWeight, refused, failed)
    requires t in failed || Exact(mp, e, Package(mp, b.inBlock - refused.uncounted, t))
    requires !Fits(b, nBlockMaxWeight, e) || exists u :: u in Package(mp, b.inBlock, t) && (u in failed || !Allowed(mp, r, u))
    ensures Blocked(mp, r, b, nBlockMaxWeight, refused, t)
  {
    CachedIs(mp, t);
    if t in failed {
    } else if Fits(b, nBlockMaxWeight, e) {
      var u :| u in Package(mp, b.inBlock, t) && (u in failed || !Allowed(mp, r, u));
      if u in failed { BlockedThrough(mp, r, b, nBlockMaxWeight, refused, u, t); }
    } else {
      NoNegativeSlack(mp);
      SumWithin(mp.Slack, {}, (mp.anc[t] + {t}) * (b.inBlock - refused.uncounted));
    }
  }

  /** Why a transaction is outside when nothing was refused: part of its package must not go in, or
      the package does not fit next to the block.  In the weight test a package counts by its
      size, and so do its ancestors in the block. */
  lemma KeptOut(mp: Mempool, r: Rules, b: Block, nBlockMaxWeight: int, t: Tx)
    requires Blocked(mp, r, b, nBlockMaxWeight, NONE, t) && t !in b.inBlock
    ensures var missing := Package(mp, b.inBlock, t);
            || (exists u :: u in missing && (u !in mp.mapTx || !mp.mapTx[u].isFinal
                  || (mp.mapTx[u].hasWitness && !r.fIncludeWitness) || (mp.mapTx[u].hasMweb && !r.fIncludeMWEB)))
            || b.weight + WITNESS_SCALE_FACTOR * Sum(mp.Size, missing) + Sum(mp.Slack, mp.anc[t] * b.inBlock) >= nBlockMaxWeight
            || b.sigOps + Sum(mp.SigOps, missing) >= MAX_BLOCK_SIGOPS_COST
            || b.mweb + Sum(mp.Mweb, missing) >= MAX_MINE_WEIGHT
  {
    assert b.inBlock - {} == b.inBlock && (mp.anc[t] + {t}) * b.inBlock == mp.anc[t] * b.inBlock;
  }

  lemma CrowdedFailsAgain(mp: Mempool, b: Block, nBlockMaxWeight: int, counted: set<Tx>, t: Tx)
    requires mp.WellFormed() && t in mp.anc && t in mp.mapTx && Crowded(mp, b, nBlockMaxWeight, counted, t)
    ensures !Fits(b, nBlockMaxWeight, mp.mapTx[t].withAncestors)
  {
    var missing, present := Package(mp, counted, t), (mp.anc[t] + {t}) * counted;
    CachedIs(mp, t);
    assert missing + present == mp.anc[t] + {t};
    SumUnion(mp.Size, missing, present);
    SumUnion(mp.SigOps, missing, present);
    SumUnion(mp.Mweb, missing, present);
    SlackIs(mp, present);
    SumWithin(mp.Weight, {}, present);
    SumWithin(mp.SigOps, {}, present);
    SumWithin(mp.Mweb, {}, present);
  }

  /** A failed entry that is evaluated once more later, with the mempool's own totals, fails again:
      not only because it is marked failed, but by the tests themselves or for want of something
      that was refused. */
  lemma FailsAgain(mp: Mempool, r: Rules, b: Block, b': Block, nBlockMaxWeight: int, failed: set<Tx>, refused: Refusals,
      refused': Refusals, t: Tx)
    requires mp.WellFormed() && FailedOk(mp, r, b, nBlockMaxWeight, refused, failed) && t in failed
    requires Grew(mp, r, b, b', failed, refused, refused')
    ensures t in mp.mapTx && t in mp.anc && t !in b'.inBlock
    ensures || !Fits(b', nBlockMaxWeight, mp.mapTx[t].withAncestors)
            || exists u :: u in Package(mp, b'.inBlock, t) && (u in refused'.out || !Allowed(mp, r, u))
  {
    BlockedLater(mp, r, b, b', nBlockMaxWeight, failed, refused, refused', t);
    if !Hindered(mp, r, b'.inBlock, refused', t) {
      CrowdedFailsAgain(mp, b', nBlockMaxWeight, b'.inBlock - refused'.uncounted, t);
    }
  }

  /** The part of a package that goes in: all of it, or what comes before a refused MWEB transaction. */
  ghost predicate Prefix(mp: Mempool, pkg: set<Tx>, taken: set<Tx>) {
    && taken <= pkg <= mp.mapTx.Keys
    && (taken == pkg || exists t :: t in pkg && t !in taken && mp.mapTx[t].hasMweb && IsBefore(mp, pkg, taken, t))
  }

  ghost predicate IsBefore(mp: Mempool, pkg: set<Tx>, taken: set<Tx>, t: Tx)
    requires pkg <= mp.mapTx.Keys && t in mp.mapTx
  {
    forall u :: u in pkg ==> (u in taken <==> Before(mp, u, t))
  }

  lemma PrefixIs(mp: Mempool, s: seq<Tx>, k: nat, pkg: set<Tx>)
    requires Sorted(mp, s) && Elements(s) == pkg && k <= |s| && (k < |s| ==> s[k] in mp.mapTx && mp.mapTx[s[k]].hasMweb)
    ensures Prefix(mp, pkg, Elements(s[..k])) && Elements(s[k..]) == pkg - Elements(s[..k])
    ensures Elements(s[..k]) == pkg <==> k == |s|
  {
    var taken := Elements(s[..k]);
    assert s == s[..k] + s[k..];
    forall i, j | 0 <= i < k <= j < |s| ensures s[i] != s[j] { assert Before(mp, s[i], s[j]); }
    if k == |s| {
      assert s[..k] == s;
    } else {
      assert s[k] in pkg && s[k] !in taken;
      forall u | u in pkg ensures u in taken <==> Before(mp, u, s[k]) {
        var i :| 0 <= i < |s| && s[i] == u;
        if i < k { assert s[..k][i] == u; } else if i > k { assert Before(mp, s[k], u); }
      }
      assert IsBefore(mp, pkg, taken, s[k]);
    }
  }

  /** Between two turns of the selection: only allowed transactions were added since the start,
      and everything marked failed stays out for a reason. */
  ghost predicate Selecting(mp: Mempool, r: Rules, start: set<Tx>, b: Block, nBlockMaxWeight: int, refused: Refusals,
      failed: set<Tx>)
  {
    && FailedOk(mp, r, b, nBlockMaxWeight, refused, failed)
    && (forall t :: t in b.inBlock && t !in start ==> Allowed(mp, r, t))
    && (refused != NONE ==> exists t :: t in refused.out && t in mp.mapTx && mp.mapTx[t].hasMweb)
  }

  /** The first n transactions of the list are in the block, recorded in the index, or blocked. */
  ghost predicate Settled(mp: Mempool, r: Rules, b: Block, nBlockMaxWeight: int, refused: Refusals, m: map<Tx, Totals>,
      list: seq<Tx>, n: nat)
  {
    n <= |list| && forall i :: 0 <= i < n ==>
      list[i] in b.inBlock || list[i] in m || Blocked(mp, r, b, nBlockMaxWeight, refused, list[i])
  }

  /** The totals are the mempool's own for t, or those less what is in the block already. */
  ghost predicate Figured(mp: Mempool, t: Tx, e: Totals, b: set<Tx>) {
    t in mp.mapTx && (e == mp.mapTx[t].withAncestors || Reduced(mp, t, e, b))
  }

  /** All that holds between two turns; `start` is the block at the beginning. */
  ghost predicate Standing(mp: Mempool, r: Rules, start: set<Tx>, b: Block, nBlockMaxWeight: int, refused: Refusals,
      failed: set<Tx>, m: map<Tx, Totals>, list: seq<Tx>, n: nat)
  {
    && Brought(mp, b.inBlock, b.inBlock, m) && start <= b.inBlock
    && Tallied(mp, b.inBlock, b.inBlock - refused.uncounted, failed, m)
    && Selecting(mp, r, start, b, nBlockMaxWeight, refused, failed)
    && Settled(mp, r, b, nBlockMaxWeight, refused, m, list, n)
  }

  predicate Reached(n: nat) { true }

  ghost predicate IsReady(yes: bool, mp: Mempool, r: Rules, start: set<Tx>, b: Block, nBlockMaxWeight: int, refused: Refusals,
      failed: set<Tx>, m: map<Tx, Totals>, list: seq<Tx>, n: nat)
  {
    forall k: nat {:trigger Reached(k)} :: k == n ==>
      yes == Standing(mp, r, start, b, nBlockMaxWeight, refused, failed, m, list, k)
  }

  /** Standing, which `ReadyMeans` says. */
  ghost predicate Ready(mp: Mempool, r: Rules, start: set<Tx>, b: Block, nBlockMaxWeight: int, refused: Refusals,
      failed: set<Tx>, m: map<Tx, Totals>, list: seq<Tx>, n: nat)
  {
    assert IsReady(Standing(mp, r, start, b, nBlockMaxWeight, refused, failed, m, list, n), mp, r, start, b,
        nBlockMaxWeight, refused, failed, m, list, n);
    var yes :| IsReady(yes, mp, r, start, b, nBlockMaxWeight, refused, failed, m, list, n);
    yes
  }

  lemma ReadyMeans(mp: Mempool, r: Rules, start: set<Tx>, b: Block, nBlockMaxWeight: int, refused: Refusals,
      failed: set<Tx>, m: map<Tx, Totals>, list: seq<Tx>, n: nat)
    ensures Ready(mp, r, start, b, nBlockMaxWeight, refused, failed, m, list, n)
            <==> Standing(mp, r, start, b, nBlockMaxWeight, refused, failed, m, list, n)
  {
    assert IsReady(Ready(mp, r, start, b, nBlockMaxWeight, refused, failed, m, list, n), mp, r, start, b, nBlockMaxWeight,
        refused, failed, m, list, n);
    assert Reached(n);
  }

  lemma ReadyFirst(mp: Mempool, r: Rules, b: Block, nBlockMaxWeight: int, m: map<Tx, Totals>, list: seq<Tx>)
    requires mp.WellFormed() && Brought(mp, b.inBlock, b.inBlock, m) && TakenOff(mp, map[], m, b.inBlock, b.inBlock)
    ensures Ready(mp, r, b.inBlock, b, nBlockMaxWeight, NONE, {}, m, list, 0)
  {
    TalliedFirst(mp, b.inBlock);
    TalliedNext(mp, b.inBlock, {}, {}, map[], m, b.inBlock);
    assert {} + b.inBlock == b.inBlock - {};
    ReadyMeans(mp, r, b.inBlock, b, nBlockMaxWeight, NONE, {}, m, list, 0);
  }

  /** What the selection promises at its end. */
  ghost predicate Selection(mp: Mempool, r: Rules, start: set<Tx>, b: Block, refused: Refusals) {
    && start <= b.inBlock && refused.out !! b.inBlock && refused.uncounted <= b.inBlock
    && (forall t :: t in b.inBlock && t !in start ==>
          && t in mp.mapTx && mp.mapTx[t].isFinal
          && (r.fIncludeWitness || !mp.mapTx[t].hasWitness) && (r.fIncludeMWEB || !mp.mapTx[t].hasMweb))
    && (refused != NONE ==> exists t :: t in refused.out && t in mp.mapTx && mp.mapTx[t].hasMweb)
  }

  lemma ReadyEnds(mp: Mempool, r: Rules, start: set<Tx>, b: Block, nBlockMaxWeight: int, refused: Refusals,
      failed: set<Tx>, m: map<Tx, Totals>, list: seq<Tx>, n: nat)
    requires Ready(mp, r, start, b, nBlockMaxWeight, refused, failed, m, list, n)
    ensures Selection(mp, r, start, b, refused) && Settled(mp, r, b, nBlockMaxWeight, refused, m, list, n)
  {
    ReadyMeans(mp, r, start, b, nBlockMaxWeight, refused, failed, m, list, n);
  }

  lemma ReadyBrought(mp: Mempool, r: Rules, start: set<Tx>, b: Block, nBlockMaxWeight: int, refused: Refusals,
      failed: set<Tx>, m: map<Tx, Totals>, list: seq<Tx>, n: nat)
    requires Ready(mp, r, start, b, nBlockMaxWeight, refused, failed, m, list, n)
    ensures Brought(mp, b.inBlock, b.inBlock, m)
  {
    ReadyMeans(mp, r, start, b, nBlockMaxWeight, refused, failed, m, list, n);
  }

  /** A candidate that is done with. */
  lemma ReadyNext(mp: Mempool, r: Rules, start: set<Tx>, b: Block, nBlockMaxWeight: int, refused: Refusals,
      failed: set<Tx>, m: map<Tx, Totals>, list: seq<Tx>, n: nat)
    requires Ready(mp, r, start, b, nBlockMaxWeight, refused, failed, m, list, n) && n < |list|
    requires || list[n] in m || list[n] in b.inBlock || list[n] in failed
             || Blocked(mp, r, b, nBlockMaxWeight, refused, list[n])
    ensures Ready(mp, r, start, b, nBlockMaxWeight, refused, failed, m, list, n + 1)
  {
    ReadyMeans(mp, r, start, b, nBlockMaxWeight, refused, failed, m, list, n);
    ReadyMeans(mp, r, start, b, nBlockMaxWeight, refused, failed, m, list, n + 1);
  }

  /** What is known of a candidate. */
  lemma ReadyKnown(mp: Mempool, r: Rules, start: set<Tx>, b: Block, nBlockMaxWeight: int, refused: Refusals,
      failed: set<Tx>, m: map<Tx, Totals>, list: seq<Tx>, n: nat, iter: Tx, fUsingModified: bool, e: Totals)
    requires Ready(mp, r, start, b, nBlockMaxWeight, refused, failed, m, list, n) && mp.WellFormed()
    requires if fUsingModified then iter in m && e == m[iter]
             else iter in mp.mapTx && iter !in m && iter !in b.inBlock && e == mp.mapTx[iter].withAncestors
    ensures iter in mp.mapTx && iter in mp.anc && iter !in b.inBlock && Covers(mp, e, Package(mp, b.inBlock, iter))
    ensures Figured(mp, iter, e, b.inBlock)
    ensures iter in failed || Exact(mp, e, Package(mp, b.inBlock - refused.uncounted, iter))
  {
    ReadyMeans(mp, r, start, b, nBlockMaxWeight, refused, failed, m, list, n);
    Known(mp, iter, b.inBlock, m, fUsingModified);
  }

  /** The refusals after part of a package went in; a whole one leaves none. */
  function Refused(refused: Refusals, pkg: set<Tx>, taken: set<Tx>): Refusals {
    if taken == pkg then refused else Refusals(refused.out + (pkg - taken), refused.uncounted + taken)
  }

  lemma TookSelecting(mp: Mempool, r: Rules, start: set<Tx>, b: Block, b': Block, nBlockMaxWeight: int, refused: Refusals,
      failed: set<Tx>, pkg: set<Tx>, taken: set<Tx>)
    requires mp.mapTx.Keys == mp.anc.Keys && Selecting(mp, r, start, b, nBlockMaxWeight, refused, failed)
    requires Prefix(mp, pkg, taken) && pkg !! b.inBlock && b'.inBlock == b.inBlock + taken && Heavier(mp, b, b')
    requires forall t :: t in pkg ==> Allowed(mp, r, t) && t !in failed
    ensures Grew(mp, r, b, b', failed, refused, Refused(refused, pkg, taken))
    ensures Selecting(mp, r, start, b', nBlockMaxWeight, Refused(refused, pkg, taken), failed + (pkg - taken))
  {
    var refused' := Refused(refused, pkg, taken);
    assert forall t :: t in pkg ==> t in mp.mapTx.Keys;
    assert refused'.out == refused.out + (pkg - taken);
    FailedLater(mp, r, b, b', nBlockMaxWeight, failed, refused, refused', pkg - taken);
  }

  lemma TookSettled(mp: Mempool, r: Rules, b: Block, b': Block, nBlockMaxWeight: int, refused: Refusals,
      refused': Refusals, failed: set<Tx>, failed': set<Tx>, m: map<Tx, Totals>, m': map<Tx, Totals>, pkg: set<Tx>,
      taken: set<Tx>, list: seq<Tx>, n: nat)
    requires Settled(mp, r, b, nBlockMaxWeight, refused, m, list, n) && Grew(mp, r, b, b', failed, refused, refused')
    requires FailedOk(mp, r, b', nBlockMaxWeight, refused', failed') && pkg - taken <= failed'
    requires b'.inBlock == b.inBlock + taken && m.Keys - pkg <= m'.Keys
    ensures Settled(mp, r, b', nBlockMaxWeight, refused', m', list, n)
  {
    forall i | 0 <= i < n
      ensures list[i] in b'.inBlock || list[i] in m' || Blocked(mp, r, b', nBlockMaxWeight, refused', list[i])
    {
      if list[i] in m.Keys - pkg {
        assert list[i] in m'.Keys;
      } else if list[i] !in b'.inBlock && list[i] !in m {
        BlockedLater(mp, r, b, b', nBlockMaxWeight, failed, refused, refused', list[i]);
      }
    }
  }

  /** The index counts a package that went in whole, and nothing of one that was refused. */
  lemma TookTallied(mp: Mempool, b: set<Tx>, refused: Refusals, failed: set<Tx>, m: map<Tx, Totals>, m': map<Tx, Totals>,
      pkg: set<Tx>, taken: set<Tx>)
    requires Tallied(mp, b, b - refused.uncounted, failed, m) && refused.uncounted <= b && taken <= pkg && pkg !! b
    requires if taken == pkg then TakenOff(mp, m - pkg, m', pkg, pkg) else m' == m - pkg
    ensures Tallied(mp, b + taken, b + taken - Refused(refused, pkg, taken).uncounted, failed + (pkg - taken), m')
  {
    var counted := b - refused.uncounted;
    TalliedWithout(mp, b, b + taken, counted, failed, failed + (pkg - taken), m, pkg);
    if taken == pkg {
      TalliedNext(mp, b + pkg, counted, failed + (pkg - taken), m - pkg, m', pkg);
      assert counted + pkg == b + pkg - refused.uncounted;
    } else {
      assert counted == b + taken - (refused.uncounted + taken);
    }
  }

  /** A package, or the part of it before a refusal, went in; the rest failed. */
  ghost predicate TookPackage(mp: Mempool, b: Block, b': Block, pkg: set<Tx>, taken: set<Tx>, m: map<Tx, Totals>,
      m': map<Tx, Totals>, failed: set<Tx>, failed': set<Tx>)
  {
    && Prefix(mp, pkg, taken) && b'.inBlock == b.inBlock + taken && Heavier(mp, b, b')
    && failed' == failed + (pkg - taken) && m.Keys - pkg <= m'.Keys
    && (if taken == pkg then TakenOff(mp, m - pkg, m', pkg, pkg) else m' == m - pkg)
  }

  /** Nothing went in; an entry of the modified index is dropped for good. */
  ghost predicate SetAside(b: Block, b': Block, iter: Tx, fUsingModified: bool, taken: set<Tx>, m: map<Tx, Totals>,
      m': map<Tx, Totals>, failed: set<Tx>, failed': set<Tx>)
  {
    && b' == b && taken == {}
    && m' == (if fUsingModified then m - {iter} else m)
    && failed' == if fUsingModified then failed + {iter} else failed
  }

  lemma TookReady(mp: Mempool, r: Rules, start: set<Tx>, b: Block, b': Block, nBlockMaxWeight: int, refused: Refusals,
      failed: set<Tx>, failed': set<Tx>, m: map<Tx, Totals>, m': map<Tx, Totals>, pkg: set<Tx>, taken: set<Tx>,
      list: seq<Tx>, n: nat, iter: Tx)
    requires mp.WellFormed() && Ready(mp, r, start, b, nBlockMaxWeight, refused, failed, m, list, n)
    requires TookPackage(mp, b, b', pkg, taken, m, m', failed, failed') && pkg !! b.inBlock && iter in pkg
    requires forall t :: t in pkg ==> Allowed(mp, r, t) && t !in failed
    requires Brought(mp, b'.inBlock, b'.inBlock, m')
    ensures Ready(mp, r, start, b', nBlockMaxWeight, Refused(refused, pkg, taken), failed', m', list, n)
    ensures iter in b'.inBlock || Blocked(mp, r, b', nBlockMaxWeight, Refused(refused, pkg, taken), iter)
  {
    var refused' := Refused(refused, pkg, taken);
    ReadyMeans(mp, r, start, b, nBlockMaxWeight, refused, failed, m, list, n);
    assert mp.mapTx.Keys == mp.anc.Keys by { mp.WellFormedMeans(); }
    TookSelecting(mp, r, start, b, b', nBlockMaxWeight, refused, failed, pkg, taken);
    TookSettled(mp, r, b, b', nBlockMaxWeight, refused, refused', failed, failed', m, m', pkg, taken, list, n);
    TookTallied(mp, b.inBlock, refused, failed, m, m', pkg, taken);
    ReadyMeans(mp, r, start, b', nBlockMaxWeight, refused', failed', m', list, n);
  }

  lemma AsideReady(mp: Mempool, r: Rules, start: set<Tx>, b: Block, nBlockMaxWeight: int, refused: Refusals,
      failed: set<Tx>, failed': set<Tx>, m: map<Tx, Totals>, m': map<Tx, Totals>, list: seq<Tx>, n: nat, iter: Tx,
      e: Totals, fUsingModified: bool)
    requires mp.WellFormed() && Ready(mp, r, start, b, nBlockMaxWeight, refused, failed, m, list, n)
    requires SetAside(b, b, iter, fUsingModified, {}, m, m', failed, failed') && Brought(mp, b.inBlock, b.inBlock, m')
    requires iter in mp.anc && iter in mp.mapTx && iter !in b.inBlock
    requires iter in failed || Exact(mp, e, Package(mp, b.inBlock - refused.uncounted, iter))
    requires || !Fits(b, nBlockMaxWeight, e)
             || exists u :: u in Package(mp, b.inBlock, iter) && (u in failed || !Allowed(mp, r, u))
    ensures Ready(mp, r, start, b, nBlockMaxWeight, refused, failed', m', list, n)
    ensures Blocked(mp, r, b, nBlockMaxWeight, refused, iter)
  {
    ReadyMeans(mp, r, start, b, nBlockMaxWeight, refused, failed, m, list, n);
    TestedIsBlocked(mp, r, b, nBlockMaxWeight, refused, failed, iter, e);
    var gone := if fUsingModified then {iter} else {};
    assert m' == m - gone;
    TalliedWithout(mp, b.inBlock, b.inBlock, b.inBlock - refused.uncounted, failed, failed', m, gone);
    ReadyMeans(mp, r, start, b, nBlockMaxWeight, refused, failed', m', list, n);
  }

  datatype Outcome = NoRoom | Unsuitable | Selected

  /** How many recorded entries are brought up to date: those of a package that went in whole. */
  ghost function Updates(mp: Mempool, pkg: set<Tx>, outcome: Outcome, taken: set<Tx>): int {
    if outcome == Selected && taken == pkg then Sum(Touched(mp, pkg), pkg) else 0
  }

  /** One candidate that paid enough to be looked at: its totals, the block then, what the tests
      said, and what went in. */
  datatype Look = Look(iter: Tx, e: Totals, before: Block, outcome: Outcome, taken: set<Tx>)

  /** The totals were those on record, and they pay. */
  ghost predicate Pays(mp: Mempool, minFee: (int, int) -> int, l: Look) {
    Figured(mp, l.iter, l.e, l.before.inBlock) && l.e.modFees >= minFee(l.e.size, l.e.mweb)
  }

  /** The tests decide what happens: nothing, or the package goes in, up to a refusal. */
  ghost predicate Tested(mp: Mempool, r: Rules, nBlockMaxWeight: int, l: Look, b: Block) {
    && l.iter in mp.anc && (l.outcome == NoRoom <==> !Fits(l.before, nBlockMaxWeight, l.e))
    && var pkg := Package(mp, l.before.inBlock, l.iter);
       if l.outcome == Selected then
         && Prefix(mp, pkg, l.taken) && b.inBlock == l.before.inBlock + l.taken
         && forall t :: t in pkg ==> Allowed(mp, r, t)
       else b == l.before && l.taken == {}
  }

  /** How many candidates found no room since one was selected. */
  ghost function Failures(looks: seq<Look>): nat {
    if looks == [] then 0
    else
      match looks[|looks| - 1].outcome
      case NoRoom => Failures(looks[..|looks| - 1]) + 1
      case Unsuitable => Failures(looks[..|looks| - 1])
      case Selected => 0
  }

  /** The loop gives up: nearly full, and too many candidates in a row found no room. */
  ghost predicate GivesUp(b: Block, nBlockMaxWeight: int, looks: seq<Look>) {
    && looks != [] && looks[|looks| - 1].outcome == NoRoom
    && Failures(looks) > 1000 && b.weight > nBlockMaxWeight - 4000
  }

  /** From the block `start` the loop came to b by looking at these candidates, without reason to
      give up before the last. */
  ghost predicate Looked(mp: Mempool, r: Rules, nBlockMaxWeight: int, minFee: (int, int) -> int, start: Block, b: Block,
      looks: seq<Look>)
    decreases |looks|
  {
    if looks == [] then b == start
    else
      var l := looks[|looks| - 1];
      && Looked(mp, r, nBlockMaxWeight, minFee, start, l.before, looks[..|looks| - 1])
      && !GivesUp(l.before, nBlockMaxWeight, looks[..|looks| - 1])
      && Pays(mp, minFee, l) && Tested(mp, r, nBlockMaxWeight, l, b)
  }

  lemma LookedMore(mp: Mempool, r: Rules, nBlockMaxWeight: int, minFee: (int, int) -> int, start: Block, b: Block,
      looks: seq<Look>, l: Look)
    requires Looked(mp, r, nBlockMaxWeight, minFee, start, l.before, looks) && !GivesUp(l.before, nBlockMaxWeight, looks)
    requires Pays(mp, minFee, l) && Tested(mp, r, nBlockMaxWeight, l, b)
    ensures Looked(mp, r, nBlockMaxWeight, minFee, start, b, looks + [l])
  {
    assert (looks + [l])[..|looks|] == looks;
  }

  /** The packages selected, and the entries brought up to date for them. */
  ghost function Packages(looks: seq<Look>): nat {
    if looks == [] then 0 else Packages(looks[..|looks| - 1]) + if looks[|looks| - 1].outcome == Selected then 1 else 0
  }

  ghost function AllUpdates(mp: Mempool, looks: seq<Look>): int {
    if looks == [] then 0
    else
      var l := looks[|looks| - 1];
      AllUpdates(mp, looks[..|looks| - 1])
      + if l.iter in mp.anc then Updates(mp, Package(mp, l.before.inBlock, l.iter), l.outcome, l.taken) else 0
  }

  lemma CountsMore(mp: Mempool, looks: seq<Look>, l: Look)
    requires l.iter in mp.anc
    ensures Packages(looks + [l]) == Packages(looks) + if l.outcome == Selected then 1 else 0
    ensures AllUpdates(mp, looks + [l])
         == AllUpdates(mp, looks) + Updates(mp, Package(mp, l.before.inBlock, l.iter), l.outcome, l.taken)
    ensures Failures(looks + [l]) ==
      match l.outcome case NoRoom => Failures(looks) + 1 case Unsuitable => Failures(looks) case Selected => 0
  {
    assert (looks + [l])[..|looks|] == looks;
  }

  /** The counters of the loop: packages selected, entries brought up to date, failures in a row;
      and whether it gives up. */
  datatype Tally = Tally(nSelected: int, nUpdated: int, nFailed: int, givesUp: bool)

  ghost function Counted(t: Tally, mp: Mempool, nBlockMaxWeight: int, b: Block, l: Look): Tally {
    match l.outcome
    case NoRoom =>
      t.(nFailed := t.nFailed + 1,
         givesUp := t.nFailed + 1 > MAX_CONSECUTIVE_FAILURES && b.weight > nBlockMaxWeight - 4000)
    case Unsuitable => t.(givesUp := false)
    case Selected =>
      Tally(t.nSelected + 1,
            t.nUpdated + if l.iter in mp.anc then Updates(mp, Package(mp, l.before.inBlock, l.iter), Selected, l.taken) else 0,
            0, false)
  }

  /** The counters say what the candidates so far came to. */
  ghost predicate IsTracked(mp: Mempool, r: Rules, nBlockMaxWeight: int, minFee: (int, int) -> int, start: Block, b: Block,
      looks: seq<Look>, t: Tally)
  {
    && Looked(mp, r, nBlockMaxWeight, minFee, start, b, looks)
    && t == Tally(Packages(looks), AllUpdates(mp, looks), Failures(looks), GivesUp(b, nBlockMaxWeight, looks))
  }

  predicate Done(looks: seq<Look>) { true }

  ghost predicate TellsTracked(yes: bool, mp: Mempool, r: Rules, nBlockMaxWeight: int, minFee: (int, int) -> int,
      start: Block, b: Block, looks: seq<Look>, t: Tally)
  {
    forall x: seq<Look> {:trigger Done(x)} :: x == looks ==>
      yes == IsTracked(mp, r, nBlockMaxWeight, minFee, start, b, x, t)
  }

  /** IsTracked, which `TrackedMeans` says. */
  ghost predicate Tracked(mp: Mempool, r: Rules, nBlockMaxWeight: int, minFee: (int, int) -> int, start: Block, b: Block,
      looks: seq<Look>, t: Tally)
  {
    assert TellsTracked(IsTracked(mp, r, nBlockMaxWeight, minFee, start, b, looks, t), mp, r, nBlockMaxWeight, minFee,
        start, b, looks, t);
    var yes :| TellsTracked(yes, mp, r, nBlockMaxWeight, minFee, start, b, looks, t);
    yes
  }

  lemma TrackedMeans(mp: Mempool, r: Rules, nBlockMaxWeight: int, minFee: (int, int) -> int, start: Block, b: Block,
      looks: seq<Look>, t: Tally)
    ensures Tracked(mp, r, nBlockMaxWeight, minFee, start, b, looks, t)
       <==> IsTracked(mp, r, nBlockMaxWeight, minFee, start, b, looks, t)
  {
    assert TellsTracked(Tracked(mp, r, nBlockMaxWeight, minFee, start, b, looks, t), mp, r, nBlockMaxWeight, minFee, start,
        b, looks, t);
    assert Done(looks);
  }

  lemma TrackedMore(mp: Mempool, r: Rules, nBlockMaxWeight: int, minFee: (int, int) -> int, start: Block, b: Block,
      looks: seq<Look>, t: Tally, l: Look)
    requires Tracked(mp, r, nBlockMaxWeight, minFee, start, l.before, looks, t) && !t.givesUp
    requires l.iter in mp.anc && Pays(mp, minFee, l) && Tested(mp, r, nBlockMaxWeight, l, b)
    ensures Tracked(mp, r, nBlockMaxWeight, minFee, start, b, looks + [l], Counted(t, mp, nBlockMaxWeight, b, l))
  {
    TrackedMeans(mp, r, nBlockMaxWeight, minFee, start, l.before, looks, t);
    assert Looked(mp, r, nBlockMaxWeight, minFee, start, b, looks + [l]) by {
      LookedMore(mp, r, nBlockMaxWeight, minFee, start, b, looks, l);
    }
    CountsMore(mp, looks, l);
    TrackedMeans(mp, r, nBlockMaxWeight, minFee, start, b, looks + [l], Counted(t, mp, nBlockMaxWeight, b, l));
  }

  lemma TrackedFirst(mp: Mempool, r: Rules, nBlockMaxWeight: int, minFee: (int, int) -> int, b: Block)
    ensures Tracked(mp, r, nBlockMaxWeight, minFee, b, b, [], Tally(0, 0, 0, false))
  {
    TrackedMeans(mp, r, nBlockMaxWeight, minFee, b, b, [], Tally(0, 0, 0, false));
  }

  lemma TrackedEnds(mp: Mempool, r: Rules, nBlockMaxWeight: int, minFee: (int, int) -> int, start: Block, b: Block,
      looks: seq<Look>, t: Tally)
    requires Tracked(mp, r, nBlockMaxWeight, minFee, start, b, looks, t)
    ensures Looked(mp, r, nBlockMaxWeight, minFee, start, b, looks)
    ensures t.nSelected == Packages(looks) && t.nUpdated == AllUpdates(mp, looks)
    ensures t.givesUp <==> GivesUp(b, nBlockMaxWeight, looks)
  {
    TrackedMeans(mp, r, nBlockMaxWeight, minFee, start, b, looks, t);
  }

  /** Everything that went in was part of a selected package that paid what it must. */
  lemma {:induction false} PaidFor(mp: Mempool, r: Rules, nBlockMaxWeight: int, minFee: (int, int) -> int, start: Block,
      b: Block, looks: seq<Look>, t: Tx) returns (l: Look)
    requires Looked(mp, r, nBlockMaxWeight, minFee, start, b, looks) && t in b.inBlock && t !in start.inBlock
    ensures l in looks && l.outcome == Selected && l.iter in mp.anc && t in mp.anc[l.iter] + {l.iter}
    ensures t in l.taken && t !in l.before.inBlock && l.before.inBlock <= b.inBlock
    ensures Figured(mp, l.iter, l.e, l.before.inBlock) && l.e.modFees >= minFee(l.e.size, l.e.mweb)
    decreases |looks|
  {
    l := looks[|looks| - 1];
    if t in l.before.inBlock {
      l := PaidFor(mp, r, nBlockMaxWeight, minFee, start, l.before, looks[..|looks| - 1], t);
    }
  }

  /** If no totals pay, nothing goes in. */
  lemma NothingPays(mp: Mempool, r: Rules, nBlockMaxWeight: int, minFee: (int, int) -> int, start: Block, b: Block,
      looks: seq<Look>)
    requires Looked(mp, r, nBlockMaxWeight, minFee, start, b, looks)
    requires forall t, e: Totals, s :: Figured(mp, t, e, s) ==> e.modFees < minFee(e.size, e.mweb)
    ensures b == start && looks == []
  {}

  /** How the selection ends: out of candidates, at one that pays too little, or nearly full after
      many failures. */
  datatype Stop = Finished | LowFee(t: Tx, e: Totals) | NearlyFull

  class BlockAssembler {
    const mp: Mempool
    const nBlockMaxWeight: int
    const fIncludeWitness: bool
    const fIncludeMWEB: bool
    var inBlock: set<Tx>
    var vtx: seq<Tx>
    var vTxFees: seq<int>
    var vTxSigOpsCost: seq<int>
    var nBlockWeight: int
    var nBlockTx: int
    var nBlockSigOpsCost: int
    var nBlockMWEBWeight: int
    var nFees: int
    ghost var order: seq<Tx>

    ghost function View(): Block
      reads this
    {
      Block(inBlock, vtx, vTxFees, vTxSigOpsCost, nBlockTx, nBlockWeight, nBlockSigOpsCost, nBlockMWEBWeight, nFees, order)
    }

    ghost predicate Valid()
      reads this
    {
      BlockOk(mp, View(), nBlockMaxWeight)
    }

    /** The constructor with its clamped weight limit, followed by resetBlock. */
    constructor (mempool: Mempool, maxWeight: nat, includeWitness: bool, includeMWEB: bool)
      ensures Valid() && mp == mempool && fIncludeWitness == includeWitness && fIncludeMWEB == includeMWEB
      ensures nBlockMaxWeight == Max(4000, Min(MAX_BLOCK_WEIGHT - 4000, maxWeight))
      ensures View() == Block({}, [], [], [], 0, 4000, 400, 0, 0, [])
    {
      mp := mempool;
      nBlockMaxWeight := Max(4000, Min(MAX_BLOCK_WEIGHT - 4000, maxWeight));
      fIncludeWitness, fIncludeMWEB := includeWitness, includeMWEB;
      inBlock, vtx, vTxFees, vTxSigOpsCost, order := {}, [], [], [], [];
      nBlockWeight, nBlockSigOpsCost, nBlockMWEBWeight, nBlockTx, nFees := 4000, 400, 0, 0, 0;
      new;
      BlockOkMeans(mp, View(), nBlockMaxWeight);
    }

    predicate TestPackage(packageSize: int, packageSigOpsCost: int, packageMWEBWeight: int)
      reads this
    {
      && nBlockWeight + WITNESS_SCALE_FACTOR * packageSize < nBlockMaxWeight
      && nBlockSigOpsCost + packageSigOpsCost < MAX_BLOCK_SIGOPS_COST
      && nBlockMWEBWeight + packageMWEBWeight < MAX_MINE_WEIGHT
    }

    predicate TestPackageTransactions(package: set<Tx>, failedTx: set<Tx>)
      reads this
    {
      forall t | t in package :: Allowed(mp, Policy(), t) && t !in failedTx
    }

    function Policy(): Rules { Rules(fIncludeWitness, fIncludeMWEB) }

    /** Lists what a transaction has outside the MWEB, unless its MWEB part claims more than the whole has. */
    method ListTx(iter: Tx) returns (ok: bool)
      requires iter in mp.mapTx
      modifies this`vtx, this`vTxFees, this`vTxSigOpsCost, this`nBlockTx
      ensures !mp.mapTx[iter].hasMweb ==> ok
      ensures ok && mp.mapTx[iter].hasMweb ==> OwnFee(mp, iter) >= 0 && OwnSigOps(mp, iter) >= 0
      ensures ok ==> vtx == old(vtx) + [iter] && nBlockTx == old(nBlockTx) + 1
      ensures ok ==> vTxFees == old(vTxFees) + [OwnFee(mp, iter)] && vTxSigOpsCost == old(vTxSigOpsCost) + [OwnSigOps(mp, iter)]
      ensures !ok ==> unchanged(this)
    {
      var e := mp.mapTx[iter];
      var hogex_fee, hogex_sigops := 0, 0;
      if e.hasMweb {
        if e.mwebFee.None? || e.mwebFee.value > e.fee { return false; }
        hogex_fee := e.mwebFee.value;
        hogex_sigops := e.mwebSigOps;
        if hogex_sigops > e.sigOps { return false; }
      }
      vtx := vtx + [iter];
      vTxFees := vTxFees + [e.fee - hogex_fee];
      vTxSigOpsCost := vTxSigOpsCost + [e.sigOps - hogex_sigops];
      nBlockTx := nBlockTx + 1;
      return true;
    }

    /** Adds one transaction, unless its MWEB part is refused or claims more than the whole has. */
    method AddToBlock(iter: Tx) returns (ok: bool)
      requires iter in mp.mapTx
      modifies this
      ensures View() == if ok then Added(mp, old(View()), iter) else old(View())
      ensures !mp.mapTx[iter].hasMweb ==> ok
      ensures ok && !mp.mapTx[iter].mwebOnly && mp.mapTx[iter].hasMweb ==> OwnFee(mp, iter) >= 0 && OwnSigOps(mp, iter) >= 0
    {
      var e := mp.mapTx[iter];
      if e.hasMweb {
        var accepted: bool := *;
        if !accepted { return false; }
      }
      if !e.mwebOnly {
        var listed := ListTx(iter);
        if !listed { return false; }
      }
      nBlockWeight := nBlockWeight + mp.mapTx[iter].weight;
      nBlockSigOpsCost := nBlockSigOpsCost + mp.mapTx[iter].sigOps;
      nBlockMWEBWeight := nBlockMWEBWeight + mp.mapTx[iter].mweb;
      nFees := nFees + mp.mapTx[iter].fee;
      inBlock := inBlock + {iter};
      order := order + [iter];
      return true;
    }

    /** The rest of a package of which the entry at i was refused. */
    static method FailRest(sortedEntries: seq<Tx>, i: nat, ghost mapModifiedTx: map<Tx, Totals>, m: map<Tx, Totals>,
        failedTx: set<Tx>)
      returns (m': map<Tx, Totals>, failedTx': set<Tx>)
      requires i <= |sortedEntries| && m == mapModifiedTx - Elements(sortedEntries[..i])
      ensures m' == mapModifiedTx - Elements(sortedEntries) && failedTx' == failedTx + Elements(sortedEntries[i..])
    {
      m', failedTx' := m, failedTx;
      for j := i to |sortedEntries|
        invariant failedTx' == failedTx + Elements(sortedEntries[i..j])
        invariant m' == mapModifiedTx - Elements(sortedEntries[..j])
      {
        assert sortedEntries[i..j + 1] == sortedEntries[i..j] + [sortedEntries[j]];
        assert sortedEntries[..j + 1] == sortedEntries[..j] + [sortedEntries[j]];
        failedTx' := failedTx' + {sortedEntries[j]};
        m' := m' - {sortedEntries[j]};
      }
      assert sortedEntries[..|sortedEntries|] == sortedEntries && sortedEntries[i..|sortedEntries|] == sortedEntries[i..];
    }

    /** Adds a sorted package front to back; a refused transaction stops it, and the rest is
        marked failed. */
    method AddSorted(sortedEntries: seq<Tx>, mapModifiedTx: map<Tx, Totals>, failedTx: set<Tx>)
      returns (failed: bool, m: map<Tx, Totals>, failedTx': set<Tx>, ghost k: nat)
      requires forall i :: 0 <= i < |sortedEntries| ==> sortedEntries[i] in mp.mapTx
      modifies this
      ensures k <= |sortedEntries| && (failed <==> k < |sortedEntries|)
      ensures failed ==> mp.mapTx[sortedEntries[k]].hasMweb
      ensures View() == AddedAll(mp, old(View()), sortedEntries[..k])
      ensures m == mapModifiedTx - Elements(sortedEntries) && failedTx' == failedTx + Elements(sortedEntries[k..])
    {
      failed, m, failedTx', k := false, mapModifiedTx, failedTx, 0;
      assert sortedEntries[..0] == [];
      for i := 0 to |sortedEntries|
        invariant !failed && k == i && failedTx' == failedTx
        invariant View() == AddedAll(mp, old(View()), sortedEntries[..i])
        invariant m == mapModifiedTx - Elements(sortedEntries[..i])
      {
        var ok := AddToBlock(sortedEntries[i]);
        failed := !ok;
        if failed {
          m, failedTx' := FailRest(sortedEntries, i, mapModifiedTx, m, failedTx);
          return;
        }
        assert sortedEntries[..i + 1] == sortedEntries[..i] + [sortedEntries[i]];
        m := m - {sortedEntries[i]};
        k := k + 1;
      }
      assert sortedEntries[..|sortedEntries|] == sortedEntries;
    }

    /** One package: test it, take it as far as it goes, and keep the index covering. */
    method TryPackage(iter: Tx, e: Totals, fUsingModified: bool, mapModifiedTx: map<Tx, Totals>, failedTx: set<Tx>)
      returns (outcome: Outcome, m: map<Tx, Totals>, failedTx': set<Tx>, nUpdated: nat, ghost taken: set<Tx>)
      requires Valid() && mp.WellFormed() && Brought(mp, inBlock, inBlock, mapModifiedTx)
      requires iter in mp.anc && iter !in inBlock && Covers(mp, e, Package(mp, inBlock, iter))
      modifies this
      ensures Valid() && Brought(mp, inBlock, inBlock, m)
      ensures outcome.NoRoom? <==> !old(TestPackage(e.size, e.sigOps, e.mweb))
      ensures var pkg := Package(mp, old(inBlock), iter);
              && (outcome.Selected? <==>
                    old(TestPackage(e.size, e.sigOps, e.mweb)) && old(TestPackageTransactions(pkg, failedTx)))
              && if outcome.Selected?
                 then TookPackage(mp, old(View()), View(), pkg, taken, mapModifiedTx, m, failedTx, failedTx')
                 else SetAside(old(View()), View(), iter, fUsingModified, taken, mapModifiedTx, m, failedTx, failedTx')
      ensures nUpdated == Updates(mp, Package(mp, old(inBlock), iter), outcome, taken)
    {
      m, failedTx', nUpdated, taken := mapModifiedTx, failedTx, 0, {};
      if !TestPackage(e.size, e.sigOps, e.mweb) {
        if fUsingModified { m, failedTx' := m - {iter}, failedTx' + {iter}; }
        return NoRoom, m, failedTx', 0, {};
      }
      var ancestors := mp.anc[iter] - inBlock;
      ancestors := ancestors + {iter};
      assert ancestors == Package(mp, inBlock, iter);
      if !TestPackageTransactions(ancestors, failedTx) {
        if fUsingModified { m, failedTx' := m - {iter}, failedTx' + {iter}; }
        return Unsuitable, m, failedTx', 0, {};
      }
      m, failedTx', nUpdated, taken := AddTested(iter, e, ancestors, mapModifiedTx, failedTx);
      return Selected, m, failedTx', nUpdated, taken;
    }

    method AddTested(iter: Tx, ghost e: Totals, ancestors: set<Tx>, mapModifiedTx: map<Tx, Totals>, failedTx: set<Tx>)
      returns (m: map<Tx, Totals>, failedTx': set<Tx>, nUpdated: nat, ghost taken: set<Tx>)
      requires Valid() && mp.WellFormed() && Brought(mp, inBlock, inBlock, mapModifiedTx)
      requires iter in mp.anc && iter !in inBlock && ancestors == Package(mp, inBlock, iter) && Covers(mp, e, ancestors)
      requires TestPackage(e.size, e.sigOps, e.mweb)
      modifies this
      ensures Valid() && Brought(mp, inBlock, inBlock, m)
      ensures TookPackage(mp, old(View()), View(), ancestors, taken, mapModifiedTx, m, failedTx, failedTx')
      ensures nUpdated == Updates(mp, ancestors, Selected, taken)
    {
      ghost var b := View();
      nUpdated := 0;
      var failed;
      failed, m, failedTx', taken := AddWhole(iter, e, ancestors, mapModifiedTx, failedTx);
      if !failed {
        BroughtTo(mp, b.inBlock, inBlock, mapModifiedTx, ancestors);
        assert inBlock - ancestors == b.inBlock;
        m, nUpdated := UpdatePackagesForAdded(mp, ancestors, m, inBlock);
      }
    }

    method AddWhole(iter: Tx, ghost e: Totals, ancestors: set<Tx>, mapModifiedTx: map<Tx, Totals>, failedTx: set<Tx>)
      returns (failed: bool, m: map<Tx, Totals>, failedTx': set<Tx>, ghost taken: set<Tx>)
      requires Valid() && mp.WellFormed() && Brought(mp, inBlock, inBlock, mapModifiedTx)
      requires iter in mp.anc && iter !in inBlock && ancestors == Package(mp, inBlock, iter) && Covers(mp, e, ancestors)
      requires TestPackage(e.size, e.sigOps, e.mweb)
      modifies this
      ensures Valid() && Brought(mp, inBlock, inBlock, m) && m == mapModifiedTx - ancestors
      ensures (failed <==> taken != ancestors) && Prefix(mp, ancestors, taken) && failedTx' == failedTx + (ancestors - taken)
      ensures inBlock == old(inBlock) + taken <= mp.mapTx.Keys && Heavier(mp, old(View()), View())
      ensures Closed(mp, old(inBlock))
    {
      ghost var b := View();
      PackageWithin(mp, inBlock, iter);
      var sortedEntries := SortForBlock(mp, ancestors);
      ghost var k;
      failed, m, failedTx', k := AddSorted(sortedEntries, mapModifiedTx, failedTx);
      taken := Elements(sortedEntries[..k]);
      PrefixKeeps(mp, b, iter, sortedEntries, k, e, nBlockMaxWeight);
      PrefixIs(mp, sortedEntries, k, ancestors);
      PrefixIsHeavier(mp, b, sortedEntries, k);
      BlockOkMeans(mp, View(), nBlockMaxWeight);
      BroughtTo(mp, b.inBlock, inBlock, mapModifiedTx, ancestors);
    }

    /** The entry to look at next: the one of mapTx at mi, or one of the modified index. */
    method Choose(mapTx: seq<Tx>, mi: nat, mapModifiedTx: map<Tx, Totals>)
        returns (iter: Tx, fUsingModified: bool, e: Totals)
      requires mi <= |mapTx| && (mi < |mapTx| || mapModifiedTx != map[])
      requires forall i :: 0 <= i < |mapTx| ==> mapTx[i] in mp.mapTx
      ensures if fUsingModified then iter in mapModifiedTx && e == mapModifiedTx[iter]
              else mi < |mapTx| && iter == mapTx[mi] && e == mp.mapTx[iter].withAncestors
    {
      if mapModifiedTx == map[] {
        iter, fUsingModified := mapTx[mi], false;
      } else {
        var best :| best in mapModifiedTx;
        var better: bool := *;
        if mi == |mapTx| || better {
          iter, fUsingModified := best, true;
        } else {
          iter, fUsingModified := mapTx[mi], false;
        }
      }
      e := if fUsingModified then mapModifiedTx[iter] else mp.mapTx[iter].withAncestors;
    }

    /** One turn with its candidate.  Afterwards the candidate is in the block or blocked. */
    method Consider(iter: Tx, e: Totals, fUsingModified: bool, mapModifiedTx: map<Tx, Totals>, failedTx: set<Tx>,
        ghost refused: Refusals, ghost start: set<Tx>, ghost list: seq<Tx>, ghost n: nat)
      returns (outcome: Outcome, m: map<Tx, Totals>, failedTx': set<Tx>, nUpdated: nat, ghost refused': Refusals,
               ghost look: Look)
      requires Valid() && mp.WellFormed()
      requires Ready(mp, Policy(), start, View(), nBlockMaxWeight, refused, failedTx, mapModifiedTx, list, n)
      requires iter in mp.anc && iter in mp.mapTx && iter !in inBlock && Covers(mp, e, Package(mp, inBlock, iter))
      requires iter in failedTx || Exact(mp, e, Package(mp, inBlock - refused.uncounted, iter))
      modifies this
      ensures Valid() && Ready(mp, Policy(), start, View(), nBlockMaxWeight, refused', failedTx', m, list, n)
      ensures iter in inBlock || Blocked(mp, Policy(), View(), nBlockMaxWeight, refused', iter)
      ensures look == Look(iter, e, old(View()), outcome, look.taken)
      ensures Tested(mp, Policy(), nBlockMaxWeight, look, View())
      ensures nUpdated == Updates(mp, Package(mp, old(inBlock), iter), outcome, look.taken)
      ensures old(inBlock) <= inBlock && (inBlock == old(inBlock) ==>
              m.Keys <= mapModifiedTx.Keys && (fUsingModified ==> iter !in m))
    {
      ghost var b, pkg := View(), Package(mp, inBlock, iter);
      ReadyBrought(mp, Policy(), start, b, nBlockMaxWeight, refused, failedTx, mapModifiedTx, list, n);
      ghost var taken;
      outcome, m, failedTx', nUpdated, taken := TryPackage(iter, e, fUsingModified, mapModifiedTx, failedTx);
      look := Look(iter, e, b, outcome, taken);
      if outcome == Selected {
        refused' := Refused(refused, pkg, taken);
        TookReady(mp, Policy(), start, b, View(), nBlockMaxWeight, refused, failedTx, failedTx', mapModifiedTx, m, pkg,
            taken, list, n, iter);
      } else {
        refused' := refused;
        AsideReady(mp, Policy(), start, b, nBlockMaxWeight, refused, failedTx, failedTx', mapModifiedTx, m, list, n, iter,
            e, fUsingModified);
      }
    }

    /** Choosing a candidate and considering it, unless it pays too little. */
    method Turn(mapTx: seq<Tx>, mi: nat, minFee: (int, int) -> int, mapModifiedTx: map<Tx, Totals>, failedTx: set<Tx>,
        ghost refused: Refusals, ghost start: set<Tx>)
      returns (low: bool, outcome: Outcome, mi': nat, m: map<Tx, Totals>, failedTx': set<Tx>, nUpdated: nat,
               ghost refused': Refusals, ghost stop: Stop, ghost look: Look)
      requires Valid() && mp.WellFormed() && mi <= |mapTx| && (mi < |mapTx| || mapModifiedTx != map[])
      requires forall i :: 0 <= i < |mapTx| ==> mapTx[i] in mp.mapTx
      requires mi < |mapTx| ==> mapTx[mi] !in inBlock && mapTx[mi] !in mapModifiedTx
      requires Ready(mp, Policy(), start, View(), nBlockMaxWeight, refused, failedTx, mapModifiedTx, mapTx, mi)
      modifies this
      ensures Valid() && mi' <= |mapTx|
      ensures Ready(mp, Policy(), start, View(), nBlockMaxWeight, refused', failedTx', m, mapTx, mi')
      ensures low ==> Underpaid(mp, stop, inBlock, minFee) && View() == old(View())
      ensures !low ==> look == Look(look.iter, look.e, old(View()), outcome, look.taken) && look.iter in mp.anc
      ensures !low ==> Pays(mp, minFee, look) && Tested(mp, Policy(), nBlockMaxWeight, look, View())
      ensures !low ==> nUpdated == Updates(mp, Package(mp, old(inBlock), look.iter), outcome, look.taken)
      ensures !low ==> Nearer(mp, old(inBlock), inBlock, |mapTx| - mi + Amount(mapModifiedTx.Keys),
              |mapTx| - mi' + Amount(m.Keys))
    {
      var iter, fUsingModified, package := Choose(mapTx, mi, mapModifiedTx);
      ReadyKnown(mp, Policy(), start, View(), nBlockMaxWeight, refused, failedTx, mapModifiedTx, mapTx, mi, iter,
          fUsingModified, package);
      low := package.modFees < minFee(package.size, package.mweb);
      stop, look := LowFee(iter, package), Look(iter, package, View(), NoRoom, {});
      if low {
        outcome, mi', m, failedTx', nUpdated, refused' := NoRoom, mi, mapModifiedTx, failedTx, 0, refused;
        return;
      }
      outcome, mi', m, failedTx', nUpdated, refused', look :=
        Proceed(iter, package, fUsingModified, mapModifiedTx, failedTx, refused, start, mapTx, mi);
    }

    /** The candidate is done with: it leaves the modified index, or mi goes on. */
    method Proceed(iter: Tx, e: Totals, fUsingModified: bool, mapModifiedTx: map<Tx, Totals>, failedTx: set<Tx>,
        ghost refused: Refusals, ghost start: set<Tx>, mapTx: seq<Tx>, mi: nat)
      returns (outcome: Outcome, mi': nat, m: map<Tx, Totals>, failedTx': set<Tx>, nUpdated: nat,
               ghost refused': Refusals, ghost look: Look)
      requires Valid() && mp.WellFormed()
      requires Ready(mp, Policy(), start, View(), nBlockMaxWeight, refused, failedTx, mapModifiedTx, mapTx, mi)
      requires iter in mp.anc && iter in mp.mapTx && iter !in inBlock && Covers(mp, e, Package(mp, inBlock, iter))
      requires iter in failedTx || Exact(mp, e, Package(mp, inBlock - refused.uncounted, iter))
      requires mi <= |mapTx| && if fUsingModified then iter in mapModifiedTx else mi < |mapTx| && iter == mapTx[mi]
      modifies this
      ensures Valid() && mi' <= |mapTx|
      ensures Ready(mp, Policy(), start, View(), nBlockMaxWeight, refused', failedTx', m, mapTx, mi')
      ensures look == Look(iter, e, old(View()), outcome, look.taken)
      ensures Tested(mp, Policy(), nBlockMaxWeight, look, View())
      ensures nUpdated == Updates(mp, Package(mp, old(inBlock), iter), outcome, look.taken)
      ensures Nearer(mp, old(inBlock), inBlock, |mapTx| - mi + Amount(mapModifiedTx.Keys), |mapTx| - mi' + Amount(m.Keys))
    {
      outcome, m, failedTx', nUpdated, refused', look :=
        Consider(iter, e, fUsingModified, mapModifiedTx, failedTx, refused, start, mapTx, mi);
      mi' := if fUsingModified then mi else mi + 1;
      ReadyOn(mp, Policy(), start, old(inBlock), View(), nBlockMaxWeight, refused', failedTx', mapModifiedTx, m, mapTx, mi,
          mi', iter, fUsingModified);
    }

    /** The index at the beginning: the descendants of what is in the block already. */
    method Start(ghost list: seq<Tx>) returns (m: map<Tx, Totals>)
      requires Valid() && mp.WellFormed()
      ensures Ready(mp, Policy(), inBlock, View(), nBlockMaxWeight, NONE, {}, m, list, 0)
    {
      BlockOkMeans(mp, View(), nBlockMaxWeight);
      assert Brought(mp, inBlock, inBlock - inBlock, map[]);
      var n;
      m, n := UpdatePackagesForAdded(mp, inBlock, map[], inBlock);
      ReadyFirst(mp, Policy(), View(), nBlockMaxWeight, m, list);
    }

    /** The selection loop.  `mapTx` lists the mempool by ancestor score and `minFee` is the
        fee a package of given size and MWEB weight must pay; which of the two candidates is
        better is left open.  At every turn the block is consistent and within its limits, and
        the index covers what is missing; the loop ends.  Only allowed transactions are added, and
        when it runs out of candidates everything listed is in the block or kept out for a reason. */
    method AddPackageTxs(mapTx: seq<Tx>, minFee: (int, int) -> int)
      returns (nPackagesSelected: nat, nDescendantsUpdated: nat, ghost stop: Stop, ghost refused: Refusals,
               ghost looks: seq<Look>)
      requires Valid() && mp.WellFormed()
      requires forall i :: 0 <= i < |mapTx| ==> mapTx[i] in mp.mapTx
      modifies this
      ensures Valid() && Selection(mp, Policy(), old(inBlock), View(), refused)
      ensures Looked(mp, Policy(), nBlockMaxWeight, minFee, old(View()), View(), looks)
      ensures nPackagesSelected == Packages(looks) && nDescendantsUpdated == AllUpdates(mp, looks)
      ensures stop == NearlyFull <==> GivesUp(View(), nBlockMaxWeight, looks)
      ensures match stop
              case Finished => Settled(mp, Policy(), View(), nBlockMaxWeight, refused, map[], mapTx, |mapTx|)
              case LowFee(_, _) => Underpaid(mp, stop, inBlock, minFee)
              case NearlyFull => nBlockWeight > nBlockMaxWeight - 4000
    {
      nPackagesSelected, nDescendantsUpdated, refused, looks := 0, 0, NONE, [];
      var failedTx: set<Tx> := {};
      var mapModifiedTx := Start(mapTx);
      var mi := 0;
      var nConsecutiveFailed := 0;
      ghost var tally := Tally(0, 0, 0, false);
      TrackedFirst(mp, Policy(), nBlockMaxWeight, minFee, View());
      while mi < |mapTx| || mapModifiedTx != map[]
        invariant Valid() && 0 <= mi <= |mapTx|
        invariant Ready(mp, Policy(), old(inBlock), View(), nBlockMaxWeight, refused, failedTx, mapModifiedTx, mapTx, mi)
        invariant Tracked(mp, Policy(), nBlockMaxWeight, minFee, old(View()), View(), looks, tally)
        invariant tally == Tally(nPackagesSelected, nDescendantsUpdated, nConsecutiveFailed, false)
        decreases Amount(mp.mapTx.Keys - inBlock), |mapTx| - mi + Amount(mapModifiedTx.Keys)
      {
        if mi < |mapTx| && (mapTx[mi] in mapModifiedTx || mapTx[mi] in inBlock || mapTx[mi] in failedTx) {
          ReadyNext(mp, Policy(), old(inBlock), View(), nBlockMaxWeight, refused, failedTx, mapModifiedTx, mapTx, mi);
          mi := mi + 1;
          continue;
        }
        var low, outcome, nUpdated;
        ghost var look;
        low, outcome, mi, mapModifiedTx, failedTx, nUpdated, refused, stop, look :=
          Turn(mapTx, mi, minFee, mapModifiedTx, failedTx, refused, old(inBlock));
        if low {
          ReadyEnds(mp, Policy(), old(inBlock), View(), nBlockMaxWeight, refused, failedTx, mapModifiedTx, mapTx, mi);
          TrackedEnds(mp, Policy(), nBlockMaxWeight, minFee, old(View()), View(), looks, tally);
          return;
        }
        TrackedMore(mp, Policy(), nBlockMaxWeight, minFee, old(View()), View(), looks, tally, look);
        looks, tally := looks + [look], Counted(tally, mp, nBlockMaxWeight, View(), look);
        match outcome
        case NoRoom =>
          nConsecutiveFailed := nConsecutiveFailed + 1;
          if nConsecutiveFailed > MAX_CONSECUTIVE_FAILURES && nBlockWeight > nBlockMaxWeight - 4000 {
            stop := NearlyFull;
            ReadyEnds(mp, Policy(), old(inBlock), View(), nBlockMaxWeight, refused, failedTx, mapModifiedTx, mapTx, mi);
            TrackedEnds(mp, Policy(), nBlockMaxWeight, minFee, old(View()), View(), looks, tally);
            return;
          }
        case Unsuitable =>
        case Selected =>
          nConsecutiveFailed := 0;
          nPackagesSelected := nPackagesSelected + 1;
          nDescendantsUpdated := nDescendantsUpdated + nUpdated;
      }
      ReadyEnds(mp, Policy(), old(inBlock), View(), nBlockMaxWeight, refused, failedTx, mapModifiedTx, mapTx, mi);
      TrackedEnds(mp, Policy(), nBlockMaxWeight, minFee, old(View()), View(), looks, tally);
      stop := Finished;
    }
  }

  /** A transaction outside the block whose package pays less than it must. */
  ghost predicate Underpaid(mp: Mempool, stop: Stop, inBlock: set<Tx>, minFee: (int, int) -> int) {
    && stop.LowFee? && stop.t !in inBlock && Figured(mp, stop.t, stop.e, inBlock)
    && stop.e.modFees < minFee(stop.e.size, stop.e.mweb)
  }

  /** After a candidate the loop is ready for the next one, and nearer to its end. */
  lemma ReadyOn(mp: Mempool, r: Rules, start: set<Tx>, was: set<Tx>, b: Block, nBlockMaxWeight: int, refused: Refusals,
      failed: set<Tx>, m: map<Tx, Totals>, m': map<Tx, Totals>, list: seq<Tx>, n: nat, n': nat, iter: Tx, fUsingModified: bool)
    requires BlockOk(mp, b, nBlockMaxWeight) && Ready(mp, r, start, b, nBlockMaxWeight, refused, failed, m', list, n)
    requires iter in b.inBlock || Blocked(mp, r, b, nBlockMaxWeight, refused, iter)
    requires was <= b.inBlock && (b.inBlock == was ==> m'.Keys <= m.Keys && (fUsingModified ==> iter !in m'))
    requires if fUsingModified then n' == n && iter in m else n' == n + 1 && n < |list| && iter == list[n]
    ensures Ready(mp, r, start, b, nBlockMaxWeight, refused, failed, m', list, n')
    ensures Nearer(mp, was, b.inBlock, |list| - n + Amount(m.Keys), |list| - n' + Amount(m'.Keys))
  {
    if !fUsingModified { ReadyNext(mp, r, start, b, nBlockMaxWeight, refused, failed, m', list, n); }
    assert b.inBlock <= mp.mapTx.Keys by { BlockOkMeans(mp, b, nBlockMaxWeight); }
    Progress(mp, was, b.inBlock, m, m', iter, fUsingModified);
  }

  /** The block grew, or fewer candidates are left. */
  ghost predicate Nearer(mp: Mempool, b: set<Tx>, b': set<Tx>, left: int, left': int) {
    Amount(mp.mapTx.Keys - b') < Amount(mp.mapTx.Keys - b) || (b' == b && left' < left)
  }

  /** The totals that are looked at cover the package they stand for. */
  lemma Known(mp: Mempool, iter: Tx, inBlock: set<Tx>, m: map<Tx, Totals>, fUsingModified: bool)
    requires mp.WellFormed() && Brought(mp, inBlock, inBlock, m)
    requires if fUsingModified then iter in m else iter in mp.mapTx
    ensures iter in mp.mapTx && iter in mp.anc
    ensures var e := if fUsingModified then m[iter] else mp.mapTx[iter].withAncestors;
            && Covers(mp, e, Package(mp, inBlock, iter))
            && Figured(mp, iter, e, inBlock) && AtMost(e, mp.mapTx[iter].withAncestors)
  {
    mp.WellFormedMeans();
    if fUsingModified { ReducedIsLess(mp, iter, m[iter], inBlock); }
    assert iter in mp.anc.Keys && iter in mp.mapTx.Keys;
    if !fUsingModified {
      CoversLess(mp, mp.mapTx[iter].withAncestors, Package(mp, inBlock, iter), mp.anc[iter] + {iter});
    }
  }

  /** The number of elements. */
  ghost function Amount(s: set<Tx>): nat
    decreases |s|
  {
    if s == {} then 0 else 1 + Amount(s - {Any(s)})
  }

  lemma {:induction false} AmountIs(s: set<Tx>)
    ensures Amount(s) == |s|
    decreases |s|
  {
    if s != {} { AmountIs(s - {Any(s)}); }
  }

  lemma AmountWithin(s: set<Tx>, u: set<Tx>)
    requires s <= u
    ensures Amount(s) <= Amount(u) && (s != u ==> Amount(s) < Amount(u))
  {
    AmountIs(s);
    AmountIs(u);
    CardinalityWithin(s, u);
    if u - s == {} {
      SameSet(s, u);
    } else {
      var t := Any(u - s);
      CardinalityWithin(s, u - {t});
    }
  }

  lemma SameSet(s: set<Tx>, u: set<Tx>)
    requires s <= u && u - s == {}
    ensures s == u
  {
    forall t | t in u ensures t in s { assert t !in s ==> t in u - s; }
  }

  /** Every turn either grows the block or uses up a candidate. */
  lemma Progress(mp: Mempool, b: set<Tx>, b': set<Tx>, m: map<Tx, Totals>, m': map<Tx, Totals>, iter: Tx,
      fUsingModified: bool)
    requires b <= b' && b' <= mp.mapTx.Keys && (fUsingModified ==> iter in m)
    requires b' == b ==> m'.Keys <= m.Keys && (fUsingModified ==> iter !in m')
    ensures b' != b ==> Amount(mp.mapTx.Keys - b') < Amount(mp.mapTx.Keys - b)
    ensures b' == b ==> Amount(m'.Keys) <= Amount(m.Keys) - if fUsingModified then 1 else 0
  {
    AmountWithin(mp.mapTx.Keys - b', mp.mapTx.Keys - b);
    if b' - b != {} {
      var t := Any(b' - b);
      assert t in mp.mapTx.Keys - b && t !in mp.mapTx.Keys - b';
    } else {
      SameSet(b, b');
      AmountWithin(m'.Keys, m.Keys);
      if fUsingModified { assert iter in m.Keys && iter !in m'.Keys; }
    }
  }
}
