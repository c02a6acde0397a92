/**
 The UTXO cache stack of coins.cpp and coins.h.

 The content of one CCoinsViewCache is a map of entries with DIRTY and FRESH flags.  Such
 layers sit on top of each other and on a database.
 The operations are functions on a stack of any depth; the theorem at the end says that every
 run of them is indistinguishable from the same run on plain maps.  The class at the end holds
 the bodies as the source writes them, proved against the layer functions.
 */
module Coins {
  import opened Basics

  type OutPoint = (nat, nat)

  const OP_RETURN := 0x6a
  const MAX_SCRIPT_SIZE := 10000

  datatype Coin = Coin(nValue: int, scriptPubKey: seq<nat>, nHeight: nat, fCoinBase: bool, fPegout: bool)
  {
    predicate IsSpent() { nValue == -1 }

    predicate IsUnspendable() {
      (|scriptPubKey| > 0 && scriptPubKey[0] == OP_RETURN) || |scriptPubKey| > MAX_SCRIPT_SIZE
    }

    /** Memory is counted in bytes of script. */
    function Usage(): nat { |scriptPubKey| }
  }

  const EMPTY := Coin(-1, [], 0, false, false)

  datatype Entry = Entry(coin: Coin, dirty: bool, fresh_: bool)

  type CoinsMap = map<OutPoint, Entry>

  /** A plain set of unspent outputs: what the stack is supposed to look like. */
  type Utxo = map<OutPoint, Coin>

  // ----- What a stack means

  function Live(db: map<OutPoint, Coin>): Utxo { map o | o in db && !db[o].IsSpent() :: db[o] }

  function Overlay(below: Utxo, c: CoinsMap): Utxo {
    map o | o in below.Keys + c.Keys && (if o in c then !c[o].coin.IsSpent() else true) ::
      if o in c then c[o].coin else below[o]
  }

  function View(db: map<OutPoint, Coin>, ls: seq<CoinsMap>): Utxo {
    if ls == [] then Live(db) else Overlay(View(db, ls[..|ls| - 1]), ls[|ls| - 1])
  }

  /** The five flag states the source calls valid. */
  ghost predicate LegalState(e: Entry) {
    || (!e.coin.IsSpent() && e.fresh_ && e.dirty)
    || (!e.coin.IsSpent() && !e.fresh_ && e.dirty)
    || (!e.coin.IsSpent() && !e.fresh_ && !e.dirty)
    || (e.coin.IsSpent() && e.fresh_ && !e.dirty)
    || (e.coin.IsSpent() && !e.fresh_ && e.dirty)
  }

  /** FRESH entries are absent below, and entries that are not DIRTY repeat what is below. */
  ghost predicate EntryOk(below: Utxo, o: OutPoint, e: Entry) {
    && LegalState(e)
    && (e.fresh_ ==> o !in below)
    && (!e.dirty && !e.coin.IsSpent() ==> o in below && below[o] == e.coin)
  }

  ghost predicate CoinsOk(below: Utxo, c: CoinsMap) { forall o :: o in c ==> EntryOk(below, o, c[o]) }

  ghost predicate StackOk(db: map<OutPoint, Coin>, ls: seq<CoinsMap>) {
    ls == [] ||
    (StackOk(db, ls[..|ls| - 1]) && CoinsOk(View(db, ls[..|ls| - 1]), ls[|ls| - 1]))
  }

  // ----- Reading through the stack

  /** FetchCoin on the top layer: the layers afterwards and the cached coin, if there is one. */
  function Fetch(db: map<OutPoint, Coin>, ls: seq<CoinsMap>, o: OutPoint): (r: (seq<CoinsMap>, Option<Coin>))
    requires ls != []
    ensures |r.0| == |ls|
    ensures r.1.Some? <==> o in r.0[|ls| - 1]
    ensures r.1.Some? ==> r.0[|ls| - 1][o].coin == r.1.value
    decreases |ls|, 0
  {
    var n := |ls| - 1;
    if o in ls[n] then (ls, Some(ls[n][o].coin))
    else
      var (below, found) := Get(db, ls[..n], o);
      match found
      case None => (below + [ls[n]], None)
      case Some(c) => (below + [Fill(ls[n], o, c)], Some(c))
  }

  function Fill(l: CoinsMap, o: OutPoint, c: Coin): CoinsMap { l[o := Entry(c, false, c.IsSpent())] }

  /** GetCoin on a whole stack; the database answers with whatever entry it has. */
  function Get(db: map<OutPoint, Coin>, ls: seq<CoinsMap>, o: OutPoint): (r: (seq<CoinsMap>, Option<Coin>))
    ensures |r.0| == |ls|
    decreases |ls|, 1
  {
    if ls == [] then (ls, if o in db then Some(db[o]) else None)
    else
      var (ls', found) := Fetch(db, ls, o);
      (ls', if found.Some? && found.value.IsSpent() then None else found)
  }

  /** Two stacks over the same database that look the same at every depth. */
  ghost predicate SameViews(db: map<OutPoint, Coin>, ls: seq<CoinsMap>, ls': seq<CoinsMap>) {
    |ls| == |ls'| && forall k :: 0 <= k <= |ls| ==> View(db, ls'[..k]) == View(db, ls[..k])
  }

  lemma {:induction false} SameViewsAppend(db: map<OutPoint, Coin>, ls: seq<CoinsMap>, ls': seq<CoinsMap>, l: CoinsMap,
      l': CoinsMap)
    requires SameViews(db, ls, ls')
    requires Overlay(View(db, ls), l') == Overlay(View(db, ls), l)
    ensures SameViews(db, ls + [l], ls' + [l'])
  {
    var a, b, n := ls + [l], ls' + [l'], |ls|;
    assert ls[..n] == ls && ls'[..n] == ls';
    forall k | 0 <= k <= n + 1 ensures View(db, b[..k]) == View(db, a[..k]) {
      if k <= n {
        assert a[..k] == ls[..k] && b[..k] == ls'[..k];
      } else {
        assert a[..k] == a && b[..k] == b && a[..n] == ls && b[..n] == ls';
      }
    }
  }

  /** Filling in what the layers below say changes nothing one can see. */
  lemma FillIsInvisible(below: Utxo, c: CoinsMap, o: OutPoint, coin: Coin)
    requires CoinsOk(below, c) && o !in c
    requires if coin.IsSpent() then o !in below else o in below && below[o] == coin
    ensures CoinsOk(below, Fill(c, o, coin)) && Overlay(below, Fill(c, o, coin)) == Overlay(below, c)
  {
    assert Overlay(below, Fill(c, o, coin)) == Overlay(below, c);
  }

  /** The answer of a lookup, given what a plain map says. */
  ghost predicate Answers(m: Utxo, o: OutPoint, found: Option<Coin>) {
    && (o in m ==> found == Some(m[o]))
    && (o !in m ==> found.None? || found.value.IsSpent())
  }

  lemma StackAppend(db: map<OutPoint, Coin>, ls: seq<CoinsMap>, l: CoinsMap)
    ensures (ls + [l])[..|ls|] == ls
    ensures View(db, ls + [l]) == Overlay(View(db, ls), l)
    ensures StackOk(db, ls + [l]) <==> StackOk(db, ls) && CoinsOk(View(db, ls), l)
  {
    assert (ls + [l])[..|ls|] == ls;
  }

  /** A lookup answers as the plain map, keeps the stack legal, and is invisible at every depth. */
  lemma {:induction false} FetchIsRight(db: map<OutPoint, Coin>, ls: seq<CoinsMap>, o: OutPoint)
    requires ls != [] && StackOk(db, ls)
    ensures StackOk(db, Fetch(db, ls, o).0) && SameViews(db, ls, Fetch(db, ls, o).0)
    ensures Answers(View(db, ls), o, Fetch(db, ls, o).1)
    decreases |ls|, 0
  {
    var n := |ls| - 1;
    if o !in ls[n] {
      var (below, found) := Get(db, ls[..n], o);
      GetIsRight(db, ls[..n], o);
      assert ls == ls[..n] + [ls[n]];
      StackAppend(db, ls[..n], ls[n]);
      MissFilled(db, ls[..n], ls[n], below, found, o);
    }
  }

  lemma ViewIsUnspent(db: map<OutPoint, Coin>, ls: seq<CoinsMap>, o: OutPoint)
    ensures o in View(db, ls) ==> !View(db, ls)[o].IsSpent()
    decreases |ls|
  {
    if ls != [] { ViewIsUnspent(db, ls[..|ls| - 1], o); }
  }

  /** A layer that overlays the same and is legal can stand in for another. */
  lemma StandIn(db: map<OutPoint, Coin>, low: seq<CoinsMap>, c: CoinsMap, low': seq<CoinsMap>, top: CoinsMap)
    requires StackOk(db, low') && SameViews(db, low, low')
    requires CoinsOk(View(db, low), top) && Overlay(View(db, low), top) == Overlay(View(db, low), c)
    ensures StackOk(db, low' + [top]) && SameViews(db, low + [c], low' + [top])
  {
    WholeView(db, low, low');
    StackAppend(db, low', top);
    SameViewsAppend(db, low, low', c, top);
  }

  lemma AnswersThrough(db: map<OutPoint, Coin>, low: seq<CoinsMap>, c: CoinsMap, o: OutPoint, found: Option<Coin>)
    requires o !in c && Answers(View(db, low), o, found)
    ensures Answers(View(db, low + [c]), o, found)
  {
    StackAppend(db, low, c);
  }

  /** Looking an absent entry up below and filling it in. */
  lemma MissFilled(db: map<OutPoint, Coin>, low: seq<CoinsMap>, c: CoinsMap, low': seq<CoinsMap>, found: Option<Coin>,
      o: OutPoint)
    requires StackOk(db, low') && SameViews(db, low, low') && CoinsOk(View(db, low), c) && o !in c
             && Answers(View(db, low), o, found)
    ensures var top := if found.Some? then Fill(c, o, found.value) else c;
            StackOk(db, low' + [top]) && SameViews(db, low + [c], low' + [top])
    ensures Answers(View(db, low + [c]), o, found)
  {
    if found.Some? {
      ViewIsUnspent(db, low, o);
      FillIsInvisible(View(db, low), c, o, found.value);
      StandIn(db, low, c, low', Fill(c, o, found.value));
    } else {
      StandIn(db, low, c, low', c);
    }
    AnswersThrough(db, low, c, o, found);
  }

  lemma {:induction false} GetIsRight(db: map<OutPoint, Coin>, ls: seq<CoinsMap>, o: OutPoint)
    requires StackOk(db, ls)
    ensures StackOk(db, Get(db, ls, o).0) && SameViews(db, ls, Get(db, ls, o).0)
    ensures Answers(View(db, ls), o, Get(db, ls, o).1)
    ensures ls != [] ==> Get(db, ls, o).1 == if o in View(db, ls) then Some(View(db, ls)[o]) else None
    decreases |ls|, 1
  {
    if ls != [] { FetchIsRight(db, ls, o); }
  }

  // ----- Changing the top layer

  /** AddCoin on one layer; None stands for the exception about overwriting an unspent coin. */
  function AddCoin(c: CoinsMap, o: OutPoint, coin: Coin, possible_overwrite: bool): Option<CoinsMap> {
    if coin.IsUnspendable() then Some(c)
    else
      var e := if o in c then c[o] else Entry(EMPTY, false, false);
      if !possible_overwrite && !e.coin.IsSpent() then None
      else Some(c[o := Entry(coin, true, e.fresh_ || (!possible_overwrite && !e.dirty))])
  }

  /** Adding a spendable coin goes through and leaves a legal layer exactly when the caller's
      promise is true: an overwrite was announced or nothing unspent can be seen there. */
  lemma AddExactly(below: Utxo, c: CoinsMap, o: OutPoint, coin: Coin, possible_overwrite: bool)
    requires CoinsOk(below, c) && !coin.IsSpent() && !coin.IsUnspendable()
    ensures (var r := AddCoin(c, o, coin, possible_overwrite); r.Some? && CoinsOk(below, r.value))
            <==> possible_overwrite || o !in Overlay(below, c)
  {
    var e := if o in c then c[o] else Entry(EMPTY, false, false);
    var r := AddCoin(c, o, coin, possible_overwrite);
    if o in c { assert EntryOk(below, o, c[o]); }
    if r.Some? && CoinsOk(below, r.value) { assert EntryOk(below, o, r.value[o]); }
  }

  lemma AddIsRight(below: Utxo, c: CoinsMap, o: OutPoint, coin: Coin, possible_overwrite: bool)
    requires CoinsOk(below, c) && !coin.IsSpent() && (possible_overwrite || o !in Overlay(below, c))
    ensures var r := AddCoin(c, o, coin, possible_overwrite);
            && r.Some? && CoinsOk(below, r.value)
            && Overlay(below, r.value)
               == if |coin.scriptPubKey| > 10000 || (coin.scriptPubKey != [] && coin.scriptPubKey[0] == 0x6a)
                  then Overlay(below, c) else Overlay(below, c)[o := coin]
  {
    if !coin.IsUnspendable() {
      AddExactly(below, c, o, coin, possible_overwrite);
      var r := AddCoin(c, o, coin, possible_overwrite).value;
      assert Overlay(below, r) == Overlay(below, c)[o := coin];
    }
  }

  /** SpendCoin once the entry is cached. */
  function Spent(c: CoinsMap, o: OutPoint): CoinsMap
    requires o in c
  {
    if c[o].fresh_ then c - {o} else c[o := Entry(EMPTY, true, false)]
  }

  function Spend(db: map<OutPoint, Coin>, ls: seq<CoinsMap>, o: OutPoint): (r: (seq<CoinsMap>, Option<Coin>))
    requires ls != []
    ensures |r.0| == |ls|
  {
    var (ls', found) := Fetch(db, ls, o);
    (if found.Some? then ls'[|ls| - 1 := Spent(ls'[|ls| - 1], o)] else ls', found)
  }

  lemma SpentIsRight(below: Utxo, c: CoinsMap, o: OutPoint)
    requires CoinsOk(below, c) && o in c
    ensures CoinsOk(below, Spent(c, o)) && Overlay(below, Spent(c, o)) == Overlay(below, c) - {o}
  {
    assert EntryOk(below, o, c[o]);
    assert Overlay(below, Spent(c, o)) == Overlay(below, c) - {o};
  }

  /** Uncache on one layer: only an entry without flags goes. */
  function Uncached(c: CoinsMap, o: OutPoint): CoinsMap {
    if o in c && !c[o].dirty && !c[o].fresh_ then c - {o} else c
  }

  lemma UncacheIsInvisible(below: Utxo, c: CoinsMap, o: OutPoint)
    requires CoinsOk(below, c)
    ensures CoinsOk(below, Uncached(c, o)) && Overlay(below, Uncached(c, o)) == Overlay(below, c)
    ensures o in Uncached(c, o) <==> o in c && (c[o].dirty || c[o].fresh_)
    ensures Uncached(c, o) == if o in Uncached(c, o) then c else c - {o}
  {
    if o in c { assert EntryOk(below, o, c[o]); }
    assert Overlay(below, Uncached(c, o)) == Overlay(below, c);
  }

  // ----- Writing a layer into the one below

  /** The exception "FRESH flag misapplied to coin that exists in parent cache". */
  predicate Misapplied(p: CoinsMap, c: CoinsMap, o: OutPoint) {
    o in c && c[o].dirty && c[o].fresh_ && o in p && !p[o].coin.IsSpent()
  }

  predicate SomeMisapplied(p: CoinsMap, c: CoinsMap) { exists o | o in c :: Misapplied(p, c, o) }

  /** What BatchWrite makes of one outpoint. */
  function Merged(p: CoinsMap, c: CoinsMap, o: OutPoint): Option<Entry> {
    if o !in c || !c[o].dirty then (if o in p then Some(p[o]) else None)
    else if o !in p then (if c[o].fresh_ && c[o].coin.IsSpent() then None else Some(Entry(c[o].coin, true, c[o].fresh_)))
    else if p[o].fresh_ && c[o].coin.IsSpent() then None
    else Some(Entry(c[o].coin, true, p[o].fresh_))
  }

  function Batch(p: CoinsMap, c: CoinsMap): CoinsMap {
    map o | o in p.Keys + c.Keys && Merged(p, c, o).Some? :: Merged(p, c, o).value
  }

  /** Pushing a legal layer down is safe and makes the lower layer look like the upper one did. */
  lemma BatchIsRight(below: Utxo, p: CoinsMap, c: CoinsMap)
    requires CoinsOk(below, p) && CoinsOk(Overlay(below, p), c)
    ensures !SomeMisapplied(p, c)
    ensures CoinsOk(below, Batch(p, c)) && Overlay(below, Batch(p, c)) == Overlay(Overlay(below, p), c)
  {
    var mid, r := Overlay(below, p), Batch(p, c);
    forall o | o in c ensures !Misapplied(p, c, o) { assert EntryOk(mid, o, c[o]); }
    forall o | o in r ensures EntryOk(below, o, r[o]) { MergeOk(below, p, c, o); }
    forall o ensures (o in Overlay(below, r) <==> o in Overlay(mid, c))
        && (o in Overlay(below, r) ==> Overlay(below, r)[o] == Overlay(mid, c)[o]) {
      MergeOk(below, p, c, o);
    }
    assert Overlay(below, r) == Overlay(mid, c);
  }

  lemma MergeOk(below: Utxo, p: CoinsMap, c: CoinsMap, o: OutPoint)
    requires CoinsOk(below, p) && CoinsOk(Overlay(below, p), c)
    ensures o in Batch(p, c) ==> EntryOk(below, o, Batch(p, c)[o])
    ensures var top := Overlay(Overlay(below, p), c);
            var low := Overlay(below, Batch(p, c));
            (o in low <==> o in top) && (o in low ==> low[o] == top[o])
  {
    if o in c { assert EntryOk(Overlay(below, p), o, c[o]); }
    if o in p { assert EntryOk(below, o, p[o]); }
  }

  /** The database takes the dirty entries: spent coins are erased, the others written. */
  function DbBatch(db: map<OutPoint, Coin>, c: CoinsMap): map<OutPoint, Coin> {
    map o | o in db.Keys + c.Keys && (if o in c && c[o].dirty then !c[o].coin.IsSpent() else o in db) ::
      if o in c && c[o].dirty then c[o].coin else db[o]
  }

  lemma DbBatchIsRight(db: map<OutPoint, Coin>, c: CoinsMap)
    requires CoinsOk(Live(db), c)
    ensures Live(DbBatch(db, c)) == Overlay(Live(db), c)
  {
    forall o | o in c ensures EntryOk(Live(db), o, c[o]) {}
    assert Live(DbBatch(db, c)) == Overlay(Live(db), c);
  }

  /** Flush of the top layer. */
  function Flush(db: map<OutPoint, Coin>, ls: seq<CoinsMap>): (r: (map<OutPoint, Coin>, seq<CoinsMap>))
    requires ls != []
    ensures |r.1| == |ls|
  {
    var n := |ls| - 1;
    if n == 0 then (DbBatch(db, ls[0]), [map[]])
    else (db, ls[..n - 1] + [Batch(ls[n - 1], ls[n])] + [map[]])
  }

  lemma EmptyLayer(m: Utxo)
    ensures Overlay(m, map[]) == m && CoinsOk(m, map[])
  {}

  /** Flushing leaves the flushed view, and all views below the target, as they were. */
  lemma FlushIsRight(db: map<OutPoint, Coin>, ls: seq<CoinsMap>)
    requires ls != [] && StackOk(db, ls)
    ensures |ls| > 1 ==> !SomeMisapplied(ls[|ls| - 2], ls[|ls| - 1])
    ensures StackOk(Flush(db, ls).0, Flush(db, ls).1)
    ensures var (db', ls') := Flush(db, ls);
            && View(db', ls') == View(db, ls) && View(db', ls'[..|ls| - 1]) == View(db, ls)
            && forall k :: 0 <= k < |ls| - 1 ==> View(db', ls'[..k]) == View(db, ls[..k])
  {
    var n := |ls| - 1;
    var (db', ls') := Flush(db, ls);
    EmptyLayer(View(db, ls));
    if n == 0 {
      assert ls[..0] == [] && ls'[..0] == [];
      DbBatchIsRight(db, ls[0]);
      StackAppend(db', [], map[]);
      assert ls' == [] + [map[]];
    } else {
      var low := ls[..n - 1];
      assert ls[..n] == low + [ls[n - 1]];
      StackAppend(db, low, ls[n - 1]);
      BatchIsRight(View(db, low), ls[n - 1], ls[n]);
      var mid := low + [Batch(ls[n - 1], ls[n])];
      StackAppend(db, low, Batch(ls[n - 1], ls[n]));
      StackAppend(db, mid, map[]);
      assert ls'[..n] == mid;
      forall k | 0 <= k < n ensures View(db', ls'[..k]) == View(db, ls[..k]) { assert ls'[..k] == ls[..k]; }
    }
  }

  // ----- Operations anywhere in the stack

  lemma ReplaceOne(db: map<OutPoint, Coin>, pre: seq<CoinsMap>, db': map<OutPoint, Coin>, pre': seq<CoinsMap>, l: CoinsMap)
    requires StackOk(db, pre + [l]) && StackOk(db', pre') && View(db', pre') == View(db, pre)
    ensures StackOk(db', pre' + [l]) && View(db', pre' + [l]) == View(db, pre + [l])
  {
    StackAppend(db, pre, l);
    StackAppend(db', pre', l);
  }

  lemma Regroup<T>(pre: seq<T>, suf: seq<T>)
    requires suf != []
    ensures pre + suf == (pre + suf[..|suf| - 1]) + [suf[|suf| - 1]]
  {}

  lemma WithoutTop(db: map<OutPoint, Coin>, low: seq<CoinsMap>, l: CoinsMap)
    requires StackOk(db, low + [l])
    ensures StackOk(db, low)
  {
    StackAppend(db, low, l);
  }

  /** What is on top does not care how the part below is represented. */
  lemma {:induction false} ReplaceBelow(db: map<OutPoint, Coin>, pre: seq<CoinsMap>, db': map<OutPoint, Coin>,
      pre': seq<CoinsMap>, suf: seq<CoinsMap>)
    requires StackOk(db, pre + suf) && StackOk(db', pre') && View(db', pre') == View(db, pre)
    ensures StackOk(db', pre' + suf) && View(db', pre' + suf) == View(db, pre + suf)
    decreases |suf|
  {
    if suf == [] {
      assert pre + suf == pre && pre' + suf == pre';
    } else {
      var init, l := suf[..|suf| - 1], suf[|suf| - 1];
      Regroup(pre, suf);
      Regroup(pre', suf);
      WithoutTop(db, pre + init, l);
      ReplaceBelow(db, pre, db', pre', init);
      ReplaceOne(db, pre + init, db', pre' + init, l);
    }
  }

  lemma {:induction false} PrefixOk(db: map<OutPoint, Coin>, ls: seq<CoinsMap>, k: nat)
    requires StackOk(db, ls) && k <= |ls|
    ensures StackOk(db, ls[..k])
  {
    if k < |ls| {
      PrefixOk(db, ls[..|ls| - 1], k);
      assert ls[..|ls| - 1][..k] == ls[..k];
    } else {
      assert ls[..k] == ls;
    }
  }

  /** The views at every depth, the database first. */
  function Views(db: map<OutPoint, Coin>, ls: seq<CoinsMap>): (r: seq<Utxo>)
    ensures |r| == |ls| + 1
  {
    seq(|ls| + 1, k requires 0 <= k <= |ls| => View(db, ls[..k]))
  }

  datatype Op =
    | GetOp(level: nat, o: OutPoint)
    | AddOp(o: OutPoint, coin: Coin, possible_overwrite: bool)
    | SpendOp(o: OutPoint)
    | FlushOp(level: nat)
    | UncacheOp(level: nat, o: OutPoint)
    | PushOp
    | DiscardOp

  /** `Taken` is what SpendCoin moves out when it reports success. */
  datatype Response = Found(coin: Option<Coin>) | Taken(moved: Option<Coin>) | Done | Threw

  /** A cache answers as a plain map, except that spending what is not there may also report
      success, with a spent coin. */
  predicate Alike(plain: Response, cached: Response) {
    || plain == cached
    || (plain == Taken(None) && cached.Taken? && cached.moved.Some? && cached.moved.value.IsSpent())
  }

  /** What the caller owes: levels exist, new coins are unspent, and an overwrite is announced
      whenever something unspent can be seen.  Only the top layer is written to. */
  predicate Owed(ms: seq<Utxo>, op: Op)
    requires ms != []
  {
    match op
    case GetOp(level, _) => 1 <= level < |ms|
    case AddOp(o, coin, possible_overwrite) => |ms| > 1 && !coin.IsSpent() && (possible_overwrite || o !in ms[|ms| - 1])
    case SpendOp(_) => |ms| > 1
    case FlushOp(level) => 1 <= level < |ms|
    case UncacheOp(level, _) => 1 <= level < |ms|
    case PushOp => true
    case DiscardOp => |ms| > 1
  }

  /** The operation on plain maps, one per depth. */
  function Plain(ms: seq<Utxo>, op: Op): (r: (seq<Utxo>, Response))
    requires ms != [] && Owed(ms, op)
    ensures r.0 != []
  {
    var n := |ms| - 1;
    match op
    case GetOp(level, o) => (ms, Found(if o in ms[level] then Some(ms[level][o]) else None))
    case AddOp(o, coin, _) => (if coin.IsUnspendable() then ms else ms[n := ms[n][o := coin]], Done)
    case SpendOp(o) => (ms[n := ms[n] - {o}], Taken(if o in ms[n] then Some(ms[n][o]) else None))
    case FlushOp(level) => (ms[level - 1 := ms[level]], Done)
    case UncacheOp(_, _) => (ms, Done)
    case PushOp => (ms + [ms[n]], Done)
    case DiscardOp => (ms[..n], Done)
  }

  /** The operation on the stack of caches. */
  function Apply(db: map<OutPoint, Coin>, ls: seq<CoinsMap>, op: Op): (r: (map<OutPoint, Coin>, seq<CoinsMap>, Response))
    requires Owed(Views(db, ls), op)
  {
    var n := |ls| - 1;
    match op
    case GetOp(level, o) =>
      var (pre, found) := Get(db, ls[..level], o);
      (db, pre + ls[level..], Found(found))
    case AddOp(o, coin, possible_overwrite) =>
      (match AddCoin(ls[n], o, coin, possible_overwrite)
       case None => (db, ls, Threw)
       case Some(c) => (db, ls[n := c], Done))
    case SpendOp(o) => var (ls', moved) := Spend(db, ls, o); (db, ls', Taken(moved))
    case FlushOp(level) =>
      if level > 1 && SomeMisapplied(ls[level - 2], ls[level - 1]) then (db, ls, Threw)
      else
        var (db', pre) := Flush(db, ls[..level]);
        (db', pre + ls[level..], Done)
    case UncacheOp(level, o) => (db, ls[level - 1 := Uncached(ls[level - 1], o)], Done)
    case PushOp => (db, ls + [map[]], Done)
    case DiscardOp => (db, ls[..n], Done)
  }

  // ----- Caches are indistinguishable from plain maps

  lemma ViewsAt(db: map<OutPoint, Coin>, ls: seq<CoinsMap>, k: nat)
    requires k <= |ls|
    ensures Views(db, ls)[k] == View(db, ls[..k]) && ls[..|ls|] == ls
  {}

  /** Views above depth k after the part up to k was replaced by one that looks the same. */
  lemma ViewAbove(db: map<OutPoint, Coin>, ls: seq<CoinsMap>, db': map<OutPoint, Coin>, pre: seq<CoinsMap>, j: nat)
    requires |pre| <= j <= |ls| && StackOk(db, ls) && StackOk(db', pre) && View(db', pre) == View(db, ls[..|pre|])
    ensures View(db', (pre + ls[|pre|..])[..j]) == View(db, ls[..j])
  {
    var k := |pre|;
    assert (pre + ls[k..])[..j] == pre + ls[k..j] && ls[..j] == ls[..k] + ls[k..j];
    PrefixOk(db, ls, j);
    ReplaceBelow(db, ls[..k], db', pre, ls[k..j]);
  }

  lemma StackAbove(db: map<OutPoint, Coin>, ls: seq<CoinsMap>, db': map<OutPoint, Coin>, pre: seq<CoinsMap>)
    requires |pre| <= |ls| && StackOk(db, ls) && StackOk(db', pre) && View(db', pre) == View(db, ls[..|pre|])
    ensures StackOk(db', pre + ls[|pre|..])
  {
    assert ls == ls[..|pre|] + ls[|pre|..];
    ReplaceBelow(db, ls[..|pre|], db', pre, ls[|pre|..]);
  }

  lemma ViewBelow(db: map<OutPoint, Coin>, pre: seq<CoinsMap>, suf: seq<CoinsMap>, j: nat)
    requires j <= |pre|
    ensures View(db, (pre + suf)[..j]) == View(db, pre[..j])
  {
    assert (pre + suf)[..j] == pre[..j];
  }

  lemma WholeView(db: map<OutPoint, Coin>, ls: seq<CoinsMap>, ls': seq<CoinsMap>)
    requires SameViews(db, ls, ls')
    ensures View(db, ls') == View(db, ls)
  {
    assert ls[..|ls|] == ls && ls'[..|ls|] == ls';
  }

  /** A change that is invisible up to depth k is invisible everywhere. */
  lemma InvisibleBelow(db: map<OutPoint, Coin>, ls: seq<CoinsMap>, pre: seq<CoinsMap>, k: nat)
    requires k <= |ls| && StackOk(db, ls) && StackOk(db, pre) && SameViews(db, ls[..k], pre)
    ensures StackOk(db, pre + ls[k..]) && Views(db, pre + ls[k..]) == Views(db, ls)
  {
    WholeView(db, ls[..k], pre);
    StackAbove(db, ls, db, pre);
    forall j | 0 <= j <= |ls| ensures View(db, (pre + ls[k..])[..j]) == View(db, ls[..j]) {
      if j <= k {
        ViewBelow(db, pre, ls[k..], j);
        assert ls[..k][..j] == ls[..j];
      } else {
        ViewAbove(db, ls, db, pre, j);
      }
    }
  }

  /** A change of the top layer shows only at the top. */
  lemma TopChange(db: map<OutPoint, Coin>, ls: seq<CoinsMap>, c: CoinsMap)
    requires ls != [] && StackOk(db, ls) && CoinsOk(View(db, ls[..|ls| - 1]), c)
    ensures StackOk(db, ls[|ls| - 1 := c])
    ensures Views(db, ls[|ls| - 1 := c]) == Views(db, ls)[|ls| := Overlay(View(db, ls[..|ls| - 1]), c)]
  {
    var n := |ls| - 1;
    var low := ls[..n];
    assert ls == low + [ls[n]] && ls[n := c] == low + [c];
    StackAppend(db, low, c);
    StackAppend(db, low, ls[n]);
    ViewsAppend(db, low, c);
    ViewsAppend(db, low, ls[n]);
  }

  lemma GetMatches(db: map<OutPoint, Coin>, ls: seq<CoinsMap>, op: Op)
    requires StackOk(db, ls) && Owed(Views(db, ls), op) && op.GetOp?
    ensures Matches(db, ls, op)
  {
    var k := op.level;
    PrefixOk(db, ls, k);
    FetchIsRight(db, ls[..k], op.o);
    InvisibleBelow(db, ls, Get(db, ls[..k], op.o).0, k);
  }

  lemma AddMatches(db: map<OutPoint, Coin>, ls: seq<CoinsMap>, op: Op)
    requires StackOk(db, ls) && Owed(Views(db, ls), op) && op.AddOp?
    ensures Matches(db, ls, op)
  {
    ViewsAt(db, ls, |ls|);
    AddAtTop(db, ls, op.o, op.coin, op.possible_overwrite);
    if op.coin.IsUnspendable() { assert Views(db, ls)[|ls| := View(db, ls)] == Views(db, ls); }
  }

  lemma AddAtTop(db: map<OutPoint, Coin>, ls: seq<CoinsMap>, o: OutPoint, coin: Coin, possible_overwrite: bool)
    requires ls != [] && StackOk(db, ls) && !coin.IsSpent() && (possible_overwrite || o !in View(db, ls))
    ensures var r := AddCoin(ls[|ls| - 1], o, coin, possible_overwrite);
            && r.Some? && StackOk(db, ls[|ls| - 1 := r.value])
            && Views(db, ls[|ls| - 1 := r.value])
                == Views(db, ls)[|ls| := if coin.IsUnspendable() then View(db, ls) else View(db, ls)[o := coin]]
  {
    var n := |ls| - 1;
    AddIsRight(View(db, ls[..n]), ls[n], o, coin, possible_overwrite);
    TopChange(db, ls, AddCoin(ls[n], o, coin, possible_overwrite).value);
  }

  lemma SpendMatches(db: map<OutPoint, Coin>, ls: seq<CoinsMap>, op: Op)
    requires StackOk(db, ls) && Owed(Views(db, ls), op) && op.SpendOp?
    ensures Matches(db, ls, op)
  {
    SpendAt(db, ls, op.o);
    FetchIsRight(db, ls, op.o);
    ViewsAt(db, ls, |ls|);
  }

  lemma SpendAt(db: map<OutPoint, Coin>, ls: seq<CoinsMap>, o: OutPoint)
    requires StackOk(db, ls) && ls != []
    ensures var ls', n := Spend(db, ls, o).0, |ls|;
            StackOk(db, ls') && Views(db, ls') == Views(db, ls)[n := Views(db, ls)[n] - {o}]
  {
    var (ls', found) := Fetch(db, ls, o);
    FetchIsRight(db, ls, o);
    SameAsViews(db, ls, ls');
    ViewsAt(db, ls, |ls|);
    if found.Some? {
      SpendFound(db, ls', o);
    } else {
      NothingSpent(Views(db, ls), o);
    }
  }

  lemma SpendFound(db: map<OutPoint, Coin>, ls: seq<CoinsMap>, o: OutPoint)
    requires StackOk(db, ls) && ls != [] && o in ls[|ls| - 1]
    ensures var ls', n := ls[|ls| - 1 := Spent(ls[|ls| - 1], o)], |ls|;
            StackOk(db, ls') && Views(db, ls') == Views(db, ls)[n := Views(db, ls)[n] - {o}]
  {
    var n := |ls| - 1;
    assert ls == ls[..n] + [ls[n]];
    StackAppend(db, ls[..n], ls[n]);
    SpentIsRight(View(db, ls[..n]), ls[n], o);
    TopChange(db, ls, Spent(ls[n], o));
    ViewsAt(db, ls, |ls|);
  }

  lemma SameAsViews(db: map<OutPoint, Coin>, ls: seq<CoinsMap>, ls': seq<CoinsMap>)
    requires SameViews(db, ls, ls')
    ensures Views(db, ls') == Views(db, ls)
  {}

  lemma NothingSpent(ms: seq<Utxo>, o: OutPoint)
    requires ms != [] && o !in ms[|ms| - 1]
    ensures ms[|ms| - 1 := ms[|ms| - 1] - {o}] == ms
  {
    assert ms[|ms| - 1] - {o} == ms[|ms| - 1];
  }

  lemma UncacheMatches(db: map<OutPoint, Coin>, ls: seq<CoinsMap>, op: Op)
    requires StackOk(db, ls) && Owed(Views(db, ls), op) && op.UncacheOp?
    ensures Matches(db, ls, op)
  {
    UncacheAt(db, ls, op.level, op.o);
  }

  lemma UncacheAt(db: map<OutPoint, Coin>, ls: seq<CoinsMap>, k: nat, o: OutPoint)
    requires StackOk(db, ls) && 1 <= k <= |ls|
    ensures var ls' := ls[k - 1 := Uncached(ls[k - 1], o)]; StackOk(db, ls') && Views(db, ls') == Views(db, ls)
  {
    PrefixOk(db, ls, k);
    UncacheBelow(db, ls[..k], o);
    var pre := ls[..k][k - 1 := Uncached(ls[k - 1], o)];
    InvisibleBelow(db, ls, pre, k);
    UpdateInPrefix(ls, k, Uncached(ls[k - 1], o));
  }

  lemma UpdateInPrefix<T>(s: seq<T>, k: nat, x: T)
    requires 1 <= k <= |s|
    ensures s[..k][k - 1 := x] + s[k..] == s[k - 1 := x]
  {}

  lemma UncacheBelow(db: map<OutPoint, Coin>, ls: seq<CoinsMap>, o: OutPoint)
    requires ls != [] && StackOk(db, ls)
    ensures var ls' := ls[|ls| - 1 := Uncached(ls[|ls| - 1], o)]; StackOk(db, ls') && SameViews(db, ls, ls')
  {
    var n := |ls| - 1;
    var low, c := ls[..n], Uncached(ls[n], o);
    assert ls == low + [ls[n]] && ls[n := c] == low + [c];
    UncacheIsInvisible(View(db, low), ls[n], o);
    StackAppend(db, low, c);
    SameViewsAppend(db, low, low, ls[n], c);
  }

  lemma FlushMatches(db: map<OutPoint, Coin>, ls: seq<CoinsMap>, op: Op)
    requires StackOk(db, ls) && Owed(Views(db, ls), op) && op.FlushOp?
    ensures Matches(db, ls, op)
  {
    FlushAt(db, ls, op.level);
  }

  lemma FlushAt(db: map<OutPoint, Coin>, ls: seq<CoinsMap>, k: nat)
    requires StackOk(db, ls) && 1 <= k <= |ls|
    ensures !(k > 1 && SomeMisapplied(ls[k - 2], ls[k - 1]))
    ensures var (db', pre) := Flush(db, ls[..k]);
            StackOk(db', pre + ls[k..]) && Views(db', pre + ls[k..]) == Views(db, ls)[k - 1 := Views(db, ls)[k]]
  {
    PrefixOk(db, ls, k);
    FlushIsRight(db, ls[..k]);
    var (db', pre) := Flush(db, ls[..k]);
    StackAbove(db, ls, db', pre);
    FlushViews(db, ls, db', pre);
  }

  lemma FlushViews(db: map<OutPoint, Coin>, ls: seq<CoinsMap>, db': map<OutPoint, Coin>, pre: seq<CoinsMap>)
    requires 1 <= |pre| <= |ls| && StackOk(db, ls) && StackOk(db', pre) && View(db', pre) == View(db, ls[..|pre|])
    requires View(db', pre[..|pre| - 1]) == View(db, ls[..|pre|])
    requires forall j :: 0 <= j < |pre| - 1 ==> View(db', pre[..j]) == View(db, ls[..|pre|][..j])
    ensures Views(db', pre + ls[|pre|..]) == Views(db, ls)[|pre| - 1 := Views(db, ls)[|pre|]]
  {
    var k := |pre|;
    forall j | 0 <= j <= |ls| ensures View(db', (pre + ls[k..])[..j]) == View(db, ls[..if j == k - 1 then k else j]) {
      if j < k {
        ViewBelow(db', pre, ls[k..], j);
        assert ls[..k][..j] == ls[..j];
      } else {
        ViewAbove(db, ls, db', pre, j);
      }
    }
  }

  /** The stack stays legal, nothing is thrown, the answer is the plain one, and afterwards
      every depth looks like its plain map. */
  ghost predicate Matches(db: map<OutPoint, Coin>, ls: seq<CoinsMap>, op: Op)
    requires Owed(Views(db, ls), op)
  {
    var (db', ls', response) := Apply(db, ls, op);
    && StackOk(db', ls')
    && Alike(Plain(Views(db, ls), op).1, response)
    && Views(db', ls') == Plain(Views(db, ls), op).0
  }

  lemma StepMatches(db: map<OutPoint, Coin>, ls: seq<CoinsMap>, op: Op)
    requires StackOk(db, ls) && Owed(Views(db, ls), op)
    ensures Matches(db, ls, op)
  {
    match op
    case GetOp(_, _) => GetMatches(db, ls, op);
    case AddOp(_, _, _) => AddMatches(db, ls, op);
    case SpendOp(_) => SpendMatches(db, ls, op);
    case FlushOp(_) => FlushMatches(db, ls, op);
    case UncacheOp(_, _) => UncacheMatches(db, ls, op);
    case PushOp => PushMatches(db, ls);
    case DiscardOp => DiscardMatches(db, ls);
  }

  lemma PushMatches(db: map<OutPoint, Coin>, ls: seq<CoinsMap>)
    requires StackOk(db, ls)
    ensures Matches(db, ls, PushOp)
  {
    EmptyLayer(View(db, ls));
    StackAppend(db, ls, map[]);
    ViewsAppend(db, ls, map[]);
    ViewsAt(db, ls, |ls|);
  }

  lemma ViewsAppend(db: map<OutPoint, Coin>, ls: seq<CoinsMap>, l: CoinsMap)
    ensures Views(db, ls + [l]) == Views(db, ls) + [View(db, ls + [l])]
  {
    var ls' := ls + [l];
    forall j | 0 <= j <= |ls| ensures View(db, ls'[..j]) == View(db, ls[..j]) { assert ls'[..j] == ls[..j]; }
    assert ls'[..|ls'|] == ls';
  }

  lemma DiscardMatches(db: map<OutPoint, Coin>, ls: seq<CoinsMap>)
    requires StackOk(db, ls) && ls != []
    ensures Matches(db, ls, DiscardOp)
  {
    var ls' := ls[..|ls| - 1];
    forall j | 0 <= j < |ls| ensures View(db, ls'[..j]) == View(db, ls[..j]) { assert ls'[..j] == ls[..j]; }
  }

  /** Runs of operations on plain maps and on caches, with all answers. */
  ghost predicate OwedAll(ms: seq<Utxo>, ops: seq<Op>)
    requires ms != []
    decreases |ops|
  {
    ops == [] || (Owed(ms, ops[0]) && OwedAll(Plain(ms, ops[0]).0, ops[1..]))
  }

  ghost function PlainRun(ms: seq<Utxo>, ops: seq<Op>): seq<Response>
    requires ms != [] && OwedAll(ms, ops)
    decreases |ops|
  {
    if ops == [] then [] else [Plain(ms, ops[0]).1] + PlainRun(Plain(ms, ops[0]).0, ops[1..])
  }

  ghost function CacheRun(db: map<OutPoint, Coin>, ls: seq<CoinsMap>,
      ops: seq<Op>): (r: (map<OutPoint, Coin>, seq<CoinsMap>, seq<Response>))
    requires StackOk(db, ls) && OwedAll(Views(db, ls), ops)
    decreases |ops|
  {
    if ops == [] then (db, ls, [])
    else
      StepMatches(db, ls, ops[0]);
      var (db1, ls1, response) := Apply(db, ls, ops[0]);
      var (db2, ls2, responses) := CacheRun(db1, ls1, ops[1..]);
      (db2, ls2, [response] + responses)
  }

  ghost predicate AllAlike(plain: seq<Response>, cached: seq<Response>) {
    |plain| == |cached| && forall i :: 0 <= i < |plain| ==> Alike(plain[i], cached[i])
  }

  /** Any run of lookups, additions, spends, flushes, evictions, new and discarded layers on a
      legal stack of any depth gives the answers plain maps would give, throws nothing, and
      leaves every entry in one of the five legal states. */
  lemma {:induction false} RunMatches(db: map<OutPoint, Coin>, ls: seq<CoinsMap>, ops: seq<Op>)
    requires StackOk(db, ls) && OwedAll(Views(db, ls), ops)
    ensures AllAlike(PlainRun(Views(db, ls), ops), CacheRun(db, ls, ops).2)
    ensures Threw !in CacheRun(db, ls, ops).2
    ensures StackOk(CacheRun(db, ls, ops).0, CacheRun(db, ls, ops).1)
    ensures forall i, o :: 0 <= i < |CacheRun(db, ls, ops).1| && o in CacheRun(db, ls, ops).1[i] ==>
            LegalState(CacheRun(db, ls, ops).1[i][o])
    decreases |ops|
  {
    if ops == [] {
      AllLegal(db, ls);
    } else {
      StepMatches(db, ls, ops[0]);
      var (db1, ls1, _) := Apply(db, ls, ops[0]);
      RunMatches(db1, ls1, ops[1..]);
    }
  }

  lemma {:induction false} AllLegal(db: map<OutPoint, Coin>, ls: seq<CoinsMap>)
    requires StackOk(db, ls)
    ensures forall i, o :: 0 <= i < |ls| && o in ls[i] ==> LegalState(ls[i][o])
  {
    if ls != [] {
      var n := |ls| - 1;
      AllLegal(db, ls[..n]);
      forall i, o | 0 <= i < |ls| && o in ls[i] ensures LegalState(ls[i][o]) {
        if i == n { assert EntryOk(View(db, ls[..n]), o, ls[n][o]); } else { assert ls[..n][i] == ls[i]; }
      }
    }
  }

  /** Spending finds a spent entry: one cached in the top layer or, below a single layer that has
      none, one in the database. */
  predicate FindsSpent(db: map<OutPoint, Coin>, ls: seq<CoinsMap>, o: OutPoint)
    requires ls != []
  {
    var n := |ls| - 1;
    if o in ls[n] then ls[n][o].coin.IsSpent() else n == 0 && o in db && db[o].IsSpent()
  }

  /** What the layers below answer, the database with its spent entries included. */
  lemma GetFinds(db: map<OutPoint, Coin>, ls: seq<CoinsMap>, o: OutPoint)
    requires StackOk(db, ls)
    ensures Get(db, ls, o).1.Some? <==> o in View(db, ls) || (ls == [] && o in db && db[o].IsSpent())
  {
    GetIsRight(db, ls, o);
  }

  lemma OverlayAt(below: Utxo, c: CoinsMap, o: OutPoint)
    ensures o in Overlay(below, c) <==> if o in c then !c[o].coin.IsSpent() else o in below
  {}

  lemma FetchFinds(db: map<OutPoint, Coin>, low: seq<CoinsMap>, c: CoinsMap, o: OutPoint)
    ensures (low + [c])[..|low|] == low
    ensures Fetch(db, low + [c], o).1.Some? <==> o in c || Get(db, low, o).1.Some?
  {
    StackAppend(db, low, c);
  }

  /** A coin that can be seen is moved out.  Where none can be seen, SpendCoin reports failure if
      and only if it finds no spent entry either. */
  lemma SpendExactly(db: map<OutPoint, Coin>, ls: seq<CoinsMap>, o: OutPoint)
    requires ls != [] && StackOk(db, ls)
    ensures o in View(db, ls) ==> Spend(db, ls, o).1 == Some(View(db, ls)[o])
    ensures (Spend(db, ls, o).1.Some? <==> o in View(db, ls)) <==> !FindsSpent(db, ls, o)
  {
    var low, c := ls[..|ls| - 1], ls[|ls| - 1];
    assert ls == low + [c];
    FetchIsRight(db, ls, o);
    GetFinds(db, low, o);
    FetchFinds(db, low, c, o);
    OverlayAt(View(db, low), c, o);
    StackAppend(db, low, c);
  }

  lemma SpentEntry(db: map<OutPoint, Coin>, ls: seq<CoinsMap>, o: OutPoint)
    requires ls != [] && Fetch(db, ls, o).1.Some? && !Fetch(db, ls, o).1.value.IsSpent()
    ensures var top, ls' := ls[|ls| - 1], Spend(db, ls, o).0;
            |ls'| == |ls| && FindsSpent(db, ls', o)
                == ((|ls| == 1 && o in db && db[o].IsSpent()) || !(o in top && top[o].fresh_))
  {}

  lemma SpentIsGone(db: map<OutPoint, Coin>, ls: seq<CoinsMap>, o: OutPoint)
    requires ls != [] && StackOk(db, ls)
    ensures var ls' := Spend(db, ls, o).0; ls' != [] && StackOk(db, ls') && o !in View(db, ls')
  {
    var ls' := Spend(db, ls, o).0;
    SpendAt(db, ls, o);
    ViewsAt(db, ls', |ls|);
  }

  /** So the second of two spends of a coin reports success again, unless the top layer held the
      coin as FRESH and no spent entry is below. */
  lemma SpendTwice(db: map<OutPoint, Coin>, ls: seq<CoinsMap>, o: OutPoint)
    requires ls != [] && StackOk(db, ls) && o in View(db, ls)
    ensures var top, fails := ls[|ls| - 1], Spend(db, Spend(db, ls, o).0, o).1.None?;
            fails <==> o in top && top[o].fresh_ && !(|ls| == 1 && o in db && db[o].IsSpent())
  {
    SpentIsGone(db, ls, o);
    SpendExactly(db, Spend(db, ls, o).0, o);
    SeenIsFetched(db, ls, o);
    SpentEntry(db, ls, o);
  }

  lemma SeenIsFetched(db: map<OutPoint, Coin>, ls: seq<CoinsMap>, o: OutPoint)
    requires ls != [] && StackOk(db, ls) && o in View(db, ls)
    ensures Fetch(db, ls, o).1.Some? && !Fetch(db, ls, o).1.value.IsSpent()
  {
    FetchIsRight(db, ls, o);
    ViewIsUnspent(db, ls, o);
  }

  /** The smallest case: one empty layer over a database with the coin. */
  lemma SpendReportsTwice(db: map<OutPoint, Coin>, o: OutPoint)
    requires o in Live(db)
    ensures var first := Spend(db, [map[]], o);
            first.1 == Some(db[o]) && Spend(db, first.0, o).1 == Some(EMPTY) && o !in View(db, first.0)
  {
    var ls: seq<CoinsMap> := [map[]];
    assert ls[..0] == [];
    var first := Spend(db, ls, o);
    assert first.0[..0] == [];
  }

  // ----- Adding the outputs of a transaction

  /** One turn of AddCoins; None if AddCoin throws. */
  function AddOutput(db: map<OutPoint, Coin>, ls: seq<CoinsMap>, o: OutPoint, coin: Coin, fCoinbase: bool,
      check: bool): (r: Option<seq<CoinsMap>>)
    requires ls != []
    ensures r.Some? ==> |r.value| == |ls|
  {
    var (ls', found) := if check then Fetch(db, ls, o) else (ls, None);
    var overwrite := if check then found.Some? && !found.value.IsSpent() else fCoinbase;
    match AddCoin(ls'[|ls| - 1], o, coin, overwrite)
    case None => None
    case Some(c) => Some(ls'[|ls| - 1 := c])
  }

  function AddOutputs(db: map<OutPoint, Coin>, ls: seq<CoinsMap>, txid: nat, outs: seq<Coin>, fCoinbase: bool,
      check: bool): (r: Option<seq<CoinsMap>>)
    requires ls != []
    ensures r.Some? ==> |r.value| == |ls|
    decreases |outs|
  {
    if outs == [] then Some(ls)
    else
      var n := |outs| - 1;
      match AddOutputs(db, ls, txid, outs[..n], fCoinbase, check)
      case None => None
      case Some(ls1) => AddOutput(db, ls1, (txid, n), outs[n], fCoinbase, check)
  }

  /** The outputs put into a plain map; unspendable ones never get there. */
  function PlainOutputs(m: Utxo, txid: nat, outs: seq<Coin>): Utxo {
    if outs == [] then m
    else
      var n := |outs| - 1;
      var m1 := PlainOutputs(m, txid, outs[..n]);
      if outs[n].IsUnspendable() then m1 else m1[(txid, n) := outs[n]]
  }

  lemma {:induction false} OutputsElsewhere(m: Utxo, txid: nat, outs: seq<Coin>, o: OutPoint)
    requires o.0 != txid || o.1 >= |outs|
    ensures o in PlainOutputs(m, txid, outs) <==> o in m
  {
    if outs != [] { OutputsElsewhere(m, txid, outs[..|outs| - 1], o); }
  }

  /** With the check AddCoins never throws and adds exactly the spendable outputs; without it,
      the same holds for a coinbase or when none of the outputs can be seen yet. */
  lemma {:induction false} AddCoinsIsRight(db: map<OutPoint, Coin>, ls: seq<CoinsMap>, txid: nat, outs: seq<Coin>,
      fCoinbase: bool, check: bool)
    requires ls != [] && StackOk(db, ls) && forall i :: 0 <= i < |outs| ==> !outs[i].IsSpent()
    requires check || fCoinbase || forall i: nat :: i < |outs| ==> (txid, i) !in View(db, ls)
    ensures var r := AddOutputs(db, ls, txid, outs, fCoinbase, check);
            && r.Some? && StackOk(db, r.value)
            && Views(db, r.value) == Views(db, ls)[|ls| := PlainOutputs(View(db, ls), txid, outs)]
    decreases |outs|
  {
    ViewsAt(db, ls, |ls|);
    if outs == [] {
      assert Views(db, ls)[|ls| := View(db, ls)] == Views(db, ls);
    } else {
      var n := |outs| - 1;
      AddCoinsIsRight(db, ls, txid, outs[..n], fCoinbase, check);
      OneMoreOutput(db, ls, AddOutputs(db, ls, txid, outs[..n], fCoinbase, check).value, txid, outs, fCoinbase, check);
    }
  }

  lemma OneMoreOutput(db: map<OutPoint, Coin>, ls: seq<CoinsMap>, ls1: seq<CoinsMap>, txid: nat, outs: seq<Coin>,
      fCoinbase: bool, check: bool)
    requires outs != [] && !outs[|outs| - 1].IsSpent() && ls1 != [] && |ls1| == |ls| && StackOk(db, ls1)
    requires check || fCoinbase || (txid, |outs| - 1) !in View(db, ls)
    requires Views(db, ls1) == Views(db, ls)[|ls| := PlainOutputs(View(db, ls), txid, outs[..|outs| - 1])]
    ensures var r := AddOutput(db, ls1, (txid, |outs| - 1), outs[|outs| - 1], fCoinbase, check);
            && r.Some? && StackOk(db, r.value)
            && Views(db, r.value) == Views(db, ls)[|ls| := PlainOutputs(View(db, ls), txid, outs)]
  {
    var n := |outs| - 1;
    ViewsAt(db, ls1, |ls|);
    OutputsElsewhere(View(db, ls), txid, outs[..n], (txid, n));
    AddOutputIsRight(db, ls1, (txid, n), outs[n], fCoinbase, check);
  }

  lemma AddOutputIsRight(db: map<OutPoint, Coin>, ls: seq<CoinsMap>, o: OutPoint, coin: Coin, fCoinbase: bool, check: bool)
    requires ls != [] && StackOk(db, ls) && !coin.IsSpent() && (check || fCoinbase || o !in View(db, ls))
    ensures var r := AddOutput(db, ls, o, coin, fCoinbase, check);
            && r.Some? && StackOk(db, r.value)
            && Views(db, r.value) == Views(db, ls)[|ls| := if coin.IsUnspendable() then View(db, ls)
                else View(db, ls)[o := coin]]
  {
    if check {
      var (ls', found) := Fetch(db, ls, o);
      FetchIsRight(db, ls, o);
      SameAsViews(db, ls, ls');
      ViewsAt(db, ls, |ls|);
      ViewsAt(db, ls', |ls|);
      AddAtTop(db, ls', o, coin, found.Some? && !found.value.IsSpent());
    } else {
      AddAtTop(db, ls, o, coin, fCoinbase);
    }
  }

  // ----- One cache object

  ghost function SomeKey(m: CoinsMap): (o: OutPoint)
    requires m != map[]
    ensures o in m
  {
    var o :| o in m;
    o
  }

  /** Memory held by all coins of a layer. */
  ghost function Total(m: CoinsMap): int
    decreases |m|
  {
    if m == map[] then 0 else m[SomeKey(m)].coin.Usage() + Total(m - {SomeKey(m)})
  }

  lemma {:induction false} TotalWithout(m: CoinsMap, o: OutPoint)
    requires o in m
    ensures Total(m) == m[o].coin.Usage() + Total(m - {o})
    decreases |m|
  {
    var k := SomeKey(m);
    if k != o {
      TotalWithout(m - {k}, o);
      TotalWithout(m - {o}, k);
      assert m - {k} - {o} == m - {o} - {k};
    }
  }

  lemma TotalUpdate(m: CoinsMap, o: OutPoint, e: Entry)
    ensures Total(m[o := e]) == Total(m - {o}) + e.coin.Usage()
  {
    TotalWithout(m[o := e], o);
    assert m[o := e] - {o} == m - {o};
  }

  class CCoinsViewCache {
    var cacheCoins: CoinsMap
    var cachedCoinsUsage: int

    ghost predicate Valid()
      reads this
    {
      cachedCoinsUsage == Total(cacheCoins)
    }

    constructor ()
      ensures Valid() && cacheCoins == map[]
    {
      cacheCoins, cachedCoinsUsage := map[], 0;
    }

    /** `fromBase` is what base->GetCoin answers. */
    method FetchCoin(o: OutPoint, fromBase: Option<Coin>) returns (found: bool)
      requires Valid()
      modifies this
      ensures Valid() && (found <==> o in cacheCoins)
      ensures cacheCoins == if o in old(cacheCoins)
              || fromBase.None? then old(cacheCoins) else Fill(old(cacheCoins), o, fromBase.value)
    {
      if o in cacheCoins { return true; }
      if fromBase.None? { return false; }
      TotalUpdate(cacheCoins, o, Entry(fromBase.value, false, fromBase.value.IsSpent()));
      assert cacheCoins - {o} == cacheCoins;
      cacheCoins := cacheCoins[o := Entry(fromBase.value, false, false)];
      if cacheCoins[o].coin.IsSpent() {
        cacheCoins := cacheCoins[o := cacheCoins[o].(fresh_ := true)];
      }
      cachedCoinsUsage := cachedCoinsUsage + cacheCoins[o].coin.Usage();
      assert cacheCoins == Fill(old(cacheCoins), o, fromBase.value);
      return true;
    }

    /** When it throws, the usage total has already been lowered. */
    method AddCoinTo(o: OutPoint, coin: Coin, possible_overwrite: bool) returns (threw: bool)
      requires Valid() && !coin.IsSpent()
      modifies this
      ensures threw <==> AddCoin(old(cacheCoins), o, coin, possible_overwrite).None?
      ensures !threw ==> Valid() && Some(cacheCoins) == AddCoin(old(cacheCoins), o, coin, possible_overwrite)
      ensures threw ==> cacheCoins == old(cacheCoins) && cachedCoinsUsage == old(cachedCoinsUsage) - cacheCoins[o].coin.Usage()
    {
      if coin.IsUnspendable() { return false; }
      var inserted := o !in cacheCoins;
      if inserted { cacheCoins := cacheCoins[o := Entry(EMPTY, false, false)]; }
      ghost var c := cacheCoins;
      var fresh_ := false;
      if !inserted {
        cachedCoinsUsage := cachedCoinsUsage - cacheCoins[o].coin.Usage();
        TotalWithout(cacheCoins, o);
      }
      assert old(cacheCoins) - {o} == c - {o};
      if inserted { assert old(cacheCoins) - {o} == old(cacheCoins); }
      if !possible_overwrite {
        if !cacheCoins[o].coin.IsSpent() { return true; }
        fresh_ := !cacheCoins[o].dirty;
      }
      var e := Entry(coin, true, cacheCoins[o].fresh_ || fresh_);
      TotalUpdate(old(cacheCoins), o, e);
      cacheCoins := cacheCoins[o := e];
      cachedCoinsUsage := cachedCoinsUsage + coin.Usage();
      assert cacheCoins == old(cacheCoins)[o := e];
      return false;
    }

    method SpendCoin(o: OutPoint, fromBase: Option<Coin>) returns (found: bool, moveout: Coin)
      requires Valid()
      modifies this
      ensures Valid()
      ensures var c := if o in old(cacheCoins)
              || fromBase.None? then old(cacheCoins) else Fill(old(cacheCoins), o, fromBase.value);
              && (found <==> o in c)
              && cacheCoins == (if found then Spent(c, o) else c)
              && moveout == if found then c[o].coin else EMPTY
    {
      found := FetchCoin(o, fromBase);
      if !found { return false, EMPTY; }
      TotalWithout(cacheCoins, o);
      TotalUpdate(cacheCoins, o, Entry(EMPTY, true, false));
      cachedCoinsUsage := cachedCoinsUsage - cacheCoins[o].coin.Usage();
      moveout := cacheCoins[o].coin;
      if cacheCoins[o].fresh_ {
        cacheCoins := cacheCoins - {o};
      } else {
        cacheCoins := cacheCoins[o := Entry(EMPTY, true, false)];
      }
    }

    method Uncache(o: OutPoint)
      requires Valid()
      modifies this
      ensures Valid() && cacheCoins == Uncached(old(cacheCoins), o)
      ensures o in cacheCoins <==> o in old(cacheCoins) && (old(cacheCoins)[o].dirty || old(cacheCoins)[o].fresh_)
      ensures cacheCoins == if o in cacheCoins then old(cacheCoins) else old(cacheCoins) - {o}
    {
      if o in cacheCoins && !cacheCoins[o].dirty && !cacheCoins[o].fresh_ {
        TotalWithout(cacheCoins, o);
        cachedCoinsUsage := cachedCoinsUsage - cacheCoins[o].coin.Usage();
        cacheCoins := cacheCoins - {o};
      }
    }

    /** One turn of the loop of BatchWrite. */
    method WriteOne(o: OutPoint, e: Entry) returns (threw: bool)
      requires Valid()
      modifies this
      ensures threw <==> Misapplied(old(cacheCoins), map[o := e], o)
      ensures Valid()
      ensures if threw then cacheCoins == old(cacheCoins) else cacheCoins == Batch(old(cacheCoins), map[o := e])
    {
      ghost var p, c := cacheCoins, map[o := e];
      BatchOne(p, o, e);
      if !e.dirty { return false; }
      if o !in cacheCoins {
        if !(e.fresh_ && e.coin.IsSpent()) {
          TotalUpdate(cacheCoins, o, Entry(e.coin, true, e.fresh_));
          assert cacheCoins - {o} == cacheCoins;
          cacheCoins := cacheCoins[o := Entry(e.coin, true, e.fresh_)];
          cachedCoinsUsage := cachedCoinsUsage + e.coin.Usage();
        }
      } else {
        if e.fresh_ && !cacheCoins[o].coin.IsSpent() { return true; }
        TotalWithout(cacheCoins, o);
        cachedCoinsUsage := cachedCoinsUsage - cacheCoins[o].coin.Usage();
        if cacheCoins[o].fresh_ && e.coin.IsSpent() {
          cacheCoins := cacheCoins - {o};
        } else {
          TotalUpdate(cacheCoins, o, Entry(e.coin, true, cacheCoins[o].fresh_));
          cacheCoins := cacheCoins[o := Entry(e.coin, true, cacheCoins[o].fresh_)];
          cachedCoinsUsage := cachedCoinsUsage + e.coin.Usage();
        }
      }
      return false;
    }

    /** The erasing loop over the child's entries, in any order. */
    method BatchWrite(mapCoins: CoinsMap) returns (threw: bool)
      requires Valid()
      modifies this
      ensures threw <==> SomeMisapplied(old(cacheCoins), mapCoins)
      ensures Valid()
      ensures !threw ==> cacheCoins == Batch(old(cacheCoins), mapCoins)
    {
      ghost var p := cacheCoins;
      var rest := mapCoins;
      ghost var done: CoinsMap := map[];
      BatchNothing(p);
      while rest != map[]
        invariant Valid() && Split(mapCoins, done, rest)
        invariant cacheCoins == Batch(p, done) && !SomeMisapplied(p, done)
        decreases rest.Keys
      {
        ghost var some := SomeKey(rest);
        var o :| o in rest;
        BatchNext(p, done, o, rest[o]);
        var bad := WriteOne(o, rest[o]);
        if bad {
          assert Misapplied(p, mapCoins, o);
          return true;
        }
        done := done[o := rest[o]];
        rest := rest - {o};
      }
      assert done == mapCoins;
      return false;
    }
  }

  ghost predicate Split(all: CoinsMap, done: CoinsMap, rest: CoinsMap) {
    && (forall o :: o in all <==> o in done || o in rest)
    && (forall o :: o in done ==> o !in rest && done[o] == all[o])
    && (forall o :: o in rest ==> rest[o] == all[o])
  }

  lemma BatchNothing(p: CoinsMap)
    ensures Batch(p, map[]) == p
  {}

  lemma BatchOne(p: CoinsMap, o: OutPoint, e: Entry)
    ensures Batch(p, map[o := e]) == match Merged(p, map[o := e], o) case None => p - {o} case Some(x) => p[o := x]
  {
    var c := map[o := e];
    forall k | k != o ensures Merged(p, c, k) == if k in p then Some(p[k]) else None {}
  }

  /** Writing the entries one after the other is writing them all. */
  lemma BatchNext(p: CoinsMap, done: CoinsMap, o: OutPoint, e: Entry)
    requires o !in done && !SomeMisapplied(p, done)
    ensures Batch(Batch(p, done), map[o := e]) == Batch(p, done[o := e])
    ensures Misapplied(Batch(p, done), map[o := e], o) <==> Misapplied(p, map[o := e], o)
    ensures SomeMisapplied(p, done[o := e]) <==> Misapplied(p, map[o := e], o)
  {
    var q, c := Batch(p, done), done[o := e];
    assert o in q <==> o in p;
    forall k ensures Merged(q, map[o := e], k) == Merged(p, c, k) {
      if k != o { assert Merged(p, c, k) == Merged(p, done, k); }
    }
    assert Batch(q, map[o := e]) == Batch(p, c);
    if Misapplied(p, map[o := e], o) { assert Misapplied(p, c, o); }
    if SomeMisapplied(p, c) {
      var k :| k in c && Misapplied(p, c, k);
      assert k in done ==> Misapplied(p, done, k);
    }
  }
}
