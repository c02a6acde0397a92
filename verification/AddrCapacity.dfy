/**
 How much the address manager can hold: as many tried entries as the tried table has positions, as many new ones as the
 new table has, and ten pending collisions.
 */
module AddrCapacity {
  import opened Basics
  import opened Numbers
  import opened AddrTables

  /** The first k positions of the first n buckets. */
  ghost function Positions(n: nat, k: nat): set<Slot> {
    if n == 0 then {} else Positions(n - 1, k) + Bucket(n - 1, k)
  }

  /** The first k positions of a bucket. */
  ghost function Bucket(b: int, k: nat): set<Slot> { if k == 0 then {} else Bucket(b, k - 1) + {Slot(b, k - 1)} }

  lemma {:induction false} BucketHas(b: int, k: nat, s: Slot)
    ensures s in Bucket(b, k) <==> s.bucket == b && 0 <= s.pos < k
  {
    if k > 0 { BucketHas(b, k - 1, s); }
  }

  lemma {:induction false} PositionsHave(n: nat, k: nat, s: Slot)
    ensures s in Positions(n, k) <==> 0 <= s.bucket < n && 0 <= s.pos < k
  {
    if n > 0 {
      PositionsHave(n - 1, k, s);
      BucketHas(n - 1, k, s);
    }
  }

  lemma {:induction false} BucketSize(b: int, k: nat)
    ensures |Bucket(b, k)| == k
  {
    if k > 0 {
      BucketSize(b, k - 1);
      BucketHas(b, k - 1, Slot(b, k - 1));
    }
  }

  lemma {:induction false} PositionsSize(n: nat, k: nat)
    ensures |Positions(n, k)| == Mul(n, k)
  {
    if n == 0 {
      MulOne(k);
    } else {
      var m: nat := n - 1;
      PositionsSize(m, k);
      OneMoreBucket(m, k, n);
      Product(m, k, n);
    }
  }

  lemma OneMoreBucket(n: nat, k: nat, m: nat)
    requires m == n + 1
    ensures |Positions(m, k)| == |Positions(n, k)| + k
  {
    var below, last := Positions(n, k), Bucket(n, k);
    assert Positions(m, k) == below + last;
    BucketSize(n, k);
    Apart(n, k, below, last);
  }

  lemma Product(n: nat, k: nat, m: nat)
    requires m == n + 1
    ensures Mul(m, k) == Mul(n, k) + k
  {
    MulAdd(n, 1, k);
    MulOne(k);
  }

  lemma Apart(n: nat, k: nat, below: set<Slot>, last: set<Slot>)
    requires below == Positions(n, k) && last == Bucket(n, k)
    ensures |below + last| == |below| + |last|
  {
    forall s | s in below ensures s !in last {
      PositionsHave(n, k, s);
      BucketHas(n, k, s);
    }
    assert below !! last;
  }

  /** A table has room for one id at each position. */
  lemma {:induction false} FewIds(t: Table, at: set<Slot>, ids: set<int>)
    requires at <= t.Keys && forall id :: id in ids ==> exists s :: s in at && t[s] == id
    ensures |ids| <= |at|
    decreases |at|
  {
    if at == {} {
      if ids != {} { var _ := Pick(ids); }
    } else {
      var s :| s in at;
      FewIds(t, at - {s}, ids - {t[s]});
      Fewer(ids, t[s]);
    }
  }

  lemma Fewer(ids: set<int>, id: int)
    ensures |ids| <= |ids - {id}| + 1
  {
    if id !in ids { assert ids - {id} == ids; }
  }

  lemma TableHolds(t: Table, buckets: nat, ids: set<int>)
    requires Grid(t, buckets) && forall id :: id in ids ==> exists s :: s in t && t[s] == id
    ensures |ids| <= buckets * 64
  {
    forall s ensures s in t.Keys <==> s in Positions(buckets, 64) { PositionsHave(buckets, 64, s); }
    assert t.Keys == Positions(buckets, 64);
    PositionsSize(buckets, 64);
    MulIs(buckets, 64);
    FewIds(t, t.Keys, ids);
  }

  /** There are at most 16384 tried and 65536 new entries. */
  lemma Capacity(o: Oracle, v: Tables)
    requires Sound(o, v, {}, {})
    ensures v.nTried <= 16384 && v.nNew <= 65536 && |v.vRandom| <= 81920
  {
    CheckPasses(o, v);
    TriedFit(o, v);
    NewFit(o, v);
  }

  lemma TriedFit(o: Oracle, v: Tables)
    requires Sound(o, v, {}, {})
    ensures |TriedIds(v.mapInfo)| <= 16384
  {
    forall id | id in TriedIds(v.mapInfo) ensures exists s :: s in v.vvTried && v.vvTried[s] == id { TriedAlone(o, v, id); }
    assert Grid(v.vvTried, 256) by { SoundIsAgree(o, v, {}, {}); }
    TableHolds(v.vvTried, 256, TriedIds(v.mapInfo));
  }

  lemma NewFit(o: Oracle, v: Tables)
    requires Sound(o, v, {}, {})
    ensures |NewIds(v.mapInfo)| <= 65536
  {
    forall id | id in NewIds(v.mapInfo) ensures exists s :: s in v.vvNew && v.vvNew[s] == id { var s := SomeRef(o, v, id); }
    assert Grid(v.vvNew, 1024) by { SoundIsAgree(o, v, {}, {}); }
    TableHolds(v.vvNew, 1024, NewIds(v.mapInfo));
  }

  lemma {:induction false} NoMore(a: set<int>, b: set<int>)
    requires a <= b
    ensures |a| <= |b|
    decreases |a|
  {
    if a != {} {
      var x := Pick(a);
      NoMore(a - {x}, b - {x});
    }
  }

  /** Marking an address good adds a pending collision only while there are fewer than ten. */
  lemma GoodPending(o: Oracle, v: Tables, coll: set<int>, v': Tables, coll': set<int>, a: Service, test: bool, now: int)
    requires GoodEffect(o, v, coll, v', coll', a, test, now)
    ensures |coll'| <= Max(10, |coll|)
  {
    match Find(v.mapInfo, v.mapAddr, a.ip)
    case None =>
    case Some(id) => if id in coll { assert coll + {id} == coll; }
  }
}
