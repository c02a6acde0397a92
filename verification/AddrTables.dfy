/**
 The data of the address manager and what every change to it keeps.

 Five indexes describe the same entries: mapInfo (id to entry), mapAddr (IP to id),
 vRandom (all ids in random order), vvNew and vvTried (the bucket tables), beside the
 counters nNew and nTried.  `Sound` says that they agree; it contains everything the
 source's own consistency check looks at.  Entries in `limbo` are counted in neither table, and
 `loose` ones may be without a reference.

 Bucket and position hashes are arbitrary functions.
 */
module AddrTables {
  import opened Basics
  import Numbers

  const TRIED_BUCKET_COUNT := 256
  const NEW_BUCKET_COUNT := 1024
  const BUCKET_SIZE := 64
  const NEW_BUCKETS_PER_ADDRESS := 8
  const HORIZON_DAYS := 30
  const RETRIES := 3
  const MAX_FAILURES := 10
  const MIN_FAIL_DAYS := 7
  const REPLACEMENT_HOURS := 4
  const SET_TRIED_COLLISION_SIZE := 10
  const TEST_WINDOW := 40 * 60

  type NetAddr = nat

  datatype Service = Service(ip: NetAddr, port: nat)

  datatype Address = Address(service: Service, nTime: int, nServices: set<nat>)

  datatype Info = Info(addr: Service, nTime: int, nServices: set<nat>, source: NetAddr,
                       nLastTry: int, nLastCountAttempt: int, nLastSuccess: int, nAttempts: int,
                       nRefCount: int, fInTried: bool, nRandomPos: int)

  datatype Slot = Slot(bucket: int, pos: int)

  /** A bucket table; -1 marks an empty position. */
  type Table = map<Slot, int>

  /** What the manager takes from outside: its keyed hashes and the address classification. */
  datatype Oracle = Oracle(tried: Service -> nat, fresh_: (Service, NetAddr) -> nat,
                           position: (Service, bool, int) -> nat,
                           routable: NetAddr -> bool, valid: NetAddr -> bool)
  {
    function TriedBucket(a: Service): int { tried(a) % TRIED_BUCKET_COUNT }

    function NewBucket(a: Service, source: NetAddr): int { fresh_(a, source) % NEW_BUCKET_COUNT }

    function Position(a: Service, fNew: bool, bucket: int): int { position(a, fNew, bucket) % BUCKET_SIZE }

    function TriedSlot(a: Service): Slot { Slot(TriedBucket(a), Position(a, false, TriedBucket(a))) }

    function NewSlot(a: Service, source: NetAddr): Slot {
      Slot(NewBucket(a, source), Position(a, true, NewBucket(a, source)))
    }
  }

  function FreshInfo(addr: Address, source: NetAddr): Info {
    Info(addr.service, addr.nTime, addr.nServices, source, 0, 0, 0, 0, 0, false, -1)
  }

  /** An entry starts without a success, a try or a place. */
  lemma FreshMeans(addr: Address, source: NetAddr, now: int)
    ensures var x := FreshInfo(addr, source);
            && x.addr == addr.service && x.source == source && Offer(x) == addr && !x.fInTried && x.nRefCount == 0
            && x.nLastTry == x.nLastCountAttempt == x.nLastSuccess == x.nAttempts == 0
            && (addr.nTime != 0 && now - 2592000 <= addr.nTime <= now + 600 ==> !IsTerrible(x, now))
  {}

  predicate IsTerrible(info: Info, nNow: int) {
    if info.nLastTry != 0 && info.nLastTry >= nNow - 60 then false
    else if info.nTime > nNow + 10 * 60 then true
    else if info.nTime == 0 || nNow - info.nTime > HORIZON_DAYS * 24 * 60 * 60 then true
    else if info.nLastSuccess == 0 && info.nAttempts >= RETRIES then true
    else nNow - info.nLastSuccess > MIN_FAIL_DAYS * 24 * 60 * 60 && info.nAttempts >= MAX_FAILURES
  }

  /** What is not worth keeping: not tried in the last minute, and from the future, not seen for a month,
      tried three times without any success, or ten times since a success over a week ago. */
  lemma TerribleMeans(x: Info, now: int)
    ensures IsTerrible(x, now) <==>
            && !(x.nLastTry != 0 && now - x.nLastTry <= 60)
            && (|| x.nTime == 0 || x.nTime - now > 600 || now - x.nTime > 2592000
                || (x.nLastSuccess == 0 && x.nAttempts >= 3)
                || (now - x.nLastSuccess > 604800 && x.nAttempts >= 10))
  {}

  // ----- The agreement between the indexes

  ghost predicate Grid(t: Table, buckets: nat) {
    forall s: Slot :: s in t <==> 0 <= s.bucket < buckets && 0 <= s.pos < BUCKET_SIZE
  }

  ghost function Refs(t: Table, id: int): set<Slot> { set s | s in t && t[s] == id }

  ghost function TriedIds(m: map<int, Info>): set<int> { set id | id in m && m[id].fInTried }

  ghost function NewIds(m: map<int, Info>): set<int> { set id | id in m && !m[id].fInTried }

  /** vRandom and nRandomPos are inverse. */
  ghost predicate RandomOk(m: map<int, Info>, v: seq<int>) {
    && (forall i :: 0 <= i < |v| ==> v[i] in m && m[v[i]].nRandomPos == i)
    && (forall id :: id in m ==> 0 <= m[id].nRandomPos < |v| && v[m[id].nRandomPos] == id)
  }

  /** mapAddr and mapInfo are inverse. */
  ghost predicate AddrOk(m: map<int, Info>, a: map<NetAddr, int>) {
    && (forall id :: id in m ==> m[id].addr.ip in a && a[m[id].addr.ip] == id)
    && (forall ip :: ip in a ==> a[ip] in m && m[a[ip]].addr.ip == ip)
  }

  /** Exactly the tried entries are in vvTried, each at its own slot. */
  ghost predicate TriedOk(o: Oracle, m: map<int, Info>, t: Table) {
    && Grid(t, TRIED_BUCKET_COUNT)
    && (forall s :: s in t && t[s] != -1 ==> t[s] in m && m[t[s]].fInTried && s == o.TriedSlot(m[t[s]].addr))
    && (forall id :: id in m && m[id].fInTried ==> t[o.TriedSlot(m[id].addr)] == id)
  }

  /** vvNew holds only new entries at their own positions, and refcounts count their slots. */
  ghost predicate NewOk(o: Oracle, m: map<int, Info>, t: Table) {
    && Grid(t, NEW_BUCKET_COUNT)
    && (forall s :: s in t && t[s] != -1 ==>
          t[s] in m && !m[t[s]].fInTried && s.pos == o.Position(m[t[s]].addr, true, s.bucket))
    && (forall id :: id in m ==> id != -1 && m[id].nRefCount == |Refs(t, id)|)
  }

  /** Times are not negative, tried entries were once good, and a new entry outside
      `exempt` has between one and eight references. */
  ghost predicate EntriesOk(m: map<int, Info>, exempt: set<int>) {
    forall id :: id in m ==>
      && m[id].nLastTry >= 0 && m[id].nLastSuccess >= 0
      && (if m[id].fInTried then m[id].nRefCount == 0 && m[id].nLastSuccess != 0 && id !in exempt
          else m[id].nRefCount <= NEW_BUCKETS_PER_ADDRESS && (id in exempt || m[id].nRefCount > 0))
  }

  ghost predicate CountsOk(m: map<int, Info>, nTried: int, nNew: int, limbo: set<int>) {
    && nTried == |TriedIds(m)|
    && limbo <= NewIds(m)
    && nNew == |NewIds(m) - limbo|
  }

  datatype Tables = Tables(nIdCount: int, mapInfo: map<int, Info>, mapAddr: map<NetAddr, int>, vRandom: seq<int>,
                           nTried: int, vvTried: Table, nNew: int, vvNew: Table)

  /** The clauses of consistency.  Entries in `limbo` are between the tables and not counted
      in nNew; those in `loose` are counted but may still lack a reference. */
  ghost predicate Clause(k: int, o: Oracle, v: Tables, limbo: set<int>, loose: set<int>) {
    match k
    case 0 => RandomOk(v.mapInfo, v.vRandom)
    case 1 => AddrOk(v.mapInfo, v.mapAddr)
    case 2 => TriedOk(o, v.mapInfo, v.vvTried)
    case 3 => NewOk(o, v.mapInfo, v.vvNew)
    case 4 => EntriesOk(v.mapInfo, limbo + loose)
    case 5 => CountsOk(v.mapInfo, v.nTried, v.nNew, limbo)
    case _ => v.nIdCount >= 0 && forall id :: id in v.mapInfo ==> 0 <= id < v.nIdCount
  }

  /** How many of the first n clauses fail.  `Sound` is stated through it, so that proofs see the
      clauses only where `SoundIsAgree` brings them in. */
  ghost function Failing(n: nat, o: Oracle, v: Tables, limbo: set<int>, loose: set<int>): nat {
    if n == 0 then 0 else Failing(n - 1, o, v, limbo, loose) + if Clause(n - 1, o, v, limbo, loose) then 0 else 1
  }

  ghost predicate Sound(o: Oracle, v: Tables, limbo: set<int>, loose: set<int>) { Failing(7, o, v, limbo, loose) == 0 }

  ghost predicate Agree(o: Oracle, v: Tables, limbo: set<int>, loose: set<int>) {
    && RandomOk(v.mapInfo, v.vRandom)
    && AddrOk(v.mapInfo, v.mapAddr)
    && TriedOk(o, v.mapInfo, v.vvTried)
    && NewOk(o, v.mapInfo, v.vvNew)
    && EntriesOk(v.mapInfo, limbo + loose)
    && CountsOk(v.mapInfo, v.nTried, v.nNew, limbo)
    && v.nIdCount >= 0 && (forall id :: id in v.mapInfo ==> 0 <= id < v.nIdCount)
  }

  lemma FailingStep(n: nat, o: Oracle, v: Tables, limbo: set<int>, loose: set<int>)
    ensures Failing(n + 1, o, v, limbo, loose) == 0 <==> Clause(n, o, v, limbo, loose) && Failing(n, o, v, limbo, loose) == 0
  {}

  lemma SoundIsAgree(o: Oracle, v: Tables, limbo: set<int>, loose: set<int>)
    ensures Sound(o, v, limbo, loose) <==> Agree(o, v, limbo, loose)
  {
    FailingStep(6, o, v, limbo, loose);
    FailingStep(5, o, v, limbo, loose);
    FailingStep(4, o, v, limbo, loose);
    FailingStep(3, o, v, limbo, loose);
    FailingStep(2, o, v, limbo, loose);
    FailingStep(1, o, v, limbo, loose);
    FailingStep(0, o, v, limbo, loose);
  }

  // ----- What each elementary change does to each index

  lemma EntryKeepsPlaces(m: map<int, Info>, v: seq<int>, a: map<NetAddr, int>, id: int, x: Info)
    requires RandomOk(m, v) && AddrOk(m, a)
    requires id in m && x.addr == m[id].addr && x.nRandomPos == m[id].nRandomPos
    ensures RandomOk(m[id := x], v) && AddrOk(m[id := x], a)
  {}

  lemma EntryKeepsTried(o: Oracle, m: map<int, Info>, t: Table, id: int, x: Info)
    requires TriedOk(o, m, t) && id in m && x.addr == m[id].addr && x.fInTried == m[id].fInTried
    ensures TriedOk(o, m[id := x], t)
  {}

  lemma EntryKeepsNew(o: Oracle, m: map<int, Info>, t: Table, id: int, x: Info)
    requires NewOk(o, m, t) && id in m && x.addr == m[id].addr && x.fInTried == m[id].fInTried
             && x.nRefCount == m[id].nRefCount
    ensures NewOk(o, m[id := x], t)
  {}

  lemma EntryKeepsCounts(m: map<int, Info>, nTried: int, nNew: int, limbo: set<int>, id: int, x: Info)
    requires CountsOk(m, nTried, nNew, limbo) && id in m && x.fInTried == m[id].fInTried
    ensures CountsOk(m[id := x], nTried, nNew, limbo)
  {
    assert TriedIds(m[id := x]) == TriedIds(m);
    assert NewIds(m[id := x]) == NewIds(m);
  }

  /** An entry that changed only in its times, services and attempts. */
  ghost predicate SameStanding(x: Info, y: Info) {
    && y == y.(addr := x.addr, nRefCount := x.nRefCount, fInTried := x.fInTried, nRandomPos := x.nRandomPos)
    && y.nLastTry >= 0 && y.nLastSuccess >= 0 && (x.fInTried ==> y.nLastSuccess > 0)
  }

  lemma EntryUpdated(o: Oracle, v: Tables, id: int, x: Info, limbo: set<int>, loose: set<int>)
    requires Sound(o, v, limbo, loose) && id in v.mapInfo && SameStanding(v.mapInfo[id], x)
    ensures Sound(o, v.(mapInfo := v.mapInfo[id := x]), limbo, loose)
  {
    SoundIsAgree(o, v, limbo, loose);
    EntryKeepsPlaces(v.mapInfo, v.vRandom, v.mapAddr, id, x);
    EntryKeepsTried(o, v.mapInfo, v.vvTried, id, x);
    EntryKeepsNew(o, v.mapInfo, v.vvNew, id, x);
    EntryKeepsCounts(v.mapInfo, v.nTried, v.nNew, limbo, id, x);
    SoundIsAgree(o, v.(mapInfo := v.mapInfo[id := x]), limbo, loose);
  }

  // Losing and gaining references

  lemma RefIsCounted(o: Oracle, m: map<int, Info>, t: Table, s: Slot)
    requires NewOk(o, m, t) && s in t && t[s] != -1
    ensures t[s] in m && m[t[s]].nRefCount >= 1
  {
    assert s in Refs(t, t[s]);
  }

  /** An entry with refcount 0 is nowhere in the new table. */
  lemma NoRefs(o: Oracle, m: map<int, Info>, t: Table, id: int)
    requires NewOk(o, m, t) && id in m && m[id].nRefCount == 0
    ensures forall s :: s in t ==> t[s] != id
  {
    forall s | s in t ensures t[s] != id { assert t[s] == id ==> s in Refs(t, id); }
  }

  lemma RefsAfter(t: Table, s: Slot, x: int, j: int)
    requires s in t && x != t[s]
    ensures |Refs(t[s := x], j)| == |Refs(t, j)| + (if x == j then 1 else 0) - if t[s] == j then 1 else 0
  {
    assert Refs(t[s := x], j) == Refs(t, j) - {s} + if x == j then {s} else {};
  }

  ghost function Recounted(m: map<int, Info>, id: int, n: int): map<int, Info>
    requires id in m
  {
    m[id := m[id].(nRefCount := n)]
  }

  lemma RefDropped(o: Oracle, m: map<int, Info>, t: Table, s: Slot)
    requires NewOk(o, m, t) && s in t && t[s] != -1
    ensures t[s] in m && NewOk(o, Recounted(m, t[s], m[t[s]].nRefCount - 1), t[s := -1])
  {
    var m', t' := Recounted(m, t[s], m[t[s]].nRefCount - 1), t[s := -1];
    forall j | j in m' ensures j != -1 && m'[j].nRefCount == |Refs(t', j)| { RefsAfter(t, s, -1, j); }
  }

  lemma RefAdded(o: Oracle, m: map<int, Info>, t: Table, id: int, s: Slot)
    requires NewOk(o, m, t) && id in m && !m[id].fInTried
    requires s in t && t[s] == -1 && s.pos == o.Position(m[id].addr, true, s.bucket)
    ensures NewOk(o, Recounted(m, id, m[id].nRefCount + 1), t[s := id])
  {
    var m', t' := Recounted(m, id, m[id].nRefCount + 1), t[s := id];
    forall j | j in m' ensures j != -1 && m'[j].nRefCount == |Refs(t', j)| { RefsAfter(t, s, id, j); }
  }

  lemma RecountKeeps(o: Oracle, v: Tables, id: int, n: int, t: Table, limbo: set<int>, loose: set<int>, loose': set<int>)
    requires Sound(o, v, limbo, loose) && id in v.mapInfo && !v.mapInfo[id].fInTried
    requires NewOk(o, Recounted(v.mapInfo, id, n), t) && EntriesOk(Recounted(v.mapInfo, id, n), limbo + loose')
    ensures Sound(o, v.(mapInfo := Recounted(v.mapInfo, id, n), vvNew := t), limbo, loose')
  {
    SoundIsAgree(o, v, limbo, loose);
    var x := v.mapInfo[id].(nRefCount := n);
    EntryKeepsPlaces(v.mapInfo, v.vRandom, v.mapAddr, id, x);
    EntryKeepsTried(o, v.mapInfo, v.vvTried, id, x);
    EntryKeepsCounts(v.mapInfo, v.nTried, v.nNew, limbo, id, x);
    SoundIsAgree(o, v.(mapInfo := Recounted(v.mapInfo, id, n), vvNew := t), limbo, loose');
  }

  lemma EntriesDropped(m: map<int, Info>, id: int, limbo: set<int>, loose: set<int>)
    requires EntriesOk(m, limbo + loose) && id in m && !m[id].fInTried && m[id].nRefCount >= 1
    ensures EntriesOk(Recounted(m, id, m[id].nRefCount - 1), limbo + (loose + {id}))
  {}

  lemma DropKeeps(o: Oracle, v: Tables, s: Slot, limbo: set<int>, loose: set<int>)
    requires Sound(o, v, limbo, loose) && s in v.vvNew && v.vvNew[s] != -1
    ensures var id := v.vvNew[s];
            && id in v.mapInfo && !v.mapInfo[id].fInTried && v.mapInfo[id].nRefCount > 0
            && Sound(o, v.(mapInfo := Recounted(v.mapInfo, id, v.mapInfo[id].nRefCount - 1), vvNew := v.vvNew[s := -1]),
                     limbo, loose + {id})
  {
    var id := v.vvNew[s];
    assert NewOk(o, v.mapInfo, v.vvNew) && EntriesOk(v.mapInfo, limbo + loose) by { SoundIsAgree(o, v, limbo, loose); }
    RefIsCounted(o, v.mapInfo, v.vvNew, s);
    RefDropped(o, v.mapInfo, v.vvNew, s);
    EntriesDropped(v.mapInfo, id, limbo, loose);
    RecountKeeps(o, v, id, v.mapInfo[id].nRefCount - 1, v.vvNew[s := -1], limbo, loose, loose + {id});
  }

  lemma AddRefKeeps(o: Oracle, v: Tables, id: int, s: Slot, limbo: set<int>, loose: set<int>)
    requires Sound(o, v, limbo, loose)
    requires id in v.mapInfo && !v.mapInfo[id].fInTried && v.mapInfo[id].nRefCount < NEW_BUCKETS_PER_ADDRESS
    requires s in v.vvNew && v.vvNew[s] == -1 && s.pos == o.Position(v.mapInfo[id].addr, true, s.bucket)
    ensures Sound(o, v.(mapInfo := Recounted(v.mapInfo, id, v.mapInfo[id].nRefCount + 1), vvNew := v.vvNew[s := id]),
                  limbo, loose - {id})
  {
    SoundIsAgree(o, v, limbo, loose);
    RefAdded(o, v.mapInfo, v.vvNew, id, s);
    RefCountIsNat(o, v.mapInfo, v.vvNew, id);
    RecountKeeps(o, v, id, v.mapInfo[id].nRefCount + 1, v.vvNew[s := id], limbo, loose, loose - {id});
  }

  lemma RefCountIsNat(o: Oracle, m: map<int, Info>, t: Table, id: int)
    requires NewOk(o, m, t) && id in m
    ensures m[id].nRefCount >= 0
  {}

  // Leaving all new buckets at once

  ghost function ClearedOf(t: Table, id: int): Table { map s | s in t :: if t[s] == id then -1 else t[s] }

  /** The new table after the first n buckets were cleared of id. */
  ghost function Swept(t: Table, id: int, n: int): Table {
    map s | s in t :: if s.bucket < n && t[s] == id then -1 else t[s]
  }

  lemma SweptNext(o: Oracle, m: map<int, Info>, t: Table, id: int, n: int)
    requires NewOk(o, m, t) && id in m && 0 <= n < NEW_BUCKET_COUNT
    ensures var s, u := Slot(n, o.Position(m[id].addr, true, n)), Swept(t, id, n);
            && s in u
            && Swept(t, id, n + 1) == (if u[s] == id then u[s := -1] else u)
            && (u[s] == id ==> Refs(u[s := -1], id) == Refs(u, id) - {s} && s in Refs(u, id))
  {
    var s, u := Slot(n, o.Position(m[id].addr, true, n)), Swept(t, id, n);
    forall s' | s' in t && s'.bucket == n && t[s'] == id ensures s' == s {}
    assert Swept(t, id, n + 1) == (if u[s] == id then u[s := -1] else u);
  }

  /** One round of the sweep, on the entries and the table alike. */
  lemma SweepStep(o: Oracle, m: map<int, Info>, t: Table, id: int, n: int, k: int, cur: map<int, Info>, u: Table, s: Slot)
    requires NewOk(o, m, t) && id in m && 0 <= n < NEW_BUCKET_COUNT && s == Slot(n, o.Position(m[id].addr, true, n))
    requires u == Swept(t, id, n) && k == |Refs(u, id)| && cur == Recounted(m, id, k)
    ensures s in u && id in cur
    ensures u[s] == id ==> && u[s := -1] == Swept(t, id, n + 1) && k - 1 == |Refs(u[s := -1], id)|
                           && cur[id := cur[id].(nRefCount := cur[id].nRefCount - 1)] == Recounted(m, id, k - 1)
    ensures u[s] != id ==> u == Swept(t, id, n + 1)
  {
    SweptNext(o, m, t, id, n);
  }

  lemma SweptEnds(t: Table, id: int)
    requires Grid(t, NEW_BUCKET_COUNT) && id != -1
    ensures Swept(t, id, 0) == t && Swept(t, id, NEW_BUCKET_COUNT) == ClearedOf(t, id)
    ensures Refs(ClearedOf(t, id), id) == {}
  {}

  lemma SweptAll(o: Oracle, m: map<int, Info>, t: Table, id: int)
    requires NewOk(o, m, t) && id in m
    ensures NewOk(o, Recounted(m, id, 0), ClearedOf(t, id))
  {
    SweptEnds(t, id);
    var t' := ClearedOf(t, id);
    forall j | j in m && j != id ensures |Refs(t', j)| == m[j].nRefCount { assert Refs(t', j) == Refs(t, j); }
  }

  /** Removing an entry from the new table, counter included, leaves it in limbo. */
  lemma SweepKeeps(o: Oracle, v: Tables, id: int)
    requires Sound(o, v, {}, {}) && id in v.mapInfo && !v.mapInfo[id].fInTried
    ensures Sound(o, v.(mapInfo := Recounted(v.mapInfo, id, 0), vvNew := ClearedOf(v.vvNew, id), nNew := v.nNew - 1),
            {id}, {})
  {
    SoundIsAgree(o, v, {}, {});
    SweptAll(o, v.mapInfo, v.vvNew, id);
    RecountKeeps(o, v, id, 0, ClearedOf(v.vvNew, id), {}, {}, {id});
    var w := v.(mapInfo := Recounted(v.mapInfo, id, 0), vvNew := ClearedOf(v.vvNew, id));
    LooseToLimbo(o, w, id, {}, {});
  }

  /** An uncounted entry and a counted one without references differ only by nNew. */
  lemma LooseToLimbo(o: Oracle, v: Tables, id: int, limbo: set<int>, loose: set<int>)
    requires Sound(o, v, limbo, loose + {id}) && id in v.mapInfo && !v.mapInfo[id].fInTried && id !in limbo
    ensures Sound(o, v.(nNew := v.nNew - 1), limbo + {id}, loose)
  {
    SoundIsAgree(o, v, limbo, loose + {id});
    assert limbo + (loose + {id}) == limbo + {id} + loose;
    assert NewIds(v.mapInfo) - (limbo + {id}) == NewIds(v.mapInfo) - limbo - {id};
    SoundIsAgree(o, v.(nNew := v.nNew - 1), limbo + {id}, loose);
  }

  lemma LimboToLoose(o: Oracle, v: Tables, id: int, limbo: set<int>, loose: set<int>)
    requires Sound(o, v, limbo + {id}, loose) && id !in limbo
    ensures Sound(o, v.(nNew := v.nNew + 1), limbo, loose + {id})
  {
    SoundIsAgree(o, v, limbo + {id}, loose);
    assert limbo + (loose + {id}) == limbo + {id} + loose;
    assert id in NewIds(v.mapInfo);
    assert NewIds(v.mapInfo) - limbo == NewIds(v.mapInfo) - (limbo + {id}) + {id};
    SoundIsAgree(o, v.(nNew := v.nNew + 1), limbo, loose + {id});
  }

  /** A counted entry with references needs no exemption. */
  lemma SettledAmong(o: Oracle, v: Tables, limbo: set<int>, loose: set<int>, id: int)
    requires Sound(o, v, limbo, loose + {id}) && (id in v.mapInfo ==> v.mapInfo[id].nRefCount > 0)
    ensures Sound(o, v, limbo, loose)
  {
    SoundIsAgree(o, v, limbo, loose + {id});
    SoundIsAgree(o, v, limbo, loose);
  }

  // Entering and leaving the tried table

  lemma TriedGone(o: Oracle, m: map<int, Info>, t: Table, news: Table, s: Slot)
    requires TriedOk(o, m, t) && NewOk(o, m, news) && s in t && t[s] != -1
    ensures t[s] in m && m[t[s]].fInTried
    ensures var m' := m[t[s] := m[t[s]].(fInTried := false)]; TriedOk(o, m', t[s := -1]) && NewOk(o, m', news)
  {
    forall id | id in m && m[id].fInTried && id != t[s] ensures o.TriedSlot(m[id].addr) != s {}
  }

  lemma CountsTriedGone(m: map<int, Info>, nTried: int, nNew: int, limbo: set<int>, e: int)
    requires CountsOk(m, nTried, nNew, limbo) && e in m && m[e].fInTried
    ensures CountsOk(m[e := m[e].(fInTried := false)], nTried - 1, nNew, limbo + {e})
  {
    var m' := m[e := m[e].(fInTried := false)];
    assert TriedIds(m') == TriedIds(m) - {e};
    assert NewIds(m') == NewIds(m) + {e};
    assert NewIds(m') - (limbo + {e}) == NewIds(m) - limbo;
  }

  ghost function Unplaced(v: Tables, s: Slot): Tables
    requires s in v.vvTried && v.vvTried[s] in v.mapInfo
  {
    var e := v.vvTried[s];
    v.(mapInfo := v.mapInfo[e := v.mapInfo[e].(fInTried := false)], vvTried := v.vvTried[s := -1], nTried := v.nTried - 1)
  }

  lemma UnplaceKeeps(o: Oracle, v: Tables, s: Slot, limbo: set<int>)
    requires Sound(o, v, limbo, {}) && s in v.vvTried && v.vvTried[s] != -1
    ensures v.vvTried[s] in v.mapInfo && v.mapInfo[v.vvTried[s]].fInTried && v.mapInfo[v.vvTried[s]].nRefCount == 0
    ensures v.vvTried[s] !in limbo && s == o.TriedSlot(v.mapInfo[v.vvTried[s]].addr)
    ensures Sound(o, Unplaced(v, s), limbo + {v.vvTried[s]}, {})
  {
    SoundIsAgree(o, v, limbo, {});
    var e, m := v.vvTried[s], v.mapInfo;
    TriedGone(o, m, v.vvTried, v.vvNew, s);
    EntryKeepsPlaces(m, v.vRandom, v.mapAddr, e, m[e].(fInTried := false));
    CountsTriedGone(m, v.nTried, v.nNew, limbo, e);
    assert EntriesOk(Unplaced(v, s).mapInfo, limbo + {e} + {});
    SoundIsAgree(o, Unplaced(v, s), limbo + {e}, {});
  }

  ghost function PlacedTried(o: Oracle, v: Tables, id: int): Tables
    requires id in v.mapInfo
  {
    v.(mapInfo := v.mapInfo[id := v.mapInfo[id].(fInTried := true)],
       vvTried := v.vvTried[o.TriedSlot(v.mapInfo[id].addr) := id], nTried := v.nTried + 1)
  }

  lemma TriedCame(o: Oracle, m: map<int, Info>, t: Table, news: Table, id: int)
    requires TriedOk(o, m, t) && NewOk(o, m, news) && id in m && !m[id].fInTried && m[id].nRefCount == 0
    requires o.TriedSlot(m[id].addr) in t && t[o.TriedSlot(m[id].addr)] == -1
    ensures var m' := m[id := m[id].(fInTried := true)];
            TriedOk(o, m', t[o.TriedSlot(m[id].addr) := id]) && NewOk(o, m', news)
  {
    NoRefs(o, m, news, id);
  }

  lemma PlaceTriedKeeps(o: Oracle, v: Tables, id: int)
    requires Sound(o, v, {id}, {})
    requires id in v.mapInfo && v.mapInfo[id].nRefCount == 0 && v.mapInfo[id].nLastSuccess > 0
    requires o.TriedSlot(v.mapInfo[id].addr) in v.vvTried && v.vvTried[o.TriedSlot(v.mapInfo[id].addr)] == -1
    ensures Sound(o, PlacedTried(o, v, id), {}, {})
  {
    SoundIsAgree(o, v, {id}, {});
    var m, m' := v.mapInfo, PlacedTried(o, v, id).mapInfo;
    assert id in NewIds(m);
    TriedCame(o, m, v.vvTried, v.vvNew, id);
    EntryKeepsPlaces(m, v.vRandom, v.mapAddr, id, m'[id]);
    assert TriedIds(m') == TriedIds(m) + {id};
    assert NewIds(m') - {} == NewIds(m) - {id};
    assert EntriesOk(m', {} + {});
    SoundIsAgree(o, PlacedTried(o, v, id), {}, {});
  }

  // Creating and erasing entries

  ghost function Created(v: Tables, x: Info): Tables {
    v.(nIdCount := v.nIdCount + 1, mapInfo := v.mapInfo[v.nIdCount := x.(nRandomPos := |v.vRandom|)],
       mapAddr := v.mapAddr[x.addr.ip := v.nIdCount], vRandom := v.vRandom + [v.nIdCount])
  }

  lemma CreatePlaces(m: map<int, Info>, v: seq<int>, a: map<NetAddr, int>, id: int, x: Info)
    requires RandomOk(m, v) && AddrOk(m, a) && id !in m && x.addr.ip !in a && x.nRandomPos == |v|
    ensures RandomOk(m[id := x], v + [id]) && AddrOk(m[id := x], a[x.addr.ip := id])
  {
    forall ip | ip in a ensures a[ip] != id { var j := a[ip]; assert j in m; }
  }

  lemma CreateNew(o: Oracle, m: map<int, Info>, t: Table, id: int, x: Info)
    requires NewOk(o, m, t) && id !in m && id != -1 && x.nRefCount == 0
    ensures NewOk(o, m[id := x], t)
  {
    assert Refs(t, id) == {};
  }

  lemma CreateCounts(m: map<int, Info>, nTried: int, nNew: int, id: int, x: Info)
    requires EntriesOk(m, {} + {}) && CountsOk(m, nTried, nNew, {}) && id !in m
    requires !x.fInTried && x.nRefCount == 0 && x.nLastTry >= 0 && x.nLastSuccess >= 0
    ensures EntriesOk(m[id := x], {id} + {}) && CountsOk(m[id := x], nTried, nNew, {id})
  {
    assert TriedIds(m[id := x]) == TriedIds(m);
    assert NewIds(m[id := x]) - {id} == NewIds(m) - {};
  }

  lemma CreateKeeps(o: Oracle, v: Tables, x: Info)
    requires Sound(o, v, {}, {}) && x.addr.ip !in v.mapAddr
    requires !x.fInTried && x.nRefCount == 0 && x.nLastTry >= 0 && x.nLastSuccess >= 0
    ensures v.nIdCount !in v.mapInfo && Sound(o, Created(v, x), {v.nIdCount}, {})
  {
    SoundIsAgree(o, v, {}, {});
    var id, x', m' := v.nIdCount, x.(nRandomPos := |v.vRandom|), Created(v, x).mapInfo;
    CreatePlaces(v.mapInfo, v.vRandom, v.mapAddr, id, x');
    CreateNew(o, v.mapInfo, v.vvNew, id, x');
    CreateCounts(v.mapInfo, v.nTried, v.nNew, id, x');
    SoundIsAgree(o, Created(v, x), {id}, {});
  }

  ghost function SwappedInfo(m: map<int, Info>, v: seq<int>, p1: int, p2: int): map<int, Info>
    requires 0 <= p1 < |v| && 0 <= p2 < |v| && v[p1] in m && v[p2] in m
  {
    if p1 == p2 then m else m[v[p1] := m[v[p1]].(nRandomPos := p2)][v[p2] := m[v[p2]].(nRandomPos := p1)]
  }

  ghost function SwappedSeq(v: seq<int>, p1: int, p2: int): seq<int>
    requires 0 <= p1 < |v| && 0 <= p2 < |v|
  {
    v[p1 := v[p2]][p2 := v[p1]]
  }

  /** Two entry maps that differ only in positions within vRandom. */
  ghost predicate SameButPos(m: map<int, Info>, m': map<int, Info>) {
    && (forall id :: id in m <==> id in m')
    && forall id :: id in m ==> m'[id] == m[id].(nRandomPos := m'[id].nRandomPos)
  }

  lemma SwapKeepsPlaces(m: map<int, Info>, v: seq<int>, a: map<NetAddr, int>, p1: int, p2: int)
    requires RandomOk(m, v) && AddrOk(m, a) && 0 <= p1 < |v| && 0 <= p2 < |v|
    ensures v[p1] in m && v[p2] in m
    ensures RandomOk(SwappedInfo(m, v, p1, p2), SwappedSeq(v, p1, p2)) && AddrOk(SwappedInfo(m, v, p1, p2), a)
    ensures SameButPos(m, SwappedInfo(m, v, p1, p2))
  {}

  /** Swapping an entry to the end of vRandom, popping it, and forgetting its id and IP. */
  ghost function Erased(v: Tables, id: int): Tables
    requires id in v.mapInfo
  {
    var p, last := v.mapInfo[id].nRandomPos, |v.vRandom| - 1;
    if 0 <= p <= last && v.vRandom[p] in v.mapInfo && v.vRandom[last] in v.mapInfo then
      v.(mapInfo := SwappedInfo(v.mapInfo, v.vRandom, p, last) - {id},
         vRandom := SwappedSeq(v.vRandom, p, last)[..last],
         mapAddr := v.mapAddr - {v.mapInfo[id].addr.ip})
    else v
  }

  lemma SameButPosKeeps(o: Oracle, m: map<int, Info>, m': map<int, Info>, tried: Table, news: Table, exempt: set<int>)
    requires SameButPos(m, m')
    ensures TriedIds(m') == TriedIds(m) && NewIds(m') == NewIds(m)
    ensures TriedOk(o, m, tried) ==> TriedOk(o, m', tried)
    ensures NewOk(o, m, news) ==> NewOk(o, m', news)
    ensures EntriesOk(m, exempt) ==> EntriesOk(m', exempt)
  {
    forall id ensures (id in TriedIds(m') <==> id in TriedIds(m)) && (id in NewIds(m') <==> id in NewIds(m)) {}
  }

  /** An entry without references or tried slot can go without touching the tables. */
  lemma WithoutUnreferenced(o: Oracle, m: map<int, Info>, tried: Table, news: Table, id: int)
    requires TriedOk(o, m, tried) && NewOk(o, m, news) && id in m && !m[id].fInTried && m[id].nRefCount == 0
    ensures TriedOk(o, m - {id}, tried) && NewOk(o, m - {id}, news)
  {
    NoRefs(o, m, news, id);
  }

  /** Erasing an entry in limbo. */
  lemma EraseKeeps(o: Oracle, v: Tables, id: int, limbo: set<int>, loose: set<int>)
    requires Sound(o, v, limbo + {id}, loose) && id !in limbo && id in v.mapInfo && v.mapInfo[id].nRefCount == 0
    ensures Sound(o, Erased(v, id), limbo, loose - {id})
    ensures SameButPos(v.mapInfo - {id}, Erased(v, id).mapInfo)
  {
    SoundIsAgree(o, v, limbo + {id}, loose);
    var m := v.mapInfo;
    assert id in NewIds(m);
    ErasePlaces(v, id);
    WithoutUnreferenced(o, m, v.vvTried, v.vvNew, id);
    WithoutLimbo(m, v.nTried, v.nNew, limbo, loose, id);
    SameButPosKeeps(o, m - {id}, Erased(v, id).mapInfo, v.vvTried, v.vvNew, limbo + (loose - {id}));
    SoundIsAgree(o, Erased(v, id), limbo, loose - {id});
  }

  lemma WithoutLimbo(m: map<int, Info>, nTried: int, nNew: int, limbo: set<int>, loose: set<int>, id: int)
    requires EntriesOk(m, limbo + {id} + loose) && CountsOk(m, nTried, nNew, limbo + {id}) && id !in limbo && id in m
             && !m[id].fInTried
    ensures EntriesOk(m - {id}, limbo + (loose - {id})) && CountsOk(m - {id}, nTried, nNew, limbo)
  {
    assert TriedIds(m - {id}) == TriedIds(m);
    assert NewIds(m - {id}) - limbo == NewIds(m) - (limbo + {id});
  }

  lemma EraseRandom(m: map<int, Info>, v: seq<int>, id: int)
    requires RandomOk(m, v) && id in m
    ensures var p, last := m[id].nRandomPos, |v| - 1;
            && 0 <= p <= last && v[p] == id && v[last] in m
            && RandomOk(SwappedInfo(m, v, p, last) - {id}, SwappedSeq(v, p, last)[..last])
            && SameButPos(m - {id}, SwappedInfo(m, v, p, last) - {id})
  {}

  lemma EraseAddress(m: map<int, Info>, m': map<int, Info>, a: map<NetAddr, int>, id: int)
    requires AddrOk(m, a) && id in m && SameButPos(m - {id}, m')
    ensures AddrOk(m', a - {m[id].addr.ip})
  {
    forall ip | ip in a && ip != m[id].addr.ip ensures a[ip] != id { var j := a[ip]; assert j in m; }
  }

  lemma ErasePlaces(v: Tables, id: int)
    requires RandomOk(v.mapInfo, v.vRandom) && AddrOk(v.mapInfo, v.mapAddr) && id in v.mapInfo
    ensures RandomOk(Erased(v, id).mapInfo, Erased(v, id).vRandom) && AddrOk(Erased(v, id).mapInfo, Erased(v, id).mapAddr)
    ensures SameButPos(v.mapInfo - {id}, Erased(v, id).mapInfo)
  {
    EraseRandom(v.mapInfo, v.vRandom, id);
    EraseAddress(v.mapInfo, Erased(v, id).mapInfo, v.mapAddr, id);
  }

  lemma MayBeLoose(o: Oracle, v: Tables, limbo: set<int>, loose: set<int>, id: int)
    requires Sound(o, v, limbo, loose) && id in v.mapInfo && !v.mapInfo[id].fInTried
    ensures Sound(o, v, limbo, loose + {id})
  {
    SoundIsAgree(o, v, limbo, loose);
    assert limbo + (loose + {id}) == limbo + loose + {id};
    SoundIsAgree(o, v, limbo, loose + {id});
  }

  /** Deleting a counted entry. */
  lemma DeleteKeeps(o: Oracle, v: Tables, id: int, limbo: set<int>, loose: set<int>)
    requires Sound(o, v, limbo, loose)
    requires id in v.mapInfo && !v.mapInfo[id].fInTried && v.mapInfo[id].nRefCount == 0 && id !in limbo
    ensures Sound(o, Erased(v, id).(nNew := v.nNew - 1), limbo, loose - {id})
    ensures SameButPos(v.mapInfo - {id}, Erased(v, id).mapInfo)
  {
    MayBeLoose(o, v, limbo, loose, id);
    LooseToLimbo(o, v, id, limbo, loose);
    EraseKeeps(o, v.(nNew := v.nNew - 1), id, limbo, loose);
  }

  lemma SameUpdate<K, V>(m: map<K, V>, k: K)
    requires k in m
    ensures m[k := m[k]] == m
  {}

  /** The entries after id loses one reference. */
  ghost function Dropped(m: map<int, Info>, id: int): map<int, Info>
    requires id in m
  {
    if m[id].nRefCount <= 1 then m - {id} else Recounted(m, id, m[id].nRefCount - 1)
  }

  /** The same address with the same history, wherever it is filed. */
  ghost predicate SameEntry(x: Info, y: Info) {
    y == x.(nRefCount := y.nRefCount, fInTried := y.fInTried, nRandomPos := y.nRandomPos)
  }

  lemma Pick<T>(s: set<T>) returns (x: T)
    requires s != {}
    ensures x in s
  {
    x :| x in s;
  }

  function GridSlots(buckets: nat): (r: set<Slot>)
    ensures forall s: Slot :: s in r <==> 0 <= s.bucket < buckets && 0 <= s.pos < BUCKET_SIZE
  {
    set b: int, p: int | 0 <= b < buckets && 0 <= p < BUCKET_SIZE :: Slot(b, p)
  }

  function EmptyTable(buckets: nat): Table { map s | s in GridSlots(buckets) :: -1 }

  lemma EmptyIsSound(o: Oracle, v: Tables)
    requires v == Tables(0, map[], map[], [], 0, EmptyTable(TRIED_BUCKET_COUNT), 0, EmptyTable(NEW_BUCKET_COUNT))
    ensures Sound(o, v, {}, {})
  {
    assert TriedIds(v.mapInfo) == {} && NewIds(v.mapInfo) - {} == {};
    SoundIsAgree(o, v, {}, {});
  }

  /** The tried slot of a known entry is occupied. */
  ghost predicate SlotTaken(o: Oracle, v: Tables, id: int) {
    && id in v.mapInfo
    && o.TriedSlot(v.mapInfo[id].addr) in v.vvTried
    && v.vvTried[o.TriedSlot(v.mapInfo[id].addr)] != -1
  }

  /** No tried slot became empty and no known entry changed its address. */
  ghost predicate SlotsKept(o: Oracle, v: Tables, v': Tables) {
    && (forall s :: s in v.vvTried && v.vvTried[s] != -1 ==> s in v'.vvTried && v'.vvTried[s] != -1)
    && (forall id :: id in v'.mapInfo ==> id in v.mapInfo && v'.mapInfo[id].addr == v.mapInfo[id].addr)
  }

  lemma SlotStaysTaken(o: Oracle, v: Tables, v': Tables, id: int)
    requires SlotsKept(o, v, v') && (SlotTaken(o, v, id) || id !in v.mapInfo)
    ensures SlotTaken(o, v', id) || id !in v'.mapInfo
  {}

  lemma TriedOccupied(o: Oracle, v: Tables, s: Slot)
    requires Sound(o, v, {}, {}) && s in v.vvTried && v.vvTried[s] != -1
    ensures v.vvTried[s] in v.mapInfo && v.mapInfo[v.vvTried[s]].fInTried
  {
    SoundIsAgree(o, v, {}, {});
  }

  lemma GoodKeepsSlots(o: Oracle, v: Tables, v': Tables, coll: set<int>, coll': set<int>, a: Service, nTime: int)
    requires Sound(o, v, {}, {}) && GoodEffect(o, v, coll, v', coll', a, false, nTime)
    ensures SlotsKept(o, v, v') && coll' == coll
  {
    assert -1 !in v.mapInfo by { SoundIsAgree(o, v, {}, {}); }
  }

  /** The most addresses GetAddr_ gives out: the largest number within both limits. */
  function Limit(size: nat, max_addresses: nat, max_pct: nat): (n: nat)
    ensures max_addresses != 0 ==> n <= max_addresses
    ensures max_pct != 0 ==> 100 * n <= max_pct * size
    ensures max_pct == 0 ==> n <= size
    ensures || (max_addresses != 0 && n == max_addresses) || (max_pct != 0 && 100 * (n + 1) > max_pct * size)
            || (max_pct == 0 && n == size)
  {
    var n := if max_pct != 0 then max_pct * size / 100 else size;
    if max_addresses != 0 && max_addresses < n then max_addresses else n
  }

  function Attempted(info: Info, fCountFailure: bool, nTime: int, nLastGood: int): Info {
    if fCountFailure && info.nLastCountAttempt < nLastGood
    then info.(nLastTry := nTime, nLastCountAttempt := nTime, nAttempts := info.nAttempts + 1)
    else info.(nLastTry := nTime)
  }

  /** An entry of the IP under another port is gone; the others are as they were. */
  ghost predicate OthersKept(v: Tables, v': Tables, a: Service) {
    match Find(v.mapInfo, v.mapAddr, a.ip)
    case Some(id) =>
      if v.mapInfo[id].addr.port != a.port then
        && SameButPos(v.mapInfo - {id}, v'.mapInfo) && v.mapInfo[id].addr.ip == a.ip
        && v'.vvNew == ClearedOf(v.vvNew, id) && v'.vvTried == ClearedOf(v.vvTried, id)
      else v' == v
    case None => v' == v
  }

  /** The entry of the IP under another port, if there is one. */
  ghost function OtherPort(v: Tables, a: Service): set<int> {
    match Find(v.mapInfo, v.mapAddr, a.ip)
    case Some(id) => if v.mapInfo[id].addr.port != a.port then {id} else {}
    case None => {}
  }

  lemma OthersTried(v: Tables, v': Tables, a: Service)
    requires OthersKept(v, v', a)
    ensures forall e :: e in v.mapInfo && v.mapInfo[e].addr.ip != a.ip ==>
              e in v'.mapInfo && v'.mapInfo[e].addr == v.mapInfo[e].addr && v'.mapInfo[e].fInTried == v.mapInfo[e].fInTried
  {
    forall e | e in v.mapInfo && v.mapInfo[e].addr.ip != a.ip
      ensures e in v'.mapInfo && v'.mapInfo[e].addr == v.mapInfo[e].addr && v'.mapInfo[e].fInTried == v.mapInfo[e].fInTried
    {
      if v' != v {
        var id := Find(v.mapInfo, v.mapAddr, a.ip).value;
        assert e in v.mapInfo - {id};
      }
    }
  }

  const BLANK := Info(Service(0, 0), 0, {}, 0, 0, 0, 0, 0, 0, false, -1)

  /** The tried entry in the slot of a pending one. */
  ghost function Occupant(o: Oracle, v: Tables, id: int): Info
    requires SlotTaken(o, v, id)
  {
    var e := v.vvTried[o.TriedSlot(v.mapInfo[id].addr)];
    if e in v.mapInfo then v.mapInfo[e] else BLANK
  }

  lemma NothingUnder(o: Oracle, v: Tables, v': Tables, ip: NetAddr, id: int)
    requires Sound(o, v, {}, {}) && Sound(o, v', {}, {})
    requires id in v.mapInfo && v.mapInfo[id].addr.ip == ip && SameButPos(v.mapInfo - {id}, v'.mapInfo)
    ensures Find(v'.mapInfo, v'.mapAddr, ip).None?
    ensures forall e :: e in v.mapInfo && v.mapInfo[e].addr.ip != ip ==>
              e in v'.mapInfo && v'.mapInfo[e].addr == v.mapInfo[e].addr && v'.mapInfo[e].fInTried == v.mapInfo[e].fInTried
  {
    assert AddrOk(v.mapInfo, v.mapAddr) by { SoundIsAgree(o, v, {}, {}); }
    assert AddrOk(v'.mapInfo, v'.mapAddr) by { SoundIsAgree(o, v', {}, {}); }
    forall j | j in v'.mapInfo ensures v'.mapInfo[j].addr.ip != ip { assert j in v.mapInfo - {id}; }
  }

  lemma SwapKeeps(o: Oracle, v: Tables, p1: int, p2: int)
    requires Sound(o, v, {}, {}) && 0 <= p1 < |v.vRandom| && 0 <= p2 < |v.vRandom|
    ensures v.vRandom[p1] in v.mapInfo && v.vRandom[p2] in v.mapInfo
    ensures var m := SwappedInfo(v.mapInfo, v.vRandom, p1, p2);
            SameButPos(v.mapInfo, m) && Sound(o, v.(mapInfo := m, vRandom := SwappedSeq(v.vRandom, p1, p2)), {}, {})
  {
    SoundIsAgree(o, v, {}, {});
    SwapKeepsPlaces(v.mapInfo, v.vRandom, v.mapAddr, p1, p2);
    var m := SwappedInfo(v.mapInfo, v.vRandom, p1, p2);
    SameButPosKeeps(o, v.mapInfo, m, v.vvTried, v.vvNew, {} + {});
    SoundIsAgree(o, v.(mapInfo := m, vRandom := SwappedSeq(v.vRandom, p1, p2)), {}, {});
  }

  /** The addresses of those ids that are not terrible, in order. */
  ghost function Kept(m: map<int, Info>, v: seq<int>, now: int): seq<Address> {
    if v == [] then []
    else
      var n := |v| - 1;
      Kept(m, v[..n], now) + if v[n] in m && !IsTerrible(m[v[n]], now) then [Offer(m[v[n]])] else []
  }

  /** What of an entry is given away. */
  function Offer(x: Info): Address { Address(x.addr, x.nTime, x.nServices) }

  ghost predicate Offers(x: Info, a: Address, now: int) { a == Offer(x) && !IsTerrible(x, now) }

  ghost predicate Listed(m: map<int, Info>, a: Address, now: int) { exists id :: id in m && Offers(m[id], a, now) }

  lemma {:induction false} KeptSame(m: map<int, Info>, m': map<int, Info>, v: seq<int>, now: int)
    requires SameButPos(m, m')
    ensures Kept(m', v, now) == Kept(m, v, now)
  {
    if v != [] {
      var id := v[|v| - 1];
      assert id in m <==> id in m';
      KeptSame(m, m', v[..|v| - 1], now);
    }
  }

  /** One round of GetAddr_: a swap brings the chosen entry forward, and it is kept unless terrible. */
  lemma KeptNext(o: Oracle, v: Tables, n: int, p: int, now: int)
    requires Sound(o, v, {}, {}) && 0 <= n <= p < |v.vRandom|
    ensures RandomOk(v.mapInfo, v.vRandom)
    ensures var m, r := SwappedInfo(v.mapInfo, v.vRandom, n, p), SwappedSeq(v.vRandom, n, p);
            && Sound(o, v.(mapInfo := m, vRandom := r), {}, {}) && SameButPos(v.mapInfo, m)
            && r[n] in m && Kept(m, r[..n + 1], now)
                == Kept(v.mapInfo, v.vRandom[..n], now) + if IsTerrible(m[r[n]], now) then [] else [Offer(m[r[n]])]
  {
    assert RandomOk(v.mapInfo, v.vRandom) by { SoundIsAgree(o, v, {}, {}); }
    var m, r := SwappedInfo(v.mapInfo, v.vRandom, n, p), SwappedSeq(v.vRandom, n, p);
    SwapKeeps(o, v, n, p);
    KeptSame(v.mapInfo, m, v.vRandom[..n], now);
    assert r[..n] == v.vRandom[..n] && r[..n + 1][..n] == r[..n];
  }

  lemma {:induction false} KeptFrom(m: map<int, Info>, v: seq<int>, now: int, i: nat) returns (k: nat)
    requires i < |Kept(m, v, now)|
    ensures k < |v| && v[k] in m && Offers(m[v[k]], Kept(m, v, now)[i], now)
  {
    k := |v| - 1;
    if i < |Kept(m, v[..k], now)| { k := KeptFrom(m, v[..k], now, i); }
  }

  lemma {:induction false} KeptAll(m: map<int, Info>, v: seq<int>, now: int, k: nat)
    requires k < |v| && v[k] in m && !IsTerrible(m[v[k]], now)
    ensures Offer(m[v[k]]) in Kept(m, v, now)
  {
    if k < |v| - 1 { KeptAll(m, v[..|v| - 1], now, k); }
  }

  lemma {:induction false} KeptOnce(m: map<int, Info>, v: seq<int>, now: int, i: nat, j: nat)
    requires forall k, l :: 0 <= k < l < |v| && v[k] in m && v[l] in m ==> m[v[k]].addr != m[v[l]].addr
    requires i < j < |Kept(m, v, now)|
    ensures Kept(m, v, now)[i].service != Kept(m, v, now)[j].service
  {
    var n := |v| - 1;
    if j < |Kept(m, v[..n], now)| {
      KeptOnce(m, v[..n], now, i, j);
    } else {
      var k := KeptFrom(m, v[..n], now, i);
    }
  }

  lemma KeptIsRight(o: Oracle, v: Tables, n: nat, now: int)
    requires Sound(o, v, {}, {}) && n <= |v.vRandom|
    ensures var out := Kept(v.mapInfo, v.vRandom[..n], now);
            && (forall i :: 0 <= i < |out| ==> Listed(v.mapInfo, out[i], now))
            && (forall i, j :: 0 <= i < j < |out| ==> out[i].service != out[j].service)
            && (n == |v.vRandom| ==> forall id :: id in v.mapInfo && !IsTerrible(v.mapInfo[id], now) ==>
                Offer(v.mapInfo[id]) in out)
  {
    SoundIsAgree(o, v, {}, {});
    var w := v.vRandom[..n];
    var out := Kept(v.mapInfo, w, now);
    forall i | 0 <= i < |out| ensures Listed(v.mapInfo, out[i], now) {
      var k := KeptFrom(v.mapInfo, w, now, i);
      var id := w[k];
      assert id in v.mapInfo && Offers(v.mapInfo[id], out[i], now);
    }
    DistinctAddresses(v.mapInfo, v.vRandom, v.mapAddr);
    forall i, j | 0 <= i < j < |out| ensures out[i].service != out[j].service { KeptOnce(v.mapInfo, w, now, i, j); }
    if n == |v.vRandom| {
      forall id | id in v.mapInfo && !IsTerrible(v.mapInfo[id], now) ensures Offer(v.mapInfo[id]) in out {
        assert w[v.mapInfo[id].nRandomPos] == id;
        KeptAll(v.mapInfo, w, now, v.mapInfo[id].nRandomPos);
      }
    }
  }

  lemma DistinctAddresses(m: map<int, Info>, v: seq<int>, a: map<NetAddr, int>)
    requires RandomOk(m, v) && AddrOk(m, a)
    ensures forall k, l :: 0 <= k < l < |v| ==> v[k] in m && v[l] in m && m[v[k]].addr != m[v[l]].addr
  {
    forall k, l | 0 <= k < l < |v| ensures v[k] in m && v[l] in m && m[v[k]].addr != m[v[l]].addr {
      var x, y := v[k], v[l];
      assert x in m && y in m;
    }
  }

  lemma TriedAlone(o: Oracle, v: Tables, id: int)
    requires Sound(o, v, {}, {}) && id in v.mapInfo && v.mapInfo[id].fInTried
    ensures var s := o.TriedSlot(v.mapInfo[id].addr); s in v.vvTried && v.vvTried[s] == id && ClearedOf(v.vvTried, id) == v.vvTried[s := -1]
    ensures ClearedOf(v.vvNew, id) == v.vvNew
  {
    SoundIsAgree(o, v, {}, {});
  }

  lemma NewAlone(o: Oracle, v: Tables, id: int)
    requires Sound(o, v, {}, {}) && id in v.mapInfo && !v.mapInfo[id].fInTried
    ensures ClearedOf(v.vvTried, id) == v.vvTried
  {
    SoundIsAgree(o, v, {}, {});
  }

  lemma Filed(o: Oracle, v: Tables, id: int)
    requires Sound(o, v, {}, {}) && id in v.mapInfo
    ensures Find(v.mapInfo, v.mapAddr, v.mapInfo[id].addr.ip) == Some(id)
  {
    SoundIsAgree(o, v, {}, {});
  }

  lemma FiledUnder(o: Oracle, v: Tables, ip: NetAddr)
    requires Sound(o, v, {}, {}) && Find(v.mapInfo, v.mapAddr, ip).Some?
    ensures v.mapInfo[v.mapAddr[ip]].addr.ip == ip
  {
    SoundIsAgree(o, v, {}, {});
  }

  lemma TriedSurviveClear(o: Oracle, v: Tables, m': map<int, Info>, u: Slot, nId: int)
    requires Sound(o, v, {}, {nId}) && ClearedAt(v.mapInfo, v.vvNew, m', u)
    ensures forall e :: e in v.mapInfo && v.mapInfo[e].fInTried ==>
            e in m' && m'[e].fInTried && m'[e].addr == v.mapInfo[e].addr
  {
    SoundIsAgree(o, v, {}, {nId});
  }

  /** An entry without references got the new slot that the source selects; at most its occupant was
      dropped, and no tried entry. */
  ghost predicate FirstFiled(o: Oracle, v: Tables, v': Tables, nId: int, source: NetAddr) {
    && nId in v.mapInfo && nId in v'.mapInfo
    && v'.mapInfo[nId] == v.mapInfo[nId].(nRefCount := 1, nRandomPos := v'.mapInfo[nId].nRandomPos)
    && var u := o.NewSlot(v.mapInfo[nId].addr, source);
       && u in v.vvNew && v'.vvNew == v.vvNew[u := nId]
       && (forall j :: j in v'.mapInfo && j != nId ==> j in v.mapInfo && SameEntry(v.mapInfo[j], v'.mapInfo[j]))
       && (forall j :: j in v.mapInfo && j !in v'.mapInfo ==> j == v.vvNew[u] && v.mapInfo[j].nRefCount <= 1)
       && (forall e :: e in v.mapInfo && v.mapInfo[e].fInTried ==>
             e in v'.mapInfo && v'.mapInfo[e].fInTried && v'.mapInfo[e].addr == v.mapInfo[e].addr)
  }

  lemma FirstFiledBy(o: Oracle, v: Tables, m: map<int, Info>, v': Tables, u: Slot, nId: int, source: NetAddr)
    requires Sound(o, v, {}, {nId}) && nId in v.mapInfo && !v.mapInfo[nId].fInTried && v.mapInfo[nId].nRefCount == 0
    requires u == o.NewSlot(v.mapInfo[nId].addr, source) && u in v.vvNew && v.vvNew[u] != nId
    requires ClearedAt(v.mapInfo, v.vvNew, m, u) && nId in m && v'.mapInfo == Recounted(m, nId, 1)
    requires v'.vvNew == v.vvNew[u := nId]
    ensures FirstFiled(o, v, v', nId, source)
  {
    ClearedEntry(v.mapInfo, v.vvNew, m, u, nId);
    ClearedOthers(v.mapInfo, v.vvNew, m, u);
    TriedSurviveClear(o, v, m, u, nId);
  }

  /** The manager knows this very address and port. */
  ghost predicate Holds(v: Tables, a: Service) {
    match Find(v.mapInfo, v.mapAddr, a.ip)
    case None => false
    case Some(id) => v.mapInfo[id].addr == a
  }

  lemma SoundAddresses(o: Oracle, v: Tables, limbo: set<int>, loose: set<int>)
    requires Sound(o, v, limbo, loose)
    ensures AddrOk(v.mapInfo, v.mapAddr)
  {
    SoundIsAgree(o, v, limbo, loose);
  }

  /** Whatever is found under an IP is an entry with that IP. */
  lemma FoundUnder(o: Oracle, v: Tables, ip: NetAddr, id: int)
    requires Sound(o, v, {}, {}) && id in v.mapInfo && v.mapInfo[id].addr.ip == ip
    ensures Find(v.mapInfo, v.mapAddr, ip) == Some(id)
  {
    SoundAddresses(o, v, {}, {});
  }

  lemma FoundHas(o: Oracle, v: Tables, ip: NetAddr)
    requires Sound(o, v, {}, {})
    ensures match Find(v.mapInfo, v.mapAddr, ip)
            case Some(id) => id in v.mapInfo && v.mapInfo[id].addr.ip == ip
            case None => forall id :: id in v.mapInfo ==> v.mapInfo[id].addr.ip != ip
  {
    SoundAddresses(o, v, {}, {});
  }

  lemma HasReferences(o: Oracle, v: Tables, id: int)
    requires Sound(o, v, {}, {}) && id in v.mapInfo
    ensures !v.mapInfo[id].fInTried ==> v.mapInfo[id].nRefCount > 0
  {
    SoundIsAgree(o, v, {}, {});
  }

  /** What the end of Add_ takes a place from is terrible, or has another place; of the entries that had a
      place only terrible ones are dropped. */
  lemma InsertedDrops(o: Oracle, v: Tables, v': Tables, nId: int, source: NetAddr, now: int)
    requires Inserted(o, v, v', nId, source, now) && -1 !in v.mapInfo
    ensures forall j :: j in v.mapInfo && j !in v'.mapInfo && j != nId ==> IsTerrible(v.mapInfo[j], now)
    ensures forall s :: s in v.vvNew && v.vvNew[s] in v.mapInfo && s in v'.vvNew && v'.vvNew[s] != v.vvNew[s] ==>
              IsTerrible(v.mapInfo[v.vvNew[s]], now) || v.mapInfo[v.vvNew[s]].nRefCount > 1
    ensures var u := o.NewSlot(v.mapInfo[nId].addr, source);
            u in v.vvNew && v.vvNew[u] == -1 ==> u in v'.vvNew && v'.vvNew[u] == nId
  {}

  /** An announcement makes the manager forget terrible entries only. */
  lemma AddForgetsTerrible(o: Oracle, v: Tables, v': Tables, addr: Address, source: NetAddr, nTimePenalty: int, now: int,
      rnd: nat, fNew: bool)
    requires Sound(o, v, {}, {}) && AddEffect(o, v, v', addr, source, nTimePenalty, now, rnd, fNew)
    ensures forall j :: j in v.mapInfo && j !in v'.mapInfo ==> IsTerrible(v.mapInfo[j], now)
  {
    if o.routable(addr.service.ip) {
      var pen := if addr.service.ip == source then 0 else nTimePenalty;
      match Find(v.mapInfo, v.mapAddr, addr.service.ip)
      case Some(id) =>
        var w := v.(mapInfo := v.mapInfo[id := Refreshed(v.mapInfo[id], addr, pen, now)]);
        HasReferences(o, v, id);
        assert -1 !in v.mapInfo && id != -1 by { SoundIsAgree(o, v, {}, {}); }
        if Grows(w.mapInfo[id], addr, rnd) { InsertedDrops(o, w, v', id, source, now); }
      case None =>
        var x := FreshInfo(addr, source).(nTime := Max(0, addr.nTime - pen));
        assert v.nIdCount !in v.mapInfo && -1 !in v.mapInfo && v.nIdCount >= 0 by { SoundIsAgree(o, v, {}, {}); }
        InsertedDrops(o, Created(v, x).(nNew := v.nNew + 1), v', v.nIdCount, source, now);
    }
  }

  lemma AddKeepsOwn(o: Oracle, v: Tables, v': Tables, addr: Address, source: NetAddr, nTimePenalty: int, now: int,
      rnd: nat, fNew: bool)
    requires Sound(o, v, {}, {}) && Sound(o, v', {}, {}) && OwnEntry(v, addr.service)
    requires AddEffect(o, v, v', addr, source, nTimePenalty, now, rnd, fNew)
    ensures OwnEntry(v', addr.service) && (Holds(v, addr.service) ==> Holds(v', addr.service))
    ensures fNew <==> o.routable(addr.service.ip) && !Holds(v, addr.service)
  {
    if o.routable(addr.service.ip) {
      FoundHas(o, v, addr.service.ip);
      match Find(v.mapInfo, v.mapAddr, addr.service.ip)
      case Some(id) =>
        HasReferences(o, v, id);
        FoundUnder(o, v', addr.service.ip, id);
      case None => FoundHas(o, v', addr.service.ip);
    }
  }

  /** No entry of another port holds this address's IP. */
  ghost predicate OwnEntry(v: Tables, a: Service) {
    match Find(v.mapInfo, v.mapAddr, a.ip)
    case None => true
    case Some(id) => v.mapInfo[id].addr == a
  }

  /** The address is filed once, under its own port, in its own tried slot, without references. */
  ghost predicate IsTried(o: Oracle, v: Tables, a: Service) {
    match Find(v.mapInfo, v.mapAddr, a.ip)
    case None => false
    case Some(id) =>
      && v.mapInfo[id].addr == a && v.mapInfo[id].fInTried && v.mapInfo[id].nRefCount == 0
      && o.TriedSlot(a) in v.vvTried && v.vvTried[o.TriedSlot(a)] == id
      && (forall j :: j in v.mapInfo && v.mapInfo[j].addr.ip == a.ip ==> j == id)
      && (forall s :: s in v.vvNew ==> v.vvNew[s] != id)
  }

  lemma SoundIsTried(o: Oracle, v: Tables, id: int)
    requires Sound(o, v, {}, {}) && id in v.mapInfo && v.mapInfo[id].fInTried
    ensures IsTried(o, v, v.mapInfo[id].addr)
  {
    SoundIsAgree(o, v, {}, {});
    NoRefs(o, v.mapInfo, v.vvNew, id);
  }

  /** Good_ without the test files an address in the tried table, and no tried entry is lost. */
  lemma GoodIsTried(o: Oracle, v: Tables, v': Tables, a: Service, nTime: int, coll: set<int>, id: int)
    requires Sound(o, v, {}, {}) && Sound(o, v', {}, {}) && GoodEffect(o, v, coll, v', coll, a, false, nTime)
    requires Find(v.mapInfo, v.mapAddr, a.ip) == Some(id)
    ensures v.mapInfo[id].addr == a ==> IsTried(o, v', a) && ConnectedAt(v', a, nTime)
    ensures forall e :: e in v.mapInfo && v.mapInfo[e].fInTried ==>
            e in v'.mapInfo && v'.mapInfo[e].addr == v.mapInfo[e].addr
  {
    if v.mapInfo[id].addr == a {
      if !v.mapInfo[id].fInTried {
        TriedSurviveMove(o, v, MarkedGood(v, id, nTime), v', id);
      }
      SoundIsTried(o, v', id);
    }
  }

  lemma TriedSurviveMove(o: Oracle, v: Tables, w: Tables, v': Tables, id: int)
    requires Sound(o, v, {}, {}) && id in v.mapInfo && id in w.mapInfo && !v.mapInfo[id].fInTried
             && w == v.(mapInfo := w.mapInfo)
    requires w.mapInfo == v.mapInfo[id := w.mapInfo[id]] && MadeTried(o, w, v', id)
             && w.mapInfo[id].addr == v.mapInfo[id].addr
    ensures forall e :: e in v.mapInfo && v.mapInfo[e].fInTried ==>
            e in v'.mapInfo && v'.mapInfo[e].addr == v.mapInfo[e].addr
  {
    SoundIsAgree(o, v, {}, {});
  }

  lemma ClearedOne(m: map<int, Info>, m1: map<int, Info>, t1: Table, m2: map<int, Info>, s: Slot, nId: int)
    requires SameButPos(m - {nId}, m1 - {nId}) && ClearedAt(m1, t1, m2, s) && t1[s] == nId && nId != -1
    ensures SameButPos(m - {nId}, m2 - {nId})
    ensures nId in m2 ==> m2[nId].fInTried == m1[nId].fInTried
  {}

  /** The time and service update Add_ makes on a known entry. */
  function Refreshed(info: Info, addr: Address, nTimePenalty: int, now: int): Info {
    var fCurrentlyOnline := now - addr.nTime < 24 * 60 * 60;
    var nUpdateInterval := if fCurrentlyOnline then 60 * 60 else 24 * 60 * 60;
    var nTime := if addr.nTime != 0 && (info.nTime == 0 || info.nTime < addr.nTime - nUpdateInterval - nTimePenalty)
                 then Max(0, addr.nTime - nTimePenalty) else info.nTime;
    info.(nTime := nTime, nServices := info.nServices + addr.nServices)
  }

  /** Announcements move the time of an entry forward only, and a known time only by more than an hour, or
      a day for a peer that is not online; news older than that is always taken over. */
  lemma RefreshedMeans(info: Info, addr: Address, nTimePenalty: nat, now: int)
    requires info.nTime >= 0
    ensures var t, wait := Refreshed(info, addr, nTimePenalty, now).nTime, if now - addr.nTime < 86400 then 3600 else 86400;
            && info.nTime <= t <= Max(info.nTime, addr.nTime)
            && (t != info.nTime && info.nTime != 0 ==> t - info.nTime > wait)
            && (addr.nTime != 0 && addr.nTime - nTimePenalty - info.nTime > wait ==> t == addr.nTime - nTimePenalty)
    ensures Refreshed(info, addr, nTimePenalty, now).nServices == info.nServices + addr.nServices
  {}

  /** A handshake leaves the later of the two times. */
  lemma WelcomedMeans(info: Info, addr: Address)
    requires info.nTime >= 0 && addr.nTime >= 0
    ensures Welcomed(info, addr).nTime == Max(info.nTime, addr.nTime)
    ensures Welcomed(info, addr).nServices == info.nServices + addr.nServices
  {}

  /** Until an address is good again somewhere, at most one attempt on an entry counts as a failure. */
  lemma CountedOnce(info: Info, t1: int, t2: int, nLastGood: int)
    requires t1 >= nLastGood
    ensures Attempted(Attempted(info, true, t1, nLastGood), true, t2, nLastGood).nAttempts
         == Attempted(info, true, t1, nLastGood).nAttempts
         == info.nAttempts + if info.nLastCountAttempt < nLastGood then 1 else 0
    ensures Attempted(info, false, t1, nLastGood).nAttempts == info.nAttempts && Attempted(info, false, t1, nLastGood).nLastTry == t1
  {}

  /** The entry of the address was connected to at this time, and has no failures since. */
  ghost predicate ConnectedAt(v: Tables, a: Service, now: int) {
    match Find(v.mapInfo, v.mapAddr, a.ip)
    case None => false
    case Some(id) => v.mapInfo[id].nLastSuccess == v.mapInfo[id].nLastTry == now && v.mapInfo[id].nAttempts == 0
  }

  /** An address that was just connected to is not terrible for another minute. */
  lemma ConnectedIsNotTerrible(v: Tables, a: Service, now: int, later: int)
    requires ConnectedAt(v, a, now) && 0 < now && later - now <= 60
    ensures !IsTerrible(v.mapInfo[Find(v.mapInfo, v.mapAddr, a.ip).value], later)
  {}

  lemma Standing(o: Oracle, v: Tables, id: int)
    requires Sound(o, v, {}, {}) && id in v.mapInfo
    ensures SameStanding(v.mapInfo[id], v.mapInfo[id]) && 0 <= v.mapInfo[id].nRefCount <= NEW_BUCKETS_PER_ADDRESS
  {
    SoundIsAgree(o, v, {}, {});
  }

  lemma NotFiled(o: Oracle, v: Tables, ip: NetAddr)
    requires Sound(o, v, {}, {}) && Find(v.mapInfo, v.mapAddr, ip).None?
    ensures ip !in v.mapAddr
  {
    SoundIsAgree(o, v, {}, {});
  }

  lemma Loosened(o: Oracle, v: Tables, id: int)
    requires Sound(o, v, {}, {}) && id in v.mapInfo && !v.mapInfo[id].fInTried
    ensures Sound(o, v, {}, {id})
  {
    SoundIsAgree(o, v, {}, {});
    SoundIsAgree(o, v, {}, {id});
  }

  /** Whether Add_ goes on with a known entry: there is news, it is new with fewer than eight
      references, and the draw favours it, once in 2^refcount times. */
  predicate Grows(info: Info, addr: Address, rnd: nat) {
    && addr.nTime != 0 && (info.nTime == 0 || addr.nTime > info.nTime)
    && !info.fInTried && 0 <= info.nRefCount < NEW_BUCKETS_PER_ADDRESS
    && rnd % Numbers.Pow2(info.nRefCount) == 0
  }

  /** Add_ as a relation between states.  Among addresses that may be added, exactly those
      whose IP is unknown count as new, and then the end of Add_ decides by its slot; a known
      entry is refreshed, keeps its id, and is offered one more reference if it may grow. */
  ghost predicate AddEffect(o: Oracle, v: Tables, v': Tables, addr: Address, source: NetAddr, timePenalty: int,
      now: int, rnd: nat, fNew: bool) {
    if !o.routable(addr.service.ip) then v' == v && !fNew
    else
      var nTimePenalty := if addr.service.ip == source then 0 else timePenalty;
      match Find(v.mapInfo, v.mapAddr, addr.service.ip)
      case Some(id) =>
        var w := v.(mapInfo := v.mapInfo[id := Refreshed(v.mapInfo[id], addr, nTimePenalty, now)]);
        !fNew && if Grows(w.mapInfo[id], addr, rnd) then Inserted(o, w, v', id, source, now) else v' == w
      case None =>
        var x := FreshInfo(addr, source);
        fNew && Inserted(o, Created(v, x.(nTime := Max(0, addr.nTime - nTimePenalty))).(nNew := v.nNew + 1), v',
            v.nIdCount, source, now)
  }

  /** The update AddAndMarkGood_ makes on a known entry. */
  function Welcomed(info: Info, addr: Address): Info {
    var nTime := if addr.nTime != 0 && (info.nTime == 0 || info.nTime < addr.nTime) then addr.nTime else info.nTime;
    info.(nTime := nTime, nServices := info.nServices + addr.nServices)
  }

  /** The entry AddAndMarkGood_ creates for an unknown IP. */
  function Newcomer(addr: Address, now: int): Info {
    FreshInfo(addr, addr.service.ip).(nTime := if addr.nTime != 0 then addr.nTime else now)
  }

  /** AddAndMarkGood_ before it calls Good_: the IP's entry is updated, or one is created and takes its
      own new slot, from which at most one entry is dropped. */
  ghost predicate FiledEffect(o: Oracle, v: Tables, v': Tables, addr: Address, now: int, nId: int) {
    match Find(v.mapInfo, v.mapAddr, addr.service.ip)
    case Some(id) => nId == id && v' == v.(mapInfo := v.mapInfo[id := Welcomed(v.mapInfo[id], addr)])
    case None =>
      && nId == v.nIdCount && nId in v'.mapInfo
      && v'.mapInfo[nId] == Newcomer(addr, now).(nRefCount := 1, nRandomPos := v'.mapInfo[nId].nRandomPos)
      && v'.vvTried == v.vvTried
      && var u := o.NewSlot(addr.service, addr.service.ip);
         && u in v.vvNew && v'.vvNew == v.vvNew[u := nId]
         && (forall j :: j in v'.mapInfo && j != nId ==> j in v.mapInfo && SameEntry(v.mapInfo[j], v'.mapInfo[j]))
         && (forall j :: j in v.mapInfo && j !in v'.mapInfo ==> j == v.vvNew[u] && v.mapInfo[j].nRefCount <= 1)
  }

  // ----- Pending collisions

  datatype Verdict = Drop | Keep | Replace

  /** What ResolveCollisions_ decides about one pending entry. */
  ghost function Resolution(o: Oracle, v: Tables, id: int, now: int): Verdict {
    if id !in v.mapInfo || !o.valid(v.mapInfo[id].addr.ip) then Drop
    else
      var s := o.TriedSlot(v.mapInfo[id].addr);
      if s in v.vvTried && v.vvTried[s] in v.mapInfo then
        var occupant := v.mapInfo[v.vvTried[s]];
        if now - occupant.nLastSuccess < REPLACEMENT_HOURS * 60 * 60 then Drop
        else if now - occupant.nLastTry < REPLACEMENT_HOURS * 60 * 60 then
          if now - occupant.nLastTry > 60 then Replace else Keep
        else if now - v.mapInfo[id].nLastSuccess > TEST_WINDOW then Replace
        else Keep
      else Replace
  }

  /** One pending entry, the tables before and after it was looked at, and the decision. */
  datatype Settling = Settling(id: int, before: Tables, after: Tables, verdict: Verdict)

  /** A replaced entry is marked good and moved to the tried table; the others change nothing. */
  ghost predicate Settles(o: Oracle, st: Settling, now: int) {
    && st.verdict == Resolution(o, st.before, st.id, now)
    && if st.verdict == Replace
       then && st.id in st.before.mapInfo
            && GoodEffect(o, st.before, {}, st.after, {}, st.before.mapInfo[st.id].addr, false, now)
            && st.id in st.after.mapInfo && st.after.mapInfo[st.id].fInTried
       else st.after == st.before
  }

  /** The entries of the log were settled one after the other, from v to v'. */
  ghost predicate SettledAll(o: Oracle, log: seq<Settling>, v: Tables, v': Tables, now: int) {
    if log == [] then v' == v
    else
      var st := log[|log| - 1];
      SettledAll(o, log[..|log| - 1], v, st.before, now) && Settles(o, st, now) && v' == st.after
  }

  ghost function Seen(log: seq<Settling>): set<int> { set i | 0 <= i < |log| :: log[i].id }

  ghost function Undecided(log: seq<Settling>): set<int> { set i | 0 <= i < |log| && log[i].verdict == Keep :: log[i].id }

  lemma SettledMore(o: Oracle, log: seq<Settling>, st: Settling, v: Tables, now: int)
    requires SettledAll(o, log, v, st.before, now) && Settles(o, st, now)
    ensures SettledAll(o, log + [st], v, st.after, now)
  {
    assert (log + [st])[..|log|] == log;
  }

  /** Every one of these has an occupied tried slot, or is no entry any more. */
  ghost predicate PendingOk(o: Oracle, v: Tables, ids: set<int>) { forall id :: id in ids ==>
      SlotTaken(o, v, id) || id !in v.mapInfo }

  /** Of all pending entries the log has those that are done; what is left is undecided or to do. */
  ghost predicate Logged(all: set<int>, log: seq<Settling>, todo: set<int>, coll: set<int>) {
    todo !! Seen(log) && Seen(log) + todo == all && coll == Undecided(log) + todo
  }

  lemma LoggedMore(all: set<int>, log: seq<Settling>, todo: set<int>, coll: set<int>, st: Settling)
    requires Logged(all, log, todo, coll) && st.id in todo
    ensures Logged(all, log + [st], todo - {st.id}, if st.verdict == Keep then coll else coll - {st.id})
  {
    SeenMore(log, st);
    assert Undecided(log) <= Seen(log);
  }

  lemma SeenMore(log: seq<Settling>, st: Settling)
    ensures Seen(log + [st]) == Seen(log) + {st.id}
    ensures Undecided(log + [st]) == Undecided(log) + if st.verdict == Keep then {st.id} else {}
  {
    var l := log + [st];
    assert forall i :: 0 <= i < |log| ==> l[i] == log[i];
    assert l[|log|] == st;
  }

  lemma PendingMore(o: Oracle, v: Tables, v': Tables, log: seq<Settling>, st: Settling)
    requires PendingOk(o, v, Undecided(log)) && SlotsKept(o, v, v') && (st.verdict == Keep ==> SlotTaken(o, v', st.id))
    ensures PendingOk(o, v', Undecided(log + [st]))
  {
    SeenMore(log, st);
    forall id | id in Undecided(log) ensures SlotTaken(o, v', id) || id !in v'.mapInfo { SlotStaysTaken(o, v, v', id); }
  }

  lemma GoodAnyCollisions(o: Oracle, v: Tables, v': Tables, coll: set<int>, a: Service, nTime: int)
    requires GoodEffect(o, v, coll, v', coll, a, false, nTime)
    ensures GoodEffect(o, v, {}, v', {}, a, false, nTime)
  {}

  /** Marking a known entry good without the test leaves it in the tried table. */
  lemma GoodOwn(o: Oracle, v: Tables, v': Tables, coll: set<int>, id: int, nTime: int)
    requires Sound(o, v, {}, {}) && id in v.mapInfo && GoodEffect(o, v, coll, v', coll, v.mapInfo[id].addr, false, nTime)
    ensures id in v'.mapInfo && v'.mapInfo[id].fInTried
  {
    FoundUnder(o, v, v.mapInfo[id].addr.ip, id);
  }

  // ----- Whom a resolution may displace

  /** An entry kept its address, and its times as well unless it was marked good right now. */
  ghost predicate SameTimes(x: Info, y: Info, now: int) {
    y.addr == x.addr && (y.nLastSuccess == now || (y.nLastSuccess == x.nLastSuccess && y.nLastTry == x.nLastTry))
  }

  /** The tried entry x may give its place to y: there was no success in the last four hours, and
      a try that is over a minute old and recent, or none for as long as y has waited for one. */
  ghost predicate MayGive(x: Info, y: Info, now: int) {
    && now - x.nLastSuccess >= 4 * 60 * 60 && now - x.nLastTry > 60
    && (now - x.nLastTry < 4 * 60 * 60 || now - y.nLastSuccess > 40 * 60)
  }

  ghost predicate TriedNow(v: Tables, id: int, now: int) {
    id in v.mapInfo && v.mapInfo[id].fInTried && v.mapInfo[id].nLastSuccess == now
  }

  /** Entry e of v, which was tried, lost its tried slot to the pending entry id. */
  ghost predicate LostTo(o: Oracle, v: Tables, v': Tables, e: int, id: int, now: int) {
    && e in v.mapInfo && id in v.mapInfo && TriedNow(v', id, now)
    && o.TriedSlot(v.mapInfo[id].addr) == o.TriedSlot(v.mapInfo[e].addr) && MayGive(v.mapInfo[e], v.mapInfo[id], now)
  }

  /** Settling one pending entry touches the times of that one only, and takes a tried slot from
      an entry only where the rules allow it. */
  ghost predicate Fair(o: Oracle, v: Tables, v': Tables, id: int, now: int) {
    && (forall j :: j in v'.mapInfo ==> j in v.mapInfo && SameTimes(v.mapInfo[j], v'.mapInfo[j], now))
    && (forall e :: e in v.mapInfo && v.mapInfo[e].fInTried ==>
          (e in v'.mapInfo && v'.mapInfo[e].fInTried) || LostTo(o, v, v', e, id, now))
    && (forall s :: s in v.vvTried && v.vvTried[s] != -1 ==>
          s in v'.vvTried && (v'.vvTried[s] == v.vvTried[s] || TriedNow(v', v'.vvTried[s], now)))
  }

  lemma PromotionTimes(o: Oracle, v: Tables, v': Tables, id: int, now: int)
    requires id in v.mapInfo && MadeTried(o, MarkedGood(v, id, now), v', id)
    ensures TriedNow(v', id, now)
    ensures forall j :: j in v'.mapInfo ==> j in v.mapInfo && SameTimes(v.mapInfo[j], v'.mapInfo[j], now)
    ensures var s := o.TriedSlot(v.mapInfo[id].addr); s in v.vvTried && v'.vvTried == v.vvTried[s := id]
  {}

  /** A tried entry whose slot is still its own is still tried. */
  lemma StaysTried(o: Oracle, v: Tables, v': Tables, e: int)
    requires Sound(o, v, {}, {}) && Sound(o, v', {}, {}) && e in v.mapInfo && v.mapInfo[e].fInTried
    ensures var s := o.TriedSlot(v.mapInfo[e].addr);
            && s in v.vvTried && v.vvTried[s] == e && e != -1
            && (s in v'.vvTried && v'.vvTried[s] == e ==> e in v'.mapInfo && v'.mapInfo[e].fInTried)
  {
    assert TriedOk(o, v.mapInfo, v.vvTried) && -1 !in v.mapInfo by { SoundIsAgree(o, v, {}, {}); }
    assert TriedOk(o, v'.mapInfo, v'.vvTried) by { SoundIsAgree(o, v', {}, {}); }
  }

  lemma PromotionIsFair(o: Oracle, v: Tables, v': Tables, id: int, now: int)
    requires Sound(o, v, {}, {}) && Sound(o, v', {}, {})
    requires id in v.mapInfo && MadeTried(o, MarkedGood(v, id, now), v', id) && Resolution(o, v, id, now) == Replace
    ensures Fair(o, v, v', id, now)
  {
    PromotionTimes(o, v, v', id, now);
    forall e | e in v.mapInfo && v.mapInfo[e].fInTried
      ensures (e in v'.mapInfo && v'.mapInfo[e].fInTried) || LostTo(o, v, v', e, id, now)
    {
      StaysTried(o, v, v', e);
    }
  }

  lemma MarkingIsFair(o: Oracle, v: Tables, id: int, now: int)
    requires id in v.mapInfo
    ensures Fair(o, v, MarkedGood(v, id, now), id, now)
  {}

  lemma SettlingIsFair(o: Oracle, st: Settling, now: int)
    requires Sound(o, st.before, {}, {}) && Sound(o, st.after, {}, {}) && Settles(o, st, now)
    ensures Fair(o, st.before, st.after, st.id, now)
  {
    if st.verdict == Replace {
      var v := st.before;
      FoundUnder(o, v, v.mapInfo[st.id].addr.ip, st.id);
      if v.mapInfo[st.id].fInTried { MarkingIsFair(o, v, st.id, now); } else { PromotionIsFair(o, v, st.after, st.id, now); }
    }
  }

  /** Since v, entries kept their times unless marked good right now, and every entry that was
      tried still is, or lost its place to a pending one as the rules allow. */
  ghost predicate Protected(o: Oracle, v: Tables, v': Tables, pending: set<int>, now: int) {
    && (forall j :: j in v'.mapInfo ==> j in v.mapInfo && SameTimes(v.mapInfo[j], v'.mapInfo[j], now))
    && (forall e :: e in v.mapInfo && v.mapInfo[e].fInTried ==>
          (e in v'.mapInfo && v'.mapInfo[e].fInTried) || exists id :: id in pending && LostTo(o, v, v', e, id, now))
  }

  lemma TriedNowStays(o: Oracle, v: Tables, v': Tables, id: int, k: int, now: int)
    requires Fair(o, v, v', id, now) && TriedNow(v, k, now)
    ensures TriedNow(v', k, now)
  {}

  lemma LostEarlier(o: Oracle, v0: Tables, v: Tables, v': Tables, e: int, id: int, now: int)
    requires e in v0.mapInfo && e in v.mapInfo && SameTimes(v0.mapInfo[e], v.mapInfo[e], now)
    requires id in v.mapInfo ==> id in v0.mapInfo && SameTimes(v0.mapInfo[id], v.mapInfo[id], now)
    requires LostTo(o, v, v', e, id, now)
    ensures LostTo(o, v0, v', e, id, now)
  {}

  lemma ProtectedMore(o: Oracle, v0: Tables, v: Tables, v': Tables, pending: set<int>, id: int, now: int)
    requires Protected(o, v0, v, pending, now) && Fair(o, v, v', id, now) && id in pending
    ensures Protected(o, v0, v', pending, now)
  {
    forall e | e in v0.mapInfo && v0.mapInfo[e].fInTried
      ensures (e in v'.mapInfo && v'.mapInfo[e].fInTried) || exists k :: k in pending && LostTo(o, v0, v', e, k, now)
    {
      if e in v.mapInfo && v.mapInfo[e].fInTried {
        if LostTo(o, v, v', e, id, now) { LostEarlier(o, v0, v, v', e, id, now); }
      } else {
        var k :| k in pending && LostTo(o, v0, v, e, k, now);
        TriedNowStays(o, v, v', id, k, now);
        assert LostTo(o, v0, v', e, k, now);
      }
    }
  }

  /** Why a known, valid entry that was pending is not in the tried table: its slot is occupied, by
      an entry with a success in the last four hours if it is given up; while it stays pending,
      by one that is being tried, or that may still be tried in time, or that came in right now. */
  ghost predicate Explained(o: Oracle, v: Tables, id: int, pending: bool, now: int) {
    id in v.mapInfo && o.valid(v.mapInfo[id].addr.ip) && !v.mapInfo[id].fInTried ==>
      && SlotTaken(o, v, id)
      && var x := Occupant(o, v, id);
         if pending then x.nLastSuccess == now || (now - x.nLastSuccess >= 4 * 60 * 60 && !MayGive(x, v.mapInfo[id], now))
         else now - x.nLastSuccess < 4 * 60 * 60
  }

  lemma SettlingIsExplained(o: Oracle, st: Settling, now: int)
    requires Sound(o, st.before, {}, {}) && Settles(o, st, now)
    ensures Explained(o, st.after, st.id, st.verdict == Keep, now)
  {
    if st.id in st.before.mapInfo { InTheNewGrid(o, st.before, {}, {}, st.before.mapInfo[st.id].addr, 0); }
  }

  lemma StaysExplained(o: Oracle, v: Tables, v': Tables, j: int, pending: bool, id: int, now: int)
    requires Sound(o, v, {}, {}) && Sound(o, v', {}, {}) && Fair(o, v, v', id, now) && Explained(o, v, j, pending, now)
    ensures Explained(o, v', j, pending, now)
  {
    if j in v'.mapInfo && o.valid(v'.mapInfo[j].addr.ip) && !v'.mapInfo[j].fInTried {
      if v.mapInfo[j].fInTried { StaysTried(o, v, v', j); }
      var s := o.TriedSlot(v.mapInfo[j].addr);
      assert s in v.vvTried && v.vvTried[s] != -1;
      TriedOccupied(o, v, s);
      InTheNewGrid(o, v', {}, {}, v'.mapInfo[j].addr, 0);
      if v'.vvTried[s] != -1 { TriedOccupied(o, v', s); }
    }
  }

  ghost predicate AllExplained(o: Oracle, v: Tables, log: seq<Settling>, now: int) {
    forall id :: id in Seen(log) ==> Explained(o, v, id, id in Undecided(log), now)
  }

  lemma ExplainedMore(o: Oracle, log: seq<Settling>, st: Settling, now: int)
    requires Sound(o, st.before, {}, {}) && Sound(o, st.after, {}, {}) && Settles(o, st, now)
    requires AllExplained(o, st.before, log, now) && st.id !in Seen(log)
    ensures AllExplained(o, st.after, log + [st], now)
  {
    SeenMore(log, st);
    SettlingIsFair(o, st, now);
    SettlingIsExplained(o, st, now);
    forall id | id in Seen(log) ensures Explained(o, st.after, id, id in Undecided(log), now) {
      StaysExplained(o, st.before, st.after, id, id in Undecided(log), st.id, now);
    }
    assert Undecided(log) <= Seen(log);
  }

  /** What the settling of pending entries so far, in the order of the log, kept and explains. */
  ghost predicate Resolved(o: Oracle, v: Tables, v': Tables, pending: set<int>, log: seq<Settling>, now: int) {
    SettledAll(o, log, v, v', now) && Protected(o, v, v', pending, now) && AllExplained(o, v', log, now)
  }

  lemma ResolvedMore(o: Oracle, v: Tables, pending: set<int>, log: seq<Settling>, st: Settling, now: int)
    requires Sound(o, st.before, {}, {}) && Sound(o, st.after, {}, {}) && Settles(o, st, now)
    requires Resolved(o, v, st.before, pending, log, now) && st.id in pending && st.id !in Seen(log)
    ensures Resolved(o, v, st.after, pending, log + [st], now)
  {
    SettledMore(o, log, st, v, now);
    SettlingIsFair(o, st, now);
    ProtectedMore(o, v, st.before, st.after, pending, st.id, now);
    ExplainedMore(o, log, st, now);
  }

  lemma Occupied(o: Oracle, v: Tables, limbo: set<int>, loose: set<int>, u: Slot)
    requires Sound(o, v, limbo, loose) && u in v.vvNew && v.vvNew[u] != -1
    ensures v.vvNew[u] in v.mapInfo && !v.mapInfo[v.vvNew[u]].fInTried
  {
    SoundIsAgree(o, v, limbo, loose);
  }

  lemma RefAt(o: Oracle, v: Tables, limbo: set<int>, loose: set<int>, u: Slot)
    requires Sound(o, v, limbo, loose) && u in v.vvNew && v.vvNew[u] != -1
    ensures v.vvNew[u] in v.mapInfo && v.mapInfo[v.vvNew[u]].nRefCount > 0
  {
    SoundIsAgree(o, v, limbo, loose);
    RefIsCounted(o, v.mapInfo, v.vvNew, u);
  }

  lemma RefCountOf(o: Oracle, v: Tables, limbo: set<int>, loose: set<int>, id: int)
    requires Sound(o, v, limbo, loose) && id in v.mapInfo
    ensures 0 <= id && v.mapInfo[id].nRefCount >= 0
  {
    SoundIsAgree(o, v, limbo, loose);
  }

  lemma ClearedOthers(m: map<int, Info>, news: Table, m': map<int, Info>, u: Slot)
    requires ClearedAt(m, news, m', u)
    ensures forall j :: j in m' ==> j in m && SameEntry(m[j], m'[j])
    ensures forall j :: j in m && j !in m' ==> j == news[u] && m[j].nRefCount <= 1
  {}

  /** Whether Add_ may take the slot u for nId. */
  ghost predicate MayTake(v: Tables, u: Slot, nId: int, now: int)
    requires nId in v.mapInfo && u in v.vvNew && (v.vvNew[u] != -1 ==> v.vvNew[u] in v.mapInfo)
  {
    v.vvNew[u] == -1 ||
    IsTerrible(v.mapInfo[v.vvNew[u]], now) ||
    (v.mapInfo[v.vvNew[u]].nRefCount > 1 && v.mapInfo[nId].nRefCount == 0)
  }

  ghost predicate Inserted(o: Oracle, v: Tables, v': Tables, nId: int, source: NetAddr, now: int) {
    && nId in v.mapInfo
    && var u := o.NewSlot(v.mapInfo[nId].addr, source);
       && u in v.vvNew && (v.vvNew[u] != -1 ==> v.vvNew[u] in v.mapInfo)
       && v'.vvTried == v.vvTried
       && if v.vvNew[u] == nId then v' == v
          else if MayTake(v, u, nId, now) then
            && v'.vvNew == v.vvNew[u := nId] && nId in v'.mapInfo
            && v'.mapInfo[nId] == v.mapInfo[nId].(nRefCount := v.mapInfo[nId].nRefCount + 1,
                nRandomPos := v'.mapInfo[nId].nRandomPos)
            && (forall j :: j in v'.mapInfo ==> j in v.mapInfo && SameEntry(v.mapInfo[j], v'.mapInfo[j]))
            && (forall j :: j in v.mapInfo && j !in v'.mapInfo ==> j == v.vvNew[u] && v.mapInfo[j].nRefCount <= 1)
          else if v.mapInfo[nId].nRefCount == 0 then
            v'.vvNew == v.vvNew && SameButPos(v.mapInfo - {nId}, v'.mapInfo)
          else v' == v
  }

  /** The id filed under an IP. */
  function Find(mapInfo: map<int, Info>, mapAddr: map<NetAddr, int>, ip: NetAddr): (r: Option<int>)
    ensures r.Some? ==> r.value in mapInfo
  {
    if ip in mapAddr && mapAddr[ip] in mapInfo then Some(mapAddr[ip]) else None
  }

  ghost function MarkedGood(v: Tables, id: int, nTime: int): Tables
    requires id in v.mapInfo
  {
    v.(mapInfo := v.mapInfo[id := v.mapInfo[id].(nLastSuccess := nTime, nLastTry := nTime, nAttempts := 0)])
  }

  /** Good_ as a relation between states: an entry with this very address and port is marked,
      and a new one moves to the tried table unless its slot is taken and must be tested. */
  ghost predicate GoodEffect(o: Oracle, v: Tables, coll: set<int>, v': Tables, coll': set<int>,
                             addr: Service, test_before_evict: bool, nTime: int) {
    match Find(v.mapInfo, v.mapAddr, addr.ip)
    case None => v' == v && coll' == coll
    case Some(id) =>
      if v.mapInfo[id].addr != addr then v' == v && coll' == coll
      else
        var w := MarkedGood(v, id, nTime);
        if v.mapInfo[id].fInTried then v' == w && coll' == coll
        else
          && o.TriedSlot(addr) in v.vvTried
          && if test_before_evict && v.vvTried[o.TriedSlot(addr)] != -1 then
               v' == w && coll' == if |coll| < SET_TRIED_COLLISION_SIZE then coll + {id} else coll
             else
               MadeTried(o, w, v', id) && coll' == coll
  }

  lemma UpdateTwice<K, V>(m: map<K, V>, k: K, a: V, b: V)
    ensures m[k := a][k := b] == m[k := b]
  {}

  lemma InTheNewGrid2(o: Oracle, v: Tables, a: Service, b: int)
    requires Sound(o, v, {}, {}) && 0 <= b < NEW_BUCKET_COUNT
    ensures Slot(b, o.Position(a, true, b)) in v.vvNew
  {
    SoundIsAgree(o, v, {}, {});
  }

  /** A new entry is somewhere in the new table, at the position its address selects there. */
  lemma SomeRef(o: Oracle, v: Tables, id: int) returns (s: Slot)
    requires Sound(o, v, {}, {}) && id in v.mapInfo && !v.mapInfo[id].fInTried
    ensures s in v.vvNew && v.vvNew[s] == id && 0 <= s.bucket < NEW_BUCKET_COUNT
    ensures s.pos == o.Position(v.mapInfo[id].addr, true, s.bucket)
  {
    SoundIsAgree(o, v, {}, {});
    assert Refs(v.vvNew, id) != {};
    s :| s in Refs(v.vvNew, id);
  }

  /** nId moved from new to tried; the entry it displaced, if any, is now a new entry with one
      reference at its own slot; nobody else changed tables, and at most the occupant of that
      new slot was dropped. */
  ghost predicate MadeTried(o: Oracle, v: Tables, v': Tables, nId: int) {
    && nId in v.mapInfo && nId in v'.mapInfo
    && var s := o.TriedSlot(v.mapInfo[nId].addr);
       && s in v.vvTried && v'.vvTried == v.vvTried[s := nId]
       && v'.mapInfo[nId] == v.mapInfo[nId].(fInTried := true, nRefCount := 0, nRandomPos := v'.mapInfo[nId].nRandomPos)
       && (forall j :: j in v'.mapInfo ==> j in v.mapInfo && SameEntry(v.mapInfo[j], v'.mapInfo[j]))
       && var e := v.vvTried[s];
          if e == -1 then
            && v'.vvNew == ClearedOf(v.vvNew, nId)
            && forall j :: j in v.mapInfo ==> j in v'.mapInfo
          else
            && e in v.mapInfo && e in v'.mapInfo && !v'.mapInfo[e].fInTried && v'.mapInfo[e].nRefCount == 1
            && var u := o.NewSlot(v.mapInfo[e].addr, v.mapInfo[e].source);
               && u in v.vvNew && v'.vvNew == ClearedOf(v.vvNew, nId)[u := e]
               && (forall j :: j in v.mapInfo && j !in v'.mapInfo ==>
                     j == v.vvNew[u] && j != nId && v.mapInfo[j].nRefCount <= 1)
  }

  lemma MadeTriedAtOnce(o: Oracle, v: Tables, w: Tables, nId: int)
    requires nId in v.mapInfo && o.TriedSlot(v.mapInfo[nId].addr) in v.vvTried
             && v.vvTried[o.TriedSlot(v.mapInfo[nId].addr)] == -1
    requires w.mapInfo == Recounted(v.mapInfo, nId, 0) && w.vvNew == ClearedOf(v.vvNew, nId) && w.vvTried == v.vvTried
    ensures MadeTried(o, v, PlacedTried(o, w, nId), nId)
  {}

  lemma MadeTriedByEviction(o: Oracle, v: Tables, w: Tables, nId: int)
    requires nId in v.mapInfo && nId in w.mapInfo && !v.mapInfo[nId].fInTried && -1 !in v.mapInfo
    requires w.mapInfo[nId] == v.mapInfo[nId].(nRefCount := 0, nRandomPos := w.mapInfo[nId].nRandomPos)
    requires var s := o.TriedSlot(v.mapInfo[nId].addr);
             && s in v.vvTried && v.vvTried[s] != -1 && w.vvTried == v.vvTried[s := -1]
             && Evicted(o, Recounted(v.mapInfo, nId, 0), ClearedOf(v.vvNew, nId), w.mapInfo, w.vvNew, v.vvTried[s])
    ensures MadeTried(o, v, PlacedTried(o, w, nId), nId)
  {}

  /** What clearing a new slot does to the entries. */
  ghost predicate ClearedAt(m: map<int, Info>, news: Table, m': map<int, Info>, u: Slot) {
    && u in news
    && if news[u] == -1 then m' == m else news[u] in m && SameButPos(Dropped(m, news[u]), m')
  }

  lemma ClearedEntry(m: map<int, Info>, news: Table, m': map<int, Info>, u: Slot, id: int)
    requires ClearedAt(m, news, m', u) && id in m && news[u] != id
    ensures id in m' && m'[id] == m[id].(nRandomPos := m'[id].nRandomPos)
  {}

  /** The new slot of an entry just taken out of the tried table can be cleared for it. */
  lemma EvictionSlot(o: Oracle, v: Tables, nId: int, e: int)
    requires Sound(o, v, {nId} + {e}, {}) && nId in v.mapInfo && e in v.mapInfo && v.mapInfo[nId].nRefCount == 0
             && v.mapInfo[e].nRefCount == 0
    ensures var u := o.NewSlot(v.mapInfo[e].addr, v.mapInfo[e].source); u in v.vvNew && v.vvNew[u] !in {nId} + {e} + {}
  {
    InTheNewGrid(o, v, {nId} + {e}, {}, v.mapInfo[e].addr, v.mapInfo[e].source);
    Unreferenced(o, v, {nId} + {e}, {}, nId);
    Unreferenced(o, v, {nId} + {e}, {}, e);
  }

  lemma EvictedBy(o: Oracle, m: map<int, Info>, news: Table, m2: map<int, Info>, e: int)
    requires e in m && m[e].fInTried
    requires var u, m1 := o.NewSlot(m[e].addr, m[e].source), m[e := m[e].(fInTried := false)];
             ClearedAt(m1, news, m2, u) && news[u] != e
    ensures e in m2 && Evicted(o, m, news, Recounted(m2, e, 1), news[o.NewSlot(m[e].addr, m[e].source) := e], e)
  {}

  lemma InTheNewGrid(o: Oracle, v: Tables, limbo: set<int>, loose: set<int>, a: Service, source: NetAddr)
    requires Sound(o, v, limbo, loose)
    ensures o.NewSlot(a, source) in v.vvNew && o.TriedSlot(a) in v.vvTried && -1 !in v.mapInfo
  {
    SoundIsAgree(o, v, limbo, loose);
  }

  lemma Unreferenced(o: Oracle, v: Tables, limbo: set<int>, loose: set<int>, id: int)
    requires Sound(o, v, limbo, loose) && id in v.mapInfo && v.mapInfo[id].nRefCount == 0
    ensures id != -1 && forall s :: s in v.vvNew ==> v.vvNew[s] != id
  {
    SoundIsAgree(o, v, limbo, loose);
    NoRefs(o, v.mapInfo, v.vvNew, id);
  }

  /** A tried entry e was moved to the new table: it is there with one reference, at the slot
      its own source selects, and at most the former occupant of that slot is gone. */
  ghost predicate Evicted(o: Oracle, m: map<int, Info>, news: Table, m': map<int, Info>, news': Table, e: int) {
    && e in m && e in m' && m[e].fInTried
    && m'[e] == m[e].(fInTried := false, nRefCount := 1, nRandomPos := m'[e].nRandomPos)
    && var u := o.NewSlot(m[e].addr, m[e].source);
       && u in news && news' == news[u := e]
       && (forall j :: j in m' && j != e ==> j in m && SameEntry(m[j], m'[j]) && m'[j].fInTried == m[j].fInTried)
       && (forall j :: j in m && j !in m' ==> j == news[u] && m[j].nRefCount <= 1)
  }

  /** What the source's Check_ looks at, error code by error code: on agreeing indexes it
      finds nothing to report. */
  lemma CheckPasses(o: Oracle, v: Tables)
    requires Sound(o, v, {}, {})
    ensures |v.vRandom| == v.nTried + v.nNew  // -7
    ensures forall n :: n in v.mapInfo ==>
              var info := v.mapInfo[n];
              && (info.fInTried ==> info.nLastSuccess != 0 && info.nRefCount == 0)  // -1, -2
              && (!info.fInTried ==> 1 <= info.nRefCount <= NEW_BUCKETS_PER_ADDRESS)  // -3, -4
              && info.addr.ip in v.mapAddr && v.mapAddr[info.addr.ip] == n  // -5
              && 0 <= info.nRandomPos < |v.vRandom| && v.vRandom[info.nRandomPos] == n  // -14
              && info.nLastTry >= 0 && info.nLastSuccess >= 0  // -6, -8
    ensures |TriedIds(v.mapInfo)| == v.nTried && |NewIds(v.mapInfo)| == v.nNew  // -9, -10
    ensures forall s :: s in v.vvTried && v.vvTried[s] != -1 ==>
              && v.vvTried[s] in TriedIds(v.mapInfo)  // -11
              && o.TriedSlot(v.mapInfo[v.vvTried[s]].addr) == s  // -17, -18
              && Refs(v.vvTried, v.vvTried[s]) == {s}  // erased from setTried only once
    ensures forall s :: s in v.vvNew && v.vvNew[s] != -1 ==>
              && v.vvNew[s] in NewIds(v.mapInfo)  // -12
              && o.Position(v.mapInfo[v.vvNew[s]].addr, true, s.bucket) == s.pos  // -19
    ensures forall n :: n in TriedIds(v.mapInfo) ==> |Refs(v.vvTried, n)| == 1  // -13
    ensures forall n :: n in NewIds(v.mapInfo) ==> |Refs(v.vvNew, n)| == v.mapInfo[n].nRefCount  // -15
  {
    SoundIsAgree(o, v, {}, {});
    CountsAdd(v);
    TriedOnce(o, v);
  }

  lemma CountsAdd(v: Tables)
    requires RandomOk(v.mapInfo, v.vRandom) && CountsOk(v.mapInfo, v.nTried, v.nNew, {})
    ensures |v.vRandom| == v.nTried + v.nNew && |TriedIds(v.mapInfo)| == v.nTried && |NewIds(v.mapInfo)| == v.nNew
  {
    assert NewIds(v.mapInfo) - {} == NewIds(v.mapInfo);
    SizeOfRandom(v.mapInfo, v.vRandom);
    assert TriedIds(v.mapInfo) + NewIds(v.mapInfo) == v.mapInfo.Keys;
  }

  lemma TriedOnce(o: Oracle, v: Tables)
    requires TriedOk(o, v.mapInfo, v.vvTried) && -1 !in v.mapInfo
    ensures forall s :: s in v.vvTried && v.vvTried[s] != -1 ==> Refs(v.vvTried, v.vvTried[s]) == {s}
    ensures forall n :: n in TriedIds(v.mapInfo) ==> |Refs(v.vvTried, n)| == 1
  {
    forall s | s in v.vvTried && v.vvTried[s] != -1 ensures Refs(v.vvTried, v.vvTried[s]) == {s} {}
    forall n | n in TriedIds(v.mapInfo) ensures |Refs(v.vvTried, n)| == 1 {
      assert Refs(v.vvTried, n) == {o.TriedSlot(v.mapInfo[n].addr)};
    }
  }

  /** The address is the only entry, a tried one. */
  ghost predicate OnlyTried(o: Oracle, v: Tables, a: Service, id: int) {
    && v.mapInfo.Keys == {id} && id in v.mapInfo && id != -1 && v.mapInfo[id].fInTried && v.mapInfo[id].addr == a
    && o.TriedSlot(a) in v.vvTried && v.vvTried[o.TriedSlot(a)] == id
    && forall s :: s in v.vvNew ==> v.vvNew[s] == -1
  }

  /** The first address marked good in an empty manager is its only entry, a tried one. */
  lemma AloneTried(o: Oracle, v: Tables, filed: Tables, v': Tables, a: Address, now: int, id: int)
    requires v.mapInfo == map[] && Sound(o, filed, {}, {}) && Sound(o, v', {}, {})
    requires FiledEffect(o, v, filed, a, now, id) && GoodEffect(o, filed, {}, v', {}, a.service, false, now)
    ensures OnlyTried(o, v', a.service, id)
  {
    FoundUnder(o, filed, a.service.ip, id);
    GoodOwn(o, filed, v', {}, id, now);
    assert forall j :: j in v'.mapInfo ==> j == id;
    SoundIsAgree(o, v', {}, {});
  }

  /** Another address added next to it is filed as new. */
  lemma AddedBeside(o: Oracle, v: Tables, v': Tables, a: Service, b: Address, source: NetAddr, now: int, rnd: nat,
      fNew: bool, id: int)
    requires Sound(o, v, {}, {}) && OnlyTried(o, v, a, id)
    requires a.ip != b.service.ip && o.routable(b.service.ip) && AddEffect(o, v, v', b, source, 0, now, rnd, fNew)
    ensures var e := v.nIdCount;
            && e in v'.mapInfo && v'.mapInfo[e].addr == b.service && !v'.mapInfo[e].fInTried && e != id
            && id in v'.mapInfo && v'.mapInfo[id].addr == a && v'.vvTried == v.vvTried
  {
    SoundIsAgree(o, v, {}, {});
    assert forall j :: j in v.mapInfo.Keys ==> j == id;
    FoundHas(o, v, b.service.ip);
    assert id in v.mapInfo.Keys && v.nIdCount !in v.mapInfo.Keys;
  }

  /** With the test and an occupied slot, it becomes a pending entry. */
  lemma HadToWait(o: Oracle, v: Tables, v': Tables, coll: set<int>, b: Service, now: int, id: int, e: int)
    requires Sound(o, v, {}, {}) && e in v.mapInfo && v.mapInfo[e].addr == b && !v.mapInfo[e].fInTried
             && id in v.mapInfo && id != e
    requires o.TriedSlot(b) in v.vvTried && v.vvTried[o.TriedSlot(b)] == id && id != -1
    requires GoodEffect(o, v, {}, v', coll, b, true, now)
    ensures coll == {e} && v'.vvTried == v.vvTried && e in v'.mapInfo && v'.mapInfo[e].addr == b
    ensures id in v'.mapInfo && v'.mapInfo[id].addr == v.mapInfo[id].addr
  {
    FoundUnder(o, v, b.ip, e);
  }

  lemma {:induction false} SizeOfRandom(m: map<int, Info>, v: seq<int>)
    requires RandomOk(m, v)
    ensures |v| == |m.Keys|
  {
    if v == [] {
      if |m.Keys| != 0 { var x := Pick(m.Keys); }
    } else {
      var id := v[|v| - 1];
      assert id in m;
      SizeOfRandom(m - {id}, v[..|v| - 1]);
      assert (m - {id}).Keys == m.Keys - {id};
    }
  }
}
