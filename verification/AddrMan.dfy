/**
 The operations of the stochastic address manager of addrman.cpp and addrman.h.

 Random choices are arbitrary choices, and the clock is a parameter.
 */
module AddrMan {
  import opened Basics
  import opened AddrTables
  import opened AddrCapacity
  import Numbers

  class AddrMan {
    var oracle: Oracle
    var nIdCount: int
    var mapInfo: map<int, Info>
    var mapAddr: map<NetAddr, int>
    var vRandom: seq<int>
    var nTried: int
    var vvTried: Table
    var nNew: int
    var vvNew: Table
    var nLastGood: int
    var m_tried_collisions: set<int>

    ghost function View(): Tables
      reads this
    {
      Tables(nIdCount, mapInfo, mapAddr, vRandom, nTried, vvTried, nNew, vvNew)
    }

    ghost predicate Inv(limbo: set<int>, loose: set<int>)
      reads this
    {
      Sound(oracle, View(), limbo, loose)
    }

    ghost predicate Valid()
      reads this
    {
      Inv({}, {})
    }

    constructor (key: Oracle)
      ensures Valid() && oracle == key && mapInfo == map[] && m_tried_collisions == {}
    {
      oracle := key;
      vRandom, mapInfo, mapAddr := [], map[], map[];
      vvNew, vvTried := EmptyTable(NEW_BUCKET_COUNT), EmptyTable(TRIED_BUCKET_COUNT);
      nIdCount, nTried, nNew, nLastGood := 0, 0, 0, 1;
      m_tried_collisions := {};
      new;
      EmptyIsSound(oracle, View());
    }

    /** Forgets everything but the pending collisions, under a new key. */
    method Clear(key: Oracle)
      modifies this
      ensures Valid() && mapInfo == map[] && oracle == key && m_tried_collisions == old(m_tried_collisions)
    {
      oracle := key;
      vRandom, mapInfo, mapAddr := [], map[], map[];
      vvNew, vvTried := EmptyTable(NEW_BUCKET_COUNT), EmptyTable(TRIED_BUCKET_COUNT);
      nIdCount, nTried, nNew, nLastGood := 0, 0, 0, 1;
      EmptyIsSound(oracle, View());
    }

    method SwapRandom(p1: int, p2: int)
      requires 0 <= p1 < |vRandom| && 0 <= p2 < |vRandom|
      requires RandomOk(mapInfo, vRandom)
      modifies this`mapInfo, this`vRandom
      ensures mapInfo == SwappedInfo(old(mapInfo), old(vRandom), p1, p2)
      ensures vRandom == SwappedSeq(old(vRandom), p1, p2)
    {
      if p1 == p2 { return; }
      var id1, id2 := vRandom[p1], vRandom[p2];
      assert id1 in mapInfo && id2 in mapInfo;
      mapInfo := mapInfo[id1 := mapInfo[id1].(nRandomPos := p2)];
      mapInfo := mapInfo[id2 := mapInfo[id2].(nRandomPos := p1)];
      vRandom := vRandom[p1 := id2];
      vRandom := vRandom[p2 := id1];
    }

    /** Takes an entry out of vRandom, mapAddr and mapInfo: the common end of Delete and Remove_. */
    method Erase(nId: int)
      requires RandomOk(mapInfo, vRandom) && nId in mapInfo
      modifies this`mapInfo, this`vRandom, this`mapAddr
      ensures View() == Erased(old(View()), nId)
    {
      var info := mapInfo[nId];
      SwapRandom(info.nRandomPos, |vRandom| - 1);
      vRandom := vRandom[..|vRandom| - 1];
      mapAddr := mapAddr - {info.addr.ip};
      mapInfo := mapInfo - {nId};
    }

    method Delete(nId: int, ghost limbo: set<int>, ghost loose: set<int>)
      requires Inv(limbo, loose)
      requires nId in mapInfo && !mapInfo[nId].fInTried && mapInfo[nId].nRefCount == 0 && nId !in limbo
      modifies this`mapInfo, this`vRandom, this`mapAddr, this`nNew
      ensures Inv(limbo, loose - {nId})
      ensures SameButPos(old(mapInfo) - {nId}, mapInfo)
    {
      DeleteKeeps(oracle, View(), nId, limbo, loose);
      assert RandomOk(mapInfo, vRandom) by { SoundIsAgree(oracle, View(), limbo, loose); }
      Erase(nId);
      nNew := nNew - 1;
    }

    /** Takes away one reference, which may have been the last one. */
    method DropRef(s: Slot, ghost limbo: set<int>, ghost loose: set<int>)
      requires Inv(limbo, loose)
      requires s in vvNew && vvNew[s] != -1
      modifies this`mapInfo, this`vvNew
      ensures Inv(limbo, loose + {old(vvNew[s])})
      ensures vvNew == old(vvNew)[s := -1]
      ensures var id, m := old(vvNew[s]), old(mapInfo);
              id in m && !m[id].fInTried && m[id].nRefCount > 0 && mapInfo == Recounted(m, id, m[id].nRefCount - 1)
    {
      var nIdDelete := vvNew[s];
      DropKeeps(oracle, View(), s, limbo, loose);
      assert mapInfo[nIdDelete].nRefCount > 0;
      mapInfo := mapInfo[nIdDelete := mapInfo[nIdDelete].(nRefCount := mapInfo[nIdDelete].nRefCount - 1)];
      vvNew := vvNew[s := -1];
    }

    /** Empties one position of the new table; its entry goes when that was its last reference. */
    method ClearNew(s: Slot, ghost limbo: set<int>, ghost loose: set<int>)
      requires Inv(limbo, loose)
      requires s in vvNew && vvNew[s] !in limbo + loose
      modifies this`mapInfo, this`vRandom, this`mapAddr, this`nNew, this`vvNew
      ensures Inv(limbo, loose)
      ensures vvNew == old(vvNew)[s := -1]
      ensures ClearedAt(old(mapInfo), old(vvNew), mapInfo, s)
    {
      if vvNew[s] != -1 {
        var nIdDelete := vvNew[s];
        DropRef(s, limbo, loose);
        if mapInfo[nIdDelete].nRefCount == 0 {
          Delete(nIdDelete, limbo, loose + {nIdDelete});
          assert loose + {nIdDelete} - {nIdDelete} == loose;
        } else {
          SettledAmong(oracle, View(), limbo, loose, nIdDelete);
        }
      } else {
        SameUpdate(vvNew, s);
      }
    }

    /** The loop of MakeTried that takes an entry out of all its new buckets. */
    method SweepNew(nId: int)
      requires NewOk(oracle, mapInfo, vvNew) && nId in mapInfo
      modifies this`mapInfo, this`vvNew
      ensures vvNew == ClearedOf(old(vvNew), nId)
      ensures mapInfo == Recounted(old(mapInfo), nId, 0)
    {
      ghost var m, t := mapInfo, vvNew;
      var addr := mapInfo[nId].addr;
      SweptEnds(t, nId);
      ghost var k := m[nId].nRefCount;
      for bucket := 0 to NEW_BUCKET_COUNT
        invariant vvNew == Swept(t, nId, bucket) && k == |Refs(vvNew, nId)|
        invariant mapInfo == Recounted(m, nId, k)
      {
        var s := Slot(bucket, oracle.Position(addr, true, bucket));
        SweepStep(oracle, m, t, nId, bucket, k, mapInfo, vvNew, s);
        if vvNew[s] == nId {
          vvNew := vvNew[s := -1];
          mapInfo := mapInfo[nId := mapInfo[nId].(nRefCount := mapInfo[nId].nRefCount - 1)];
          k := k - 1;
        }
      }
    }

    /** Gives an entry of the new table one more reference. */
    method AddRef(id: int, s: Slot, ghost limbo: set<int>, ghost loose: set<int>)
      requires Inv(limbo, loose)
      requires id in mapInfo && !mapInfo[id].fInTried && mapInfo[id].nRefCount < NEW_BUCKETS_PER_ADDRESS
      requires s in vvNew && vvNew[s] == -1 && s.pos == oracle.Position(mapInfo[id].addr, true, s.bucket)
      modifies this`mapInfo, this`vvNew
      ensures Inv(limbo, loose - {id})
      ensures vvNew == old(vvNew)[s := id]
      ensures mapInfo == Recounted(old(mapInfo), id, old(mapInfo[id].nRefCount) + 1)
    {
      AddRefKeeps(oracle, View(), id, s, limbo, loose);
      mapInfo := mapInfo[id := mapInfo[id].(nRefCount := mapInfo[id].nRefCount + 1)];
      vvNew := vvNew[s := id];
    }

    /** Takes the entry at a tried slot out of the tried table, without a new home yet. */
    method UnplaceTried(s: Slot, ghost limbo: set<int>)
      requires Inv(limbo, {}) && s in vvTried && vvTried[s] != -1
      modifies this`mapInfo, this`vvTried, this`nTried
      ensures Inv(limbo + {old(vvTried[s])}, {})
      ensures var e, m := old(vvTried[s]), old(mapInfo);
              && e in m && e !in limbo && m[e].fInTried && m[e].nRefCount == 0
              && s == oracle.TriedSlot(m[e].addr) && mapInfo == m[e := m[e].(fInTried := false)]
      ensures vvTried == old(vvTried)[s := -1]
    {
      var nIdEvict := vvTried[s];
      UnplaceKeeps(oracle, View(), s, limbo);
      assert nIdEvict in mapInfo;
      mapInfo := mapInfo[nIdEvict := mapInfo[nIdEvict].(fInTried := false)];
      vvTried := vvTried[s := -1];
      nTried := nTried - 1;
    }

    /** Gives an entry in limbo its slot in the new table, after clearing the slot. */
    method Refile(e: int, u: Slot, ghost nId: int) returns (ghost m2: map<int, Info>)
      requires Inv({nId} + {e}, {}) && e != nId && e in mapInfo && !mapInfo[e].fInTried && mapInfo[e].nRefCount == 0
      requires u == oracle.NewSlot(mapInfo[e].addr, mapInfo[e].source) && u in vvNew && vvNew[u] !in {nId} + {e} + {}
      modifies this`mapInfo, this`vRandom, this`mapAddr, this`nNew, this`vvNew
      ensures Inv({nId}, {}) && vvNew == old(vvNew)[u := e]
      ensures ClearedAt(old(mapInfo), old(vvNew), m2, u) && e in m2 && mapInfo == Recounted(m2, e, 1)
    {
      ghost var m1, news := mapInfo, vvNew;
      ClearNew(u, {nId} + {e}, {});
      m2 := mapInfo;
      ClearedEntry(m1, news, m2, u, e);
      AddRef(e, u, {nId} + {e}, {});
      assert {} - {e} == {};
      LimboToLoose(oracle, View(), e, {nId}, {});
      nNew := nNew + 1;
      SettledAmong(oracle, View(), {nId}, {}, e);
    }

    /** Moves the entry at a tried slot back to the new table. */
    method Evict(s: Slot, ghost nId: int)
      requires Inv({nId}, {}) && nId in mapInfo && mapInfo[nId].nRefCount == 0
      requires s in vvTried && vvTried[s] != -1
      modifies this`mapInfo, this`vvTried, this`nTried, this`vRandom, this`mapAddr, this`nNew, this`vvNew
      ensures Inv({nId}, {})
      ensures vvTried == old(vvTried)[s := -1]
      ensures Evicted(oracle, old(mapInfo), old(vvNew), mapInfo, vvNew, old(vvTried[s]))
      ensures nId in mapInfo && mapInfo[nId] == old(mapInfo[nId]).(nRandomPos := mapInfo[nId].nRandomPos)
    {
      ghost var m, news := mapInfo, vvNew;
      var nIdEvict := vvTried[s];
      UnplaceTried(s, {nId});
      ghost var m1 := mapInfo;
      var u := oracle.NewSlot(mapInfo[nIdEvict].addr, mapInfo[nIdEvict].source);
      EvictionSlot(oracle, View(), nId, nIdEvict);
      assert news[u] != nIdEvict && news[u] != nId;
      ghost var m2 := Refile(nIdEvict, u, nId);
      ClearedEntry(m1, news, m2, u, nId);
      EvictedBy(oracle, m, news, m2, nIdEvict);
    }

    /** Takes an entry out of the new table altogether. */
    method LeaveNew(nId: int)
      requires Valid() && nId in mapInfo && !mapInfo[nId].fInTried
      modifies this`mapInfo, this`vvNew, this`nNew
      ensures Inv({nId}, {})
      ensures mapInfo == Recounted(old(mapInfo), nId, 0) && vvNew == ClearedOf(old(vvNew), nId)
    {
      SweepKeeps(oracle, View(), nId);
      assert NewOk(oracle, mapInfo, vvNew) by { SoundIsAgree(oracle, View(), {}, {}); }
      SweepNew(nId);
      nNew := nNew - 1;
    }

    method PlaceTried(nId: int)
      requires Inv({nId}, {})
      requires nId in mapInfo && mapInfo[nId].nRefCount == 0 && mapInfo[nId].nLastSuccess > 0
      requires oracle.TriedSlot(mapInfo[nId].addr) in vvTried && vvTried[oracle.TriedSlot(mapInfo[nId].addr)] == -1
      modifies this`mapInfo, this`vvTried, this`nTried
      ensures Valid()
      ensures View() == PlacedTried(oracle, old(View()), nId)
    {
      PlaceTriedKeeps(oracle, View(), nId);
      vvTried := vvTried[oracle.TriedSlot(mapInfo[nId].addr) := nId];
      nTried := nTried + 1;
      mapInfo := mapInfo[nId := mapInfo[nId].(fInTried := true)];
    }

    /** Moves an entry from the new table to the tried table.  Whoever sat in its tried slot
        goes back to the new table. */
    method MakeTried(nId: int)
      requires Valid()
      requires nId in mapInfo && !mapInfo[nId].fInTried && mapInfo[nId].nLastSuccess > 0
      modifies this`mapInfo, this`vvTried, this`nTried, this`vRandom, this`mapAddr, this`nNew, this`vvNew
      ensures Valid()
      ensures MadeTried(oracle, old(View()), View(), nId)
    {
      ghost var v := View();
      InTheNewGrid(oracle, v, {}, {}, mapInfo[nId].addr, 0);
      LeaveNew(nId);
      assert mapInfo[nId].nRefCount == 0;
      var s := oracle.TriedSlot(mapInfo[nId].addr);
      if vvTried[s] != -1 {
        Evict(s, nId);
        MadeTriedByEviction(oracle, v, View(), nId);
      } else {
        MadeTriedAtOnce(oracle, v, View(), nId);
      }
      assert vvTried[s] == -1;
      PlaceTried(nId);
    }

    method Create(addr: Address, source: NetAddr) returns (nId: int)
      requires Valid() && addr.service.ip !in mapAddr
      modifies this`nIdCount, this`mapInfo, this`mapAddr, this`vRandom
      ensures nId == old(nIdCount) && nId !in old(mapInfo) && Inv({nId}, {})
      ensures View() == Created(old(View()), FreshInfo(addr, source))
    {
      CreateKeeps(oracle, View(), FreshInfo(addr, source));
      nId := nIdCount;
      nIdCount := nIdCount + 1;
      mapInfo := mapInfo[nId := FreshInfo(addr, source)];
      mapAddr := mapAddr[addr.service.ip := nId];
      mapInfo := mapInfo[nId := mapInfo[nId].(nRandomPos := |vRandom|)];
      vRandom := vRandom + [nId];
      UpdateTwice(old(mapInfo), nId, FreshInfo(addr, source), FreshInfo(addr, source).(nRandomPos := |old(vRandom)|));
    }

    /** Overwrites an entry in fields no index depends on. */
    method Touch(nId: int, x: Info, ghost limbo: set<int>, ghost loose: set<int>)
      requires Inv(limbo, loose) && nId in mapInfo && SameStanding(mapInfo[nId], x)
      modifies this`mapInfo
      ensures Inv(limbo, loose) && mapInfo == old(mapInfo)[nId := x]
    {
      EntryUpdated(oracle, View(), nId, x, limbo, loose);
      mapInfo := mapInfo[nId := x];
    }

    /** The search of Good_ for a bucket the entry is in, starting at a random one.
        It never comes back empty-handed. */
    method FindNewBucket(nId: int) returns (nUBucket: int)
      requires Valid() && nId in mapInfo && !mapInfo[nId].fInTried
      ensures 0 <= nUBucket < NEW_BUCKET_COUNT
      ensures var u := Slot(nUBucket, oracle.Position(mapInfo[nId].addr, true, nUBucket)); u in vvNew && vvNew[u] == nId
    {
      var addr := mapInfo[nId].addr;
      ghost var s := SomeRef(oracle, View(), nId);
      var nRnd :| 0 <= nRnd < NEW_BUCKET_COUNT;
      ghost var k := if s.bucket >= nRnd then s.bucket - nRnd else s.bucket - nRnd + NEW_BUCKET_COUNT;
      nUBucket := -1;
      for n := 0 to NEW_BUCKET_COUNT
        invariant nUBucket == -1 && n <= k
      {
        var nB := (n + nRnd) % NEW_BUCKET_COUNT;
        InTheNewGrid2(oracle, View(), addr, nB);
        if vvNew[Slot(nB, oracle.Position(addr, true, nB))] == nId {
          return nB;
        }
      }
    }

    /** Marks an entry good, moving it to the tried table unless it has to be tested first. */
    method Good_(addr: Service, test_before_evict: bool, nTime: int)
      requires Valid() && nTime > 0
      modifies this`nLastGood, this`m_tried_collisions, this`nIdCount, this`mapInfo, this`mapAddr, this`vRandom,
               this`nTried, this`vvTried, this`nNew, this`vvNew
      ensures Valid() && nLastGood == nTime
      ensures GoodEffect(oracle, old(View()), old(m_tried_collisions), View(), m_tried_collisions, addr,
              test_before_evict, nTime)
    {
      nLastGood := nTime;
      var found := Find(mapInfo, mapAddr, addr.ip);
      if found.None? { return; }
      var nId := found.value;
      if mapInfo[nId].addr != addr { return; }
      Touch(nId, mapInfo[nId].(nLastSuccess := nTime, nLastTry := nTime, nAttempts := 0), {}, {});
      if mapInfo[nId].fInTried { return; }
      var nUBucket := FindNewBucket(nId);
      if nUBucket == -1 { return; }
      var s := oracle.TriedSlot(mapInfo[nId].addr);
      InTheNewGrid(oracle, View(), {}, {}, addr, 0);
      if test_before_evict && vvTried[s] != -1 {
        if |m_tried_collisions| < SET_TRIED_COLLISION_SIZE {
          m_tried_collisions := m_tried_collisions + {nId};
        }
      } else {
        MakeTried(nId);
      }
    }

    /** The end of Add_: give the entry a reference in the bucket this source selects, or
        drop it again if it is brand new and the position is well taken. */
    method InsertNew(nId: int, source: NetAddr, now: int)
      requires Inv({}, {nId})
      requires nId in mapInfo && !mapInfo[nId].fInTried && mapInfo[nId].nRefCount < NEW_BUCKETS_PER_ADDRESS
      modifies this`mapInfo, this`vRandom, this`mapAddr, this`nNew, this`vvNew
      ensures Valid()
      ensures Inserted(oracle, old(View()), View(), nId, source, now)
    {
      ghost var v := View();
      var u := oracle.NewSlot(mapInfo[nId].addr, source);
      InTheNewGrid(oracle, v, {}, {nId}, mapInfo[nId].addr, source);
      assert {nId} - {nId} == {} && {} + {nId} == {nId};
      if vvNew[u] != nId {
        var fInsert := vvNew[u] == -1;
        if !fInsert {
          Occupied(oracle, v, {}, {nId}, u);
          var infoExisting := mapInfo[vvNew[u]];
          if IsTerrible(infoExisting, now) || (infoExisting.nRefCount > 1 && mapInfo[nId].nRefCount == 0) {
            fInsert := true;
          }
        }
        if fInsert {
          ClearNew(u, {}, {nId});
          ClearedEntry(v.mapInfo, v.vvNew, mapInfo, u, nId);
          ClearedOthers(v.mapInfo, v.vvNew, mapInfo, u);
          AddRef(nId, u, {}, {nId});
          UpdateTwice(v.vvNew, u, -1, nId);
        } else {
          RefCountOf(oracle, v, {}, {nId}, nId);
          if mapInfo[nId].nRefCount == 0 {
            Delete(nId, {}, {nId});
          } else {
            SettledAmong(oracle, View(), {}, {}, nId);
          }
        }
      } else {
        RefAt(oracle, v, {}, {nId}, u);
        SettledAmong(oracle, View(), {}, {}, nId);
      }
    }

    /** The part of Add_ on a known entry; false means that nothing more is to be done. */
    method Refresh(nId: int, addr: Address, nTimePenalty: int, now: int, rnd: nat) returns (more: bool)
      requires Valid() && nId in mapInfo
      modifies this`mapInfo
      ensures mapInfo == old(mapInfo)[nId := Refreshed(old(mapInfo[nId]), addr, nTimePenalty, now)]
      ensures more <==> Grows(mapInfo[nId], addr, rnd)
      ensures if more then Inv({}, {nId}) else Valid()
    {
      Standing(oracle, View(), nId);
      Touch(nId, Refreshed(mapInfo[nId], addr, nTimePenalty, now), {}, {});
      var pinfo := mapInfo[nId];
      if addr.nTime == 0 || (pinfo.nTime != 0 && addr.nTime <= pinfo.nTime) { return false; }
      if pinfo.fInTried { return false; }
      if pinfo.nRefCount == NEW_BUCKETS_PER_ADDRESS { return false; }
      var nFactor := Factor(pinfo.nRefCount);
      if nFactor > 1 && rnd % nFactor != 0 { return false; }
      Loosened(oracle, View(), nId);
      return true;
    }

    static method Factor(nRefCount: nat) returns (nFactor: nat)
      ensures nFactor == Numbers.Pow2(nRefCount)
    {
      nFactor := 1;
      for n := 0 to nRefCount
        invariant nFactor == Numbers.Pow2(n)
      {
        nFactor := nFactor * 2;
      }
    }

    /** Creates an entry and counts it as new. */
    method CreateCounted(addr: Address, source: NetAddr, nTime: int, nServices: set<nat>) returns (nId: int)
      requires Valid() && Find(mapInfo, mapAddr, addr.service.ip).None?
      modifies this`nIdCount, this`mapInfo, this`mapAddr, this`vRandom, this`nNew
      ensures nId == old(nIdCount) && Inv({}, {nId})
      ensures View() == Created(old(View()),
              FreshInfo(addr, source).(nTime := nTime, nServices := nServices)).(nNew := old(nNew) + 1)
    {
      NotFiled(oracle, View(), addr.service.ip);
      nId := Create(addr, source);
      ghost var x := FreshInfo(addr, source).(nRandomPos := |old(vRandom)|);
      UpdateTwice(old(mapInfo), nId, x, x.(nTime := nTime, nServices := nServices));
      Touch(nId, mapInfo[nId].(nTime := nTime, nServices := nServices), {nId}, {});
      assert {} + {nId} == {nId};
      LimboToLoose(oracle, View(), nId, {}, {});
      nNew := nNew + 1;
    }

    /** Adds an address heard from `source`; true if it was not known before. */
    method Add_(addr: Address, source: NetAddr, timePenalty: int, now: int, rnd: nat) returns (fNew: bool)
      requires Valid()
      modifies this`nIdCount, this`mapInfo, this`mapAddr, this`vRandom, this`nNew, this`vvNew
      ensures Valid()
      ensures AddEffect(oracle, old(View()), View(), addr, source, timePenalty, now, rnd, fNew)
    {
      if !oracle.routable(addr.service.ip) { return false; }
      fNew := false;
      var found := Find(mapInfo, mapAddr, addr.service.ip);
      var nTimePenalty := if addr.service.ip == source then 0 else timePenalty;
      var nId;
      if found.Some? {
        nId := found.value;
        var more := Refresh(nId, addr, nTimePenalty, now, rnd);
        if !more { return; }
      } else {
        nId := CreateCounted(addr, source, Max(0, addr.nTime - nTimePenalty), addr.nServices);
        fNew := true;
      }
      InsertNew(nId, source, now);
    }

    /** All positions of an entry in the new table, each once. */
    method CollectRefs(nId: int) returns (refs: seq<Slot>)
      requires Valid()
      ensures forall s :: s in refs <==> s in Refs(vvNew, nId)
      ensures forall i, j :: 0 <= i < j < |refs| ==> refs[i] != refs[j]
    {
      assert Grid(vvNew, NEW_BUCKET_COUNT) by { SoundIsAgree(oracle, View(), {}, {}); }
      refs := [];
      for bucket := 0 to NEW_BUCKET_COUNT
        invariant forall s :: s in refs <==> s in Refs(vvNew, nId) && s.bucket < bucket
        invariant forall i, j :: 0 <= i < j < |refs| ==> refs[i] != refs[j]
      {
        for pos := 0 to BUCKET_SIZE
          invariant forall s :: s in refs <==> s in Refs(vvNew, nId) && (s.bucket < bucket || (s.bucket == bucket && s.pos < pos))
          invariant forall i, j :: 0 <= i < j < |refs| ==> refs[i] != refs[j]
        {
          if vvNew[Slot(bucket, pos)] == nId {
            assert Slot(bucket, pos) !in refs;
            refs := refs + [Slot(bucket, pos)];
          }
        }
      }
    }

    /** Takes the last reference of a new entry after all others. */
    method ClearRefs(nId: int, refs: seq<Slot>)
      requires Valid() && nId in mapInfo && !mapInfo[nId].fInTried
      requires forall s :: s in refs <==> s in Refs(vvNew, nId)
      requires forall i, j :: 0 <= i < j < |refs| ==> refs[i] != refs[j]
      modifies this`mapInfo, this`vRandom, this`mapAddr, this`nNew, this`vvNew
      ensures Valid() && SameButPos(old(mapInfo) - {nId}, mapInfo)
      ensures vvNew == ClearedOf(old(vvNew), nId)
    {
      ghost var m, t := mapInfo, vvNew;
      ghost var s0 := SomeRef(oracle, View(), nId);
      RefCountOf(oracle, View(), {}, {}, nId);
      for i := 0 to |refs|
        invariant Valid()
        invariant forall s :: s in t <==> s in vvNew
        invariant forall s :: s in t ==> vvNew[s] == if s in refs[..i] then -1 else t[s]
        invariant SameButPos(m - {nId}, mapInfo - {nId})
        invariant i < |refs| ==> nId in mapInfo && !mapInfo[nId].fInTried
        invariant i == |refs| ==> nId !in mapInfo
      {
        ghost var m1, t1 := mapInfo, vvNew;
        assert refs[i] in Refs(t, nId);
        assert refs[i] !in refs[..i];
        ClearNew(refs[i], {}, {});
        assert refs[..i + 1] == refs[..i] + [refs[i]];
        ClearedOne(m, m1, t1, mapInfo, refs[i], nId);
        if nId in mapInfo {
          ghost var s := SomeRef(oracle, View(), nId);
          assert s in refs && s !in refs[..i + 1];
        } else if i + 1 < |refs| {
          assert refs[i + 1] in Refs(t, nId) && refs[i + 1] !in refs[..i + 1];
          RefAt(oracle, View(), {}, {}, refs[i + 1]);
          assert false;
        }
      }
      assert refs[..|refs|] == refs;
      assert vvNew == ClearedOf(t, nId);
      assert mapInfo - {nId} == mapInfo;
    }

    /** Removes an entry from whichever table it is in. */
    method Remove_(nId: int) returns (removed: bool)
      requires Valid()
      modifies this`nLastGood, this`m_tried_collisions, this`nIdCount, this`mapInfo, this`mapAddr, this`vRandom,
               this`nTried, this`vvTried, this`nNew, this`vvNew
      ensures Valid() && nLastGood == old(nLastGood)
      ensures removed <==> nId in old(mapInfo)
      ensures !removed ==> View() == old(View()) && m_tried_collisions == old(m_tried_collisions)
      ensures removed ==> SameButPos(old(mapInfo) - {nId}, mapInfo) && m_tried_collisions == old(m_tried_collisions) - {nId}
      ensures removed ==> vvNew == ClearedOf(old(vvNew), nId) && vvTried == ClearedOf(old(vvTried), nId)
    {
      if nId !in mapInfo { return false; }
      if mapInfo[nId].fInTried {
        var s := oracle.TriedSlot(mapInfo[nId].addr);
        TriedAlone(oracle, View(), nId);
        if vvTried[s] == nId {
          RemoveTried(nId, s);
        } else {
          // The search through all buckets is never needed.
          assert false;
        }
        m_tried_collisions := m_tried_collisions - {nId};
        return true;
      }
      NewAlone(oracle, View(), nId);
      var refs := CollectRefs(nId);
      ClearRefs(nId, refs);
      m_tried_collisions := m_tried_collisions - {nId};
      if nId in mapInfo {
        // Its last reference took the entry with it.
        assert false;
      }
      return true;
    }

    method RemoveTried(nId: int, s: Slot)
      requires Valid() && nId in mapInfo && s in vvTried && vvTried[s] == nId
      modifies this`mapInfo, this`vvTried, this`nTried, this`vRandom, this`mapAddr
      ensures Valid()
      ensures vvTried == old(vvTried)[s := -1] && SameButPos(old(mapInfo) - {nId}, mapInfo)
    {
      RefCountOf(oracle, View(), {}, {}, nId);
      assert {} + {nId} == {nId} && {} - {nId} == {};
      UnplaceTried(s, {});
      assert mapInfo[nId].nRefCount == 0;
      ghost var m1 := mapInfo;
      EraseKeeps(oracle, View(), nId, {}, {});
      assert RandomOk(mapInfo, vRandom) by { SoundIsAgree(oracle, View(), {nId}, {}); }
      Erase(nId);
      assert m1 - {nId} == old(mapInfo) - {nId};
    }

    /** `filed` is the state in which Good_ is called. */
    method AddAndMarkGood_(addr: Address, now: int) returns (r: bool, ghost filed: Tables, ghost nId: int)
      requires Valid() && now > 0
      modifies this`nLastGood, this`m_tried_collisions, this`nIdCount, this`mapInfo, this`mapAddr, this`vRandom,
               this`nTried, this`vvTried, this`nNew, this`vvNew
      ensures Valid() && r == oracle.routable(addr.service.ip) && m_tried_collisions == old(m_tried_collisions)
      ensures !r ==> View() == old(View())
      ensures r ==> FiledEffect(oracle, old(View()), filed, addr, now, nId) && Sound(oracle, filed, {}, {})
      ensures r ==> GoodEffect(oracle, filed, old(m_tried_collisions), View(), m_tried_collisions, addr.service, false, now)
      ensures r && OwnEntry(old(View()), addr.service) ==>
                IsTried(oracle, View(), addr.service) && ConnectedAt(View(), addr.service, now)
      ensures forall e :: e in old(mapInfo) && old(mapInfo[e]).fInTried ==>
              e in mapInfo && mapInfo[e].addr == old(mapInfo[e]).addr
    {
      filed, nId := View(), 0;
      if !oracle.routable(addr.service.ip) { return false, filed, nId; }
      nId := EnsureFiled(addr, now);
      filed := View();
      Good_(addr.service, false, now);
      GoodIsTried(oracle, filed, View(), addr.service, now, m_tried_collisions, nId);
      r := true;
    }

    /** Gives an entry without references the new slot that the source selects, whoever had it. */
    method FirstRef(nId: int, source: NetAddr)
      requires Inv({}, {nId}) && nId in mapInfo && !mapInfo[nId].fInTried && mapInfo[nId].nRefCount == 0
      modifies this`mapInfo, this`vRandom, this`mapAddr, this`nNew, this`vvNew
      ensures Valid() && FirstFiled(oracle, old(View()), View(), nId, source)
    {
      ghost var w := View();
      var u := oracle.NewSlot(mapInfo[nId].addr, source);
      InTheNewGrid(oracle, w, {}, {nId}, mapInfo[nId].addr, source);
      Unreferenced(oracle, w, {}, {nId}, nId);
      ClearNew(u, {}, {nId});
      ghost var m := mapInfo;
      ClearedEntry(w.mapInfo, w.vvNew, m, u, nId);
      AddRef(nId, u, {}, {nId});
      UpdateTwice(w.vvNew, u, -1, nId);
      FirstFiledBy(oracle, w, m, View(), u, nId, source);
      assert {nId} - {nId} == {};
    }

    /** The part of AddAndMarkGood_ before the call of Good_: afterwards the IP is filed, and
        no tried entry was touched in anything but its times and services. */
    method EnsureFiled(addr: Address, now: int) returns (nId: int)
      requires Valid() && now > 0
      modifies this`nIdCount, this`mapInfo, this`mapAddr, this`vRandom, this`nNew, this`vvNew
      ensures Valid() && FiledEffect(oracle, old(View()), View(), addr, now, nId)
      ensures nId in mapInfo && mapInfo[nId].addr.ip == addr.service.ip
      ensures Find(mapInfo, mapAddr, addr.service.ip) == Some(nId)
      ensures OwnEntry(old(View()), addr.service) ==> mapInfo[nId].addr == addr.service
      ensures forall e :: e in old(mapInfo) && old(mapInfo[e]).fInTried ==>
              e in mapInfo && mapInfo[e].fInTried && mapInfo[e].addr == old(mapInfo[e]).addr
    {
      var found := Find(mapInfo, mapAddr, addr.service.ip);
      if found.None? {
        nId := CreateCounted(addr, addr.service.ip, if addr.nTime != 0 then addr.nTime else now, addr.nServices);
      } else {
        nId := found.value;
        Standing(oracle, View(), nId);
        FiledUnder(oracle, View(), addr.service.ip);
        Touch(nId, Welcomed(mapInfo[nId], addr), {}, {});
        HasReferences(oracle, View(), nId);
      }
      if !mapInfo[nId].fInTried && mapInfo[nId].nRefCount == 0 {
        FirstRef(nId, addr.service.ip);
      }
      Filed(oracle, View(), nId);
    }

    /** Adds an address, first removing an entry of the same IP with another port.  `cleared` is
        the state in which Add_ is called. */
    method AddReplacingSameIP(addr: Address, source: NetAddr, nTimePenalty: int, now: int, rnd: nat)
      returns (fRet: bool, ghost cleared: Tables)
      requires Valid()
      modifies this`nLastGood, this`m_tried_collisions, this`nIdCount, this`mapInfo, this`mapAddr, this`vRandom,
               this`nTried, this`vvTried, this`nNew, this`vvNew
      ensures Valid()
      ensures fRet <==> oracle.routable(addr.service.ip) && !Holds(old(View()), addr.service)
      ensures OwnEntry(View(), addr.service)
      ensures Holds(old(View()), addr.service) ==> Holds(View(), addr.service)
      ensures OthersKept(old(View()), cleared, addr.service) && nLastGood == old(nLastGood)
      ensures m_tried_collisions == old(m_tried_collisions) - OtherPort(old(View()), addr.service)
      ensures AddEffect(oracle, cleared, View(), addr, source, nTimePenalty, now, rnd, fRet)
    {
      DropOtherPort(addr.service);
      cleared := View();
      fRet := Add_(addr, source, nTimePenalty, now, rnd);
      AddKeepsOwn(oracle, cleared, View(), addr, source, nTimePenalty, now, rnd, fRet);
    }

    method DropOtherPort(a: Service)
      requires Valid()
      modifies this`nLastGood, this`m_tried_collisions, this`nIdCount, this`mapInfo, this`mapAddr, this`vRandom,
               this`nTried, this`vvTried, this`nNew, this`vvNew
      ensures Valid() && OwnEntry(View(), a) && (Holds(View(), a) <==> Holds(old(View()), a))
      ensures OthersKept(old(View()), View(), a) && nLastGood == old(nLastGood)
      ensures m_tried_collisions == old(m_tried_collisions) - OtherPort(old(View()), a)
    {
      var found := Find(mapInfo, mapAddr, a.ip);
      if found.Some? && mapInfo[found.value].addr.port != a.port {
        ghost var v := View();
        FiledUnder(oracle, v, a.ip);
        var _ := Remove_(found.value);
        NothingUnder(oracle, v, View(), a.ip, found.value);
      } else if found.Some? {
        FiledUnder(oracle, View(), a.ip);
      }
    }

    /** After a successful handshake with a routable address the manager holds exactly one entry
        for its IP, with the given port, in its own tried slot and without new references; every
        tried entry of another IP is still there. */
    method AddAndMarkGoodReplacingSameIP(addr: Address, now: int) returns (r: bool)
      requires Valid() && now > 0
      modifies this`nLastGood, this`m_tried_collisions, this`nIdCount, this`mapInfo, this`mapAddr, this`vRandom,
               this`nTried, this`vvTried, this`nNew, this`vvNew
      ensures Valid() && r == oracle.routable(addr.service.ip)
      ensures r ==> IsTried(oracle, View(), addr.service) && ConnectedAt(View(), addr.service, now)
      ensures m_tried_collisions == old(m_tried_collisions) - OtherPort(old(View()), addr.service)
      ensures forall e :: e in old(mapInfo) && old(mapInfo[e]).fInTried && old(mapInfo[e]).addr.ip != addr.service.ip ==>
                e in mapInfo && mapInfo[e].addr == old(mapInfo[e]).addr
    {
      ghost var v := View();
      DropOtherPort(addr.service);
      OthersTried(v, View(), addr.service);
      ghost var filed, nId;
      r, filed, nId := AddAndMarkGood_(addr, now);
    }

    method Attempt_(addr: Service, fCountFailure: bool, nTime: int)
      requires Valid() && nTime > 0
      modifies this`mapInfo
      ensures Valid()
      ensures var found := Find(old(mapInfo), mapAddr, addr.ip);
              if found.None? || old(mapInfo)[found.value].addr != addr then mapInfo == old(mapInfo)
              else mapInfo == old(mapInfo)[found.value := Attempted(old(mapInfo)[found.value], fCountFailure, nTime,
                  nLastGood)]
    {
      var found := Find(mapInfo, mapAddr, addr.ip);
      if found.None? { return; }
      var info := mapInfo[found.value];
      if info.addr != addr { return; }
      Standing(oracle, View(), found.value);
      info := info.(nLastTry := nTime);
      if fCountFailure && info.nLastCountAttempt < nLastGood {
        info := info.(nLastCountAttempt := nTime, nAttempts := info.nAttempts + 1);
      }
      Touch(found.value, info, {}, {});
    }

    /** Swaps a random later entry to position n and offers it unless it is terrible. */
    method BringForward(n: nat, now: int) returns (offer: seq<Address>)
      requires Valid() && n < |vRandom|
      modifies this`mapInfo, this`vRandom
      ensures Valid() && SameButPos(old(mapInfo), mapInfo) && |vRandom| == |old(vRandom)| && |offer| <= 1
      ensures Kept(mapInfo, vRandom[..n + 1], now) == Kept(old(mapInfo), old(vRandom)[..n], now) + offer
    {
      var nRndPos :| n <= nRndPos < |vRandom|;
      KeptNext(oracle, View(), n, nRndPos, now);
      SwapRandom(n, nRndPos);
      var ai := mapInfo[vRandom[n]];
      offer := if IsTerrible(ai, now) then [] else [Offer(ai)];
    }

    /** A random selection of entries that are not terrible. */
    method GetAddr_(max_addresses: nat, max_pct: nat, now: int) returns (vAddr: seq<Address>)
      requires Valid()
      modifies this`mapInfo, this`vRandom
      ensures Valid() && SameButPos(old(mapInfo), mapInfo)
      ensures |vAddr| <= Limit(|old(vRandom)|, max_addresses, max_pct)
      ensures (max_addresses != 0 ==> |vAddr| <= max_addresses) && (max_pct != 0 ==> 100 * |vAddr| <= max_pct * |vRandom|)
      ensures forall i :: 0 <= i < |vAddr| ==> Listed(mapInfo, vAddr[i], now)
      ensures forall i, j :: 0 <= i < j < |vAddr| ==> vAddr[i].service != vAddr[j].service
      ensures |vAddr| < Limit(|old(vRandom)|, max_addresses, max_pct) ==>
                forall id :: id in mapInfo && !IsTerrible(mapInfo[id], now) ==> Offer(mapInfo[id]) in vAddr
    {
      var nNodes := Limit(|vRandom|, max_addresses, max_pct);
      vAddr := [];
      var n := 0;
      while n < |vRandom| && |vAddr| < nNodes
        invariant Valid() && SameButPos(old(mapInfo), mapInfo) && |vRandom| == |old(vRandom)|
        invariant 0 <= n <= |vRandom| && |vAddr| <= nNodes
        invariant vAddr == Kept(mapInfo, vRandom[..n], now)
      {
        var more := BringForward(n, now);
        vAddr := vAddr + more;
        n := n + 1;
      }
      KeptIsRight(oracle, View(), n, now);
    }

    method Connected_(addr: Service, nTime: int)
      requires Valid()
      modifies this`mapInfo
      ensures Valid()
      ensures var found := Find(old(mapInfo), mapAddr, addr.ip);
              if found.None? || old(mapInfo)[found.value].addr != addr
                  || nTime - old(mapInfo)[found.value].nTime <= 20 * 60 then mapInfo == old(mapInfo)
              else mapInfo == old(mapInfo)[found.value := old(mapInfo)[found.value].(nTime := nTime)]
    {
      var found := Find(mapInfo, mapAddr, addr.ip);
      if found.None? { return; }
      var info := mapInfo[found.value];
      if info.addr != addr { return; }
      Standing(oracle, View(), found.value);
      if nTime - info.nTime > 20 * 60 {
        Touch(found.value, info.(nTime := nTime), {}, {});
      }
    }

    method SetServices_(addr: Service, nServices: set<nat>)
      requires Valid()
      modifies this`mapInfo
      ensures Valid()
      ensures var found := Find(old(mapInfo), mapAddr, addr.ip);
              if found.None? || old(mapInfo)[found.value].addr != addr then mapInfo == old(mapInfo)
              else mapInfo == old(mapInfo)[found.value := old(mapInfo)[found.value].(nServices := nServices)]
    {
      var found := Find(mapInfo, mapAddr, addr.ip);
      if found.None? { return; }
      var info := mapInfo[found.value];
      if info.addr != addr { return; }
      Standing(oracle, View(), found.value);
      Touch(found.value, info.(nServices := nServices), {}, {});
    }

    /** What ResolveCollisions_ does about one pending entry; true if it is settled. */
    method ResolveOne(id_new: int, now: int) returns (erase_collision: bool, ghost st: Settling)
      requires Valid() && now > 0
      modifies this`nLastGood, this`m_tried_collisions, this`nIdCount, this`mapInfo, this`mapAddr, this`vRandom,
               this`nTried, this`vvTried, this`nNew, this`vvNew
      ensures Valid() && m_tried_collisions == old(m_tried_collisions)
      ensures st == Settling(id_new, old(View()), View(), Resolution(oracle, old(View()), id_new, now))
      ensures Settles(oracle, st, now) && erase_collision == (st.verdict != Keep)
      ensures SlotsKept(oracle, old(View()), View())
      ensures !erase_collision ==> SlotTaken(oracle, View(), id_new)
    {
      ghost var v := View();
      erase_collision := false;
      if id_new !in mapInfo {
        erase_collision := true;
      } else {
        var info_new := mapInfo[id_new];
        var s := oracle.TriedSlot(info_new.addr);
        InTheNewGrid(oracle, View(), {}, {}, info_new.addr, 0);
        if !oracle.valid(info_new.addr.ip) {
          erase_collision := true;
        } else if vvTried[s] != -1 {
          TriedOccupied(oracle, View(), s);
          var info_old := mapInfo[vvTried[s]];
          if now - info_old.nLastSuccess < REPLACEMENT_HOURS * 60 * 60 {
            erase_collision := true;
          } else if now - info_old.nLastTry < REPLACEMENT_HOURS * 60 * 60 {
            if now - info_old.nLastTry > 60 {
              GoodNow(id_new, now);
              erase_collision := true;
            }
          } else if now - info_new.nLastSuccess > TEST_WINDOW {
            GoodNow(id_new, now);
            erase_collision := true;
          }
        } else {
          GoodNow(id_new, now);
          erase_collision := true;
        }
      }
      st := Settling(id_new, v, View(), Resolution(oracle, v, id_new, now));
    }

    method GoodNow(id: int, now: int)
      requires Valid() && now > 0 && id in mapInfo
      modifies this`nLastGood, this`m_tried_collisions, this`nIdCount, this`mapInfo, this`mapAddr, this`vRandom,
               this`nTried, this`vvTried, this`nNew, this`vvNew
      ensures Valid() && m_tried_collisions == old(m_tried_collisions) && SlotsKept(oracle, old(View()), View())
      ensures GoodEffect(oracle, old(View()), {}, View(), {}, old(mapInfo[id]).addr, false, now)
      ensures id in mapInfo && mapInfo[id].fInTried
    {
      ghost var v, coll, a := View(), m_tried_collisions, mapInfo[id].addr;
      Good_(mapInfo[id].addr, false, now);
      GoodKeepsSlots(oracle, v, View(), coll, m_tried_collisions, a, now);
      GoodAnyCollisions(oracle, v, View(), coll, a, now);
      GoodOwn(oracle, v, View(), coll, id, now);
    }

    /** Settles pending collisions one after the other; `log` says how.  Afterwards every entry still
        pending has an occupied tried slot, so that SelectTriedCollision_ is safe to call. */
    method ResolveCollisions_(now: int) returns (ghost log: seq<Settling>)
      requires Valid() && now > 0
      modifies this`nLastGood, this`m_tried_collisions, this`nIdCount, this`mapInfo, this`mapAddr, this`vRandom,
               this`nTried, this`vvTried, this`nNew, this`vvNew
      ensures Valid() && SettledAll(oracle, log, old(View()), View(), now)
      ensures Seen(log) == old(m_tried_collisions) && m_tried_collisions == Undecided(log)
      ensures PendingOk(oracle, View(), m_tried_collisions)
      ensures forall e :: e in old(mapInfo) && old(mapInfo[e]).fInTried && now - old(mapInfo[e]).nLastSuccess < 4 * 60 * 60 ==>
                e in mapInfo && mapInfo[e].fInTried
      ensures Protected(oracle, old(View()), View(), old(m_tried_collisions), now)
      ensures forall id :: id in old(m_tried_collisions) ==> Explained(oracle, View(), id, id in m_tried_collisions, now)
    {
      var todo := m_tried_collisions;
      ghost var all, v0 := m_tried_collisions, View();
      log := [];
      while todo != {}
        invariant Valid() && Resolved(oracle, v0, View(), all, log, now)
        invariant Logged(all, log, todo, m_tried_collisions) && PendingOk(oracle, View(), Undecided(log))
        decreases todo
      {
        ghost var some := Pick(todo);
        var id_new :| id_new in todo;
        ghost var v, coll := View(), m_tried_collisions;
        var erase_collision;
        ghost var st;
        erase_collision, st := ResolveOne(id_new, now);
        if erase_collision { m_tried_collisions := m_tried_collisions - {id_new}; }
        ResolvedMore(oracle, v0, all, log, st, now);
        LoggedMore(all, log, todo, coll, st);
        PendingMore(oracle, v, View(), log, st);
        log, todo := log + [st], todo - {id_new};
      }
    }

    /** Offers the tried entry a pending one collides with.  The source looks the slot's raw value
        up with an inserting operator[], so an empty slot plants a bogus entry under id -1: the
        indexes still agree afterwards if and only if that did not happen. */
    method SelectTriedCollision_() returns (r: Option<Info>, ghost picked: Option<int>)
      requires Valid()
      modifies this`mapInfo, this`m_tried_collisions
      ensures picked.Some? <==> old(m_tried_collisions) != {}
      ensures picked.Some? ==> picked.value in old(m_tried_collisions)
      ensures Valid() <==> (picked.Some? && picked.value in old(mapInfo) ==> SlotTaken(oracle, old(View()), picked.value))
      ensures Valid() ==> mapInfo == old(mapInfo)
      ensures r.Some? <==> picked.Some? && picked.value in old(mapInfo)
      ensures m_tried_collisions <= old(m_tried_collisions)
      ensures r.Some? ==> var id := picked.value;
                r.value == if SlotTaken(oracle, old(View()), id) then Occupant(oracle, old(View()), id) else BLANK
    {
      if m_tried_collisions == {} { return None, None; }
      ghost var some := Pick(m_tried_collisions);
      var id_new :| id_new in m_tried_collisions;
      picked := Some(id_new);
      if id_new !in mapInfo {
        m_tried_collisions := m_tried_collisions - {id_new};
        return None, picked;
      }
      InTheNewGrid(oracle, View(), {}, {}, mapInfo[id_new].addr, 0);
      var s := oracle.TriedSlot(mapInfo[id_new].addr);
      var id_old := vvTried[s];
      if id_old != -1 { TriedOccupied(oracle, View(), s); }
      if id_old !in mapInfo {
        mapInfo := mapInfo[id_old := BLANK];
        SoundIsAgree(oracle, View(), {}, {});
      }
      return Some(mapInfo[id_old]), picked;
    }
  }

  // ----- Whole runs

  datatype Op =
    | AddOp(addr: Address, source: NetAddr, nTimePenalty: int, now: int, rnd: nat)
    | AddReplacingOp(addr: Address, source: NetAddr, nTimePenalty: int, now: int, rnd: nat)
    | AddGoodOp(addr: Address, t: int)
    | AddGoodReplacingOp(addr: Address, t: int)
    | GoodOp(service: Service, test_before_evict: bool, t: int)
    | AttemptOp(service: Service, fCountFailure: bool, t: int)
    | ConnectedOp(service: Service, at: int)
    | ServicesOp(service: Service, nServices: set<nat>)
    | RemoveOp(id: int)
    | GetAddrOp(max_addresses: nat, max_pct: nat, now: int)
    | ResolveOp(t: int)
    | ResolveSelectOp(t: int)
    | ClearOp(key: Oracle)

  predicate PositiveTime(op: Op) {
    op.AddGoodOp? || op.AddGoodReplacingOp? || op.GoodOp? || op.AttemptOp? || op.ResolveOp? || op.ResolveSelectOp? ==>
      op.t > 0
  }

  method Apply(a: AddrMan, op: Op)
    requires a.Valid() && PositiveTime(op)
    modifies a
    ensures a.Valid() && |a.m_tried_collisions| <= Max(10, |old(a.m_tried_collisions)|)
  {
    ghost var coll := a.m_tried_collisions;
    Step(a, op);
    if a.m_tried_collisions <= coll { NoMore(a.m_tried_collisions, coll); }
  }

  /** Pending collisions come from marking an address good only. */
  method Step(a: AddrMan, op: Op)
    requires a.Valid() && PositiveTime(op)
    modifies a
    ensures a.Valid()
    ensures a.m_tried_collisions <= old(a.m_tried_collisions) || |a.m_tried_collisions| <= Max(10, |old(a.m_tried_collisions)|)
  {
    ghost var coll, v := a.m_tried_collisions, a.View();
    match op
    case AddOp(addr, source, nTimePenalty, now, rnd) => var _ := a.Add_(addr, source, nTimePenalty, now, rnd);
    case AddReplacingOp(addr, source, nTimePenalty, now, rnd) =>
      var _, _ := a.AddReplacingSameIP(addr, source, nTimePenalty, now, rnd);
    case AddGoodOp(addr, t) => var _, _, _ := a.AddAndMarkGood_(addr, t);
    case AddGoodReplacingOp(addr, t) => var _ := a.AddAndMarkGoodReplacingSameIP(addr, t);
    case GoodOp(service, test_before_evict, t) =>
      a.Good_(service, test_before_evict, t);
      GoodPending(a.oracle, v, coll, a.View(), a.m_tried_collisions, service, test_before_evict, t);
    case AttemptOp(service, fCountFailure, t) => a.Attempt_(service, fCountFailure, t);
    case ConnectedOp(service, at) => a.Connected_(service, at);
    case ServicesOp(service, nServices) => a.SetServices_(service, nServices);
    case RemoveOp(id) => var _ := a.Remove_(id);
    case GetAddrOp(max_addresses, max_pct, now) => var _ := a.GetAddr_(max_addresses, max_pct, now);
    case ResolveOp(t) => var _ := a.ResolveCollisions_(t);
    case ResolveSelectOp(t) => var _ := ResolveThenSelect(a, t);
    case ClearOp(key) => a.Clear(key);
  }

  /** Right after resolving, a selection is safe. */
  method ResolveThenSelect(a: AddrMan, now: int) returns (r: Option<Info>)
    requires a.Valid() && now > 0
    modifies a
    ensures a.Valid() && a.m_tried_collisions <= old(a.m_tried_collisions)
  {
    ghost var log, picked;
    log := a.ResolveCollisions_(now);
    r, picked := a.SelectTriedCollision_();
  }

  /** Whatever is done to a new manager, in whatever order, its indexes agree at the end. */
  method RunAll(key: Oracle, ops: seq<Op>) returns (a: AddrMan)
    requires forall i :: 0 <= i < |ops| ==> PositiveTime(ops[i])
    ensures a.Valid() && a.nTried <= 16384 && a.nNew <= 65536 && |a.m_tried_collisions| <= 10
  {
    a := new AddrMan(key);
    for i := 0 to |ops|
      invariant a.Valid() && fresh(a) && |a.m_tried_collisions| <= 10
    {
      Apply(a, ops[i]);
    }
    Capacity(a.oracle, a.View());
  }

  // ----- A selection without resolving first

  /** A manager with one tried entry and nothing else. */
  method WithOneTried(key: Oracle, a: Address, now: int) returns (m: AddrMan, ghost ida: int)
    requires key.routable(a.service.ip) && now > 0
    ensures fresh(m) && m.Valid() && m.oracle == key && m.m_tried_collisions == {}
    ensures OnlyTried(key, m.View(), a.service, ida)
  {
    m := new AddrMan(key);
    ghost var v0 := m.View();
    var good;
    ghost var filed;
    good, filed, ida := m.AddAndMarkGood_(a, now);
    GoodAnyCollisions(key, filed, m.View(), m.m_tried_collisions, a.service, now);
    AloneTried(key, v0, filed, m.View(), a, now, ida);
  }

  /** One that also has a pending entry for the same slot. */
  method WithOnePending(key: Oracle, a: Address, b: Address, source: NetAddr, now: int, rnd: nat)
    returns (m: AddrMan, ghost ida: int, ghost idb: int)
    requires key.routable(a.service.ip) && key.routable(b.service.ip) && a.service.ip != b.service.ip && now > 0
    requires key.TriedSlot(a.service) == key.TriedSlot(b.service)
    ensures fresh(m) && m.Valid() && m.oracle == key && m.m_tried_collisions == {idb} && ida != idb
    ensures ida in m.mapInfo && m.mapInfo[ida].addr == a.service && idb in m.mapInfo && m.mapInfo[idb].addr == b.service
    ensures key.TriedSlot(b.service) in m.vvTried && m.vvTried[key.TriedSlot(b.service)] == ida
  {
    m, ida := WithOneTried(key, a, now);
    ghost var v1 := m.View();
    idb := v1.nIdCount;
    var fNew := m.Add_(b, source, 0, now, rnd);
    ghost var v2 := m.View();
    AddedBeside(key, v1, v2, a.service, b, source, now, rnd, fNew, ida);
    m.Good_(b.service, true, now);
    HadToWait(key, v2, m.View(), m.m_tried_collisions, b.service, now, ida, idb);
  }

  /** A pending entry whose tried slot was emptied: two routable addresses of different IPs that share a
      tried slot are enough.  The first is marked good, the second has to wait for a test, the
      first is removed; then the selection leaves indexes that do not agree. */
  method SelectionCanFail(key: Oracle, a: Address, b: Address, source: NetAddr, now: int, rnd: nat) returns (m: AddrMan)
    requires key.routable(a.service.ip) && key.routable(b.service.ip) && a.service.ip != b.service.ip && now > 0
    requires key.TriedSlot(a.service) == key.TriedSlot(b.service)
    ensures !m.Valid()
  {
    ghost var ida, idb;
    m, ida, idb := WithOnePending(key, a, b, source, now, rnd);
    FoundUnder(key, m.View(), a.service.ip, ida);
    ghost var m0 := m.mapInfo;
    var found := Find(m.mapInfo, m.mapAddr, a.service.ip);
    var _ := m.Remove_(found.value);
    assert idb in m0 - {ida};
    var _, _ := m.SelectTriedCollision_();
  }
}
