/** An LRU cache shard: all of its operations, each run under the shard's mutex. */
module LruShards {
  import opened Records
  import opened LruState
  import opened LruSteps
  import opened LruOps
  import opened LinkedShards
  import opened LruSparing

  /** Room beside the entries that users hold, or no need for it. */
  predicate Admitted(s: State, charge: nat, strict: bool, wantHandle: bool) {
    s.usage - s.lruUsage + charge <= s.capacity || (!strict && wantHandle)
  }

  function PoolCapacity(capacity: nat, ratio: real): (r: real)
    requires ratio >= 0.0
    ensures r >= 0.0
  {
    capacity as real * ratio
  }

  /** The entry of a key that the table finds can be given out. */
  lemma PinFound(s: State, key: Key)
    requires LruState.Valid(s) && key in s.table
    ensures var h := s.table[key];
            && h < |s.handles| && s.handles[h].key == key && (s.handles[h].refs == 1 <==> h in s.lru)
            && (var s' := Pin(s, h, true);
                && LruState.Valid(s') && s'.usage == s.usage && |s'.handles| == |s.handles| && s'.table == s.table
                && s'.lru == LruWithout(s.lru, h) && s'.lowPri == LowWithout(s.lru, s.lowPri, h))
  {
    KnownEntry(s, key);
    assert HandleOk(s, s.table[key]);
    PinKeeps(s, s.table[key], true);
    PinParts(s, s.table[key], true);
  }

  lemma HeldEntry(s: State, h: HandleId)
    requires Consistent(s) && s.held[h] > 0
    ensures h < |s.handles| && h !in s.lru && s.handles[h].refs == s.held[h] + if s.handles[h].inCache then 1 else 0
  {
    assert HandleOk(s, h);
  }

  lemma PinHeld(s: State, h: HandleId)
    requires LruState.Valid(s) && s.held[h] > 0
    ensures h < |s.handles|
    ensures var s' := Pin(s, h, false);
            && LruState.Valid(s') && s'.usage == s.usage && |s'.handles| == |s.handles|
            && s'.table == s.table && s'.lru == s.lru && s'.lowPri == s.lowPri
  {
    HeldEntry(s, h);
    PinKeeps(s, h, false);
  }

  lemma UnpinErased(s: State, h: HandleId)
    requires LruState.Valid(s) && s.held[h] == 1 && h < |s.handles| && s.handles[h].inCache
    ensures var s' := Detach(Unpin(s, h), h); LruState.Valid(s') && s'.usage <= s.usage && s'.handles[h].frees == 1
  {
    HeldEntry(s, h);
    UnpinEraseKeeps(s, h);
    assert HandleOk(Detach(Unpin(s, h), h), h);
  }

  lemma UnpinListed(s: State, h: HandleId, high: bool)
    requires LruState.Valid(s) && h < |s.handles| && s.held[h] == 1 && s.handles[h].inCache
    ensures h !in Unpin(s, h).lru && s.lowPri <= |s.lru|
    ensures var s' := Enlist(Unpin(s, h), h, high);
            Consistent(s') && s'.usage == s.usage && s'.handles[h].refs == 1 && s'.handles[h].frees == 0
  {
    HeldEntry(s, h);
    UnpinListKeeps(s, h, high);
    assert HandleOk(Enlist(Unpin(s, h), h, high), h);
  }

  lemma ListedByRelease(s: State, s': State, h: HandleId, high: bool)
    requires LruState.Valid(s) && h < |s.handles| && s.held[h] == 1 && s.handles[h].inCache && s.usage <= s.capacity
    requires Consistent(s') && OnlyPoolsMoved(Enlist(Unpin(s, h), h, high), s')
    ensures LruState.Valid(s') && s'.usage == s.usage && s'.capacity == s.capacity
    ensures s'.held == s.held - multiset{h}
    ensures s'.handles[h].refs == 1 && s'.handles[h].frees == 0
    ensures s'.handles[h].isHighPri == s.handles[h].isHighPri && s'.handles[h].hasHit == s.handles[h].hasHit
    ensures OthersSame(s, s', h) && s'.table == s.table
    ensures high ==> s'.lru == s.lru + [h]
    ensures s' == Enlist(Unpin(s, h), h, false) ==> s'.lowPri > 0 && s'.lru[s'.lowPri - 1] == h
  {
    UnpinListed(s, h, high);
  }

  lemma AddHeld(s: State, key: Key, charge: nat, isHighPri: bool)
    requires Consistent(s) && (s.usage + charge > s.capacity ==> s.lru == [])
    ensures KnownKey(s, key)
    ensures var s' := Add(Displace(s, key), key, charge, isHighPri, true);
            && Joined(s, s', key, charge, isHighPri, true) && |s'.handles| == |s.handles| + 1
            && s'.table == s.table[key := |s.handles|] && LeavesList(s, s', key)
  {
    InsertSpares(s, Add(Displace(s, key), key, charge, isHighPri, true), key, charge, isHighPri, true);
    DisplaceKeeps(s, key);
    DisplaceParts(s, key);
    InsertParts(s, key, charge, isHighPri, true);
    AddHeldKeeps(Displace(s, key), key, charge, isHighPri);
  }

  lemma AddListed(s: State, key: Key, charge: nat, isHighPri: bool, high: bool)
    requires Consistent(s) && s.usage + charge <= s.capacity
    ensures KnownKey(s, key)
    ensures var s1 := Add(Displace(s, key), key, charge, isHighPri, false);
            && |s1.handles| == |s.handles| + 1 && s1.table == s.table[key := |s.handles|] && LeavesList(s, s1, key)
            && |s.handles| !in s1.lru && s1.lowPri <= |s1.lru|
            && (var s' := Enlist(s1, |s.handles|, high); Consistent(s') && s'.usage <= s.usage + charge)
  {
    DisplaceKeeps(s, key);
    DisplaceParts(s, key);
    InsertParts(s, key, charge, isHighPri, false);
    AddListedKeeps(Displace(s, key), key, charge, isHighPri, high);
  }

  /** Maintaining the pools changes nothing that counts for a new entry, and leaves the list in order. */
  lemma ListedAfter(s: State, s': State, key: Key, charge: nat, isHighPri: bool, high: bool)
    requires Consistent(s) && s.usage + charge <= s.capacity && KnownKey(s, key) && Consistent(s')
    requires OnlyPoolsMoved(Enlist(Add(Displace(s, key), key, charge, isHighPri, false), |s.handles|, high), s')
    ensures Joined(s, s', key, charge, isHighPri, false)
    ensures high || s' == Enlist(Add(Displace(s, key), key, charge, isHighPri, false), |s.handles|, high) ==>
              AtNewEnd(s', |s.handles|, high)
  {
    AddListed(s, key, charge, isHighPri, high);
    ListedSpares(s, s', key, charge, isHighPri, high);
  }

  lemma ListedSpares(s: State, s': State, key: Key, charge: nat, isHighPri: bool, high: bool)
    requires Consistent(s) && s.usage + charge <= s.capacity && KnownKey(s, key)
    requires OnlyPoolsMoved(Enlist(Add(Displace(s, key), key, charge, isHighPri, false), |s.handles|, high), s')
    ensures Spares(s, s', Holder(s, key))
  {
    var s1 := Add(Displace(s, key), key, charge, isHighPri, false);
    AddListed(s, key, charge, isHighPri, high);
    InsertSpares(s, s1, key, charge, isHighPri, false);
    ListingSpares(s, s1, s', |s.handles|, high, Holder(s, key));
  }

  /** Although the admission test leaves the list out of account, what it admits fits. */
  lemma RoomAfterEviction(s: State, charge: nat)
    requires Consistent(s) && (s.usage + charge <= s.capacity || s.lru == [])
    ensures s.lruUsage <= s.usage
    ensures s.usage - s.lruUsage + charge <= s.capacity <==> s.usage + charge <= s.capacity
  {
    UsageSplits(s);
    assert s.lru == [] ==> Charges(s.handles, s.lru) == 0;
  }

  /** Each step is taken on the ring and the hash table, and the state that they stand for follows. */
  class LruShard {
    const linked: LinkedState          // table, list, references and usage counters
    var strictCapacityLimit: bool
    var highPriPoolRatio: real
    var highPriPoolCapacity: real

    /** What the operations keep of the ring and the table. */
    ghost predicate Linked()
      reads this, linked, linked.list, linked.table, linked.Repr
    {
      this !in linked.Repr && linked.Valid() && highPriPoolRatio >= 0.0 && highPriPoolCapacity >= 0.0
    }

    ghost predicate Valid()
      reads this, linked, linked.list, linked.table, linked.Repr
    {
      Linked() && LruState.Valid(linked.s)
    }

    ghost predicate PoolFits()
      reads this, linked
    {
      linked.s.highPriPoolUsage as real <= highPriPoolCapacity
    }

    constructor (hashOf: string -> nat, capacity: nat, strictCapacityLimit: bool, highPriPoolRatio: real)
      requires highPriPoolRatio >= 0.0
      ensures Valid() && PoolFits() && fresh(linked) && fresh(linked.Repr)
      ensures linked.s.capacity == capacity && linked.s.usage == 0 && linked.s.handles == []
      ensures this.strictCapacityLimit == strictCapacityLimit && this.highPriPoolRatio == highPriPoolRatio
    {
      var empty := NewShard(hashOf, capacity);
      linked := empty;
      this.strictCapacityLimit := strictCapacityLimit;
      this.highPriPoolRatio := highPriPoolRatio;
      highPriPoolCapacity := PoolCapacity(capacity, highPriPoolRatio);
    }

    /** Overflows the oldest high-priority entries until the pool is within its capacity. */
    method MaintainPoolSize()
      requires Linked() && Consistent(linked.s)
      modifies linked`s, linked.Repr
      ensures Linked() && Consistent(linked.s) && PoolFits() && OnlyPoolsMoved(old(linked.s), linked.s)
      ensures NoMoreMoved(old(linked.s), linked.s, highPriPoolCapacity)
    {
      ghost var s0 := linked.s;
      while linked.s.highPriPoolUsage as real > highPriPoolCapacity
        invariant Linked() && Consistent(linked.s) && OnlyPoolsMoved(s0, linked.s)
        invariant NoMoreMoved(s0, linked.s, highPriPoolCapacity)
        decreases |linked.s.lru| - linked.s.lowPri
      {
        OverflowMoves(s0, linked.s, highPriPoolCapacity);
        linked.OverflowOldest();
      }
    }

    predicate GoesHigh(e: Handle)
      reads this
    {
      highPriPoolRatio > 0.0 && (e.isHighPri || e.hasHit)
    }

    /** On the list at the new end of the pool that its priority and use call for. */
    ghost predicate ListedByPriority(h: HandleId)
      reads this, linked
    {
      h < |linked.s.handles| &&
      var e := linked.s.handles[h];
      var high := highPriPoolRatio > 0.0 && (e.isHighPri || e.hasHit);
      AtNewEnd(linked.s, h, high) && (high ==> PoolFits())
    }

    /** Evicts the oldest entries until `charge` more fits or none is left, and frees them. */
    method EvictFromLRU(charge: nat) returns (deleted: seq<HandleId>)
      requires Linked() && Consistent(linked.s)
      modifies linked`s, linked.Repr
      ensures Linked() && Evicted(old(linked.s), linked.s, deleted) && deleted == Victims(old(linked.s), charge)
      ensures linked.s.usage + charge <= linked.s.capacity || linked.s.lru == []
    {
      ghost var s0 := linked.s;
      deleted := [];
      NothingEvicted(s0);
      while linked.s.usage + charge > linked.s.capacity && linked.s.lru != []
        invariant Linked() && Evicted(s0, linked.s, deleted)
        invariant |deleted| <= |s0.lru| && NoneFits(s0, charge, |deleted|)
        decreases |linked.s.lru|
      {
        NotYetEnough(s0, linked.s, deleted, charge);
        var h := DropOldest(s0, deleted);
        deleted := deleted + [h];
      }
      VictimsGone(s0, linked.s, deleted, charge);
    }

    /** The oldest entry leaves list, table and cache. */
    method DropOldest(ghost s0: State, ghost deleted: seq<HandleId>) returns (h: HandleId)
      requires Linked() && Evicted(s0, linked.s, deleted) && linked.s.lru != []
      modifies linked`s, linked.Repr
      ensures Linked() && Evicted(s0, linked.s, deleted + [h]) && |linked.s.lru| < |old(linked.s.lru)|
    {
      OldestIsUnheld(s0, linked.s, deleted);
      h := linked.DropOldest();
    }

    method SetCapacity(capacity: nat)
      requires Valid()
      modifies linked`s, linked.Repr, `highPriPoolCapacity
      ensures Valid() && linked.s.capacity == capacity && linked.s.usage <= old(linked.s.usage)
      ensures linked.s.held == old(linked.s.held) && highPriPoolCapacity == PoolCapacity(capacity, highPriPoolRatio)
      ensures var s0 := old(linked.s).(capacity := capacity); Evicted(s0, linked.s, Victims(s0, 0))
    {
      CapacityIsFree(linked.s, capacity);
      highPriPoolCapacity := PoolCapacity(capacity, highPriPoolRatio);
      linked.Become(linked.s.(capacity := capacity));
      var deleted := EvictFromLRU(0);
    }

    method SetStrictCapacityLimit(strict: bool)
      modifies `strictCapacityLimit
      ensures strictCapacityLimit == strict
    {
      strictCapacityLimit := strict;
    }

    method SetHighPriorityPoolRatio(ratio: real)
      requires Valid() && ratio >= 0.0
      modifies linked`s, linked.Repr, `highPriPoolRatio, `highPriPoolCapacity
      ensures Valid() && PoolFits() && OnlyPoolsMoved(old(linked.s), linked.s)
      ensures highPriPoolRatio == ratio && highPriPoolCapacity == PoolCapacity(linked.s.capacity, ratio)
      ensures NoMoreMoved(old(linked.s), linked.s, highPriPoolCapacity)
    {
      highPriPoolRatio := ratio;
      highPriPoolCapacity := PoolCapacity(linked.s.capacity, ratio);
      MaintainPoolSize();
    }

    /** Finds the entry of a key and gives out a handle to it. */
    method Lookup(key: Key) returns (r: Option<HandleId>)
      requires Valid()
      modifies linked`s, linked.Repr
      ensures Valid() && linked.s.usage == old(linked.s.usage) && linked.s.capacity == old(linked.s.capacity)
      ensures linked.s.table == old(linked.s.table)
      ensures r == if key in old(linked.s.table) then Some(old(linked.s.table)[key]) else None
      ensures r.Some? ==>
                r.value < |linked.s.handles| && linked.s.handles[r.value].key == key && linked.s.handles[r.value].hasHit
      ensures linked.s == if r.Some? then Pin(old(linked.s), r.value, true) else old(linked.s)
      ensures linked.s.held == old(linked.s.held) + if r.Some? then multiset{r.value} else multiset{}
    {
      r := linked.Find(key, linked.s.lru, linked.s.lowPri, linked.s.table);
      if r.Some? {
        PinFound(linked.s, key);
        linked.PinEntry(r.value, Pin(linked.s, r.value, true));
      }
    }

    /** One more reference to an entry that the caller already holds. */
    method Ref(h: HandleId)
      requires Valid() && linked.s.held[h] > 0
      modifies linked`s
      ensures Valid() && linked.s.usage == old(linked.s.usage) && linked.s.capacity == old(linked.s.capacity)
      ensures linked.s == Pin(old(linked.s), h, false) && linked.s.held == old(linked.s.held) + multiset{h}
    {
      PinHeld(linked.s, h);
      linked.Become(Pin(linked.s, h, false));
    }

    /** Takes a handle back; true when the entry was freed. */
    method Release(handle: Option<HandleId>, forceErase: bool) returns (last: bool)
      requires Valid() && (handle.Some? ==> linked.s.held[handle.value] > 0)
      modifies linked`s, linked.Repr
      ensures Valid() && linked.s.usage <= old(linked.s.usage) && linked.s.capacity == old(linked.s.capacity)
      ensures handle.None? ==> linked.s == old(linked.s) && !last
      ensures handle.Some? ==> linked.s.held == old(linked.s.held) - multiset{handle.value}
      ensures handle.Some? ==> OthersSame(old(linked.s), linked.s, handle.value)
      ensures handle.Some? ==>
                var h := handle.value;
                h < |linked.s.handles| == |old(linked.s.handles)| && (last <==> linked.s.handles[h].frees == 1) &&
                (last <==> old(linked.s.held)[h] == 1 &&
                           (old(linked.s.handles)[h].inCache ==> old(linked.s.usage) > linked.s.capacity || forceErase)) &&
                linked.s.table == (if last && old(linked.s.handles)[h].inCache
                                   then old(linked.s.table) - {old(linked.s.handles)[h].key} else old(linked.s.table)) &&
                (!last && old(linked.s.held)[h] == 1 ==> ListedByPriority(h))
    {
      if handle.None? {
        return false;
      }
      var h := handle.value;
      var e := linked.s.handles[h];
      HeldEntry(linked.s, h);
      if e.inCache && e.refs == 2 {
        if linked.s.usage > linked.s.capacity || forceErase {
          ReleaseErased(h);
          last := true;
        } else {
          ReleaseToList(h);
          last := false;
        }
      } else {
        ReleaseShared(h);
        last := e.refs == 1;
      }
    }

    /** Somebody else still holds the entry, or nobody at all. */
    method ReleaseShared(h: HandleId)
      requires Valid() && linked.s.held[h] > 0 && h < |linked.s.handles| && !(linked.s.handles[h].inCache && linked.s.held[h] == 1)
      modifies linked`s
      ensures Valid() && linked.s == Unpin(old(linked.s), h) && linked.s.usage <= old(linked.s.usage)
      ensures linked.s.handles[h].frees == if linked.s.handles[h].refs == 0 then 1 else 0
    {
      UnpinSharedKeeps(linked.s, h);
      linked.Become(Unpin(linked.s, h));
      assert HandleOk(linked.s, h);
    }

    /** The last handle is back, and the entry leaves the cache as well. */
    method ReleaseErased(h: HandleId)
      requires Valid() && linked.s.held[h] == 1 && h < |linked.s.handles| && linked.s.handles[h].inCache
      modifies linked`s, linked.Repr
      ensures Valid() && linked.s == Detach(Unpin(old(linked.s), h), h) && linked.s.usage <= old(linked.s.usage)
      ensures linked.s.handles[h].frees == 1
    {
      UnpinErased(linked.s, h);
      linked.Become(Unpin(linked.s, h));
      linked.DetachEntry(h);
    }

    /** The last handle is back, and the entry may be evicted from now on. */
    method ReleaseToList(h: HandleId)
      requires Valid() && h < |linked.s.handles| && linked.s.held[h] == 1 && linked.s.handles[h].inCache
      requires linked.s.usage <= linked.s.capacity
      modifies linked`s, linked.Repr
      ensures Valid() && linked.s.usage == old(linked.s.usage) && linked.s.capacity == old(linked.s.capacity)
      ensures linked.s.held == old(linked.s.held) - multiset{h} && |linked.s.handles| == |old(linked.s.handles)|
      ensures OthersSame(old(linked.s), linked.s, h) && linked.s.table == old(linked.s.table)
      ensures linked.s.handles[h].refs == 1 && linked.s.handles[h].frees == 0
      ensures GoesHigh(linked.s.handles[h]) == GoesHigh(old(linked.s.handles)[h])
      ensures GoesHigh(linked.s.handles[h]) ==> PoolFits() && linked.s.lru == old(linked.s.lru) + [h]
      ensures !GoesHigh(linked.s.handles[h]) ==> linked.s.lowPri > 0 && linked.s.lru[linked.s.lowPri - 1] == h
    {
      var high := GoesHigh(linked.s.handles[h]);
      ghost var s := linked.s;
      UnpinListed(s, h, high);
      linked.Become(Unpin(linked.s, h));
      EnlistAndMaintain(h, high);
      ListedByRelease(s, linked.s, h, high);
    }

    /** LRU_Insert. */
    method EnlistAndMaintain(h: HandleId, high: bool)
      requires Linked() && h < |linked.s.handles| && h !in linked.s.lru && linked.s.lowPri <= |linked.s.lru|
      requires Consistent(Enlist(linked.s, h, high))
      modifies linked`s, linked.Repr
      ensures Linked() && Consistent(linked.s) && OnlyPoolsMoved(Enlist(old(linked.s), h, high), linked.s)
      ensures if high then PoolFits() && NoMoreMoved(Enlist(old(linked.s), h, high), linked.s, highPriPoolCapacity)
              else linked.s == Enlist(old(linked.s), h, high)
    {
      linked.EnlistEntry(h, high);
      if high {
        MaintainPoolSize();
      }
    }

    /**
     * Inserts an entry, evicting others to make room. Without room it is turned down when the limit is
     * strict, and quietly freed when no handle was asked for.
     */
    method Insert(key: Key, charge: nat, wantHandle: bool, isHighPri: bool) returns (ok: bool, r: Option<HandleId>)
      requires Valid()
      modifies linked, linked.Repr
      ensures Valid() && fresh(linked.Repr - old(linked.Repr))
      ensures Inserted(old(linked.s), linked.s, key, charge, isHighPri, wantHandle,
                       Admitted(old(linked.s), charge, strictCapacityLimit, wantHandle))
      ensures ok <==> Admitted(old(linked.s), charge, strictCapacityLimit, wantHandle) || !wantHandle
      ensures r == if ok && wantHandle then Some(|old(linked.s.handles)|) else None
      ensures Admitted(old(linked.s), charge, strictCapacityLimit, wantHandle) && !wantHandle ==>
                ListedByPriority(|old(linked.s.handles)|)
      ensures strictCapacityLimit || !wantHandle ==>
                linked.s.usage <= if old(linked.s.usage) > linked.s.capacity then old(linked.s.usage) else linked.s.capacity
    {
      ghost var s0 := linked.s;
      var admitted := MakeRoom(charge, wantHandle);
      ghost var s1, repr := linked.s, linked.Repr;
      if admitted {
        r := InsertAdmitted(key, charge, wantHandle, isHighPri);
        ok := true;
        assert fresh(linked.Repr - repr);
        AdmittedInserted(s0, s1, linked.s, key, charge, isHighPri, wantHandle);
      } else {
        ok, r := !wantHandle, None;
        RefusedInserted(s0, s1, key, charge, isHighPri, wantHandle);
      }
    }

    /** Evicts for a new entry and decides whether it is admitted. */
    method MakeRoom(charge: nat, wantHandle: bool) returns (admitted: bool)
      requires Valid()
      modifies linked`s, linked.Repr
      ensures Linked() && Evicted(old(linked.s), linked.s, Victims(old(linked.s), charge))
      ensures admitted <==> Admitted(old(linked.s), charge, strictCapacityLimit, wantHandle)
      ensures linked.s.usage + charge <= linked.s.capacity || linked.s.lru == []
      ensures admitted <==> linked.s.usage + charge <= linked.s.capacity || (!strictCapacityLimit && wantHandle)
    {
      var deleted := EvictFromLRU(charge);
      RoomAfterEviction(linked.s, charge);
      admitted := linked.s.usage - linked.s.lruUsage + charge <= linked.s.capacity || (!strictCapacityLimit && wantHandle);
    }

    method InsertAdmitted(key: Key, charge: nat, wantHandle: bool, isHighPri: bool) returns (r: Option<HandleId>)
      requires Linked() && Consistent(linked.s)
      requires linked.s.usage + charge > linked.s.capacity ==> linked.s.lru == [] && wantHandle
      modifies linked, linked.Repr
      ensures Linked() && fresh(linked.Repr - old(linked.Repr))
      ensures Joined(old(linked.s), linked.s, key, charge, isHighPri, wantHandle)
      ensures r == if wantHandle then Some(|old(linked.s.handles)|) else None
      ensures !wantHandle ==> ListedByPriority(|old(linked.s.handles)|)
    {
      if wantHandle {
        r := Some(|linked.s.handles|);
        InsertHeld(key, charge, isHighPri);
      } else {
        r := None;
        InsertListed(key, charge, isHighPri);
      }
    }

    method InsertHeld(key: Key, charge: nat, isHighPri: bool)
      requires Linked() && Consistent(linked.s) && (linked.s.usage + charge > linked.s.capacity ==> linked.s.lru == [])
      modifies linked, linked.Repr
      ensures Linked() && fresh(linked.Repr - old(linked.Repr))
      ensures Joined(old(linked.s), linked.s, key, charge, isHighPri, true)
    {
      AddHeld(linked.s, key, charge, isHighPri);
      linked.EnterEntry(key, Add(Displace(linked.s, key), key, charge, isHighPri, true));
    }

    method InsertListed(key: Key, charge: nat, isHighPri: bool)
      requires Linked() && Consistent(linked.s) && linked.s.usage + charge <= linked.s.capacity
      modifies linked, linked.Repr
      ensures Linked() && fresh(linked.Repr - old(linked.Repr))
      ensures Joined(old(linked.s), linked.s, key, charge, isHighPri, false) && ListedByPriority(|old(linked.s.handles)|)
    {
      var high := highPriPoolRatio > 0.0 && isHighPri;
      ghost var s := linked.s;
      AddListed(s, key, charge, isHighPri, high);
      linked.EnterEntry(key, Add(Displace(linked.s, key), key, charge, isHighPri, false));
      EnlistAndMaintain(|linked.s.handles| - 1, high);
      ListedAfter(s, linked.s, key, charge, isHighPri, high);
    }

    /** Takes the entry of a key out of the cache; it is freed once nobody holds it. */
    method Erase(key: Key)
      requires Valid()
      modifies linked`s, linked.Repr
      ensures Valid() && linked.s.usage <= old(linked.s.usage) && linked.s.capacity == old(linked.s.capacity)
      ensures linked.s.held == old(linked.s.held) && linked.s.table == old(linked.s.table) - {key}
      ensures Spares(old(linked.s), linked.s, Holder(old(linked.s), key))
    {
      DisplaceSpares(linked.s, key);
      DisplaceKeeps(linked.s, key);
      DisplaceParts(linked.s, key);
      linked.EraseEntry(key, Displace(linked.s, key));
    }

    /** Frees every entry that nobody holds. */
    method EraseUnRefEntries() returns (deleted: seq<HandleId>)
      requires Valid()
      modifies linked`s, linked.Repr
      ensures Valid() && Evicted(old(linked.s), linked.s, deleted)
      ensures linked.s.lru == [] && linked.s.lruUsage == 0 && deleted == old(linked.s.lru)
    {
      ghost var s0 := linked.s;
      deleted := [];
      NothingEvicted(s0);
      while linked.s.lru != []
        invariant Linked() && Evicted(s0, linked.s, deleted)
        decreases |linked.s.lru|
      {
        var h := DropOldest(s0, deleted);
        deleted := deleted + [h];
      }
      assert Charges(linked.s.handles, []) == 0;
    }

    /** The charge of all entries that users hold. */
    method GetPinnedUsage() returns (pinned: nat)
      requires Valid()
      ensures pinned == Tally.Sum(HeldCharges(linked.s))
    {
      UsageSplits(linked.s);
      pinned := linked.s.usage - linked.s.lruUsage;
    }
  }

  /** What users of a shard can do. */
  datatype Op =
    | DoLookup(key: Key)
    | DoInsert(key: Key, charge: nat, wantHandle: bool, isHighPri: bool)
    | DoRef(h: HandleId)
    | DoRelease(h: HandleId, forceErase: bool)
    | DoErase(key: Key)
    | DoEraseUnRefEntries
    | DoSetCapacity(capacity: nat)
    | DoSetStrict(strict: bool)
    | DoSetRatio(ratio: real)

  /** No operation lifts the strict limit or lowers the capacity. */
  predicate KeepsLimit(ops: seq<Op>, capacity: nat) {
    ops == [] ||
    match ops[0]
    case DoSetCapacity(c) => capacity <= c && KeepsLimit(ops[1..], c)
    case DoSetStrict(strict) => strict && KeepsLimit(ops[1..], capacity)
    case _ => KeepsLimit(ops[1..], capacity)
  }

  predicate Sets(op: Op) {
    op.DoSetCapacity? || op.DoSetStrict? || op.DoSetRatio?
  }

  method Set(shard: LruShard, op: Op)
    requires shard.Valid() && Sets(op)
    modifies shard, shard.linked`s, shard.linked.Repr
    ensures shard.Valid() && shard.linked.s.usage <= old(shard.linked.s.usage)
    ensures shard.strictCapacityLimit == if op.DoSetStrict? then op.strict else old(shard.strictCapacityLimit)
    ensures shard.linked.s.capacity == if op.DoSetCapacity? then op.capacity else old(shard.linked.s.capacity)
  {
    match op {
      case DoSetCapacity(capacity) => shard.SetCapacity(capacity);
      case DoSetStrict(strict) => shard.SetStrictCapacityLimit(strict);
      case DoSetRatio(ratio) => if ratio >= 0.0 { shard.SetHighPriorityPoolRatio(ratio); }
    }
  }

  /** What users do; they release and reference only what they hold. */
  method Use(shard: LruShard, op: Op)
    requires shard.Valid() && !Sets(op)
    modifies shard.linked, shard.linked.Repr
    ensures shard.Valid() && fresh(shard.linked.Repr - old(shard.linked.Repr))
    ensures shard.linked.s.capacity == old(shard.linked.s.capacity)
    ensures shard.strictCapacityLimit && old(shard.linked.s.usage) <= shard.linked.s.capacity ==>
              shard.linked.s.usage <= shard.linked.s.capacity
  {
    match op {
      case DoLookup(key) => var _ := shard.Lookup(key);
      case DoInsert(key, charge, wantHandle, isHighPri) =>
        var _, _ := shard.Insert(key, charge, wantHandle, isHighPri);
      case DoRef(h) => if shard.linked.s.held[h] > 0 { shard.Ref(h); }
      case DoRelease(h, forceErase) =>
        if shard.linked.s.held[h] > 0 { var _ := shard.Release(Some(h), forceErase); }
      case DoErase(key) => shard.Erase(key);
      case DoEraseUnRefEntries => var _ := shard.EraseUnRefEntries();
    }
  }

  /** Any operations in any order. */
  method Run(shard: LruShard, ops: seq<Op>)
    requires shard.Valid()
    modifies shard, shard.linked, shard.linked.Repr
    ensures shard.Valid() && fresh(shard.linked.Repr - old(shard.linked.Repr))
    ensures (old(shard.strictCapacityLimit && shard.linked.s.usage <= shard.linked.s.capacity) &&
             KeepsLimit(ops, old(shard.linked.s.capacity))) ==>
              shard.linked.s.usage <= shard.linked.s.capacity
    decreases |ops|
  {
    if ops != [] {
      if Sets(ops[0]) {
        Set(shard, ops[0]);
      } else {
        Use(shard, ops[0]);
      }
      Run(shard, ops[1..]);
    }
  }
}
