/** LRU shard operations on the state as a value, and the invariant they keep. */
module LruOps {
  import opened Tally
  import opened LruState
  import opened LruSteps

  function Minus(a: nat, b: nat): nat {
    if b <= a then a - b else 0
  }

  function IndexOf(ids: seq<HandleId>, h: HandleId): (k: nat)
    requires h in ids
    ensures k < |ids| && ids[k] == h
  {
    if ids[0] == h then 0 else 1 + IndexOf(ids[1..], h)
  }

  /** The usage counts entries that anybody references. */
  lemma UsageAt(s: State, s': State, h: HandleId)
    requires s.usage == Sum(LiveCharges(s.handles)) && h < |s.handles| == |s'.handles|
    requires forall g :: 0 <= g < |s.handles| && g != h ==> s'.handles[g] == s.handles[g]
    ensures LiveCharges(s.handles)[h] <= s.usage
    ensures Sum(LiveCharges(s'.handles)) == s.usage - LiveCharges(s.handles)[h] + LiveCharges(s'.handles)[h]
  {
    SumUpdate(LiveCharges(s.handles), h, LiveCharges(s'.handles)[h]);
    assert LiveCharges(s'.handles) == LiveCharges(s.handles)[h := LiveCharges(s'.handles)[h]];
  }

  /** Entries off the list may change anything but their charge without touching its counters. */
  lemma ListCountersKept(s: State, s': State, h: HandleId)
    requires CountersOk(s) && ListOk(s) && h < |s.handles| == |s'.handles|
    requires s'.lru == s.lru && s'.lowPri == s.lowPri
    requires s'.lruUsage == s.lruUsage && s'.highPriPoolUsage == s.highPriPoolUsage
    requires s'.handles == s.handles[h := s'.handles[h]]
    requires s'.handles[h].charge == s.handles[h].charge
    requires h in s.lru ==> s'.handles[h].inHighPriPool == s.handles[h].inHighPriPool
    requires s'.usage == Sum(LiveCharges(s'.handles))
    ensures CountersOk(s') && ListOk(s')
  {
    ChargesSame(s.handles, s'.handles, s.lru);
    ChargesSame(s.handles, s'.handles, s.lru[s.lowPri..]);
    forall j | 0 <= j < |s.lru| ensures s'.handles[s.lru[j]].inHighPriPool == s.handles[s.lru[j]].inHighPriPool {
      assert s.lru[j] in s.lru;
    }
  }

  /** An entry nobody holds leaves list, table and cache, and is freed. */
  function DropListed(s: State, k: nat): State
    requires k < |s.lru| && s.lru[k] < |s.handles|
  {
    var h := s.lru[k];
    var e := s.handles[h];
    Unlist(s, k).(handles := s.handles[h := e.(inCache := false, refs := 0, frees := e.frees + 1)],
                  table := s.table - {e.key},
                  usage := Minus(s.usage, e.charge))
  }

  lemma DropListedKeeps(s: State, k: nat)
    requires Consistent(s) && k < |s.lru|
    ensures Consistent(DropListed(s, k))
    ensures DropListed(s, k).usage == s.usage - s.handles[s.lru[k]].charge
    ensures DropListed(s, k).usage - DropListed(s, k).lruUsage == s.usage - s.lruUsage
  {
    var s', s1, h := DropListed(s, k), Unlist(s, k), s.lru[k];
    assert HandleOk(s, h) by { assert h in s.lru; }
    UnlistList(s, k);
    UnlistCounters(s, k);
    UsageAt(s1, s', h);
    ListCountersKept(s1, s', h);
    forall g | 0 <= g < |s'.handles| ensures HandleOk(s', g) {
      assert HandleOk(s, g);
    }
  }

  /** Lookup and Ref: one more handle is out, and an entry that was on the list leaves it. */
  function Pin(s: State, h: HandleId, hit: bool): State
    requires h < |s.handles| && (h in s.lru ==> forall j :: 0 <= j < |s.lru| ==> s.lru[j] < |s.handles|)
  {
    var e := s.handles[h];
    var off := if e.inCache && e.refs == 1 && h in s.lru then Unlist(s, IndexOf(s.lru, h)) else s;
    off.(handles := s.handles[h := e.(refs := e.refs + 1, hasHit := e.hasHit || hit)], held := s.held + multiset{h})
  }

  lemma PinKeeps(s: State, h: HandleId, hit: bool)
    requires Consistent(s) && h < |s.handles| && s.handles[h].refs > 0
    ensures Consistent(Pin(s, h, hit)) && Pin(s, h, hit).usage == s.usage
    ensures |Pin(s, h, hit).lru| <= |s.lru|
  {
    var s', s1 := Pin(s, h, hit), s;
    assert HandleOk(s, h);
    if s.handles[h].inCache && s.handles[h].refs == 1 {
      var k := IndexOf(s.lru, h);
      s1 := Unlist(s, k);
      UnlistList(s, k);
      UnlistCounters(s, k);
    }
    UsageAt(s1, s', h);
    ListCountersKept(s1, s', h);
    forall g | 0 <= g < |s'.handles| ensures HandleOk(s', g) {
      assert HandleOk(s, g);
    }
  }

  /** A handle comes back; the entry is left to somebody else, or is freed, or is nobody's now. */
  function Unpin(s: State, h: HandleId): State
    requires h < |s.handles|
  {
    var e := s.handles[h];
    var dead := e.refs == 1;
    s.(handles := s.handles[h := e.(refs := Minus(e.refs, 1), frees := if dead then e.frees + 1 else e.frees)],
       held := s.held - multiset{h},
       usage := if dead then Minus(s.usage, e.charge) else s.usage)
  }

  /** The entry is taken out of the cache, by Erase or because another takes its key. */
  function Detach(s: State, h: HandleId): State
    requires h < |s.handles|
  {
    var e := s.handles[h];
    var dead := e.refs == 1;
    s.(handles := s.handles[h := e.(inCache := false, refs := Minus(e.refs, 1), frees := if dead then e.frees + 1 else e.frees)],
       table := s.table - {e.key},
       usage := if dead then Minus(s.usage, e.charge) else s.usage)
  }

  lemma DetachKeeps(s: State, h: HandleId)
    requires Consistent(s) && h < |s.handles| && s.handles[h].inCache && s.held[h] > 0
    ensures Consistent(Detach(s, h)) && Detach(s, h).usage == s.usage
  {
    var s' := Detach(s, h);
    assert HandleOk(s, h);
    UsageAt(s, s', h);
    ListCountersKept(s, s', h);
    forall g | 0 <= g < |s'.handles| ensures HandleOk(s', g) {
      assert HandleOk(s, g);
    }
  }

  /** After a release that leaves the entry to others. */
  lemma UnpinSharedKeeps(s: State, h: HandleId)
    requires Consistent(s) && h < |s.handles| && s.held[h] > 0
    requires s.handles[h].inCache ==> s.held[h] > 1
    ensures Consistent(Unpin(s, h)) && Unpin(s, h).usage <= s.usage
  {
    var s' := Unpin(s, h);
    assert HandleOk(s, h);
    UsageAt(s, s', h);
    ListCountersKept(s, s', h);
    forall g | 0 <= g < |s'.handles| ensures HandleOk(s', g) {
      assert HandleOk(s, g);
    }
  }

  /** After the last release of an entry that leaves the cache as well. */
  lemma UnpinEraseKeeps(s: State, h: HandleId)
    requires Consistent(s) && h < |s.handles| && s.held[h] == 1 && s.handles[h].inCache
    ensures Unpin(s, h).handles[h].refs == 1
    ensures Consistent(Detach(Unpin(s, h), h)) && Detach(Unpin(s, h), h).usage <= s.usage
  {
    var s' := Detach(Unpin(s, h), h);
    assert HandleOk(s, h);
    UsageAt(s, s', h);
    ListCountersKept(s, s', h);
    forall g | 0 <= g < |s'.handles| ensures HandleOk(s', g) {
      assert HandleOk(s, g);
    }
  }

  /** After the last release of an entry that stays in the cache and goes on the list. */
  lemma UnpinListKeeps(s: State, h: HandleId, high: bool)
    requires Consistent(s) && h < |s.handles| && s.held[h] == 1 && s.handles[h].inCache
    ensures Consistent(Enlist(Unpin(s, h), h, high)) && Enlist(Unpin(s, h), h, high).usage == s.usage
  {
    var s' := Enlist(Unpin(s, h), h, high);
    assert HandleOk(s, h);
    UnpinListCounters(s, h, high);
    forall g | 0 <= g < |s'.handles| ensures HandleOk(s', g) {
      UnpinnedHandle(s, h, high, g);
    }
  }

  lemma UnpinListCounters(s: State, h: HandleId, high: bool)
    requires Consistent(s) && h < |s.handles| && s.held[h] == 1 && s.handles[h].inCache
    ensures ListOk(Enlist(Unpin(s, h), h, high)) && CountersOk(Enlist(Unpin(s, h), h, high))
  {
    var s1 := Unpin(s, h);
    assert HandleOk(s, h);
    UsageAt(s, s1, h);
    ListCountersKept(s, s1, h);
    EnlistList(s1, h, high);
    EnlistCounters(s1, h, high);
  }

  lemma UnpinnedHandle(s: State, h: HandleId, high: bool, g: HandleId)
    requires Consistent(s) && h < |s.handles| && s.held[h] == 1 && s.handles[h].inCache && g < |s.handles|
    ensures HandleOk(Enlist(Unpin(s, h), h, high), g)
  {
    assert HandleOk(s, h) && HandleOk(s, g);
    assert ListOk(Unpin(s, h));
    EnlistList(Unpin(s, h), h, high);
  }

  lemma OverflowKeeps(s: State)
    requires Consistent(s) && s.highPriPoolUsage > 0
    ensures s.lowPri < |s.lru| && Consistent(Overflow(s)) && Overflow(s).usage == s.usage
  {
    PoolNotEmpty(s);
    OverflowList(s);
    OverflowCounters(s);
    var s' := Overflow(s);
    forall g | 0 <= g < |s'.handles| ensures HandleOk(s', g) {
      assert HandleOk(s, g);
    }
  }

  /** A new entry in table and cache, with or without a handle given out. */
  function Add(s: State, key: Key, charge: nat, isHighPri: bool, hold: bool): State {
    var e := Handle(key, charge, if hold then 2 else 1, true, isHighPri, false, false, 0);
    s.(handles := s.handles + [e],
       table := s.table[key := |s.handles|],
       usage := s.usage + charge,
       held := if hold then s.held + multiset{|s.handles|} else s.held)
  }

  lemma AddCounters(s: State, key: Key, charge: nat, isHighPri: bool, hold: bool)
    requires ListOk(s) && CountersOk(s)
    ensures ListOk(Add(s, key, charge, isHighPri, hold)) && CountersOk(Add(s, key, charge, isHighPri, hold))
  {
    var s' := Add(s, key, charge, isHighPri, hold);
    SumAppend(LiveCharges(s.handles), charge);
    assert LiveCharges(s'.handles) == LiveCharges(s.handles) + [charge];
    ChargesSame(s.handles, s'.handles, s.lru);
    ChargesSame(s.handles, s'.handles, s.lru[s.lowPri..]);
  }

  /** The new entry's handle is given out. */
  lemma AddHeldKeeps(s: State, key: Key, charge: nat, isHighPri: bool)
    requires Consistent(s) && key !in s.table
    ensures Consistent(Add(s, key, charge, isHighPri, true))
  {
    var s' := Add(s, key, charge, isHighPri, true);
    AddCounters(s, key, charge, isHighPri, true);
    forall g | 0 <= g < |s'.handles| ensures HandleOk(s', g) {
      assert g < |s.handles| ==> HandleOk(s, g);
    }
  }

  /** The new entry goes on the list. */
  lemma AddListedKeeps(s: State, key: Key, charge: nat, isHighPri: bool, high: bool)
    requires Consistent(s) && key !in s.table
    ensures Consistent(Enlist(Add(s, key, charge, isHighPri, false), |s.handles|, high))
  {
    var s1, h := Add(s, key, charge, isHighPri, false), |s.handles|;
    var s' := Enlist(s1, h, high);
    assert h !in s.lru;
    AddCounters(s, key, charge, isHighPri, false);
    EnlistList(s1, h, high);
    EnlistCounters(s1, h, high);
    forall g | 0 <= g < |s'.handles| ensures HandleOk(s', g) {
      AddedHandle(s, key, charge, isHighPri, high, g);
    }
  }

  lemma AddedHandle(s: State, key: Key, charge: nat, isHighPri: bool, high: bool, g: HandleId)
    requires Consistent(s) && key !in s.table && g <= |s.handles|
    ensures HandleOk(Enlist(Add(s, key, charge, isHighPri, false), |s.handles|, high), g)
  {
    var s1, h := Add(s, key, charge, isHighPri, false), |s.handles|;
    assert h !in s.lru;
    AddCounters(s, key, charge, isHighPri, false);
    EnlistList(s1, h, high);
    if g < h {
      assert HandleOk(s, g);
    }
  }

  /** Erase, and the displacing of an old entry by Insert. */
  function Displace(s: State, key: Key): State
    requires key in s.table ==> s.table[key] < |s.handles|
    requires forall j :: 0 <= j < |s.lru| ==> s.lru[j] < |s.handles|
  {
    if key !in s.table then s
    else if s.table[key] in s.lru then DropListed(s, IndexOf(s.lru, s.table[key]))
    else Detach(s, s.table[key])
  }

  lemma DisplaceKeeps(s: State, key: Key)
    requires Consistent(s)
    ensures Consistent(Displace(s, key)) && key !in Displace(s, key).table
    ensures Displace(s, key).usage <= s.usage && |Displace(s, key).lru| <= |s.lru|
    ensures |Displace(s, key).handles| == |s.handles| && Displace(s, key).held == s.held
    ensures Displace(s, key).table == s.table - {key}
  {
    if key in s.table {
      var h := s.table[key];
      assert HandleOk(s, h);
      if h in s.lru {
        DropListedKeeps(s, IndexOf(s.lru, h));
      } else {
        DetachKeeps(s, h);
      }
    }
  }

  /** What each entry adds when only the listed ones count. */
  ghost function ListedCharges(handles: seq<Handle>, ids: seq<HandleId>): seq<nat> {
    seq(|handles|, h requires 0 <= h < |handles| => if h in ids then handles[h].charge else 0)
  }

  /** What each entry adds when only those given out count. */
  ghost function HeldCharges(s: State): seq<nat> {
    seq(|s.handles|, h requires 0 <= h < |s.handles| => if s.held[h] > 0 then s.handles[h].charge else 0)
  }

  lemma {:induction false} ChargesByEntry(handles: seq<Handle>, ids: seq<HandleId>)
    requires Distinct(ids) && forall j :: 0 <= j < |ids| ==> ids[j] < |handles|
    ensures Charges(handles, ids) == Sum(ListedCharges(handles, ids))
    decreases |ids|
  {
    if ids == [] {
      SumZeroes(ListedCharges(handles, ids));
    } else {
      var n := |ids| - 1;
      var rest, h := ids[..n], ids[n];
      ChargesByEntry(handles, rest);
      assert ids == rest + [h];
      assert h !in rest;
      SumUpdate(ListedCharges(handles, rest), h, handles[h].charge);
      assert ListedCharges(handles, ids) == ListedCharges(handles, rest)[h := handles[h].charge];
      ChargesWithout(handles, ids, n);
      assert Without(ids, n) == rest;
    }
  }

  lemma {:induction false} SumOfSums(xs: seq<nat>, ys: seq<nat>, zs: seq<nat>)
    requires |xs| == |ys| == |zs| && forall i :: 0 <= i < |xs| ==> xs[i] == ys[i] + zs[i]
    ensures Sum(xs) == Sum(ys) + Sum(zs)
  {
    if xs != [] {
      SumOfSums(xs[..|xs| - 1], ys[..|ys| - 1], zs[..|zs| - 1]);
    }
  }

  /** What is in use is either on the list or given out. */
  lemma UsageSplits(s: State)
    requires Consistent(s)
    ensures s.usage == s.lruUsage + Sum(HeldCharges(s))
  {
    ChargesByEntry(s.handles, s.lru);
    forall h | 0 <= h < |s.handles|
      ensures LiveCharges(s.handles)[h] == ListedCharges(s.handles, s.lru)[h] + HeldCharges(s)[h]
    {
      assert HandleOk(s, h);
    }
    SumOfSums(LiveCharges(s.handles), ListedCharges(s.handles, s.lru), HeldCharges(s));
  }

  lemma CapacityIsFree(s: State, capacity: nat)
    requires Consistent(s)
    ensures Consistent(s.(capacity := capacity))
  {
    var s' := s.(capacity := capacity);
    forall h | 0 <= h < |s'.handles| ensures HandleOk(s', h) {
      assert HandleOk(s, h);
    }
  }

  /** Out of the cache, and freed once. */
  predicate Freed(handles: seq<Handle>, ids: seq<HandleId>) {
    forall j :: 0 <= j < |ids| ==>
      ids[j] < |handles| && handles[ids[j]].frees == 1 && !handles[ids[j]].inCache
  }

  lemma FreedAppend(handles: seq<Handle>, handles': seq<Handle>, ids: seq<HandleId>, h: HandleId, rest: seq<HandleId>)
    requires Freed(handles, ids) && Distinct(ids + [h] + rest)
    requires |handles| == |handles'| && Freed(handles', [h])
    requires forall g :: 0 <= g < |handles| && g != h ==> handles'[g] == handles[g]
    ensures Freed(handles', ids + [h])
  {
    var all := ids + [h] + rest;
    assert Freed(handles', [h]) ==> [h][0] < |handles'| && handles'[h].frees == 1;
    forall j | 0 <= j < |ids| ensures ids[j] != h {
      assert all[j] == ids[j] && all[|ids|] == h;
    }
  }

  /** `deleted` has been evicted from the old end of the list of `s0`, and nothing else has changed hands. */
  ghost predicate EvictedFrom(s0: State, s: State, deleted: seq<HandleId>) {
    && Consistent(s) && deleted + s.lru == s0.lru && Freed(s.handles, deleted)
    && s.usage <= s0.usage && s.usage - s.lruUsage == s0.usage - s0.lruUsage
    && s.capacity == s0.capacity && s.held == s0.held && |s.handles| == |s0.handles|
  }

  /** What is on the list is in the cache, and nobody else holds it. */
  lemma ListedIsUnheld(s: State, k: nat)
    requires Consistent(s) && k < |s.lru|
    ensures s.lru[k] < |s.handles| && s.handles[s.lru[k]].inCache && s.handles[s.lru[k]].refs == 1
  {
    assert HandleOk(s, s.lru[k]) by { assert s.lru[k] in s.lru; }
  }

  lemma ShiftOne(deleted: seq<HandleId>, ids: seq<HandleId>)
    requires ids != []
    ensures (deleted + [ids[0]]) + Without(ids, 0) == deleted + ids
  {
  }

  lemma EvictOneFrees(s: State, deleted: seq<HandleId>)
    requires Consistent(s) && s.lru != [] && Freed(s.handles, deleted) && Distinct(deleted + s.lru)
    ensures Freed(DropListed(s, 0).handles, deleted + [s.lru[0]])
  {
    var s', h := DropListed(s, 0), s.lru[0];
    assert HandleOk(s, h) by { assert h in s.lru; }
    ShiftOne(deleted, s.lru);
    FreedAppend(s.handles, s'.handles, deleted, h, s'.lru);
  }

  lemma EvictOne(s0: State, s: State, deleted: seq<HandleId>)
    requires Distinct(s0.lru) && EvictedFrom(s0, s, deleted) && s.lru != []
    ensures EvictedFrom(s0, DropListed(s, 0), deleted + [s.lru[0]])
  {
    EvictOneFrees(s, deleted);
    DropListedKeeps(s, 0);
    ShiftOne(deleted, s.lru);
  }
}
