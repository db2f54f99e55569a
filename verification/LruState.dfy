/** The state of an LRU cache shard as a value, and the invariant of its lists, counts and counters. */
module LruState {
  import opened Tally

  type Key = string   // key and hash together
  type HandleId = nat

  /** `frees` counts how often the entry has been freed. */
  datatype Handle = Handle(
    key: Key, charge: nat, refs: nat,
    inCache: bool, isHighPri: bool, inHighPriPool: bool, hasHit: bool,
    frees: nat)

  datatype State = State(
    handles: seq<Handle>,             // every entry ever allocated
    table: map<Key, HandleId>,
    lru: seq<HandleId>,               // oldest first
    lowPri: nat,                      // how many of them are in the low-priority pool
    usage: nat,
    lruUsage: nat,
    highPriPoolUsage: nat,
    capacity: nat,
    held: multiset<HandleId>)         // handles given out and not yet released

  function ChargeOf(handles: seq<Handle>, h: HandleId): nat {
    if h < |handles| then handles[h].charge else 0
  }

  /** The charges of the listed entries. */
  ghost function Charges(handles: seq<Handle>, ids: seq<HandleId>): nat {
    Sum(seq(|ids|, j requires 0 <= j < |ids| => ChargeOf(handles, ids[j])))
  }

  ghost function LiveCharges(handles: seq<Handle>): seq<nat> {
    seq(|handles|, h requires 0 <= h < |handles| => if handles[h].refs > 0 then handles[h].charge else 0)
  }

  predicate Linked(s: State, h: HandleId) {
    h < |s.handles| && s.handles[h].key in s.table && s.table[s.handles[h].key] == h
  }

  /**
   * References are table membership plus handles given out; the entries on the list are exactly
   * those in the cache that nobody else holds; and an entry is freed once, when nobody holds it.
   */
  predicate HandleOk(s: State, h: HandleId) {
    && h < |s.handles|
    && (var e := s.handles[h];
        && e.refs == (if e.inCache then 1 else 0) + s.held[h]
        && (e.inCache <==> Linked(s, h))
        && (h in s.lru <==> e.inCache && e.refs == 1)
        && e.frees == (if e.refs == 0 then 1 else 0))
  }

  predicate Distinct(ids: seq<HandleId>) {
    forall i, j :: 0 <= i < j < |ids| ==> ids[i] != ids[j]
  }

  /** The low-priority pool comes first on the list, the high-priority pool last. */
  predicate PoolsOk(handles: seq<Handle>, ids: seq<HandleId>, lowPri: nat) {
    lowPri <= |ids| &&
    forall j :: 0 <= j < |ids| ==> ids[j] < |handles| && (handles[ids[j]].inHighPriPool <==> lowPri <= j)
  }

  predicate ListOk(s: State) {
    Distinct(s.lru) && PoolsOk(s.handles, s.lru, s.lowPri)
  }

  ghost predicate CountersOk(s: State) {
    && s.lowPri <= |s.lru|
    && s.usage == Sum(LiveCharges(s.handles))
    && s.lruUsage == Charges(s.handles, s.lru)
    && s.highPriPoolUsage == Charges(s.handles, s.lru[s.lowPri..])
  }

  /** The invariant inside an operation. */
  ghost predicate Consistent(s: State) {
    && ListOk(s) && CountersOk(s)
    && (forall h :: 0 <= h < |s.handles| ==> HandleOk(s, h))
    && (forall k :: k in s.table ==> s.table[k] < |s.handles| && s.handles[s.table[k]].key == k)
    && (forall h :: s.held[h] > 0 ==> h < |s.handles|)
  }

  /** What every operation keeps: the above, and nothing to evict while the cache is over its capacity. */
  ghost predicate Valid(s: State) {
    Consistent(s) && (s.usage > s.capacity ==> s.lru == [])
  }
}
