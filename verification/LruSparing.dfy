/** Which entries of an LRU shard an operation takes away, and that it leaves all others as they were. */
module LruSparing {
  import opened LruState
  import opened LruSteps
  import opened LruOps
  import opened LinkedShards

  /** With `gone` off the list, `charge` more is within the capacity. */
  ghost predicate Fits(s: State, charge: nat, gone: seq<HandleId>) {
    s.usage - Charges(s.handles, gone) + charge <= s.capacity
  }

  /** None of the first `n` prefixes of the list is enough to make room. */
  ghost predicate NoneFits(s: State, charge: nat, n: nat)
    requires n <= |s.lru|
  {
    forall m :: 0 <= m < n ==> !Fits(s, charge, s.lru[..m])
  }

  ghost function VictimsFrom(s: State, charge: nat, n: nat): (r: seq<HandleId>)
    requires n <= |s.lru| && NoneFits(s, charge, n)
    ensures n <= |r| <= |s.lru| && r == s.lru[..|r|]
    ensures (Fits(s, charge, r) || r == s.lru) && NoneFits(s, charge, |r|)
    decreases |s.lru| - n
  {
    if n == |s.lru| || Fits(s, charge, s.lru[..n]) then s.lru[..n] else VictimsFrom(s, charge, n + 1)
  }

  /** The shortest stretch of oldest entries whose going makes room for `charge`, or all there are. */
  ghost function Victims(s: State, charge: nat): (r: seq<HandleId>)
    ensures |r| <= |s.lru| && r == s.lru[..|r|]
    ensures (Fits(s, charge, r) || r == s.lru) && NoneFits(s, charge, |r|)
  {
    VictimsFrom(s, charge, 0)
  }

  lemma VictimsAre(s: State, charge: nat, n: nat)
    requires n <= |s.lru| && NoneFits(s, charge, n) && (n == |s.lru| || Fits(s, charge, s.lru[..n]))
    ensures Victims(s, charge) == s.lru[..n]
  {
    var r := Victims(s, charge);
    assert r == s.lru[..|r|];
  }

  ghost function Members(ids: seq<HandleId>): set<HandleId> {
    set j | 0 <= j < |ids| :: ids[j]
  }

  /** The entries in `gone` are out of the table, and every other is as it was and found under its key. */
  ghost predicate OnlyGone(s0: State, s: State, gone: seq<HandleId>) {
    && |s.handles| == |s0.handles| && s.usage == s0.usage - Charges(s0.handles, gone)
    && (forall g :: 0 <= g < |s.handles| && g !in gone ==> s.handles[g] == s0.handles[g])
    && (forall k :: k in s.table <==> k in s0.table && s0.table[k] !in gone)
    && (forall k :: k in s.table ==> s.table[k] == s0.table[k])
  }

  lemma ChargesAppend(handles: seq<Handle>, ids: seq<HandleId>, h: HandleId)
    requires h < |handles|
    ensures Charges(handles, ids + [h]) == Charges(handles, ids) + handles[h].charge
  {
    ChargesWithout(handles, ids + [h], |ids|);
    assert Without(ids + [h], |ids|) == ids;
  }

  /** The oldest entry goes as well. */
  lemma OneMoreGone(s0: State, s: State, gone: seq<HandleId>)
    requires Consistent(s) && OnlyGone(s0, s, gone) && s.lru != [] && Distinct(gone + s.lru)
    ensures OnlyGone(s0, DropListed(s, 0), gone + [s.lru[0]])
  {
    var s', h := DropListed(s, 0), s.lru[0];
    assert h !in gone by {
      forall j | 0 <= j < |gone| ensures gone[j] != h {
        assert (gone + s.lru)[j] == gone[j] && (gone + s.lru)[|gone|] == h;
      }
    }
    assert HandleOk(s, h) by { assert h in s.lru; }
    DropListedKeeps(s, 0);
    ChargesAppend(s0.handles, gone, h);
    forall k ensures k in s'.table <==> k in s0.table && s0.table[k] !in gone + [h] {
      assert k in s.table && s.table[k] == h ==> k == s.handles[h].key;
    }
  }

  // ---- What is spared

  /**
   * Every entry outside `gone` is as it was, but perhaps for the pool it is listed in, and found under its key.
   * The table has no other of the old entries.
   */
  ghost predicate Spares(s0: State, s: State, gone: set<HandleId>) {
    && |s0.handles| <= |s.handles|
    && (forall g :: 0 <= g < |s0.handles| && g !in gone ==>
          s.handles[g] == s0.handles[g].(inHighPriPool := s.handles[g].inHighPriPool))
    && (forall k :: k in s0.table && s0.table[k] !in gone ==> k in s.table && s.table[k] == s0.table[k])
    && (forall k :: k in s.table && s.table[k] < |s0.handles| ==>
          k in s0.table && s.table[k] == s0.table[k] && s0.table[k] !in gone)
  }

  /** The entry that an insert under `key` displaces. */
  ghost function Holder(s: State, key: Key): set<HandleId> {
    if key in s.table then {s.table[key]} else {}
  }

  /** What an insert takes away: the victims, and the old holder of the key if the entry is admitted. */
  ghost function Removed(s: State, key: Key, charge: nat, admitted: bool): set<HandleId> {
    Members(Victims(s, charge)) + if admitted then Holder(s, key) else {}
  }

  /** At the new end of its pool on the list. */
  predicate AtNewEnd(s: State, h: HandleId, high: bool) {
    if high then s.lru != [] && s.lru[|s.lru| - 1] == h
    else 0 < s.lowPri <= |s.lru| && s.lru[s.lowPri - 1] == h
  }

  /** No entry but `h` has changed, except perhaps for the pool it is listed in. */
  predicate OthersSame(s0: State, s: State, h: HandleId) {
    && |s.handles| == |s0.handles|
    && forall g :: 0 <= g < |s.handles| && g != h ==>
         s.handles[g] == s0.handles[g].(inHighPriPool := s.handles[g].inHighPriPool)
  }

  lemma GoneSpares(s0: State, s: State, gone: seq<HandleId>)
    requires OnlyGone(s0, s, gone)
    ensures Spares(s0, s, Members(gone))
  {
    assert forall h :: h in gone <==> h in Members(gone);
  }

  lemma OnlyEvicted(s0: State, s: State, key: Key, charge: nat)
    requires OnlyGone(s0, s, Victims(s0, charge))
    ensures Spares(s0, s, Removed(s0, key, charge, false))
  {
    GoneSpares(s0, s, Victims(s0, charge));
    assert Removed(s0, key, charge, false) == Members(Victims(s0, charge));
  }

  lemma SparesTwice(s0: State, s1: State, s2: State, gone: set<HandleId>, more: set<HandleId>)
    requires Spares(s0, s1, gone) && Spares(s1, s2, more) && |s1.handles| == |s0.handles|
    ensures Spares(s0, s2, gone + more)
  {
  }

  lemma DisplaceSpares(s: State, key: Key)
    requires Consistent(s)
    ensures Spares(s, Displace(s, key), Holder(s, key)) && |Displace(s, key).handles| == |s.handles|
  {
    DisplaceKeeps(s, key);
    if key in s.table {
      assert HandleOk(s, s.table[key]);
    }
  }

  lemma AddSpares(s: State, key: Key, charge: nat, isHighPri: bool, hold: bool)
    requires key !in s.table && forall k :: k in s.table ==> s.table[k] < |s.handles|
    ensures Spares(s, Add(s, key, charge, isHighPri, hold), {})
  {
  }

  /** After a displacing insert: the old holder of the key is gone, and no other entry. */
  lemma InsertSpares(s: State, s': State, key: Key, charge: nat, isHighPri: bool, hold: bool)
    requires Consistent(s)
    requires s' == Add(Displace(s, key), key, charge, isHighPri, hold)
    ensures Spares(s, s', Holder(s, key))
  {
    DisplaceSpares(s, key);
    DisplaceKeeps(s, key);
    AddSpares(Displace(s, key), key, charge, isHighPri, hold);
    SparesTwice(s, Displace(s, key), s', Holder(s, key), {});
    assert Holder(s, key) + {} == Holder(s, key);
  }

  /** Evicting first adds the victims to what is gone. */
  lemma EvictThenInsert(s0: State, s1: State, s: State, key: Key, charge: nat)
    requires OnlyGone(s0, s1, Victims(s0, charge)) && Spares(s1, s, Holder(s1, key))
    ensures Spares(s0, s, Removed(s0, key, charge, true))
  {
    var gone := Victims(s0, charge);
    GoneSpares(s0, s1, gone);
    SparesTwice(s0, s1, s, Members(gone), Holder(s1, key));
    assert forall h :: h in gone <==> h in Members(gone);
    assert Members(gone) + Holder(s1, key) == Members(gone) + Holder(s0, key);
  }

  /** Moving entries between the pools, or listing a new one, spares them all. */
  lemma ListingSpares(s0: State, s: State, s': State, h: HandleId, high: bool, gone: set<HandleId>)
    requires Spares(s0, s, gone) && |s0.handles| <= h < |s.handles| && s.lowPri <= |s.lru|
    requires OnlyPoolsMoved(Enlist(s, h, high), s')
    ensures Spares(s0, s', gone)
  {
  }

  /** What maintaining the pools leaves alone: everything but which pool an entry is in. */
  predicate OnlyPoolsMoved(s0: State, s: State) {
    && s == s0.(handles := s.handles, lowPri := s.lowPri, highPriPoolUsage := s.highPriPoolUsage)
    && |s.handles| == |s0.handles|
    && forall h :: 0 <= h < |s.handles| ==> s.handles[h] == s0.handles[h].(inHighPriPool := s.handles[h].inHighPriPool)
  }

  /** No more entries than it took have left the high-priority pool: before each that did, it was too large. */
  ghost predicate NoMoreMoved(s0: State, s: State, capacity: real) {
    && s0.lowPri <= s.lowPri <= |s0.lru|
    && forall b :: s0.lowPri <= b < s.lowPri ==> Charges(s0.handles, s0.lru[b..]) as real > capacity
  }

  /** The oldest high-priority entry leaves a pool that is too large. */
  lemma OverflowMoves(s0: State, s: State, capacity: real)
    requires Consistent(s) && OnlyPoolsMoved(s0, s) && NoMoreMoved(s0, s, capacity)
    requires s.highPriPoolUsage as real > capacity >= 0.0
    ensures s.lowPri < |s.lru| && s.lru[s.lowPri] < |s.handles|
    ensures Consistent(Overflow(s)) && OnlyPoolsMoved(s0, Overflow(s)) && NoMoreMoved(s0, Overflow(s), capacity)
  {
    OverflowKeeps(s);
    ChargesSame(s0.handles, s.handles, s0.lru[s.lowPri..]);
  }

  // ---- One step each

  /** Just `deleted` has gone from the old end of the list. */
  ghost predicate Evicted(s0: State, s: State, deleted: seq<HandleId>) {
    Distinct(s0.lru) && EvictedFrom(s0, s, deleted) && OnlyGone(s0, s, deleted)
  }

  /** The oldest entry is in the cache and nobody holds it, so that it may go. */
  lemma OldestIsUnheld(s0: State, s: State, deleted: seq<HandleId>)
    requires Evicted(s0, s, deleted) && s.lru != []
    ensures s.lru[0] < |s.handles| && s.handles[s.lru[0]].inCache && s.handles[s.lru[0]].refs == 1
    ensures Evicted(s0, DropListed(s, 0), deleted + [s.lru[0]]) && |DropListed(s, 0).lru| < |s.lru|
  {
    ListedIsUnheld(s, 0);
    EvictOne(s0, s, deleted);
    OneMoreGone(s0, s, deleted);
  }

  lemma NothingEvicted(s: State)
    requires Consistent(s)
    ensures Evicted(s, s, [])
  {
    assert [] + s.lru == s.lru;
    assert Charges(s.handles, []) == 0;
  }

  /** Before the oldest entry goes, what has gone so far was not enough. */
  lemma NotYetEnough(s0: State, s: State, deleted: seq<HandleId>, charge: nat)
    requires Evicted(s0, s, deleted) && |deleted| <= |s0.lru| && NoneFits(s0, charge, |deleted|)
    requires s.usage + charge > s.capacity && s.lru != []
    ensures |deleted| < |s0.lru| && NoneFits(s0, charge, |deleted| + 1)
  {
    assert s0.lru[..|deleted|] == deleted;
  }

  /** When the loop stops, just the victims have gone. */
  lemma VictimsGone(s0: State, s: State, deleted: seq<HandleId>, charge: nat)
    requires Evicted(s0, s, deleted) && |deleted| <= |s0.lru| && NoneFits(s0, charge, |deleted|)
    requires s.usage + charge <= s.capacity || s.lru == []
    ensures deleted == Victims(s0, charge)
  {
    assert s0.lru[..|deleted|] == deleted;
    VictimsAre(s0, charge, |deleted|);
  }

  // ---- Inserting

  /** The table has the new entry under the key. */
  predicate Entered(s: State, key: Key, h: HandleId, charge: nat, isHighPri: bool) {
    && key in s.table && s.table[key] == h < |s.handles|
    && s.handles[h].key == key && s.handles[h].charge == charge
    && s.handles[h].isHighPri == isHighPri && !s.handles[h].hasHit
  }

  /** A new entry has come in for the old holder of its key, and nothing else has changed. */
  ghost predicate Joined(s: State, s': State, key: Key, charge: nat, isHighPri: bool, hold: bool) {
    && LruState.Valid(s') && s'.capacity == s.capacity && s'.usage <= s.usage + charge
    && |s'.handles| == |s.handles| + 1 && Entered(s', key, |s.handles|, charge, isHighPri)
    && s'.held == s.held + (if hold then multiset{|s.handles|} else multiset{})
    && Spares(s, s', Holder(s, key))
  }

  /** What an insert comes to: the victims go, and the new entry comes in if it is admitted. */
  ghost predicate Inserted(s: State, s': State, key: Key, charge: nat, isHighPri: bool, hold: bool, admitted: bool) {
    && LruState.Valid(s') && s'.capacity == s.capacity
    && |s'.handles| == |s.handles| + (if admitted then 1 else 0)
    && (admitted ==> Entered(s', key, |s.handles|, charge, isHighPri))
    && s'.held == s.held + (if admitted && hold then multiset{|s.handles|} else multiset{})
    && Spares(s, s', Removed(s, key, charge, admitted))
  }

  lemma AdmittedInserted(s0: State, s1: State, s: State, key: Key, charge: nat, isHighPri: bool, hold: bool)
    requires Evicted(s0, s1, Victims(s0, charge)) && Joined(s1, s, key, charge, isHighPri, hold)
    ensures Inserted(s0, s, key, charge, isHighPri, hold, true)
  {
    EvictThenInsert(s0, s1, s, key, charge);
  }

  lemma RefusedInserted(s0: State, s: State, key: Key, charge: nat, isHighPri: bool, hold: bool)
    requires Evicted(s0, s, Victims(s0, charge)) && LruState.Valid(s0)
    ensures Inserted(s0, s, key, charge, isHighPri, hold, false)
  {
    OnlyEvicted(s0, s, key, charge);
  }
}
