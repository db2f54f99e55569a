/** The ring and the hash table of a shard together, and the shard's operations run on them. */
module LinkedShards {
  import opened Records
  import opened LruState
  import opened LruSteps
  import opened LruOps
  import opened LruLists
  import opened LruHandleTables

  /** The ring holds the listed entries in order. */
  ghost predicate Shows(ring: seq<LruNode>, nodes: seq<LruNode>, lru: seq<HandleId>) {
    |ring| == |lru| && forall j :: 0 <= j < |lru| ==> lru[j] < |nodes| && ring[j] == nodes[lru[j]]
  }

  lemma RingMembers(ring: seq<LruNode>, lru: LruNode)
    requires |ring| >= 2 && ring[0] == ring[|ring| - 1] == lru
    ensures forall n :: n in ring <==> n == lru || n in ring[1..|ring| - 1]
  {
    assert ring == [lru] + ring[1..|ring| - 1] + [lru];
  }

  /** The hash table holds what the map says, each key under its hash. */
  ghost predicate Indexes(contents: map<(string, nat), Entry>, hashOf: string -> nat, tab: map<Key, HandleId>) {
    && (forall p :: p in contents ==> p.1 == hashOf(p.0) && p.0 in tab && contents[p].id == tab[p.0])
    && (forall k :: k in tab ==> (k, hashOf(k)) in contents)
  }

  /** The list holds these entries, the first `low` of them in the low-priority pool. */
  ghost predicate RingHolds(list: LruList, nodes: seq<LruNode>, lru: seq<HandleId>, low: nat)
    reads list, list.ring
  {
    && list.Valid() && list.low == low && Shows(list.Entries(), nodes, lru)
    && forall h :: 0 <= h < |nodes| ==> nodes[h].id == h && nodes[h] != list.lru
  }

  ghost predicate TableHolds(table: LruHandleTable, hashOf: string -> nat, tab: map<Key, HandleId>)
    reads table, table.list, table.t.next.Keys
  {
    table.Valid() && Indexes(table.t.contents, hashOf, tab)
  }

  function LruWithout(lru: seq<HandleId>, h: HandleId): seq<HandleId> {
    if h in lru then Without(lru, IndexOf(lru, h)) else lru
  }

  function LowWithout(lru: seq<HandleId>, low: nat, h: HandleId): nat {
    if h in lru && IndexOf(lru, h) < low then low - 1 else low
  }

  lemma IndexesWithout(contents: map<(string, nat), Entry>, hashOf: string -> nat, tab: map<Key, HandleId>, key: Key)
    requires Indexes(contents, hashOf, tab)
    ensures Indexes(contents - {(key, hashOf(key))}, hashOf, tab - {key})
  {
  }

  lemma IndexesWith(contents: map<(string, nat), Entry>, hashOf: string -> nat, tab: map<Key, HandleId>, e: Entry)
    requires Indexes(contents, hashOf, tab) && e.hash == hashOf(e.key)
    ensures Indexes(contents[e.Id() := e], hashOf, tab[e.key := e.id])
  {
  }

  /** LRU_Remove of a listed entry. */
  method UnlinkNode(list: LruList, nodes: seq<LruNode>, h: HandleId, ghost lru: seq<HandleId>, ghost low: nat, ghost k: nat)
    requires RingHolds(list, nodes, lru, low) && k < |lru| && lru[k] == h
    modifies list, list.ring
    ensures RingHolds(list, nodes, Without(lru, k), if k < low then low - 1 else low)
    ensures forall n :: n in list.ring ==> n in old(list.ring)
  {
    RingMembers(list.ring, list.lru);
    list.Remove(nodes[h], k);
    RingMembers(list.ring, list.lru);
  }

  /** LRU_Insert, up to the maintenance of the pool size. */
  method LinkNode(list: LruList, nodes: seq<LruNode>, h: HandleId, high: bool, ghost lru: seq<HandleId>, ghost low: nat)
    requires RingHolds(list, nodes, lru, low) && h < |nodes| && h !in lru && low <= |lru|
    modifies list, list.ring, nodes[h]
    ensures high ==> RingHolds(list, nodes, lru + [h], low)
    ensures !high ==> RingHolds(list, nodes, lru[..low] + [h] + lru[low..], low + 1)
    ensures forall n :: n in list.ring ==> n in old(list.ring) || n == nodes[h]
  {
    OffRing(list, nodes, lru, low, h);
    RingMembers(list.ring, list.lru);
    if high {
      list.InsertHigh(nodes[h]);
    } else {
      list.InsertLow(nodes[h]);
    }
    RingMembers(list.ring, list.lru);
  }

  method ForgetKey(table: LruHandleTable, hashOf: string -> nat, key: Key, ghost tab: map<Key, HandleId>)
    returns (h: Option<HandleId>)
    requires TableHolds(table, hashOf, tab)
    modifies table, table.list, table.t.next.Keys
    ensures TableHolds(table, hashOf, tab - {key}) && table.list == old(table.list)
    ensures h == if key in tab then Some(tab[key]) else None
    ensures table.t.next.Keys <= old(table.t.next.Keys)
  {
    IndexesWithout(table.t.contents, hashOf, tab, key);
    var e := table.Remove(key, hashOf(key));
    h := if e == null then None else Some(e.id);
  }

  /** Enters a new entry under its key and returns the one that it displaces. */
  method EnterKey(table: LruHandleTable, hashOf: string -> nat, key: Key, id: HandleId, ghost tab: map<Key, HandleId>)
    returns (h: Option<HandleId>)
    requires TableHolds(table, hashOf, tab)
    modifies table, table.list, table.t.next.Keys
    ensures TableHolds(table, hashOf, tab[key := id])
    ensures h == if key in tab then Some(tab[key]) else None
    ensures table.list == old(table.list) || fresh(table.list)
    ensures fresh(table.t.next.Keys - old(table.t.next.Keys))
  {
    var entry := new Entry(id, key, hashOf(key));
    IndexesWith(table.t.contents, hashOf, tab, entry);
    var e := table.Insert(entry);
    h := if e == null then None else Some(e.id);
  }

  /** The entry of a key, if it has one, is on the list exactly if the cache alone holds it. */
  predicate KnownKey(s: State, key: Key) {
    key in s.table ==> s.table[key] < |s.handles| && (s.handles[s.table[key]].refs == 1 <==> s.table[key] in s.lru)
  }

  /** The entry of the key is off the list. */
  predicate LeavesList(s: State, s': State, key: Key) {
    if key in s.table then s'.lru == LruWithout(s.lru, s.table[key]) && s'.lowPri == LowWithout(s.lru, s.lowPri, s.table[key])
    else s'.lru == s.lru && s'.lowPri == s.lowPri
  }

  /** A shard's state, with the ring and the hash table that hold its list and its map. */
  class LinkedState {
    const list: LruList
    const table: LruHandleTable
    const hashOf: string -> nat
    var nodes: seq<LruNode>        // the entries, by number
    var s: State

    ghost var Repr: set<object>

    ghost predicate Owns()
      reads this, list, table
    {
      && this !in Repr && list in Repr && table in Repr && table.list in Repr && table.t.next.Keys <= Repr
      && (forall n :: n in list.ring ==> n in Repr) && (forall n :: n in nodes ==> n in Repr)
    }

    /** Ring and table hold this list and this map. */
    ghost predicate Holds(lru: seq<HandleId>, low: nat, tab: map<Key, HandleId>)
      reads this, list, table, Repr
    {
      Owns() && RingHolds(list, nodes, lru, low) && TableHolds(table, hashOf, tab)
    }

    ghost predicate Valid()
      reads this, list, table, Repr
    {
      |nodes| == |s.handles| && Holds(s.lru, s.lowPri, s.table)
    }

    constructor (list: LruList, table: LruHandleTable, hashOf: string -> nat, capacity: nat)
      requires RingHolds(list, [], [], 0) && TableHolds(table, hashOf, map[])
      requires list.ring == [list.lru, list.lru] && table.t.next.Keys == {}
      ensures Valid() && Repr == {list, list.lru, table, table.list}
      ensures s == State([], map[], [], 0, 0, 0, 0, capacity, multiset{})
    {
      this.list, this.table, this.hashOf, nodes := list, table, hashOf, [];
      s := State([], map[], [], 0, 0, 0, 0, capacity, multiset{});
      Repr := {list, list.lru, table, table.list};
    }

    // ---- One step on the ring or on the table

    /** The oldest listed entry, if there is one. */
    method Oldest(ghost lru: seq<HandleId>, ghost low: nat, ghost tab: map<Key, HandleId>) returns (h: Option<HandleId>)
      requires Holds(lru, low, tab)
      ensures h == if lru == [] then None else Some(lru[0])
    {
      assert list.lru.next == list.ring[1] && (lru != [] ==> list.Entries()[0] == list.ring[1]);
      h := if list.lru.next == list.lru then None else Some(list.lru.next.id);
    }

    /** LRU_Remove of a listed entry. */
    method Unlink(h: HandleId, ghost lru: seq<HandleId>, ghost low: nat, ghost tab: map<Key, HandleId>, ghost k: nat)
      requires Holds(lru, low, tab) && k < |lru| && lru[k] == h
      modifies Repr
      ensures Holds(Without(lru, k), if k < low then low - 1 else low, tab)
    {
      UnlinkNode(list, nodes, h, lru, low, k);
    }

    /** LRU_Insert, up to the maintenance of the pool size. */
    method Link(h: HandleId, high: bool, ghost lru: seq<HandleId>, ghost low: nat, ghost tab: map<Key, HandleId>)
      requires Holds(lru, low, tab) && h < |nodes| && h !in lru && low <= |lru|
      modifies Repr
      ensures high ==> Holds(lru + [h], low, tab)
      ensures !high ==> Holds(lru[..low] + [h] + lru[low..], low + 1, tab)
    {
      LinkNode(list, nodes, h, high, lru, low);
    }

    /** One turn of MaintainPoolSize: the marker moves on to the entry that changes pools. */
    method StepMarker(ghost lru: seq<HandleId>, ghost low: nat, ghost tab: map<Key, HandleId>) returns (h: HandleId)
      requires Holds(lru, low, tab) && low < |lru|
      modifies Repr
      ensures h == lru[low] && Holds(lru, low + 1, tab)
    {
      assert list.Entries()[low] == list.ring[low + 1];
      list.Overflow();
      h := list.lruLowPri.id;
    }

    method Find(key: Key, ghost lru: seq<HandleId>, ghost low: nat, ghost tab: map<Key, HandleId>) returns (h: Option<HandleId>)
      requires Holds(lru, low, tab)
      ensures h == if key in tab then Some(tab[key]) else None
    {
      var e := table.Lookup(key, hashOf(key));
      h := if e == null then None else Some(e.id);
    }

    method Forget(key: Key, ghost lru: seq<HandleId>, ghost low: nat, ghost tab: map<Key, HandleId>)
      returns (h: Option<HandleId>)
      requires Holds(lru, low, tab)
      modifies Repr
      ensures Holds(lru, low, tab - {key}) && h == if key in tab then Some(tab[key]) else None
    {
      h := ForgetKey(table, hashOf, key, tab);
    }

    /** Enters a new entry under its key and returns the one that it displaces. */
    method Enter(key: Key, id: HandleId, ghost lru: seq<HandleId>, ghost low: nat, ghost tab: map<Key, HandleId>)
      returns (h: Option<HandleId>)
      requires Holds(lru, low, tab)
      modifies `Repr, Repr
      ensures Holds(lru, low, tab[key := id]) && fresh(Repr - old(Repr))
      ensures h == if key in tab then Some(tab[key]) else None
    {
      h := EnterKey(table, hashOf, key, id, tab);
      ClaimTable(lru, low, tab[key := id]);
    }

    /** What the table has allocated is the shard's. */
    ghost method ClaimTable(lru: seq<HandleId>, low: nat, tab: map<Key, HandleId>)
      requires this !in Repr && list in Repr && table in Repr
      requires (forall n :: n in list.ring ==> n in Repr) && (forall n :: n in nodes ==> n in Repr)
      requires RingHolds(list, nodes, lru, low) && TableHolds(table, hashOf, tab)
      modifies `Repr
      ensures Holds(lru, low, tab) && Repr == old(Repr) + {table.list} + table.t.next.Keys
    {
      Repr := Repr + {table.list} + table.t.next.Keys;
    }

    /** A node for a new entry, off the ring. */
    method AddNode(ghost lru: seq<HandleId>, ghost low: nat, ghost tab: map<Key, HandleId>)
      requires Holds(lru, low, tab)
      modifies `nodes, `Repr
      ensures Holds(lru, low, tab) && |nodes| == |old(nodes)| + 1 && fresh(Repr - old(Repr))
    {
      var node := new LruNode(|nodes|);
      nodes := nodes + [node];
      Repr := Repr + {node};
    }

    /** The counters and the entries' own fields follow. */
    method Become(s': State)
      requires |nodes| == |s'.handles| && Holds(s'.lru, s'.lowPri, s'.table)
      modifies `s
      ensures Valid() && s == s'
    {
      s := s';
    }

    // ---- The steps of the shard

    /** The oldest entry leaves ring, table and cache. */
    method DropOldest() returns (h: HandleId)
      requires Valid() && s.lru != [] && s.lru[0] < |s.handles|
      modifies `s, Repr
      ensures Valid() && h == old(s.lru[0]) && s == DropListed(old(s), 0)
    {
      var oldest := Oldest(s.lru, s.lowPri, s.table);
      h := oldest.value;
      DropListedParts(s, 0);
      TakeOut(h, s.handles[h].key, DropListed(s, 0), 0);
    }

    method TakeOut(h: HandleId, key: Key, s': State, ghost k: nat)
      requires Valid() && k < |s.lru| && s.lru[k] == h && |s'.handles| == |s.handles| && s'.table == s.table - {key}
      requires s'.lru == Without(s.lru, k) && s'.lowPri == if k < s.lowPri then s.lowPri - 1 else s.lowPri
      modifies `s, Repr
      ensures Valid() && s == s'
    {
      Unlink(h, s.lru, s.lowPri, s.table, k);
      var r := Forget(key, s'.lru, s'.lowPri, s.table);
      Become(s');
    }

    /** An entry that the cache alone may hold leaves the ring if it does. */
    method UnlinkAlone(h: HandleId, ghost tab: map<Key, HandleId>)
      requires Holds(s.lru, s.lowPri, tab) && h < |s.handles| && (s.handles[h].refs == 1 <==> h in s.lru)
      modifies Repr
      ensures Holds(LruWithout(s.lru, h), LowWithout(s.lru, s.lowPri, h), tab)
    {
      if s.handles[h].refs == 1 {
        Unlink(h, s.lru, s.lowPri, tab, IndexOf(s.lru, h));
      }
    }

    /** The state after a lookup of entry h. */
    method PinEntry(h: HandleId, s': State)
      requires Valid() && h < |s.handles| && (s.handles[h].refs == 1 <==> h in s.lru) && |s'.handles| == |s.handles|
      requires s'.lru == LruWithout(s.lru, h) && s'.lowPri == LowWithout(s.lru, s.lowPri, h) && s'.table == s.table
      modifies `s, Repr
      ensures Valid() && s == s'
    {
      UnlinkAlone(h, s.table);
      Become(s');
    }

    /** The state after the entry of a key has left the cache. */
    method EraseEntry(key: Key, s': State)
      requires Valid() && KnownKey(s, key) && |s'.handles| == |s.handles| && s'.table == s.table - {key} && LeavesList(s, s', key)
      modifies `s, Repr
      ensures Valid() && s == s'
    {
      var r := Forget(key, s.lru, s.lowPri, s.table);
      if r.Some? {
        UnlinkAlone(r.value, s'.table);
      }
      Become(s');
    }

    /** The state after a new entry has taken the place of the one with its key. */
    method EnterEntry(key: Key, s': State)
      requires Valid() && KnownKey(s, key) && |s'.handles| == |s.handles| + 1
      requires s'.table == s.table[key := |s.handles|] && LeavesList(s, s', key)
      modifies `s, `nodes, `Repr, Repr
      ensures Valid() && s == s' && fresh(Repr - old(Repr))
    {
      AddNode(s.lru, s.lowPri, s.table);
      EnterAndUnlink(key, s');
    }

    method EnterAndUnlink(key: Key, s': State)
      requires Holds(s.lru, s.lowPri, s.table) && KnownKey(s, key) && |nodes| == |s'.handles|
      requires s'.table == s.table[key := |s.handles|] && LeavesList(s, s', key)
      modifies `s, `Repr, Repr
      ensures Valid() && s == s' && fresh(Repr - old(Repr))
    {
      var r := Enter(key, |s.handles|, s.lru, s.lowPri, s.table);
      if r.Some? {
        UnlinkAlone(r.value, s'.table);
      }
      Become(s');
    }

    /** The entry leaves the table; it is not on the list. */
    method DetachEntry(h: HandleId)
      requires Valid() && h < |s.handles|
      modifies `s, Repr
      ensures Valid() && s == Detach(old(s), h)
    {
      var s' := Detach(s, h);
      var r := Forget(s.handles[h].key, s.lru, s.lowPri, s.table);
      Become(s');
    }

    method EnlistEntry(h: HandleId, high: bool)
      requires Valid() && h < |s.handles| && h !in s.lru && s.lowPri <= |s.lru|
      modifies `s, Repr
      ensures Valid() && s == Enlist(old(s), h, high)
    {
      var s' := Enlist(s, h, high);
      Link(h, high, s.lru, s.lowPri, s.table);
      Become(s');
    }

    method OverflowOldest()
      requires Valid() && s.lowPri < |s.lru| && s.lru[s.lowPri] < |s.handles|
      modifies `s, Repr
      ensures Valid() && s == Overflow(old(s))
    {
      var s' := Overflow(s);
      var h := StepMarker(s.lru, s.lowPri, s.table);
      Become(s');
    }
  }

  /** An empty shard. */
  method NewShard(hashOf: string -> nat, capacity: nat) returns (linked: LinkedState)
    ensures linked.Valid() && fresh(linked) && fresh(linked.Repr)
    ensures linked.s == State([], map[], [], 0, 0, 0, 0, capacity, multiset{})
  {
    var table := new LruHandleTable();
    var list := new LruList();
    ghost var parts: set<object> := {list, list.lru, table, table.list};
    assert fresh(parts);
    linked := new LinkedState(list, table, hashOf, capacity);
  }

  /** The node of an entry that is not listed is not on the ring. */
  lemma OffRing(list: LruList, nodes: seq<LruNode>, lru: seq<HandleId>, low: nat, h: HandleId)
    requires RingHolds(list, nodes, lru, low) && h < |nodes| && h !in lru
    ensures nodes[h] !in list.ring
  {
    RingMembers(list.ring, list.lru);
    forall j | 0 <= j < |lru| ensures list.Entries()[j] != nodes[h] {
      assert lru[j] in lru;
    }
  }

  /** An entry that the table knows is in the cache, and on the list exactly if the cache alone holds it. */
  lemma KnownEntry(s: State, key: Key)
    requires Consistent(s) && key in s.table
    ensures var h := s.table[key];
            h < |s.handles| && s.handles[h].key == key && s.handles[h].inCache && (s.handles[h].refs == 1 <==> h in s.lru)
  {
    assert HandleOk(s, s.table[key]);
  }

  /** What ring and table know of a state without its oldest entry. */
  lemma DropListedParts(s: State, k: nat)
    requires k < |s.lru| && s.lru[k] < |s.handles|
    ensures var s' := DropListed(s, k);
            && |s'.handles| == |s.handles| && s'.lru == Without(s.lru, k)
            && s'.lowPri == (if k < s.lowPri then s.lowPri - 1 else s.lowPri)
            && s'.table == s.table - {s.handles[s.lru[k]].key}
  {
  }

  lemma PinParts(s: State, h: HandleId, hit: bool)
    requires Consistent(s) && h < |s.handles| && s.handles[h].inCache
    ensures var s' := Pin(s, h, hit);
            && |s'.handles| == |s.handles| && s'.table == s.table
            && s'.lru == LruWithout(s.lru, h) && s'.lowPri == LowWithout(s.lru, s.lowPri, h)
  {
    assert HandleOk(s, h);
  }

  lemma DisplaceParts(s: State, key: Key)
    requires Consistent(s)
    ensures KnownKey(s, key)
    ensures var s' := Displace(s, key); |s'.handles| == |s.handles| && s'.table == s.table - {key} && LeavesList(s, s', key)
  {
    if key in s.table {
      KnownEntry(s, key);
    }
  }

  lemma InsertParts(s: State, key: Key, charge: nat, isHighPri: bool, hold: bool)
    requires Consistent(s)
    ensures var s' := Add(Displace(s, key), key, charge, isHighPri, hold);
            |s'.handles| == |s.handles| + 1 && s'.table == s.table[key := |s.handles|] && LeavesList(s, s', key)
  {
    DisplaceParts(s, key);
    assert (s.table - {key})[key := |s.handles|] == s.table[key := |s.handles|];
  }
}
