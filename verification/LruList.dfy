/** The LRU list as the cache keeps it: a ring of linked entries with a marker between its two pools. */
module LruLists {

  class LruNode {
    const id: nat               // the number of the entry
    var next: LruNode?
    var prev: LruNode?

    constructor (id: nat)
      ensures this.id == id && next == null && prev == null
    {
      this.id := id;
      next, prev := null, null;
    }
  }

  /** Taking out all but the ends of a sequence commutes with leaving one out. */
  lemma Inner(was: seq<LruNode>, now: seq<LruNode>, k: nat)
    requires k + 2 < |was| && now == was[..k + 1] + was[k + 2..]
    ensures now[1..|now| - 1] == was[1..|was| - 1][..k] + was[1..|was| - 1][k + 1..]
  {
    var m, n := |was|, |now|;
    var l, r := now[1..n - 1], was[1..m - 1][..k] + was[1..m - 1][k + 1..];
    assert forall i :: 0 <= i < n - 2 ==> l[i] == r[i];
  }

  lemma InnerWith(was: seq<LruNode>, now: seq<LruNode>, k: nat, e: LruNode)
    requires k + 1 < |was| && now == was[..k + 1] + [e] + was[k + 1..]
    ensures now[1..|now| - 1] == was[1..|was| - 1][..k] + [e] + was[1..|was| - 1][k..]
  {
    var m, n := |was|, |now|;
    var l, r := now[1..n - 1], was[1..m - 1][..k] + [e] + was[1..m - 1][k..];
    assert forall i :: 0 <= i < n - 2 ==> l[i] == r[i];
  }

  class LruList {
    const lru: LruNode          // dummy head: next is the oldest entry, prev the newest
    var lruLowPri: LruNode      // newest entry of the low-priority pool, or the dummy

    ghost var ring: seq<LruNode>   // once round: the dummy, the entries from oldest to newest, the dummy
    ghost var low: nat             // how many entries are in the low-priority pool

    ghost function Entries(): seq<LruNode>
      requires |ring| >= 2
      reads this
    {
      ring[1..|ring| - 1]
    }

    /** The pointers go once round the ring, both ways, and meet the dummy only at the end. */
    ghost predicate Linked()
      reads this, ring
    {
      && |ring| >= 2 && ring[0] == lru && ring[|ring| - 1] == lru
      && (forall i :: 0 < i < |ring| - 1 ==> ring[i] != lru)
      && (forall i {:trigger ring[i].next} :: 0 <= i < |ring| - 1 ==> ring[i].next == ring[i + 1])
      && (forall i {:trigger ring[i].prev} :: 0 < i < |ring| ==> ring[i].prev == ring[i - 1])
    }

    /** So no node is met twice. */
    lemma {:induction false} MetOnce(i: nat, j: nat)
      requires Linked() && i < j < |ring| - 1
      ensures ring[i] != ring[j]
    {
      if i > 0 && ring[i] == ring[j] {
        assert ring[i].prev == ring[i - 1] && ring[j].prev == ring[j - 1];
        MetOnce(i - 1, j - 1);
      }
    }

    lemma OnlyAt(k: nat)
      requires Linked() && k < |ring| - 1
      ensures forall i :: 0 <= i < |ring| - 1 && i != k ==> ring[i] != ring[k]
    {
      forall i | 0 <= i < |ring| - 1 && i != k ensures ring[i] != ring[k] {
        MetOnce(if i < k then i else k, if i < k then k else i);
      }
    }

    ghost predicate Valid()
      reads this, ring
    {
      && Linked()
      && low < |ring| - 1 && lruLowPri == ring[low]
    }

    constructor ()
      ensures Valid() && fresh(lru) && ring == [lru, lru] && Entries() == [] && low == 0
    {
      var dummy := new LruNode(0);
      lru := dummy;
      lruLowPri := dummy;
      ring, low := [dummy, dummy], 0;
      new;
      lru.next, lru.prev := lru, lru;
    }

    /** Takes the node at position k out of the ring. */
    method Unlink(e: LruNode, ghost k: nat)
      requires Linked() && 0 < k < |ring| - 1 && ring[k] == e
      modifies `ring, ring
      ensures Linked() && e.next == null && e.prev == null
      ensures ring == old(ring)[..k] + old(ring)[k + 1..]
    {
      ghost var was := ring;
      OnlyAt(k);
      OnlyAt(k - 1);
      if k + 1 < |ring| - 1 {
        OnlyAt(k + 1);
      }
      assert e.next == was[k + 1] && e.prev == was[k - 1];
      e.next.prev := e.prev;
      e.prev.next := e.next;
      e.prev, e.next := null, null;
      ring := was[..k] + was[k + 1..];
    }

    /** LRU_Remove: takes the entry number k out; the marker steps back if it was on it. */
    method Remove(e: LruNode, ghost k: nat)
      requires Valid() && k < |Entries()| && Entries()[k] == e
      modifies this, ring
      ensures Valid() && e.next == null && e.prev == null
      ensures Entries() == old(Entries())[..k] + old(Entries())[k + 1..]
      ensures low == if k < old(low) then old(low) - 1 else old(low)
    {
      StepBack(e, k);
      Unlink(e, k + 1);
      Inner(old(ring), ring, k);
    }

    /** The marker leaves an entry that is about to go. */
    method StepBack(e: LruNode, ghost k: nat)
      requires Valid() && k < |Entries()| && Entries()[k] == e
      modifies `lruLowPri, `low
      ensures Linked() && low == (if k < old(low) then old(low) - 1 else old(low)) <= |ring| - 3
      ensures lruLowPri == ring[if low <= k then low else low + 1]
    {
      OnlyAt(k + 1);
      assert e.prev == ring[k];
      if lruLowPri == e {
        lruLowPri := e.prev;
      }
      low := if k < low then low - 1 else low;
    }

    /** Links e between pred, which is at position k - 1, and the node after it. */
    method Link(e: LruNode, pred: LruNode, ghost k: nat)
      requires Linked() && 0 < k < |ring| && ring[k - 1] == pred && e !in ring
      modifies `ring, ring, e
      ensures Linked() && ring == old(ring)[..k] + [e] + old(ring)[k..]
    {
      ghost var was := ring;
      OnlyAt(k - 1);
      if k < |ring| - 1 {
        OnlyAt(k);
      }
      assert pred.next == was[k];
      e.next := pred.next;
      e.prev := pred;
      e.prev.next := e;
      e.next.prev := e;
      ring := was[..k] + [e] + was[k..];
    }

    /** LRU_Insert into the high-priority pool: the entry becomes the newest of all. */
    method InsertHigh(e: LruNode)
      requires Valid() && e !in ring
      modifies `ring, ring, e
      ensures Valid() && Entries() == old(Entries()) + [e]
    {
      assert lru.prev == ring[|ring| - 2];
      Link(e, lru.prev, |ring| - 1);
    }

    /** LRU_Insert into the low-priority pool: the entry becomes the newest of that pool. */
    method InsertLow(e: LruNode)
      requires Valid() && e !in ring
      modifies this, ring, e
      ensures Valid() && low == old(low) + 1
      ensures Entries() == old(Entries())[..old(low)] + [e] + old(Entries())[old(low)..]
    {
      Link(e, lruLowPri, low + 1);
      InnerWith(old(ring), ring, low, e);
      lruLowPri := e;
      low := low + 1;
    }

    /** One turn of MaintainPoolSize: the oldest high-priority entry overflows to the low-priority pool. */
    method Overflow()
      requires Valid() && low < |Entries()|
      modifies `low, `lruLowPri
      ensures Valid() && low == old(low) + 1
    {
      assert lruLowPri.next == ring[low + 1];
      lruLowPri := lruLowPri.next;
      low := low + 1;
    }
  }
}
