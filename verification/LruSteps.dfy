/** The pieces LRU operations are made of, and what each does to lists and counters. */
module LruSteps {
  import opened Tally
  import opened LruState

  function Without<T>(xs: seq<T>, k: nat): (r: seq<T>)
    requires k < |xs|
    ensures |r| == |xs| - 1
  {
    xs[..k] + xs[k + 1..]
  }

  lemma {:induction false} SumWithout(xs: seq<nat>, k: nat)
    requires k < |xs|
    ensures Sum(Without(xs, k)) == Sum(xs) - xs[k] && xs[k] <= Sum(xs)
  {
    var n := |xs| - 1;
    if k == n {
      assert Without(xs, k) == xs[..n];
    } else {
      SumWithout(xs[..n], k);
      assert Without(xs, k) == Without(xs[..n], k) + [xs[n]];
      SumAppend(Without(xs[..n], k), xs[n]);
    }
  }

  lemma ChargesWithout(handles: seq<Handle>, ids: seq<HandleId>, k: nat)
    requires k < |ids|
    ensures Charges(handles, Without(ids, k)) == Charges(handles, ids) - ChargeOf(handles, ids[k])
    ensures ChargeOf(handles, ids[k]) <= Charges(handles, ids)
  {
    var xs := seq(|ids|, j requires 0 <= j < |ids| => ChargeOf(handles, ids[j]));
    var less := Without(ids, k);
    SumWithout(xs, k);
    assert Without(xs, k) == seq(|less|, j requires 0 <= j < |less| => ChargeOf(handles, less[j]));
  }

  /** Charges of a list depend on the charges of its members only. */
  lemma ChargesSame(handles: seq<Handle>, handles': seq<Handle>, ids: seq<HandleId>)
    requires forall j :: 0 <= j < |ids| ==> ChargeOf(handles', ids[j]) == ChargeOf(handles, ids[j])
    ensures Charges(handles', ids) == Charges(handles, ids)
  {
    assert seq(|ids|, j requires 0 <= j < |ids| => ChargeOf(handles', ids[j])) ==
           seq(|ids|, j requires 0 <= j < |ids| => ChargeOf(handles, ids[j]));
  }

  /** LRU_Remove on the entry at position `k`. */
  function Unlist(s: State, k: nat): State
    requires k < |s.lru| && s.lru[k] < |s.handles|
  {
    var e := s.handles[s.lru[k]];
    s.(lru := Without(s.lru, k),
       lowPri := if k < s.lowPri then s.lowPri - 1 else s.lowPri,
       lruUsage := if e.charge <= s.lruUsage then s.lruUsage - e.charge else 0,
       highPriPoolUsage := if e.inHighPriPool && e.charge <= s.highPriPoolUsage
                           then s.highPriPoolUsage - e.charge else s.highPriPoolUsage)
  }

  lemma WithoutMembers(ids: seq<HandleId>, k: nat)
    requires Distinct(ids) && k < |ids|
    ensures Distinct(Without(ids, k))
    ensures forall h :: h in Without(ids, k) <==> h in ids && h != ids[k]
  {
    var less := Without(ids, k);
    forall j | 0 <= j < |less| ensures less[j] == ids[if j < k then j else j + 1] { }
    forall h | h in ids && h != ids[k] ensures h in less {
      var j :| 0 <= j < |ids| && ids[j] == h;
      assert less[if j < k then j else j - 1] == h;
    }
  }

  lemma UnlistList(s: State, k: nat)
    requires ListOk(s) && k < |s.lru|
    ensures ListOk(Unlist(s, k))
    ensures forall h :: h in Unlist(s, k).lru <==> h in s.lru && h != s.lru[k]
  {
    WithoutMembers(s.lru, k);
  }

  lemma UnlistCounters(s: State, k: nat)
    requires CountersOk(s) && k < |s.lru| && s.lru[k] < |s.handles|
    requires s.handles[s.lru[k]].inHighPriPool <==> s.lowPri <= k
    ensures CountersOk(Unlist(s, k))
    ensures s.handles[s.lru[k]].charge <= s.lruUsage
    ensures s.lowPri <= k ==> s.handles[s.lru[k]].charge <= s.highPriPoolUsage
  {
    var s', pool := Unlist(s, k), s.lru[s.lowPri..];
    ChargesWithout(s.handles, s.lru, k);
    if k < s.lowPri {
      assert s'.lru[s'.lowPri..] == pool;
    } else {
      ChargesWithout(s.handles, pool, k - s.lowPri);
      assert s'.lru[s'.lowPri..] == Without(pool, k - s.lowPri);
    }
  }

  /** LRU_Insert, up to the maintenance of the pool size. */
  function Enlist(s: State, h: HandleId, high: bool): State
    requires h < |s.handles| && s.lowPri <= |s.lru|
  {
    var e := s.handles[h];
    var listed := s.(handles := s.handles[h := e.(inHighPriPool := high)], lruUsage := s.lruUsage + e.charge);
    if high then listed.(lru := s.lru + [h], highPriPoolUsage := s.highPriPoolUsage + e.charge)
    else listed.(lru := s.lru[..s.lowPri] + [h] + s.lru[s.lowPri..], lowPri := s.lowPri + 1)
  }

  function WithAt(ids: seq<HandleId>, at: nat, h: HandleId): (r: seq<HandleId>)
    requires at <= |ids|
    ensures |r| == |ids| + 1
  {
    ids[..at] + [h] + ids[at..]
  }

  lemma WithAtMembers(ids: seq<HandleId>, at: nat, h: HandleId)
    requires Distinct(ids) && at <= |ids| && h !in ids
    ensures Distinct(WithAt(ids, at, h))
    ensures forall g :: g in WithAt(ids, at, h) <==> g in ids || g == h
  {
    var more := WithAt(ids, at, h);
    forall j | 0 <= j < |more|
      ensures more[j] == if j < at then ids[j] else if j == at then h else ids[j - 1] { }
    forall g | g in ids ensures g in more {
      var j :| 0 <= j < |ids| && ids[j] == g;
      assert more[if j < at then j else j + 1] == g;
    }
    assert more[at] == h;
  }

  lemma EnlistList(s: State, h: HandleId, high: bool)
    requires ListOk(s) && h < |s.handles| && h !in s.lru
    ensures ListOk(Enlist(s, h, high))
    ensures forall g :: g in Enlist(s, h, high).lru <==> g in s.lru || g == h
  {
    var s' := Enlist(s, h, high);
    var at := if high then |s.lru| else s.lowPri;
    assert s'.lru == WithAt(s.lru, at, h);
    WithAtMembers(s.lru, at, h);
    forall j | 0 <= j < |s'.lru|
      ensures s'.lru[j] < |s'.handles| && (s'.handles[s'.lru[j]].inHighPriPool <==> s'.lowPri <= j)
    {
      if j != at {
        var i := if j < at then j else j - 1;
        assert s'.lru[j] == s.lru[i] && s.lru[i] in s.lru;
      }
    }
  }

  lemma ChargesWithAt(handles: seq<Handle>, ids: seq<HandleId>, at: nat, h: HandleId)
    requires at <= |ids|
    ensures Charges(handles, WithAt(ids, at, h)) == Charges(handles, ids) + ChargeOf(handles, h)
  {
    ChargesWithout(handles, WithAt(ids, at, h), at);
    assert Without(WithAt(ids, at, h), at) == ids;
  }

  lemma EnlistCounters(s: State, h: HandleId, high: bool)
    requires CountersOk(s) && h < |s.handles|
    ensures CountersOk(Enlist(s, h, high))
  {
    var s', pool := Enlist(s, h, high), s.lru[s.lowPri..];
    var at := if high then |s.lru| else s.lowPri;
    assert LiveCharges(s'.handles) == LiveCharges(s.handles);
    ChargesSame(s.handles, s'.handles, s.lru);
    ChargesSame(s.handles, s'.handles, pool);
    assert s'.lru == WithAt(s.lru, at, h);
    ChargesWithAt(s'.handles, s.lru, at, h);
    if high {
      ChargesWithAt(s'.handles, pool, |pool|, h);
      assert s'.lru[s'.lowPri..] == WithAt(pool, |pool|, h);
    } else {
      assert s'.lru[s'.lowPri..] == pool;
    }
  }

  /** One round of MaintainPoolSize: the oldest entry of the high-priority pool joins the other. */
  function Overflow(s: State): State
    requires s.lowPri < |s.lru| && s.lru[s.lowPri] < |s.handles|
  {
    var h := s.lru[s.lowPri];
    var e := s.handles[h];
    s.(handles := s.handles[h := e.(inHighPriPool := false)],
       lowPri := s.lowPri + 1,
       highPriPoolUsage := if e.charge <= s.highPriPoolUsage then s.highPriPoolUsage - e.charge else 0)
  }

  lemma OverflowList(s: State)
    requires ListOk(s) && s.lowPri < |s.lru|
    ensures ListOk(Overflow(s)) && Overflow(s).lru == s.lru
  {
    var s' := Overflow(s);
    forall j | 0 <= j < |s'.lru|
      ensures s'.lru[j] < |s'.handles| && (s'.handles[s'.lru[j]].inHighPriPool <==> s'.lowPri <= j)
    {
      assert j < s.lowPri ==> s.lru[j] != s.lru[s.lowPri];
      assert j > s.lowPri ==> s.lru[s.lowPri] != s.lru[j];
    }
  }

  lemma OverflowCounters(s: State)
    requires CountersOk(s) && s.lowPri < |s.lru| && s.lru[s.lowPri] < |s.handles|
    ensures CountersOk(Overflow(s))
    ensures s.handles[s.lru[s.lowPri]].charge <= s.highPriPoolUsage
  {
    var s', pool := Overflow(s), s.lru[s.lowPri..];
    var pool' := s.lru[s.lowPri + 1..];
    assert LiveCharges(s'.handles) == LiveCharges(s.handles);
    ChargesSame(s.handles, s'.handles, s.lru);
    ChargesWithout(s.handles, pool, 0);
    assert Without(pool, 0) == pool';
    ChargesSame(s.handles, s'.handles, pool');
  }

  /** An empty pool has no usage, so a pool over its capacity has an entry to give up. */
  lemma PoolNotEmpty(s: State)
    requires CountersOk(s) && s.highPriPoolUsage > 0
    ensures s.lowPri < |s.lru|
  {
    var pool := s.lru[s.lowPri..];
    assert |pool| == 0 ==> Charges(s.handles, pool) == 0;
  }
}
