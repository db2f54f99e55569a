/** Versioned records, the order they are kept in, and what a read at a snapshot sees. */
module Records {

  /** User keys, ordered by the user comparator; only that total order is ever used. */
  type UserKey = int

  type Value = string

  /** kMaxSequenceNumber: a read at this number is a read at the tip. */
  const MAX_SEQUENCE: nat := 0xFF_FFFF_FFFF_FFFF

  type SequenceNumber = s: nat | s <= MAX_SEQUENCE

  datatype Option<+T> = None | Some(value: T)

  datatype Kind = Put | Delete | SingleDelete

  datatype Record = Record(key: UserKey, seqno: SequenceNumber, kind: Kind, value: Value)

  /** The internal-key order: user keys ascending, and for one key newer versions first. */
  predicate Before(a: Record, b: Record) {
    a.key < b.key || (a.key == b.key && a.seqno > b.seqno)
  }

  ghost predicate Sorted(rs: seq<Record>) {
    forall i, j {:trigger Before(rs[i], rs[j])} :: 0 <= i < j < |rs| ==> Before(rs[i], rs[j])
  }

  /** The newest version of `k` visible at `s`, in a list that has newer versions first. */
  function Lookup(rs: seq<Record>, k: UserKey, s: nat): Option<Record> {
    if rs == [] then None
    else if rs[0].key == k && rs[0].seqno <= s then Some(rs[0])
    else Lookup(rs[1..], k, s)
  }

  /** What a reader at snapshot `s` gets for key `k`. */
  function Read(rs: seq<Record>, k: UserKey, s: nat): Option<Value> {
    match Lookup(rs, k, s)
    case Some(Record(_, _, Put, v)) => Some(v)
    case _ => None
  }

  lemma {:induction false} LookupConcat(a: seq<Record>, b: seq<Record>, k: UserKey, s: nat)
    ensures Lookup(a + b, k, s) == if Lookup(a, k, s).Some? then Lookup(a, k, s) else Lookup(b, k, s)
  {
    if a == [] {
      assert a + b == b;
    } else {
      LookupConcat(a[1..], b, k, s);
      assert (a + b)[1..] == a[1..] + b;
    }
  }

  /** A lookup answers with a member that is visible, and finds one when there is one. */
  lemma {:induction false} LookupMember(rs: seq<Record>, k: UserKey, s: nat)
    ensures Lookup(rs, k, s).Some? <==> exists i :: 0 <= i < |rs| && rs[i].key == k && rs[i].seqno <= s
    ensures Lookup(rs, k, s).Some? ==>
              var r := Lookup(rs, k, s).value; r in rs && r.key == k && r.seqno <= s
  {
    if rs != [] {
      LookupMember(rs[1..], k, s);
      if exists i :: 0 <= i < |rs| && rs[i].key == k && rs[i].seqno <= s {
        var i :| 0 <= i < |rs| && rs[i].key == k && rs[i].seqno <= s;
        assert i > 0 ==> rs[i] == rs[1..][i - 1];
      }
    }
  }

  /** Taking a middle part out of a sorted list leaves a sorted list. */
  lemma SortedWithout(a: seq<Record>, x: seq<Record>, b: seq<Record>)
    requires Sorted(a + x + b)
    ensures Sorted(a + b)
  {
    var whole := a + x + b;
    forall i, j | 0 <= i < j < |a + b| ensures Before((a + b)[i], (a + b)[j]) {
      var i' := if i < |a| then i else i + |x|;
      var j' := if j < |a| then j else j + |x|;
      assert whole[i'] == (a + b)[i] && whole[j'] == (a + b)[j];
    }
  }

  lemma SortedPrefix(a: seq<Record>, b: seq<Record>)
    requires Sorted(a + b)
    ensures Sorted(a)
  {
    assert a + [] == a;
    assert a + b + [] == a + b;
    SortedWithout(a, b, []);
  }

  /** Order looks at keys and sequence numbers only. */
  lemma SortedSwap(a: seq<Record>, x: Record, y: Record, b: seq<Record>)
    requires Sorted(a + [x] + b) && x.key == y.key && x.seqno == y.seqno
    ensures Sorted(a + [y] + b)
  {
    var was, now := a + [x] + b, a + [y] + b;
    forall i, j | 0 <= i < j < |now| ensures Before(now[i], now[j]) {
      assert Before(was[i], was[j]);
    }
  }

  /** The history of one key, newest version first. */
  function Versions(rs: seq<Record>, k: UserKey): seq<Record> {
    if rs == [] then []
    else if rs[0].key == k then [rs[0]] + Versions(rs[1..], k)
    else Versions(rs[1..], k)
  }

  lemma {:induction false} VersionsConcat(a: seq<Record>, b: seq<Record>, k: UserKey)
    ensures Versions(a + b, k) == Versions(a, k) + Versions(b, k)
  {
    if a == [] {
      assert a + b == b;
    } else {
      VersionsConcat(a[1..], b, k);
      assert (a + b)[1..] == a[1..] + b;
    }
  }

  lemma {:induction false} VersionsMember(rs: seq<Record>, k: UserKey)
    ensures forall v :: v in Versions(rs, k) <==> v in rs && v.key == k
  {
    if rs != [] {
      VersionsMember(rs[1..], k);
      assert rs == [rs[0]] + rs[1..];
    }
  }

  lemma {:induction false} NoVersions(rs: seq<Record>, k: UserKey)
    requires forall i :: 0 <= i < |rs| ==> rs[i].key != k
    ensures Versions(rs, k) == []
  {
    if rs != [] {
      NoVersions(rs[1..], k);
    }
  }

  /** A reader at the tip sees the newest version. */
  lemma {:induction false} ReadAtTip(rs: seq<Record>, k: UserKey)
    ensures Versions(rs, k) == [] ==> Read(rs, k, MAX_SEQUENCE) == None
    ensures Versions(rs, k) != [] && Versions(rs, k)[0].kind == Put ==> Read(rs, k, MAX_SEQUENCE).Some?
  {
    if rs != [] {
      ReadAtTip(rs[1..], k);
    }
  }
}
