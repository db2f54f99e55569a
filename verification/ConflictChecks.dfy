/**
 * What transactions need from a compaction: that a key written after the earliest write-conflict snapshot
 * still shows such a write. When an output keeps that, and the one case in which it does not.
 */
module ConflictChecks {
  import opened Records
  import opened SnapshotStripes
  import opened Compactable
  import opened Rewriting

  /** The newest version of its key in the input. */
  predicate Newest(t: Task, i: nat) {
    i < |t.input| && (i == 0 || t.input[i - 1].key != t.input[i].key)
  }

  /** Written after the earliest snapshot that a transaction checks against. */
  predicate Late(t: Task, r: Record) {
    r.seqno > t.job.earliestWriteConflictSnapshot
  }

  predicate ShowsWrite(t: Task, rs: seq<Record>, k: UserKey) {
    exists r :: r in rs && r.key == k && Late(t, r)
  }

  /** A bottommost Delete over versions of its own stripe only: the key goes, and the write with it. */
  ghost predicate Vanishes(t: Task, i: nat)
    requires Ascending(t.job.snapshots) && i < |t.input|
  {
    && t.input[i].kind == Delete && t.job.Bottommost() && t.job.NotNeededForIncrementalSnapshot(t.input[i])
    && forall j :: i < j < |t.input| && t.input[j].key == t.input[i].key ==> t.StripeOf(j) == t.StripeOf(i)
  }

  /** Of every key in range with a late write, the output shows one, unless the key vanishes, and then it has no version. */
  ghost predicate WritesShown(t: Task, out: seq<Record>)
    requires Ascending(t.job.snapshots)
  {
    forall i {:trigger Newest(t, i)} ::
      0 <= i < |t.input| && Newest(t, i) && Late(t, t.input[i]) && t.job.InRange(t.input[i].key) ==>
      if Vanishes(t, i) then forall r :: r in out ==> r.key != t.input[i].key
      else ShowsWrite(t, out, t.input[i].key)
  }

  /** A late SingleDelete of the key comes next, so that the write will still be shown. */
  predicate Pending(t: Task, i: nat, rest: nat)
    requires i < |t.input|
  {
    rest < |t.input| && t.input[rest].key == t.input[i].key && t.input[rest].kind == SingleDelete && Late(t, t.input[rest])
  }

  predicate Past(t: Task, i: nat, rest: nat)
    requires i < |t.input|
  {
    rest < |t.input| ==> t.input[rest].key != t.input[i].key
  }

  predicate SameVersion(q: Record, r: Record) {
    q.key == r.key && q.seqno == r.seqno && q.kind == r.kind
  }

  /** One of the versions used up so far, but perhaps for the value. */
  ghost predicate OfInput(t: Task, r: Record, rest: nat) {
    exists j :: 0 <= j < rest <= |t.input| && SameVersion(t.input[j], r)
  }

  /** The invariant: what has been used up of the input is shown, or about to be, or has vanished for good. */
  ghost predicate ShownSoFar(t: Task, raw: seq<Record>, rest: nat)
    requires Ascending(t.job.snapshots)
  {
    && rest <= |t.input| && (forall r :: r in raw ==> OfInput(t, r, rest))
    && forall i {:trigger Newest(t, i)} :: 0 <= i < rest && Newest(t, i) && Late(t, t.input[i]) ==>
         if Vanishes(t, i) then Past(t, i, rest) && forall r :: r in raw ==> r.key != t.input[i].key
         else ShowsWrite(t, raw, t.input[i].key) || Pending(t, i, rest)
  }

  /** What a step from `rest` to `rest'` must do for the invariant. */
  ghost predicate Attends(t: Task, raw: seq<Record>, raw': seq<Record>, rest: nat, rest': nat)
    requires Ascending(t.job.snapshots)
  {
    && rest < rest' <= |t.input|
    && (forall j :: rest <= j < rest' ==> t.input[j].key == t.input[rest].key && t.StripeOf(j) == t.StripeOf(rest))
    && (raw' == raw || (|raw'| == |raw| + 1 && raw' == raw + [raw'[|raw|]] && SameVersion(t.input[rest], raw'[|raw|])))
    && (Late(t, t.input[rest]) ==>
          if Newest(t, rest) && Vanishes(t, rest) then raw' == raw && Past(t, rest, rest')
          else Newest(t, rest) || t.input[rest].kind == SingleDelete ==>
                 ShowsWrite(t, raw', t.input[rest].key) || Pending(t, rest, rest'))
  }

  lemma StillShown(t: Task, raw: seq<Record>, raw': seq<Record>, k: UserKey)
    requires raw <= raw' && ShowsWrite(t, raw, k)
    ensures ShowsWrite(t, raw', k)
  {
    var r :| r in raw && r.key == k && Late(t, r);
    assert r in raw';
  }

  lemma KeysAscend(t: Task, i: nat, j: nat)
    requires Sorted(t.input) && i <= j < |t.input|
    ensures t.input[i].key <= t.input[j].key
  {
    assert i < j ==> Before(t.input[i], t.input[j]);
  }

  lemma OfInputMore(t: Task, r: Record, rest: nat, rest': nat)
    requires Sorted(t.input) && OfInput(t, r, rest) && rest < rest' <= |t.input|
    ensures OfInput(t, r, rest') && (Newest(t, rest) ==> r.key != t.input[rest].key)
  {
    var j :| 0 <= j < rest && SameVersion(t.input[j], r);
    KeysAscend(t, j, rest - 1);
    KeysAscend(t, rest - 1, rest);
  }

  lemma AttendsShows(t: Task, raw: seq<Record>, raw': seq<Record>, rest: nat, rest': nat)
    requires Ascending(t.job.snapshots) && Sorted(t.input)
    requires ShownSoFar(t, raw, rest) && Attends(t, raw, raw', rest, rest')
    ensures ShownSoFar(t, raw', rest')
  {
    forall r | r in raw' ensures OfInput(t, r, rest') && (r in raw && Newest(t, rest) ==> r.key != t.input[rest].key) {
      if r in raw {
        OfInputMore(t, r, rest, rest');
      } else {
        assert SameVersion(t.input[rest], r);
      }
    }
    forall i | 0 <= i < rest' && Newest(t, i) && Late(t, t.input[i])
      ensures if Vanishes(t, i) then Past(t, i, rest') && forall r :: r in raw' ==> r.key != t.input[i].key
              else ShowsWrite(t, raw', t.input[i].key) || Pending(t, i, rest')
    {
      if i < rest && Vanishes(t, i) {
        KeysAscend(t, i, rest);
        if rest' < |t.input| {
          KeysAscend(t, rest, rest');
        }
      } else if i < rest && ShowsWrite(t, raw, t.input[i].key) {
        StillShown(t, raw, raw', t.input[i].key);
      }
    }
  }

  // ---- The steps

  /** Every snapshot sees what is not late, and the earliest does not see what is. */
  lemma LateIsAfterEarliest(t: Task, r: Record)
    requires t.job.Valid() && Late(t, r)
    ensures r.seqno > t.job.EarliestSnapshot()
  {
    EarliestStripe(t.job, r.seqno);
  }

  lemma SameStripeLate(t: Task, i: nat, j: nat)
    requires t.job.Valid() && i < |t.input| && j < |t.input| && t.StripeOf(i) == t.StripeOf(j) && Late(t, t.input[i])
    ensures Late(t, t.input[j])
  {
    assert IsView(t.job.snapshots, t.job.earliestWriteConflictSnapshot);
  }

  /** Outputting the record shows its write. */
  lemma OutputAttends(t: Task, raw: seq<Record>, x: Record, rest: nat, rest': nat)
    requires Ascending(t.job.snapshots) && rest < rest' <= |t.input|
    requires forall j :: rest <= j < rest' ==> t.input[j].key == t.input[rest].key && t.StripeOf(j) == t.StripeOf(rest)
    requires SameVersion(t.input[rest], x)
    requires !Newest(t, rest) || !Vanishes(t, rest)
    ensures Attends(t, raw, raw + [x], rest, rest')
  {
    assert (raw + [x])[|raw|] == x;
  }

  lemma OutputOneAttends(t: Task, raw: seq<Record>, x: Record, rest: nat)
    requires Ascending(t.job.snapshots) && rest < |t.input| && SameVersion(t.input[rest], x)
    requires !Newest(t, rest) || !Vanishes(t, rest)
    ensures Attends(t, raw, raw + [x], rest, rest + 1)
  {
    OutputAttends(t, raw, x, rest, rest + 1);
  }

  /** Dropping a record that is neither the newest of its key nor a SingleDelete, or is not late, hides nothing. */
  lemma DropAttends(t: Task, raw: seq<Record>, rest: nat)
    requires Ascending(t.job.snapshots) && rest < |t.input|
    requires Late(t, t.input[rest]) ==> !Newest(t, rest) && t.input[rest].kind != SingleDelete
    ensures Attends(t, raw, raw, rest, rest + 1)
  {
  }

  lemma OldAttends(t: Task, raw: seq<Record>, rest: nat)
    requires t.job.Valid() && rest < |t.input| && t.input[rest].seqno <= t.job.EarliestSnapshot()
    ensures Attends(t, raw, raw, rest, rest + 1)
  {
    if Late(t, t.input[rest]) {
      LateIsAfterEarliest(t, t.input[rest]);
    }
  }

  /** The Delete that vanishes with all its key. */
  lemma VanishAttends(t: Task, raw: seq<Record>, rest: nat, rest': nat)
    requires t.job.Valid() && Sorted(t.input) && rest < rest' <= |t.input| && TombstoneRun(t.job, t.input[rest..rest'])
    requires t.input[rest].kind == Delete && t.job.Bottommost() && t.job.NotNeededForIncrementalSnapshot(t.input[rest])
    requires rest' < |t.input| ==> t.input[rest'].key != t.input[rest].key
    ensures Attends(t, raw, raw, rest, rest')
  {
    var run := t.input[rest..rest'];
    forall j | rest <= j < rest' ensures t.input[j].key == t.input[rest].key && t.StripeOf(j) == t.StripeOf(rest) {
      assert t.input[j] == run[j - rest];
    }
    forall j | rest' <= j < |t.input| ensures t.input[j].key != t.input[rest].key {
      KeysAscend(t, rest, rest');
      KeysAscend(t, rest', j);
    }
  }

  /** The Delete that stays over an older stripe. */
  lemma DeleteAttends(t: Task, raw: seq<Record>, rest: nat, rest': nat)
    requires t.job.Valid() && rest < rest' < |t.input| && TombstoneRun(t.job, t.input[rest..rest'])
    requires t.input[rest'].key == t.input[rest].key && t.StripeOf(rest') != t.StripeOf(rest)
    ensures Attends(t, raw, raw + [t.input[rest]], rest, rest')
  {
    var run := t.input[rest..rest'];
    forall j | rest <= j < rest' ensures t.input[j].key == t.input[rest].key && t.StripeOf(j) == t.StripeOf(rest) {
      assert t.input[j] == run[j - rest];
    }
    OutputAttends(t, raw, t.input[rest], rest, rest');
  }

  /** The first of two SingleDeletes leaves the write to the second. */
  lemma RepeatAttends(t: Task, raw: seq<Record>, rest: nat)
    requires t.job.Valid() && rest + 1 < |t.input| && t.input[rest].kind == t.input[rest + 1].kind == SingleDelete
    requires t.input[rest].key == t.input[rest + 1].key && t.StripeOf(rest) == t.StripeOf(rest + 1)
    ensures Attends(t, raw, raw, rest, rest + 1)
  {
    if Late(t, t.input[rest]) {
      SameStripeLate(t, rest, rest + 1);
    }
  }

  /** A pair is cancelled only if the key already shows a write, or there is no late one to show. */
  lemma PairAttends(t: Task, raw: seq<Record>, rest: nat)
    requires Ascending(t.job.snapshots) && rest + 1 < |t.input| && t.input[rest].kind == SingleDelete
    requires t.input[rest].key == t.input[rest + 1].key && t.StripeOf(rest) == t.StripeOf(rest + 1)
    requires Sorted(raw + t.input[rest..])
    requires Late(t, t.input[rest]) ==> raw != [] && raw[|raw| - 1].key == t.input[rest].key
    ensures Attends(t, raw, raw, rest, rest + 2)
  {
    if Late(t, t.input[rest]) {
      var whole := raw + t.input[rest..];
      assert Before(whole[|raw| - 1], whole[|raw|]);
      assert raw[|raw| - 1] in raw;
    }
  }

  // ---- The end

  /** Every output is a version of the input, but perhaps for the value, with its number zeroed at the bottom. */
  ghost predicate Derived(t: Task, out: seq<Record>) {
    forall r :: r in out ==> exists q :: q in t.input && DerivedFrom(t, q, r)
  }

  predicate DerivedFrom(t: Task, q: Record, r: Record) {
    SameVersion(q, r) || (t.job.ZeroesSequence(q) && SameVersion(q.(seqno := 0), r))
  }

  lemma AllDerived(t: Task, raw: seq<Record>, rest: nat)
    requires rest <= |t.input| && forall r :: r in raw ==> OfInput(t, r, rest)
    ensures Derived(t, PrepareAll(t.job, raw))
  {
    var out := PrepareAll(t.job, raw);
    forall r | r in out ensures exists q :: q in t.input && DerivedFrom(t, q, r) {
      var i :| 0 <= i < |out| && out[i] == r;
      assert raw[i] in raw && r == t.job.PrepareOutput(raw[i]);
      var j :| 0 <= j < rest && SameVersion(t.input[j], raw[i]);
      assert DerivedFrom(t, t.input[j], r);
    }
  }

  /** Once the input in range is used up, every late write that did not vanish is shown, zeroed numbers and all. */
  lemma AllShown(t: Task, raw: seq<Record>, rest: nat)
    requires t.job.Valid() && Sorted(t.input) && ShownSoFar(t, raw, rest)
    requires rest < |t.input| ==> !t.job.InRange(t.input[rest].key)
    ensures WritesShown(t, PrepareAll(t.job, raw))
  {
    var out := PrepareAll(t.job, raw);
    forall i | 0 <= i < |t.input| && Newest(t, i) && Late(t, t.input[i]) && t.job.InRange(t.input[i].key)
      ensures if Vanishes(t, i) then forall r :: r in out ==> r.key != t.input[i].key
              else ShowsWrite(t, out, t.input[i].key)
    {
      if i >= rest {
        KeysAscend(t, rest, i);
      }
      if Vanishes(t, i) {
        forall r | r in out ensures r.key != t.input[i].key {
          var j :| 0 <= j < |out| && out[j] == r;
          assert raw[j] in raw;
        }
      } else {
        ShownPrepared(t, raw, t.input[i].key);
      }
    }
  }

  lemma ShownPrepared(t: Task, raw: seq<Record>, k: UserKey)
    requires t.job.Valid() && ShowsWrite(t, raw, k)
    ensures ShowsWrite(t, PrepareAll(t.job, raw), k)
  {
    var r :| r in raw && r.key == k && Late(t, r);
    LateIsAfterEarliest(t, r);
    var j :| 0 <= j < |raw| && raw[j] == r;
    assert PrepareAll(t.job, raw)[j] == r;
  }
}
