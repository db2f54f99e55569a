/** Which versions a compaction puts out, told from the input alone, and the steps of the iterator that follow it. */
module Surviving {
  import opened Records
  import opened SnapshotStripes
  import opened Compaction
  import opened Compactable
  import opened Rewriting
  import opened ConflictChecks

  /** The version just before it in the input is of the same key and seen by the same views. */
  ghost predicate SharesStripe(t: Task, i: nat)
    requires Ascending(t.job.snapshots)
  {
    0 < i < |t.input| && t.input[i - 1].key == t.input[i].key && t.StripeOf(i - 1) == t.StripeOf(i)
  }

  /** The newest version of the key in the stripe of version `i`. */
  ghost function Head(t: Task, i: nat): (h: nat)
    requires Ascending(t.job.snapshots) && i < |t.input|
    ensures h <= i && !SharesStripe(t, h)
  {
    if SharesStripe(t, i) then Head(t, i - 1) else i
  }

  /** An older version of the key follows in the input. */
  predicate HasOlder(t: Task, i: nat) {
    i + 1 < |t.input| && t.input[i + 1].key == t.input[i].key
  }

  /** A version of the key follows that some view sees and version `i` does not reach. */
  ghost predicate HasOlderStripe(t: Task, i: nat)
    requires Ascending(t.job.snapshots) && i < |t.input|
  {
    exists j :: i < j < |t.input| && t.input[j].key == t.input[i].key && t.StripeOf(j) != t.StripeOf(i)
  }

  /** Older than every snapshot, over nothing. */
  ghost predicate OverNothing(t: Task, i: nat)
    requires i < |t.input|
  {
    && t.job.compaction.Some? && t.input[i].seqno <= t.job.EarliestSnapshot()
    && t.job.compaction.value.KeyAbsentBelow(t.input[i].key)
  }

  /** A Delete that nothing needs any more. */
  ghost predicate Obsolete(t: Task, i: nat)
    requires i < |t.input|
  {
    t.input[i].kind == Delete && OverNothing(t, i) && t.job.NotNeededForIncrementalSnapshot(t.input[i])
  }

  /** A Delete at the bottom that takes the other versions of its stripe along, whatever they are. */
  ghost predicate Sweeps(t: Task, i: nat)
    requires i < |t.input|
  {
    && t.input[i].kind == Delete && t.job.Bottommost() && t.job.NotNeededForIncrementalSnapshot(t.input[i])
    && !Obsolete(t, i)
  }

  ghost predicate SweptAway(t: Task, i: nat)
    requires Ascending(t.job.snapshots)
  {
    SharesStripe(t, i) && Sweeps(t, Head(t, i))
  }

  /** What a SingleDelete takes away: the version under it in the same stripe, if that is no SingleDelete. */
  ghost predicate UnderSingleDelete(t: Task, i: nat)
    requires Ascending(t.job.snapshots)
  {
    SharesStripe(t, i) && t.input[i - 1].kind == SingleDelete && t.input[i].kind != SingleDelete
  }

  /** An output of the key is on record; that of the very first output of all is not kept. */
  predicate OnRecord(raw: seq<Record>, k: UserKey) {
    |raw| >= 2 && raw[|raw| - 1].key == k
  }

  /** The SingleDelete and the version under it go: no transaction needs them to see that the key was written. */
  ghost predicate Cancels(t: Task, i: nat)
    requires Ascending(t.job.snapshots) && i < |t.input|
    decreases i, 1
  {
    OnRecord(Survivors(t, i), t.input[i].key) || !Late(t, t.input[i])
  }

  ghost predicate SingleDeleteSurvives(t: Task, i: nat)
    requires Ascending(t.job.snapshots) && i < |t.input|
    decreases i, 2
  {
    if !HasOlder(t, i) then !OverNothing(t, i)
    else SharesStripe(t, i + 1) ==> t.input[i + 1].kind != SingleDelete && !Cancels(t, i)
  }

  /** Whether version `i` is put out. */
  ghost predicate Survives(t: Task, i: nat)
    requires Ascending(t.job.snapshots) && i < |t.input|
    decreases i, 3
  {
    && t.job.InRange(t.input[i].key) && !SweptAway(t, i)
    && if t.input[i].kind == SingleDelete then SingleDeleteSurvives(t, i)
       else if UnderSingleDelete(t, i) then !Cancels(t, i - 1)
       else !SharesStripe(t, i) && !Obsolete(t, i) && (Sweeps(t, i) ==> HasOlderStripe(t, i))
  }

  /** What is left of a version that is put out: under a SingleDelete the value is of no use. */
  ghost function Outcome(t: Task, i: nat): Record
    requires Ascending(t.job.snapshots) && i < |t.input|
  {
    if UnderSingleDelete(t, i) then t.input[i].(value := "") else t.input[i]
  }

  /** What the first `n` versions of the input leave. */
  ghost function Survivors(t: Task, n: nat): seq<Record>
    requires Ascending(t.job.snapshots) && n <= |t.input|
    decreases n, 0
  {
    if n == 0 then []
    else if Survives(t, n - 1) then Survivors(t, n - 1) + [Outcome(t, n - 1)]
    else Survivors(t, n - 1)
  }

  // ---- Where the iterator stands

  /** What is before `rest` has been decided, and what is at `rest` has not. */
  ghost predicate Stands(t: Task, raw: seq<Record>, rest: nat, clearNext: bool) {
    && Ascending(t.job.snapshots) && rest <= |t.input| && raw == Survivors(t, rest)
    && (clearNext <==> UnderSingleDelete(t, rest)) && (clearNext ==> !Cancels(t, rest - 1))
    && !SweptAway(t, rest)
  }

  /** One more version is decided on. */
  lemma StandsAfter(t: Task, raw: seq<Record>, i: nat, clear: bool, clear': bool)
    requires Stands(t, raw, i, clear) && i < |t.input|
    requires (clear' <==> UnderSingleDelete(t, i + 1)) && (clear' ==> !Cancels(t, i))
    requires SharesStripe(t, i + 1) ==> SharesStripe(t, i) || !Sweeps(t, i)
    ensures Stands(t, if Survives(t, i) then raw + [Outcome(t, i)] else raw, i + 1, clear')
  {
    if SharesStripe(t, i + 1) {
      assert Head(t, i + 1) == Head(t, i);
    }
  }

  lemma ClearStands(t: Task, raw: seq<Record>, i: nat)
    requires Stands(t, raw, i, true) && i < |t.input| && t.job.InRange(t.input[i].key)
    ensures Stands(t, raw + [t.input[i].(value := "")], i + 1, false)
  {
    StandsAfter(t, raw, i, true, false);
  }

  lemma HiddenStands(t: Task, raw: seq<Record>, i: nat)
    requires Stands(t, raw, i, false) && SharesStripe(t, i) && t.input[i].kind != SingleDelete
    ensures Stands(t, raw, i + 1, false)
  {
    StandsAfter(t, raw, i, false, false);
  }

  lemma VisibleStands(t: Task, raw: seq<Record>, i: nat)
    requires Stands(t, raw, i, false) && i < |t.input| && t.job.InRange(t.input[i].key)
    requires !SharesStripe(t, i) && t.input[i].kind != SingleDelete && !Sweeps(t, i)
    ensures Stands(t, if Obsolete(t, i) then raw else raw + [t.input[i]], i + 1, false)
  {
    StandsAfter(t, raw, i, false, false);
  }

  /** A SingleDelete that stays over an older version: the next one of its stripe, which is cleared, or of another. */
  lemma SingleDeleteStands(t: Task, raw: seq<Record>, i: nat, clear: bool)
    requires Stands(t, raw, i, false) && HasOlder(t, i) && t.job.InRange(t.input[i].key)
    requires t.input[i].kind == SingleDelete && (clear <==> t.StripeOf(i) == t.StripeOf(i + 1))
    requires clear ==> t.input[i + 1].kind != SingleDelete && !OnRecord(raw, t.input[i].key) && Late(t, t.input[i])
    ensures Stands(t, raw + [t.input[i]], i + 1, clear)
  {
    assert SingleDeleteSurvives(t, i) && Survives(t, i);
    StandsAfter(t, raw, i, false, clear);
  }

  lemma RepeatedStands(t: Task, raw: seq<Record>, i: nat)
    requires Stands(t, raw, i, false) && HasOlder(t, i) && t.StripeOf(i) == t.StripeOf(i + 1)
    requires t.input[i].kind == SingleDelete == t.input[i + 1].kind
    ensures Stands(t, raw, i + 1, false)
  {
    assert !SingleDeleteSurvives(t, i) && !Survives(t, i);
    StandsAfter(t, raw, i, false, false);
  }

  /** A SingleDelete with nothing of its key after it. */
  lemma LastSingleDeleteStands(t: Task, raw: seq<Record>, i: nat)
    requires Stands(t, raw, i, false) && i < |t.input| && !HasOlder(t, i) && t.job.InRange(t.input[i].key)
    requires t.input[i].kind == SingleDelete
    ensures Stands(t, if OverNothing(t, i) then raw else raw + [t.input[i]], i + 1, false)
  {
    assert SingleDeleteSurvives(t, i) <==> !OverNothing(t, i);
    assert Survives(t, i) <==> SingleDeleteSurvives(t, i);
    StandsAfter(t, raw, i, false, false);
  }

  /** A SingleDelete that goes with the version under it. */
  lemma PairStands(t: Task, raw: seq<Record>, i: nat)
    requires Stands(t, raw, i, false) && HasOlder(t, i) && t.StripeOf(i) == t.StripeOf(i + 1)
    requires t.input[i].kind == SingleDelete != t.input[i + 1].kind
    requires OnRecord(raw, t.input[i].key) || !Late(t, t.input[i])
    ensures Stands(t, raw, i + 2, false)
  {
    assert Cancels(t, i) && !Survives(t, i);
    assert Survivors(t, i + 1) == raw;
    assert !Survives(t, i + 1);
    assert Head(t, i + 1) == Head(t, i);
    if SharesStripe(t, i + 2) {
      assert Head(t, i + 2) == Head(t, i + 1);
    }
  }

  /** The versions that a Delete at the bottom sweeps away. */
  lemma {:induction false} SweptStands(t: Task, i: nat, rest: nat)
    requires Ascending(t.job.snapshots) && i < rest <= |t.input| && !SharesStripe(t, i) && Sweeps(t, i)
    requires forall j :: i < j < rest ==> SharesStripe(t, j)
    ensures Survivors(t, rest) == Survivors(t, i + 1) && Head(t, rest - 1) == i
  {
    if rest > i + 1 {
      SweptStands(t, i, rest - 1);
      assert SharesStripe(t, rest - 1);
      assert SweptAway(t, rest - 1);
    }
  }

  lemma RunShares(t: Task, i: nat, rest: nat)
    requires Ascending(t.job.snapshots) && i < rest <= |t.input| && TombstoneRun(t.job, t.input[i..rest])
    ensures forall j :: i < j < rest ==> SharesStripe(t, j)
    ensures forall j :: i <= j < rest ==> t.input[j].key == t.input[i].key && t.StripeOf(j) == t.StripeOf(i)
  {
    var run := t.input[i..rest];
    forall j | i <= j < rest ensures t.input[j].key == t.input[i].key && t.StripeOf(j) == t.StripeOf(i) {
      assert t.input[j] == run[j - i];
    }
  }

  lemma SweepStands(t: Task, raw: seq<Record>, i: nat, rest: nat)
    requires Stands(t, raw, i, false) && i < |t.input| && t.job.InRange(t.input[i].key)
    requires !SharesStripe(t, i) && Sweeps(t, i)
    requires Sorted(t.input) && i < rest <= |t.input| && TombstoneRun(t.job, t.input[i..rest])
    requires rest < |t.input| && t.input[rest].key == t.input[i].key ==> t.StripeOf(rest) != t.StripeOf(i)
    ensures Stands(t, if rest < |t.input| && t.input[rest].key == t.input[i].key then raw + [t.input[i]] else raw, rest, false)
  {
    RunShares(t, i, rest);
    SweptStands(t, i, rest);
    assert !SharesStripe(t, rest);
    forall j | rest <= j < |t.input| && t.input[j].key == t.input[i].key ensures t.input[rest].key == t.input[i].key {
      KeysAscend(t, i, rest);
      KeysAscend(t, rest, j);
    }
    assert HasOlderStripe(t, i) <==> rest < |t.input| && t.input[rest].key == t.input[i].key;
  }
}
