/** The state of a compaction iterator as a value, its invariant, and the steps that keep it. */
module CompactionSteps {
  import opened Records
  import opened SnapshotStripes
  import opened Compactable
  import opened Rewriting

  datatype State = State(
    raw: seq<Record>,               // all outputs so far, before PrepareOutput
    shadow: Option<Record>,         // a dropped Delete that older input still hides behind
    rest: nat,                      // the first input record not yet accounted for
    ptrs: seq<nat>,
    hasKey: bool,
    key: UserKey,
    seqno: SequenceNumber,
    snapshot: SequenceNumber,
    clearNext: bool)
  {
    ghost predicate LastOutputIs(k: UserKey) {
      raw != [] && raw[|raw| - 1].key == k
    }
  }

  ghost predicate Common(t: Task, s: State) {
    && t.Valid() && s.rest <= |t.input|
    && t.Rewritten(Kept(s.raw, s.shadow), s.rest)
    && t.Zeroable(s.raw)
    && t.CursorsBehind(s.ptrs, s.rest)
  }

  /** A Delete older than every snapshot, over nothing. */
  ghost predicate ObsoleteDelete(t: Task, d: Record) {
    && d.kind == Delete && d in t.input && d.seqno <= t.job.EarliestSnapshot()
    && forall j :: 0 <= j < |t.below| ==> t.below[j].key != d.key
  }

  /** The remembered key, sequence number and snapshot describe the last record processed. */
  ghost predicate KeyTracked(t: Task, s: State)
    requires t.Valid() && s.rest <= |t.input|
  {
    && (s.hasKey ==>
          && t.job.InRange(s.key) && s.snapshot == Stripe(t.job.snapshots, s.seqno)
          && (forall j :: s.rest <= j < |t.input| ==>
                s.key < t.input[j].key || (s.key == t.input[j].key && t.input[j].seqno < s.seqno)))
    && (s.rest < |t.input| ==>
          var r := t.input[s.rest];
          && (s.hasKey && r.key == s.key && r.kind != SingleDelete && t.StripeOf(s.rest) == s.snapshot &&
              t.Promised(r.key) ==>
                Covered(t.job, Kept(s.raw, s.shadow), r.key, r.seqno))
          && (s.LastOutputIs(r.key) ==>
                s.hasKey && s.key == r.key && s.seqno <= s.raw[|s.raw| - 1].seqno))
  }

  ghost predicate ShadowOk(t: Task, s: State) {
    s.shadow.Some? ==>
      && !s.clearNext && ObsoleteDelete(t, s.shadow.value)
      && s.rest < |t.input| && t.input[s.rest].key == s.shadow.value.key
      && s.hasKey && s.key == s.shadow.value.key && s.snapshot == t.job.EarliestSnapshot()
  }

  ghost predicate ClearOk(t: Task, s: State)
    requires t.Valid()
  {
    s.clearNext ==>
      && s.rest < |t.input| && t.input[s.rest].kind != SingleDelete
      && s.hasKey && s.key == t.input[s.rest].key
      && t.StripeOf(s.rest) == s.snapshot
      && UsesSingleDelete(t.input, s.key)
      && s.LastOutputIs(s.key)
      && s.seqno == s.raw[|s.raw| - 1].seqno > t.job.EarliestSnapshot()
  }

  /** The invariant between records. */
  ghost predicate Inv(t: Task, s: State) {
    Common(t, s) && KeyTracked(t, s) && ShadowOk(t, s) && ClearOk(t, s)
  }

  /** What holds while record `s.rest` is looked at; `last` is the snapshot of the record before it. */
  ghost predicate Mid(t: Task, s: State, last: SequenceNumber, prev: SequenceNumber) {
    && Common(t, s) && s.rest < |t.input|
    && (var r := t.input[s.rest];
        && t.job.InRange(r.key)
        && s.hasKey && s.key == r.key && s.seqno == r.seqno
        && s.snapshot == t.StripeOf(s.rest)
        && (prev == 0 || (prev in t.job.snapshots && prev < r.seqno))
        && (forall q :: q in t.job.snapshots && q < r.seqno ==> q <= prev)
        && (r.kind != SingleDelete && last == s.snapshot && t.Promised(r.key) ==>
              Covered(t.job, Kept(s.raw, s.shadow), r.key, r.seqno))
        && (s.LastOutputIs(r.key) && s.raw[|s.raw| - 1].seqno <= t.job.EarliestSnapshot() ==>
              last == s.snapshot)
        && (s.shadow.Some? ==>
              && !s.clearNext && last == s.snapshot
              && ObsoleteDelete(t, s.shadow.value) && s.shadow.value.key == r.key)
        && (s.clearNext ==>
              && r.kind != SingleDelete && last == s.snapshot
              && UsesSingleDelete(t.input, r.key) && s.LastOutputIs(r.key)
              && s.raw[|s.raw| - 1].seqno > t.job.EarliestSnapshot() && r.seqno > t.job.EarliestSnapshot()))
  }

  /** Taking up the next record. */
  lemma TakeUp(t: Task, s: State, s': State, last: SequenceNumber, prev: SequenceNumber)
    requires Inv(t, s) && s.rest < |t.input| && t.job.InRange(t.input[s.rest].key)
    requires var r := t.input[s.rest];
             s' == s.(hasKey := true, key := r.key, seqno := r.seqno, snapshot := t.StripeOf(s.rest))
    requires last == if s.hasKey && s.key == s'.key then s.snapshot else 0
    requires prev == 0 || (prev in t.job.snapshots && prev < s'.seqno)
    requires forall q :: q in t.job.snapshots && q < s'.seqno ==> q <= prev
    ensures Mid(t, s', last, prev)
  {
    t.StripePositive(s.rest);
    EarliestStripe(t.job, s'.seqno);
    EarliestStripe(t.job, s.seqno);
  }

  /** Once the input has moved past the key of a dropped Delete, the Delete is forgotten. */
  ghost function Forgotten(t: Task, s: State): State
    requires s.rest <= |t.input|
  {
    if s.shadow.Some? && (s.rest == |t.input| || t.input[s.rest].key != s.shadow.value.key)
    then s.(shadow := None) else s
  }

  lemma ForgottenRewritten(t: Task, s: State, d: nat)
    requires Common(t, s) && d < s.rest
    requires s.shadow.Some? ==> ObsoleteDelete(t, s.shadow.value) && t.input[d].key == s.shadow.value.key
    ensures Common(t, Forgotten(t, s))
  {
    if Forgotten(t, s) != s {
      var k, under := s.shadow.value.key, t.input[s.rest..] + t.below;
      forall v: nat ensures Read(under, k, v) == None {
        t.KeyFinished(k, d, s.rest, v);
      }
      t.RewrittenForget(s.raw, s.shadow.value, s.rest);
    }
  }

  /** The state after a dropped record, once its Delete is forgotten where nothing is left to hide. */
  lemma ForgottenInv(t: Task, s: State)
    requires Common(t, s) && 0 < s.rest && !s.clearNext && s.hasKey
    requires var r := t.input[s.rest - 1];
             && t.job.InRange(r.key) && s.key == r.key && s.seqno == r.seqno && s.snapshot == t.StripeOf(s.rest - 1)
             && (t.Promised(r.key) ==> Covered(t.job, Kept(s.raw, s.shadow), r.key, r.seqno))
             && (s.LastOutputIs(r.key) ==> s.raw[|s.raw| - 1].seqno >= r.seqno)
    requires s.raw != [] ==> s.raw[|s.raw| - 1].key <= s.key
    requires s.shadow.Some? ==>
               ObsoleteDelete(t, s.shadow.value) && s.shadow.value.key == s.key && s.snapshot == t.job.EarliestSnapshot()
    ensures Inv(t, Forgotten(t, s))
  {
    ForgottenRewritten(t, s, s.rest - 1);
    forall j | s.rest <= j < |t.input|
      ensures s.key < t.input[j].key || (s.key == t.input[j].key && t.input[j].seqno < s.seqno)
    {
      assert Before(t.input[s.rest - 1], t.input[j]);
    }
  }

  /** A record in the stripe of its predecessor is dropped. */
  lemma HiddenKeeps(t: Task, s: State, last: SequenceNumber, prev: SequenceNumber)
    returns (shadow: Option<Record>)
    requires Mid(t, s, last, prev) && !s.clearNext
    requires t.input[s.rest].kind != SingleDelete && last == s.snapshot
    ensures Inv(t, s.(rest := s.rest + 1, shadow := shadow))
  {
    t.RewrittenHidden(Kept(s.raw, s.shadow), s.rest);
    t.KeptLast(s.raw, s.shadow, s.rest);
    EarliestStripe(t.job, s.seqno);
    ForgottenInv(t, s.(rest := s.rest + 1));
    shadow := Forgotten(t, s.(rest := s.rest + 1)).shadow;
  }

  /** An obsolete Delete is dropped; older versions of its key will be hidden by it. */
  lemma ObsoleteDeleteKeeps(t: Task, s: State, last: SequenceNumber, prev: SequenceNumber)
    returns (shadow: Option<Record>)
    requires Mid(t, s, last, prev) && !s.clearNext && last != s.snapshot
    requires t.input[s.rest].kind == Delete && s.seqno <= t.job.EarliestSnapshot()
    requires t.job.compaction.Some? && t.job.compaction.value.KeyAbsentBelow(s.key)
    ensures Inv(t, s.(rest := s.rest + 1, shadow := shadow))
  {
    t.AbsentBelow(s.rest);
    t.KeptLast(s.raw, s.shadow, s.rest);
    t.RewrittenEmit(s.raw, s.rest);
    EarliestStripe(t.job, s.seqno);
    var s' := s.(rest := s.rest + 1, shadow := Some(t.input[s.rest]));
    assert Kept(s'.raw, s'.shadow)[|s.raw|] == t.input[s.rest];
    ForgottenInv(t, s');
    shadow := Forgotten(t, s').shadow;
  }

  /** A record that opens a new stripe is output. */
  lemma OutputKeeps(t: Task, s: State, last: SequenceNumber, prev: SequenceNumber)
    requires Mid(t, s, last, prev) && !s.clearNext && last != s.snapshot
    requires t.input[s.rest].kind != SingleDelete
    requires t.job.ZeroesSequence(t.input[s.rest]) ==> t.input[s.rest].kind == Put
    ensures Inv(t, s.(rest := s.rest + 1, raw := s.raw + [t.input[s.rest]]))
  {
    t.Follows(s.rest);
    var r := t.input[s.rest];
    t.RewrittenEmit(s.raw, s.rest);
    SortedPrefix(s.raw + [r], t.input[s.rest + 1..]);
    t.ZeroableAppend(s.raw, r);
    assert (s.raw + [r])[|s.raw|] == r;
  }

  /** The record under an output SingleDelete is output without its value. */
  lemma ClearKeeps(t: Task, s: State, last: SequenceNumber, prev: SequenceNumber)
    requires Mid(t, s, last, prev) && s.clearNext
    ensures t.Promised(s.key) ==> t.input[s.rest].kind == Put
    ensures Inv(t, s.(rest := s.rest + 1, raw := s.raw + [t.input[s.rest].(value := "")], clearNext := false))
  {
    t.Follows(s.rest);
    var r := t.input[s.rest];
    if t.Promised(s.key) {
      DisciplinedKinds(t.input + t.below, s.rest);
    }
    var y := r.(value := "");
    t.RewrittenCleared(s.raw, s.rest, y);
    t.ZeroableAppend(s.raw, y);
    assert (s.raw + [y])[|s.raw|] == y;
  }

  /** At the bottommost level a Delete that hides all older versions goes with them. */
  lemma BottommostDeleteDropped(t: Task, s: State, last: SequenceNumber, prev: SequenceNumber, rest: nat)
    requires Mid(t, s, last, prev) && !s.clearNext && last != s.snapshot
    requires t.input[s.rest].kind == Delete && t.job.Bottommost()
    requires s.rest < rest <= |t.input| && TombstoneRun(t.job, t.input[s.rest..rest])
    requires rest < |t.input| ==> t.input[rest].key != s.key
    ensures Inv(t, s.(rest := rest))
  {
    t.Follows(s.rest);
    t.AbsentBelow(s.rest);
    t.KeptLast(s.raw, s.shadow, s.rest);
    var under := t.input[rest..] + t.below;
    forall v: nat ensures Read(under, s.key, v) == None {
      t.KeyFinished(s.key, s.rest, rest, v);
    }
    t.RewrittenRun(s.raw, s.rest, rest);
  }

  lemma DeletedUndisciplined(t: Task, i: nat)
    requires i < |t.input| && t.input[i].kind == Delete
    ensures !SingleDeleteDiscipline(t.input + t.below, t.input[i].key)
  {
    var history := t.input + t.below;
    assert history[i] == t.input[i];
    if SingleDeleteDiscipline(history, history[i].key) {
      DisciplinedKinds(history, i);
    }
  }

  /** The versions under a tombstone in its stripe are covered by it. */
  lemma HiddenByTombstone(t: Task, raw: seq<Record>, d: nat, rest: nat)
    requires Ascending(t.job.snapshots) && d < rest <= |t.input| && TombstoneRun(t.job, t.input[d..rest])
    ensures var skipped := t.input[d + 1..rest];
            forall i :: 0 <= i < |skipped| ==> Covered(t.job, raw + [t.input[d]], skipped[i].key, skipped[i].seqno)
    ensures forall i :: d < i < rest ==> t.input[i].key == t.input[d].key
  {
    var run, skipped, kept := t.input[d..rest], t.input[d + 1..rest], raw + [t.input[d]];
    forall i | 0 <= i < |skipped| ensures Covered(t.job, kept, skipped[i].key, skipped[i].seqno) {
      assert skipped[i] == run[i + 1] && kept[|raw|] == run[0];
    }
    forall i | d < i < rest ensures t.input[i].key == t.input[d].key {
      assert t.input[i] == run[i - d];
    }
  }

  /** Where an older stripe follows, the Delete is output and only the hidden versions go. */
  lemma BottommostDeleteOutput(t: Task, s: State, last: SequenceNumber, prev: SequenceNumber, rest: nat)
    requires Mid(t, s, last, prev) && !s.clearNext && last != s.snapshot
    requires t.input[s.rest].kind == Delete && t.job.Bottommost()
    requires s.rest < rest < |t.input| && TombstoneRun(t.job, t.input[s.rest..rest])
    requires t.input[rest].key == s.key && prev != 0 && t.input[rest].seqno <= prev
    ensures Inv(t, s.(rest := rest, raw := s.raw + [t.input[s.rest]]))
  {
    t.Follows(s.rest);
    var r := t.input[s.rest];
    t.RewrittenEmit(s.raw, s.rest);
    var kept, skipped := s.raw + [r], t.input[s.rest + 1..rest];
    HiddenByTombstone(t, s.raw, s.rest, rest);
    DeletedUndisciplined(t, s.rest);
    t.RewrittenSkip(kept, s.rest + 1, rest);
    SortedPrefix(kept, t.input[rest..]);
    EarliestStripe(t.job, s.seqno);
    assert IsView(t.job.snapshots, prev);
    t.ZeroableAppend(s.raw, r);
    assert kept[|s.raw|] == r;
  }

  /** A key that mixes Delete with SingleDelete is promised nothing. */
  lemma ForgetMixedDelete(t: Task, s: State, last: SequenceNumber, prev: SequenceNumber)
    requires Mid(t, s, last, prev) && t.input[s.rest].kind == SingleDelete
    ensures Mid(t, s.(shadow := None), last, prev)
  {
    if s.shadow.Some? {
      var d :| 0 <= d < |t.input| && t.input[d] == s.shadow.value;
      if t.Promised(s.key) {
        DisciplinedKinds(t.input + t.below, d);
      }
      assert UsesSingleDelete(t.input, s.key);
      t.RewrittenForget(s.raw, s.shadow.value, s.rest);
    }
  }

  lemma RepeatedSingleDeleteKeeps(t: Task, s: State, last: SequenceNumber, prev: SequenceNumber)
    requires Mid(t, s, last, prev) && s.shadow == None && !s.clearNext
    requires t.input[s.rest].kind == SingleDelete
    requires s.rest + 1 < |t.input| && t.input[s.rest + 1].key == s.key
    requires t.StripeOf(s.rest + 1) == s.snapshot && t.input[s.rest + 1].kind == SingleDelete
    ensures Inv(t, s.(rest := s.rest + 1))
  {
    t.Follows(s.rest);
    t.KeptLast(s.raw, s.shadow, s.rest);
    t.DropRepeatedSingleDelete(s.raw, s.rest);
  }

  /** A SingleDelete cancels against the Put under it. */
  lemma PairKeeps(t: Task, s: State, last: SequenceNumber, prev: SequenceNumber)
    requires Mid(t, s, last, prev) && s.shadow == None && !s.clearNext
    requires t.input[s.rest].kind == SingleDelete
    requires s.rest + 1 < |t.input| && t.input[s.rest + 1].key == s.key
    requires t.StripeOf(s.rest + 1) == s.snapshot && t.input[s.rest + 1].kind != SingleDelete
    ensures Inv(t, s.(rest := s.rest + 2))
  {
    t.Follows(s.rest);
    t.KeptLast(s.raw, s.shadow, s.rest);
    t.DropPair(s.raw, s.rest);
    if s.rest + 2 < |t.input| && t.input[s.rest + 2].key == s.key && t.Promised(s.key) {
      NothingPutUnderPair(t, s.rest);
    }
  }

  /** After a cancelled pair, a promised key goes on with a SingleDelete or not at all. */
  lemma NothingPutUnderPair(t: Task, i: nat)
    requires i + 2 < |t.input| && t.input[i].kind == SingleDelete && t.input[i + 1].kind != SingleDelete
    requires t.input[i].key == t.input[i + 1].key == t.input[i + 2].key && t.Promised(t.input[i].key)
    ensures t.input[i + 2].kind == SingleDelete
  {
    assert UsesSingleDelete(t.input, t.input[i].key);
    var history, under := t.input + t.below, t.input[i + 2..] + t.below;
    DisciplinedKinds(history, i + 1);
    DisciplinedKinds(history, i + 2);
    assert history == t.input[..i + 1] + [t.input[i + 1]] + under;
    NoPutUnderPut(t.input[..i + 1], t.input[i + 1], under);
  }

  /** A SingleDelete is output, with the Put under it to follow if that is in the same stripe. */
  lemma SingleDeleteOutput(t: Task, s: State, last: SequenceNumber, prev: SequenceNumber)
    requires Mid(t, s, last, prev) && s.shadow == None && !s.clearNext
    requires t.input[s.rest].kind == SingleDelete
    requires t.job.Bottommost() ==> s.seqno > t.job.EarliestSnapshot()
    requires s.rest + 1 < |t.input| && t.input[s.rest + 1].key == s.key && t.StripeOf(s.rest + 1) == s.snapshot ==>
               t.input[s.rest + 1].kind != SingleDelete && s.seqno > t.job.EarliestSnapshot()
    ensures Inv(t, s.(rest := s.rest + 1, raw := s.raw + [t.input[s.rest]],
                      clearNext := s.rest + 1 < |t.input| && t.input[s.rest + 1].key == s.key &&
                                   t.StripeOf(s.rest + 1) == s.snapshot))
  {
    t.Follows(s.rest);
    var r := t.input[s.rest];
    t.RewrittenEmit(s.raw, s.rest);
    SortedPrefix(s.raw + [r], t.input[s.rest + 1..]);
    var out := s.raw + [r];
    assert s.raw != [] ==> Before(out[|s.raw| - 1], out[|s.raw|]);
    t.ZeroableAppend(s.raw, r);
    assert out[|s.raw|] == r;
    assert UsesSingleDelete(t.input, s.key);
  }

  /** A SingleDelete with no more versions of its key is output or, over nothing, dropped. */
  lemma SingleDeleteEnds(t: Task, s: State, last: SequenceNumber, prev: SequenceNumber, obsolete: bool)
    requires Mid(t, s, last, prev) && s.shadow == None && !s.clearNext
    requires t.input[s.rest].kind == SingleDelete
    requires s.rest + 1 < |t.input| ==> t.input[s.rest + 1].key != s.key
    requires obsolete ==> t.job.compaction.Some? && t.job.compaction.value.KeyAbsentBelow(s.key)
    requires !obsolete && t.job.Bottommost() ==> s.seqno > t.job.EarliestSnapshot()
    ensures Inv(t, s.(rest := s.rest + 1, hasKey := false,
                      raw := if obsolete then s.raw else s.raw + [t.input[s.rest]]))
  {
    t.Follows(s.rest);
    t.KeptLast(s.raw, s.shadow, s.rest);
    if obsolete {
      t.DropLastSingleDelete(s.raw, s.rest);
    } else {
      SingleDeleteOutput(t, s, last, prev);
      assert (s.raw + [t.input[s.rest]])[|s.raw|] == t.input[s.rest];
    }
  }

  /** Cursors that fit one key of the input fit every later one. */
  lemma CursorsMove(t: Task, s: State, ptrs: seq<nat>)
    requires t.Valid() && s.rest < |t.input| && t.job.compaction.Some?
    requires t.job.compaction.value.Behind(ptrs, t.input[s.rest].key)
    ensures t.CursorsBehind(ptrs, s.rest)
  {
    forall j | s.rest <= j < |t.input| ensures t.job.compaction.value.Behind(ptrs, t.input[j].key) {
      assert j > s.rest ==> Before(t.input[s.rest], t.input[j]);
    }
  }

  /** The previous snapshot tells whether a later version of the key is in the current stripe. */
  lemma SeparatedByPrev(t: Task, s: State, last: SequenceNumber, prev: SequenceNumber, j: nat)
    requires Mid(t, s, last, prev) && s.rest < j < |t.input| && t.input[j].key == s.key
    ensures (prev == 0 || t.input[j].seqno > prev) <==> t.StripeOf(j) == s.snapshot
    ensures s.seqno <= t.job.earliestWriteConflictSnapshot || s.seqno > t.job.EarliestSnapshot()
    ensures prev != 0 ==> s.seqno > t.job.EarliestSnapshot()
  {
    assert Before(t.input[s.rest], t.input[j]);
    PrevSeparates(t.job, s.seqno, prev, t.input[j].seqno);
    EarliestStripe(t.job, s.seqno);
    assert prev != 0 ==> IsView(t.job.snapshots, prev);
  }

  lemma RunOfTombstone(t: Task, s: State, last: SequenceNumber, prev: SequenceNumber, rest: nat)
    requires Mid(t, s, last, prev) && t.input[s.rest].kind != Put && s.rest < rest <= |t.input|
    requires forall j :: s.rest < j < rest ==>
               t.input[j].key == s.key && (prev == 0 || t.input[j].seqno > prev)
    ensures TombstoneRun(t.job, t.input[s.rest..rest])
  {
    var run := t.input[s.rest..rest];
    forall i | 0 < i < |run|
      ensures run[i].key == run[0].key && Stripe(t.job.snapshots, run[i].seqno) == s.snapshot
    {
      assert run[i] == t.input[s.rest + i];
      SeparatedByPrev(t, s, last, prev, s.rest + i);
    }
  }
}
