/** The iterator that rewrites a sorted stream of versions into the output of a compaction. */
module CompactionIterators {
  import opened Records
  import opened SnapshotStripes
  import opened Compaction
  import opened Compactable
  import opened Rewriting
  import opened CompactionSteps
  import opened ConflictChecks
  import opened Surviving

  /** Input from `rest` on has been used up for at most one output, and every invariant holds. */
  ghost predicate Advances(t: Task, raw: seq<Record>, rest: nat, s: State) {
    Inv(t, s) && Attends(t, raw, s.raw, rest, s.rest) && Stands(t, s.raw, s.rest, s.clearNext)
  }

  /** The invariants between records. */
  ghost predicate Sound(t: Task, s: State) {
    Inv(t, s) && ShownSoFar(t, s.raw, s.rest) && Stands(t, s.raw, s.rest, s.clearNext)
  }

  lemma AdvancesSound(t: Task, s: State, s': State)
    requires Sound(t, s) && Advances(t, s.raw, s.rest, s')
    ensures Sound(t, s')
  {
    AttendsShows(t, s.raw, s'.raw, s.rest, s'.rest);
  }

  /** The step that puts out a SingleDelete over an older version. */
  lemma SingleDeleteAdvances(t: Task, s: State, last: SequenceNumber, prev: SequenceNumber, clearNext: bool)
    requires Mid(t, s, last, prev) && Stands(t, s.raw, s.rest, false) && !s.clearNext && s.shadow == None
    requires t.input[s.rest].kind == SingleDelete && HasOlder(t, s.rest)
    requires t.input[s.rest].seqno > t.job.EarliestSnapshot()
    requires clearNext <==> t.StripeOf(s.rest) == t.StripeOf(s.rest + 1)
    requires clearNext ==> && t.input[s.rest + 1].kind != SingleDelete && Late(t, t.input[s.rest])
                           && !OnRecord(s.raw, t.input[s.rest].key)
    ensures Advances(t, s.raw, s.rest, s.(rest := s.rest + 1, raw := s.raw + [t.input[s.rest]], clearNext := clearNext))
  {
    OutputOneAttends(t, s.raw, t.input[s.rest], s.rest);
    assert Inv(t, s.(rest := s.rest + 1, raw := s.raw + [t.input[s.rest]], clearNext := clearNext)) by {
      SingleDeleteOutput(t, s, last, prev);
    }
    SingleDeleteStands(t, s.raw, s.rest, clearNext);
  }

  /** The step that puts out a SingleDelete with no older version after it. */
  lemma LastSingleDeleteAdvances(t: Task, s: State, last: SequenceNumber, prev: SequenceNumber)
    requires Mid(t, s, last, prev) && Stands(t, s.raw, s.rest, false) && !s.clearNext && s.shadow == None
    requires t.input[s.rest].kind == SingleDelete && !HasOlder(t, s.rest) && !OverNothing(t, s.rest)
    requires t.job.Bottommost() ==> t.input[s.rest].seqno > t.job.EarliestSnapshot()
    ensures Advances(t, s.raw, s.rest, s.(rest := s.rest + 1, raw := s.raw + [t.input[s.rest]], hasKey := false))
  {
    OutputOneAttends(t, s.raw, t.input[s.rest], s.rest);
    SingleDeleteEnds(t, s, last, prev, false);
    LastSingleDeleteStands(t, s.raw, s.rest);
  }

  /** The step that puts out a record as it is. */
  lemma RecordAdvances(t: Task, s: State, last: SequenceNumber, prev: SequenceNumber)
    requires Mid(t, s, last, prev) && Stands(t, s.raw, s.rest, false) && !s.clearNext && last != s.snapshot
    requires t.input[s.rest].kind != SingleDelete && !SharesStripe(t, s.rest)
    requires !Obsolete(t, s.rest) && !Sweeps(t, s.rest) && !Vanishes(t, s.rest)
    requires t.job.ZeroesSequence(t.input[s.rest]) ==> t.input[s.rest].kind == Put
    ensures Advances(t, s.raw, s.rest, s.(rest := s.rest + 1, raw := s.raw + [t.input[s.rest]]))
  {
    OutputKeeps(t, s, last, prev);
    OutputOneAttends(t, s.raw, t.input[s.rest], s.rest);
    VisibleStands(t, s.raw, s.rest);
  }

  /** The step past a record that a newer version hides. */
  lemma HiddenAdvances(t: Task, s: State, last: SequenceNumber, prev: SequenceNumber) returns (shadow: Option<Record>)
    requires Mid(t, s, last, prev) && Stands(t, s.raw, s.rest, false) && !s.clearNext && last == s.snapshot
    requires t.input[s.rest].kind != SingleDelete && SharesStripe(t, s.rest)
    ensures Advances(t, s.raw, s.rest, s.(rest := s.rest + 1, shadow := shadow))
  {
    shadow := HiddenKeeps(t, s, last, prev);
    DropAttends(t, s.raw, s.rest);
    HiddenStands(t, s.raw, s.rest);
  }

  class CompactionIterator {
    const job: Job
    const input: seq<Record>

    var pos: nat                  // where the input iterator stands
    var valid: bool
    var ikey: Record              // the current output, or the record being looked at
    var hasCurrentUserKey: bool
    var atNext: bool              // the input already stands past the current output
    var currentUserKey: UserKey
    var currentUserKeySequence: SequenceNumber
    var currentUserKeySnapshot: SequenceNumber
    var hasOutputtedKey: bool
    var clearAndOutputNextKey: bool
    var levelPtrs: seq<nat>

    ghost const below: seq<Record>
    ghost var raw: seq<Record>
    ghost var shadow: Option<Record>

    ghost function Env(): Task {
      Task(job, input, below)
    }

    ghost function View(rest: nat): State
      reads this
    {
      State(raw, shadow, rest, levelPtrs, hasCurrentUserKey, currentUserKey,
            currentUserKeySequence, currentUserKeySnapshot, clearAndOutputNextKey)
    }

    /** The input consumed by the outputs so far, the current one included. */
    ghost function Rest(): nat
      reads this
    {
      if valid && !atNext then pos + 1 else pos
    }

    /** Input from `from` on has been used up for at most one output, and the invariant holds. */
    ghost predicate Processed(from: nat, before: seq<Record>)
      reads this
    {
      && Advances(Env(), before, from, View(Rest())) && (atNext ==> valid)
      && raw == (if valid then before + [ikey] else before)
      && (!hasCurrentUserKey && Rest() < |input| ==> Newest(Env(), Rest()))
    }

    /** The key in hand is that of the last record used up, and its outputs are on record. */
    ghost predicate Tracks(rest: nat, outputted: bool)
      requires Ascending(job.snapshots)
      reads this
    {
      if hasCurrentUserKey then
        && 0 < rest <= |input| && input[rest - 1].key == currentUserKey
        && currentUserKeySnapshot == Env().StripeOf(rest - 1)
        && (outputted <==> OnRecord(raw, currentUserKey))
      else
        rest < |input| ==> Newest(Env(), rest)
    }

    /** The record in hand has been read, and `last` is what is remembered of the stripe before it. */
    ghost predicate Taken(last: SequenceNumber)
      requires Ascending(job.snapshots)
      reads this
    {
      && pos < |input| && ikey == input[pos] && hasCurrentUserKey && currentUserKey == ikey.key
      && (last == currentUserKeySnapshot <==> SharesStripe(Env(), pos))
      && (hasOutputtedKey <==> OnRecord(raw, ikey.key))
    }

    /** What is known of the record in hand beside `Mid`. */
    ghost predicate InHand(last: SequenceNumber)
      requires Ascending(job.snapshots)
      reads this
    {
      Taken(last) && Stands(Env(), raw, pos, clearAndOutputNextKey)
    }

    /** The invariant between calls: the current output is the last one recorded. */
    ghost predicate Valid()
      reads this
    {
      && Sound(Env(), View(Rest())) && Tracks(Rest(), hasOutputtedKey)
      && (valid ==> raw != [] && ikey == job.PrepareOutput(raw[|raw| - 1]))
    }

    constructor (job: Job, input: seq<Record>, ghost below: seq<Record>)
      requires Task(job, input, below).Valid()
      ensures this.job == job && this.input == input && this.below == below
      ensures Valid() && !valid && pos == 0 && raw == []
    {
      this.job, this.input, this.below := job, input, below;
      pos, valid, atNext := 0, false, false;
      ikey := Record(0, 0, Put, "");
      hasCurrentUserKey, hasOutputtedKey, clearAndOutputNextKey := false, false, false;
      currentUserKey, currentUserKeySequence, currentUserKeySnapshot := 0, 0, 0;
      levelPtrs := if job.compaction.Some? then seq(|job.compaction.value.levels|, _ => 0) else [];
      raw, shadow := [], None;
      new;
      assert Kept(raw, shadow) + input[0..] == input;
    }

    method FindStripe() returns (snapshot: SequenceNumber, prev: SequenceNumber)
      requires Ascending(job.snapshots)
      ensures snapshot == Stripe(job.snapshots, ikey.seqno)
      ensures prev == 0 || (prev in job.snapshots && prev < ikey.seqno)
      ensures forall s :: s in job.snapshots && s < ikey.seqno ==> s <= prev
    {
      if job.snapshots == [] {
        snapshot, prev := job.EarliestSnapshot(), 0;
      } else {
        snapshot, prev := FindEarliestVisibleSnapshot(job.snapshots, ikey.seqno);
      }
    }

    /** Reads record `pos`; with a new key, what is remembered of the last one is forgotten. */
    method TakeKey()
      requires Inv(Env(), View(pos)) && pos < |input| && Tracks(pos, hasOutputtedKey)
      modifies `ikey, `hasCurrentUserKey, `hasOutputtedKey
      modifies `currentUserKey, `currentUserKeySequence, `currentUserKeySnapshot
      ensures ikey == input[pos] && hasCurrentUserKey && currentUserKey == ikey.key
      ensures currentUserKeySnapshot == if old(hasCurrentUserKey && currentUserKey == input[pos].key)
                                        then old(currentUserKeySnapshot) else 0
      ensures currentUserKeySnapshot == if Newest(Env(), pos) then 0 else Env().StripeOf(pos - 1)
      ensures hasOutputtedKey <==> OnRecord(raw, ikey.key)
    {
      ikey := input[pos];
      if !hasCurrentUserKey || ikey.key != currentUserKey {
        currentUserKey := ikey.key;
        hasCurrentUserKey := true;
        hasOutputtedKey := false;
        currentUserKeySequence := MAX_SEQUENCE;
        currentUserKeySnapshot := 0;
      }
    }

    /** Takes up record `pos` and finds the snapshot stripe it belongs to. */
    method TakeRecord() returns (last: SequenceNumber, prev: SequenceNumber)
      requires Inv(Env(), View(pos)) && pos < |input| && job.InRange(input[pos].key) && Tracks(pos, hasOutputtedKey)
      modifies `ikey, `hasCurrentUserKey, `hasOutputtedKey
      modifies `currentUserKey, `currentUserKeySequence, `currentUserKeySnapshot
      ensures Mid(Env(), View(pos), last, prev) && Taken(last)
    {
      ghost var s := View(pos);
      TakeKey();
      last := currentUserKeySnapshot;
      currentUserKeySequence := ikey.seqno;
      currentUserKeySnapshot, prev := FindStripe();
      TakeUp(Env(), s, View(pos), last, prev);
      Env().StripePositive(pos);
    }

    /** Asks about the current key in the deeper levels, moving the cursors. */
    method AskBelow(ghost last: SequenceNumber, ghost prev: SequenceNumber) returns (absent: bool)
      requires Mid(Env(), View(pos), last, prev) && InHand(last) && job.compaction.Some?
      modifies `levelPtrs
      ensures Mid(Env(), View(pos), last, prev)
      ensures absent <==> job.compaction.value.KeyAbsentBelow(ikey.key)
    {
      absent, levelPtrs := KeyNotExistsBeyondOutputLevel(job.compaction.value, ikey.key, levelPtrs);
      CursorsMove(Env(), View(pos), levelPtrs);
    }

    /** Peeks at the record after a SingleDelete and drops or outputs what that allows. */
    method CompactSingleDeletion(ghost last: SequenceNumber, prev: SequenceNumber)
      requires Mid(Env(), View(pos), last, prev) && InHand(last) && ikey.kind == SingleDelete
      requires !clearAndOutputNextKey && !valid && !atNext
      modifies `pos, `valid, `atNext, `raw, `shadow, `hasCurrentUserKey, `clearAndOutputNextKey, `levelPtrs
      ensures Processed(old(pos), old(raw))
    {
      ForgetShadow(last, prev);
      if pos + 1 < |input| && input[pos + 1].key == ikey.key {
        PairSingleDeletion(last, prev);
      } else {
        EndSingleDeletion(last, prev);
      }
      StandPast();
    }

    /** A SingleDelete of a key that has a Delete before it: the Delete need not be remembered. */
    ghost method ForgetShadow(last: SequenceNumber, prev: SequenceNumber)
      requires Mid(Env(), View(pos), last, prev) && InHand(last) && ikey.kind == SingleDelete && !clearAndOutputNextKey
      modifies `shadow
      ensures Mid(Env(), View(pos), last, prev) && InHand(last) && shadow == None
    {
      ghost var s := View(pos);
      ForgetMixedDelete(Env(), s, last, prev);
      shadow := None;
      assert View(pos) == s.(shadow := None);
    }

    /** The input stands past the output, if there is one. */
    method StandPast()
      requires !atNext
      modifies `atNext
      ensures Rest() == pos && View(pos) == old(View(pos)) && atNext == valid
    {
      if valid {
        atNext := true;
      }
    }

    /** The record after the SingleDelete is an older version of the same key. */
    method PairSingleDeletion(ghost last: SequenceNumber, prev: SequenceNumber)
      requires Mid(Env(), View(pos), last, prev) && InHand(last) && ikey.kind == SingleDelete
      requires !clearAndOutputNextKey && !valid && shadow == None
      requires pos + 1 < |input| && input[pos + 1].key == ikey.key
      modifies `pos, `valid, `raw, `clearAndOutputNextKey
      ensures pos > old(pos) && Advances(Env(), old(raw), old(pos), View(pos))
      ensures raw == if valid then old(raw) + [ikey] else old(raw)
    {
      var next := input[pos + 1];
      SeparatedByPrev(Env(), View(pos), last, prev, pos + 1);
      if prev == 0 || next.seqno > prev {
        if next.kind == SingleDelete {
          SkipRepeated(last, prev);
        } else if hasOutputtedKey || ikey.seqno <= job.earliestWriteConflictSnapshot {
          CancelPair(last, prev);
        } else {
          OutputSingleDeletion(last, prev, true);
        }
      } else {
        OutputSingleDeletion(last, prev, false);
      }
    }

    /** Of two SingleDeletes the older one is looked at next. */
    method SkipRepeated(ghost last: SequenceNumber, ghost prev: SequenceNumber)
      requires Mid(Env(), View(pos), last, prev) && InHand(last) && ikey.kind == SingleDelete
      requires !clearAndOutputNextKey && shadow == None && pos + 1 < |input| && input[pos + 1].key == ikey.key
      requires Env().StripeOf(pos + 1) == currentUserKeySnapshot && input[pos + 1].kind == SingleDelete
      modifies `pos
      ensures pos == old(pos) + 1 && Advances(Env(), raw, old(pos), View(pos))
    {
      ghost var s := View(pos);
      RepeatedStands(Env(), raw, pos);
      RepeatedSingleDeleteKeeps(Env(), s, last, prev);
      RepeatAttends(Env(), raw, pos);
      pos := pos + 1;
      assert View(pos) == s.(rest := pos);
    }

    /** A SingleDelete and the Put under it go. */
    method CancelPair(ghost last: SequenceNumber, ghost prev: SequenceNumber)
      requires Mid(Env(), View(pos), last, prev) && InHand(last) && ikey.kind == SingleDelete
      requires !clearAndOutputNextKey && shadow == None && pos + 1 < |input| && input[pos + 1].key == ikey.key
      requires Env().StripeOf(pos + 1) == currentUserKeySnapshot && input[pos + 1].kind != SingleDelete
      requires hasOutputtedKey || ikey.seqno <= job.earliestWriteConflictSnapshot
      modifies `pos
      ensures pos == old(pos) + 2 && Advances(Env(), raw, old(pos), View(pos))
    {
      ghost var s := View(pos);
      PairStands(Env(), raw, pos);
      PairAttends(Env(), raw, pos);
      PairKeeps(Env(), s, last, prev);
      pos := pos + 2;
      assert View(pos) == s.(rest := pos);
    }

    method OutputSingleDeletion(ghost last: SequenceNumber, ghost prev: SequenceNumber, clearNext: bool)
      requires Mid(Env(), View(pos), last, prev) && InHand(last) && ikey.kind == SingleDelete
      requires !clearAndOutputNextKey && !valid && shadow == None
      requires pos + 1 < |input| && input[pos + 1].key == ikey.key
      requires ikey.seqno > job.EarliestSnapshot()
      requires clearNext <==> Env().StripeOf(pos + 1) == currentUserKeySnapshot
      requires clearNext ==> input[pos + 1].kind != SingleDelete && !hasOutputtedKey && Late(Env(), ikey)
      modifies `pos, `valid, `raw, `clearAndOutputNextKey
      ensures pos == old(pos) + 1 && Advances(Env(), old(raw), old(pos), View(pos))
      ensures valid && raw == old(raw) + [ikey]
    {
      ghost var s' := View(pos).(rest := pos + 1, raw := raw + [ikey], clearNext := clearNext);
      SingleDeleteAdvances(Env(), View(pos), last, prev, clearNext);
      pos, valid, raw, clearAndOutputNextKey := pos + 1, true, raw + [ikey], clearNext;
      assert View(pos) == s';
    }

    /** A SingleDelete older than every snapshot over nothing. */
    method SingleDeletionIsObsolete(ghost last: SequenceNumber, ghost prev: SequenceNumber) returns (obsolete: bool)
      requires Mid(Env(), View(pos), last, prev) && InHand(last)
      modifies `levelPtrs
      ensures Mid(Env(), View(pos), last, prev)
      ensures obsolete <==>
                && job.compaction.Some? && ikey.seqno <= job.EarliestSnapshot()
                && job.compaction.value.KeyAbsentBelow(ikey.key)
    {
      obsolete := false;
      if job.compaction.Some? && ikey.seqno <= job.EarliestSnapshot() {
        obsolete := AskBelow(last, prev);
      }
    }

    /** No older version of the key follows the SingleDelete in the input. */
    method EndSingleDeletion(ghost last: SequenceNumber, ghost prev: SequenceNumber)
      requires Mid(Env(), View(pos), last, prev) && InHand(last) && ikey.kind == SingleDelete
      requires !clearAndOutputNextKey && !valid && shadow == None
      requires pos + 1 < |input| ==> input[pos + 1].key != ikey.key
      modifies `pos, `valid, `raw, `hasCurrentUserKey, `levelPtrs
      ensures pos > old(pos) && Advances(Env(), old(raw), old(pos), View(pos))
      ensures raw == if valid then old(raw) + [ikey] else old(raw)
      ensures !clearAndOutputNextKey && (pos < |input| ==> Newest(Env(), pos))
    {
      var obsolete := SingleDeletionIsObsolete(last, prev);
      if obsolete {
        DropLastSingleDeletion(last, prev);
      } else {
        OutputLastSingleDeletion(last, prev);
      }
    }

    method DropLastSingleDeletion(ghost last: SequenceNumber, ghost prev: SequenceNumber)
      requires Mid(Env(), View(pos), last, prev) && InHand(last) && ikey.kind == SingleDelete
      requires !clearAndOutputNextKey && shadow == None && (pos + 1 < |input| ==> input[pos + 1].key != ikey.key)
      requires job.compaction.Some? && ikey.seqno <= job.EarliestSnapshot()
      requires job.compaction.value.KeyAbsentBelow(ikey.key)
      modifies `pos, `hasCurrentUserKey
      ensures pos == old(pos) + 1 && Advances(Env(), raw, old(pos), View(pos))
    {
      ghost var s := View(pos);
      LastSingleDeleteStands(Env(), raw, pos);
      OldAttends(Env(), raw, pos);
      SingleDeleteEnds(Env(), s, last, prev, true);
      hasCurrentUserKey, pos := false, pos + 1;
      assert View(pos) == s.(rest := pos, hasKey := false);
    }

    method OutputLastSingleDeletion(ghost last: SequenceNumber, ghost prev: SequenceNumber)
      requires Mid(Env(), View(pos), last, prev) && InHand(last) && ikey.kind == SingleDelete
      requires !clearAndOutputNextKey && shadow == None && (pos + 1 < |input| ==> input[pos + 1].key != ikey.key)
      requires job.Bottommost() ==> ikey.seqno > job.EarliestSnapshot()
      requires !OverNothing(Env(), pos)
      modifies `pos, `valid, `raw, `hasCurrentUserKey
      ensures pos == old(pos) + 1 && Advances(Env(), old(raw), old(pos), View(pos))
      ensures valid && raw == old(raw) + [ikey]
    {
      ghost var s' := View(pos).(rest := pos + 1, hasKey := false, raw := raw + [ikey]);
      LastSingleDeleteAdvances(Env(), View(pos), last, prev);
      hasCurrentUserKey, pos, valid, raw := false, pos + 1, true, raw + [ikey];
      assert View(pos) == s';
    }

    /**
     * A Delete newer than the earliest snapshot at the bottommost level: everything it hides is
     * skipped, and the Delete itself is output only if an older version has to stay.
     */
    method SkipBottommostDeletion(ghost last: SequenceNumber, prev: SequenceNumber)
      requires Mid(Env(), View(pos), last, prev) && InHand(last) && ikey.kind == Delete
      requires !clearAndOutputNextKey && last != currentUserKeySnapshot && job.Bottommost()
      requires !valid && !atNext && job.NotNeededForIncrementalSnapshot(ikey) && !Obsolete(Env(), pos)
      modifies `pos, `valid, `atNext, `raw
      ensures Processed(old(pos), old(raw))
    {
      var rest := SkipHidden(prev);
      RunOfTombstone(Env(), View(pos), last, prev, rest);
      if rest < |input| && input[rest].key == ikey.key {
        OutputBottommostDeletion(last, prev, rest);
      } else {
        DropBottommostDeletion(last, prev, rest);
      }
    }

    method OutputBottommostDeletion(ghost last: SequenceNumber, ghost prev: SequenceNumber, rest: nat)
      requires Mid(Env(), View(pos), last, prev) && InHand(last) && ikey.kind == Delete
      requires !clearAndOutputNextKey && last != currentUserKeySnapshot && job.Bottommost() && !valid
      requires pos < rest < |input| && TombstoneRun(job, input[pos..rest]) && input[rest].key == ikey.key
      requires prev != 0 && input[rest].seqno <= prev
      requires job.NotNeededForIncrementalSnapshot(ikey) && !Obsolete(Env(), pos)
      modifies `pos, `valid, `atNext, `raw
      ensures Processed(old(pos), old(raw))
    {
      ghost var s := View(pos);
      BottommostDeleteOutput(Env(), s, last, prev, rest);
      SeparatedByPrev(Env(), s, last, prev, rest);
      DeleteAttends(Env(), raw, pos, rest);
      SweepStands(Env(), raw, pos, rest);
      pos, valid, atNext, raw := rest, true, true, raw + [ikey];
      assert View(pos) == s.(rest := rest, raw := s.raw + [ikey]);
    }

    method DropBottommostDeletion(ghost last: SequenceNumber, ghost prev: SequenceNumber, rest: nat)
      requires Mid(Env(), View(pos), last, prev) && InHand(last) && ikey.kind == Delete
      requires !clearAndOutputNextKey && last != currentUserKeySnapshot && job.Bottommost() && !valid && !atNext
      requires job.NotNeededForIncrementalSnapshot(ikey) && !Obsolete(Env(), pos)
      requires pos < rest <= |input| && TombstoneRun(job, input[pos..rest]) && (rest < |input| ==> input[rest].key != ikey.key)
      modifies `pos
      ensures Processed(old(pos), old(raw))
    {
      ghost var s := View(pos);
      BottommostDeleteDropped(Env(), s, last, prev, rest);
      VanishAttends(Env(), raw, pos, rest);
      SweepStands(Env(), raw, pos, rest);
      pos := rest;
      assert View(pos) == s.(rest := rest);
    }

    /** Skips the versions of the current key that are newer than the previous snapshot. */
    method SkipHidden(prev: SequenceNumber) returns (rest: nat)
      requires pos < |input|
      ensures pos < rest <= |input|
      ensures forall j :: pos < j < rest ==> input[j].key == ikey.key && (prev == 0 || input[j].seqno > prev)
      ensures rest < |input| && input[rest].key == ikey.key ==> prev != 0 && input[rest].seqno <= prev
    {
      rest := pos + 1;
      while rest < |input| && input[rest].key == ikey.key && (prev == 0 || input[rest].seqno > prev)
        invariant pos < rest <= |input|
        invariant forall j :: pos < j < rest ==> input[j].key == ikey.key && (prev == 0 || input[j].seqno > prev)
      {
        rest := rest + 1;
      }
    }

    /** Takes up record `pos` and applies the first rule that fits it. */
    method ProcessRecord()
      requires Inv(Env(), View(pos)) && pos < |input| && job.InRange(input[pos].key) && !valid && !atNext
      requires Tracks(pos, hasOutputtedKey) && Stands(Env(), raw, pos, clearAndOutputNextKey)
      modifies this
      ensures Processed(old(pos), old(raw)) && Tracks(Rest(), hasOutputtedKey || (valid && |raw| > 1))
    {
      var last, prev := TakeRecord();
      ApplyRule(last, prev);
      ProcessedTracks(old(pos), old(raw));
    }

    lemma ProcessedTracks(from: nat, before: seq<Record>)
      requires Processed(from, before) && from < |input|
      requires currentUserKey == input[from].key && currentUserKeySnapshot == Env().StripeOf(from)
      requires hasOutputtedKey <==> OnRecord(before, input[from].key)
      ensures Tracks(Rest(), hasOutputtedKey || (valid && |raw| > 1))
    {
    }

    method ApplyRule(last: SequenceNumber, prev: SequenceNumber)
      requires Mid(Env(), View(pos), last, prev) && InHand(last) && !valid && !atNext
      modifies `pos, `valid, `ikey, `atNext, `raw, `shadow, `hasCurrentUserKey, `clearAndOutputNextKey, `levelPtrs
      ensures Processed(old(pos), old(raw))
    {
      if clearAndOutputNextKey {
        ClearAndOutput(last, prev);
      } else if ikey.kind == SingleDelete {
        CompactSingleDeletion(last, prev);
      } else if last == currentUserKeySnapshot {
        DropHidden(last, prev);
      } else {
        ProcessVisible(last, prev);
      }
    }

    method ClearAndOutput(ghost last: SequenceNumber, ghost prev: SequenceNumber)
      requires Mid(Env(), View(pos), last, prev) && InHand(last)
      requires clearAndOutputNextKey && !valid && !atNext
      modifies `ikey, `valid, `raw, `clearAndOutputNextKey
      ensures Processed(old(pos), old(raw)) && valid
    {
      ghost var s := View(pos);
      assert currentUserKeySnapshot == last;
      OutputOneAttends(Env(), raw, ikey.(value := ""), pos);
      ClearKeeps(Env(), s, last, prev);
      ClearStands(Env(), raw, pos);
      assert Env().Promised(ikey.key) ==> ikey.kind == Put;
      ghost var s' := s.(rest := pos + 1, raw := raw + [ikey.(value := "")], clearNext := false);
      ikey := ikey.(value := "");
      valid, clearAndOutputNextKey, raw := true, false, raw + [ikey];
      assert View(Rest()) == s';
    }

    method DropHidden(ghost last: SequenceNumber, ghost prev: SequenceNumber)
      requires Mid(Env(), View(pos), last, prev) && InHand(last)
      requires !clearAndOutputNextKey && ikey.kind != SingleDelete && last == currentUserKeySnapshot && !valid && !atNext
      modifies `pos, `shadow
      ensures Processed(old(pos), old(raw))
    {
      ghost var s := View(pos);
      shadow := HiddenAdvances(Env(), s, last, prev);
      pos := pos + 1;
      assert View(pos) == s.(rest := pos, shadow := shadow);
    }

    method DropObsoleteDeletion(ghost last: SequenceNumber, ghost prev: SequenceNumber)
      requires Mid(Env(), View(pos), last, prev) && InHand(last)
      requires !clearAndOutputNextKey && ikey.kind == Delete && last != currentUserKeySnapshot
      requires ikey.seqno <= job.EarliestSnapshot()
      requires job.compaction.Some? && job.compaction.value.KeyAbsentBelow(ikey.key) && !valid && !atNext
      requires job.NotNeededForIncrementalSnapshot(ikey)
      modifies `pos, `shadow
      ensures Processed(old(pos), old(raw))
    {
      ghost var s := View(pos);
      shadow := ObsoleteDeleteKeeps(Env(), s, last, prev);
      OldAttends(Env(), raw, pos);
      VisibleStands(Env(), raw, pos);
      pos := pos + 1;
      assert View(pos) == s.(rest := pos, shadow := shadow);
    }

    /** A Delete older than every snapshot over nothing, and not kept for incremental snapshots. */
    method DeletionIsObsolete(ghost last: SequenceNumber, ghost prev: SequenceNumber) returns (obsolete: bool)
      requires Mid(Env(), View(pos), last, prev) && InHand(last)
      modifies `levelPtrs
      ensures Mid(Env(), View(pos), last, prev)
      ensures obsolete <==>
                && job.compaction.Some? && ikey.kind == Delete && ikey.seqno <= job.EarliestSnapshot()
                && job.NotNeededForIncrementalSnapshot(ikey)
                && job.compaction.value.KeyAbsentBelow(ikey.key)
    {
      obsolete := false;
      if job.compaction.Some? && ikey.kind == Delete && ikey.seqno <= job.EarliestSnapshot() &&
         job.NotNeededForIncrementalSnapshot(ikey) {
        obsolete := AskBelow(last, prev);
      }
    }

    /** A record no newer version hides: obsolete Deletes go, the rest is output. */
    method ProcessVisible(ghost last: SequenceNumber, prev: SequenceNumber)
      requires Mid(Env(), View(pos), last, prev) && InHand(last) && ikey.kind != SingleDelete
      requires !clearAndOutputNextKey && last != currentUserKeySnapshot && !valid && !atNext
      modifies `pos, `valid, `atNext, `raw, `shadow, `levelPtrs
      ensures Processed(old(pos), old(raw))
    {
      var obsolete := DeletionIsObsolete(last, prev);
      if obsolete {
        DropObsoleteDeletion(last, prev);
      } else if ikey.kind == Delete && job.Bottommost() && job.NotNeededForIncrementalSnapshot(ikey) {
        SkipBottommostDeletion(last, prev);
      } else {
        OutputRecord(last, prev);
      }
    }

    method OutputRecord(ghost last: SequenceNumber, ghost prev: SequenceNumber)
      requires Mid(Env(), View(pos), last, prev) && InHand(last) && ikey.kind != SingleDelete
      requires !clearAndOutputNextKey && last != currentUserKeySnapshot && !valid && !atNext
      requires job.ZeroesSequence(ikey) ==> ikey.kind == Put
      requires !(ikey.kind == Delete && job.Bottommost() && job.NotNeededForIncrementalSnapshot(ikey))
      requires !Obsolete(Env(), pos)
      modifies `valid, `raw
      ensures Processed(old(pos), old(raw)) && valid
    {
      ghost var s' := View(pos).(rest := pos + 1, raw := raw + [ikey]);
      RecordAdvances(Env(), View(pos), last, prev);
      valid, raw := true, raw + [ikey];
      assert View(Rest()) == s';
    }

    /** Consumes input until there is something to output, or none is left in the range. */
    method NextFromInput()
      requires Sound(Env(), View(pos)) && Tracks(pos, hasOutputtedKey)
      modifies this
      ensures Sound(Env(), View(Rest())) && (atNext ==> valid)
      ensures Tracks(Rest(), hasOutputtedKey || (valid && |raw| > 1))
      ensures raw == if valid then old(raw) + [ikey] else old(raw)
      ensures Rest() >= old(pos) && (valid ==> Rest() > old(pos))
      ensures !valid && pos < |input| ==> !job.InRange(input[pos].key)
    {
      atNext, valid := false, false;
      while !valid && pos < |input|
        invariant Sound(Env(), View(Rest())) && (atNext ==> valid)
        invariant Tracks(Rest(), hasOutputtedKey || (valid && |raw| > 1))
        invariant raw == if valid then old(raw) + [ikey] else old(raw)
        invariant Rest() >= old(pos) && (valid ==> Rest() > old(pos))
        decreases |input| - Rest(), !valid
      {
        if !job.InRange(input[pos].key) {
          break;
        }
        ghost var s := View(pos);
        ProcessRecord();
        AdvancesSound(Env(), s, View(Rest()));
      }
    }

    /** Leaves the record of the current output, unless the input already stands past it. */
    method StepPast()
      requires Valid() && valid
      modifies `pos
      ensures pos == old(Rest()) && View(pos) == old(View(Rest()))
    {
      if !atNext {
        pos := pos + 1;
      }
    }

    method MarkOutput()
      requires Ascending(job.snapshots) && Tracks(Rest(), true)
      modifies `hasOutputtedKey
      ensures Tracks(Rest(), hasOutputtedKey) && View(Rest()) == old(View(Rest()))
    {
      hasOutputtedKey := true;
    }

    /** Zeroes the sequence number of an output that every view of the bottommost level sees. */
    method PrepareOutput()
      requires valid && raw != [] && ikey == raw[|raw| - 1] && Sound(Env(), View(Rest()))
      modifies `ikey
      ensures ikey == job.PrepareOutput(raw[|raw| - 1]) && View(Rest()) == old(View(Rest()))
    {
      if job.ZeroesSequence(ikey) {
        assert ikey.kind == Put;
        ikey := ikey.(seqno := 0);
      }
    }

    method SeekToFirst()
      requires Valid() && !valid && pos == 0 && raw == []
      modifies this
      ensures Valid() && |raw| == if valid then 1 else 0
      ensures !valid && pos < |input| ==> !job.InRange(input[pos].key)
    {
      NextFromInput();
      if valid {
        PrepareOutput();
      }
    }

    method Next()
      requires Valid() && valid
      modifies this
      ensures Valid() && Rest() >= old(Rest()) && (valid ==> Rest() > old(Rest()))
      ensures old(raw) <= raw && |raw| == |old(raw)| + if valid then 1 else 0
      ensures !valid && pos < |input| ==> !job.InRange(input[pos].key)
    {
      StepPast();
      NextFromInput();
      if valid {
        MarkOutput();
        PrepareOutput();
      }
    }
  }
}
