/** Which versions of a key a compaction leaves: of a key never removed by SingleDelete, and of a disciplined one. */
module SurvivingVersions {
  import opened Records
  import opened SnapshotStripes
  import opened Compaction
  import opened Compactable
  import opened Rewriting
  import opened ConflictChecks
  import opened Surviving

  /** Version `j` is a newer one of the key of version `i`. */
  predicate NewerThan(t: Task, j: nat, i: nat) {
    j < i < |t.input| && t.input[j].key == t.input[i].key
  }

  /** What lies between two versions of a key in the input is of that key, and in stripes between theirs. */
  lemma Between(t: Task, j: nat, m: nat, i: nat)
    requires Ascending(t.job.snapshots) && Sorted(t.input) && NewerThan(t, j, i) && j <= m <= i
    ensures t.input[m].key == t.input[i].key
    ensures t.StripeOf(j) == t.StripeOf(i) ==> t.StripeOf(m) == t.StripeOf(i)
  {
    KeysAscend(t, j, m);
    KeysAscend(t, m, i);
    assert j < m ==> Before(t.input[j], t.input[m]);
    assert m < i ==> Before(t.input[m], t.input[i]);
  }

  lemma SharesStripeIff(t: Task, i: nat)
    requires Ascending(t.job.snapshots) && Sorted(t.input) && i < |t.input|
    ensures SharesStripe(t, i) <==> exists j :: NewerThan(t, j, i) && t.StripeOf(j) == t.StripeOf(i)
  {
    if SharesStripe(t, i) {
      assert NewerThan(t, i - 1, i);
    }
    if j :| NewerThan(t, j, i) && t.StripeOf(j) == t.StripeOf(i) {
      Between(t, j, i - 1, i);
    }
  }

  /** Of a key with no SingleDelete, a version goes only if hidden, or if it is a Delete over nothing. */
  lemma PlainVersionSurvives(t: Task, i: nat)
    requires Ascending(t.job.snapshots) && Sorted(t.input) && i < |t.input|
    requires t.job.InRange(t.input[i].key) && !UsesSingleDelete(t.input, t.input[i].key)
    ensures Outcome(t, i) == t.input[i]
    ensures Survives(t, i) <==>
              && (forall j :: NewerThan(t, j, i) ==> t.StripeOf(j) != t.StripeOf(i))
              && !Obsolete(t, i)
              && !(&& t.input[i].kind == Delete && t.job.Bottommost()
                   && t.job.NotNeededForIncrementalSnapshot(t.input[i]) && !HasOlderStripe(t, i))
  {
    SharesStripeIff(t, i);
    assert t.input[i].kind != SingleDelete && !UnderSingleDelete(t, i);
  }

  // ---- Keys removed by SingleDelete

  lemma {:induction false} HeadIs(t: Task, i: nat)
    requires Ascending(t.job.snapshots) && i < |t.input|
    ensures t.input[Head(t, i)].key == t.input[i].key && t.StripeOf(Head(t, i)) == t.StripeOf(i)
  {
    if SharesStripe(t, i) {
      HeadIs(t, i - 1);
    }
  }

  /** The versions newer than `i` are all SingleDeletes of its stripe. */
  ghost predicate OnlySingleDeletes(t: Task, i: nat)
    requires Ascending(t.job.snapshots) && i < |t.input|
  {
    forall j: nat :: NewerThan(t, j, i) ==> t.input[j].kind == SingleDelete && t.StripeOf(j) == t.StripeOf(i)
  }

  /** The last survivor before `i` is of its key. */
  ghost predicate Shown(t: Task, i: nat)
    requires Ascending(t.job.snapshots) && i < |t.input|
  {
    var out := Survivors(t, i);
    out != [] && out[|out| - 1].key == t.input[i].key
  }

  lemma {:induction false} SurvivorsAreInput(t: Task, i: nat, r: Record)
    requires Ascending(t.job.snapshots) && i <= |t.input| && r in Survivors(t, i)
    ensures exists j :: 0 <= j < i && Survives(t, j) && Outcome(t, j) == r
  {
    if Survives(t, i - 1) && r == Outcome(t, i - 1) {
    } else {
      SurvivorsAreInput(t, i - 1, r);
    }
  }

  /** One step of `Shown`. */
  lemma ShownStep(t: Task, i: nat)
    requires Ascending(t.job.snapshots) && Sorted(t.input) && 0 < i < |t.input|
    ensures Shown(t, i) <==> t.input[i - 1].key == t.input[i].key && (Survives(t, i - 1) || Shown(t, i - 1))
  {
    if t.input[i - 1].key != t.input[i].key && Shown(t, i) {
      var out := Survivors(t, i);
      SurvivorsAreInput(t, i, out[|out| - 1]);
      var j :| 0 <= j < i && Survives(t, j) && Outcome(t, j) == out[|out| - 1];
      Between(t, j, i - 1, i);
    }
  }

  /** A version that is swept away has a Delete over it that stays if anything older is left. */
  lemma {:induction false} SweptIsShown(t: Task, i: nat)
    requires Ascending(t.job.snapshots) && Sorted(t.input) && 0 < i < |t.input| && t.input[i - 1].key == t.input[i].key
    requires t.job.InRange(t.input[i].key) && !SharesStripe(t, i)
    requires Sweeps(t, Head(t, i - 1))
    ensures Shown(t, i)
  {
    var h := Head(t, i - 1);
    HeadIs(t, i - 1);
    assert HasOlderStripe(t, h);
    assert Survives(t, h);
    StaysShown(t, h, i);
  }

  lemma {:induction false} StaysShown(t: Task, j: nat, i: nat)
    requires Ascending(t.job.snapshots) && Sorted(t.input) && NewerThan(t, j, i) && Survives(t, j)
    ensures Shown(t, i)
    decreases i
  {
    Between(t, j, i - 1, i);
    if j < i - 1 {
      StaysShown(t, j, i - 1);
    }
    ShownStep(t, i);
  }

  /** After a late version that is no SingleDelete, the key is shown. */
  lemma {:induction false} ShownAfter(t: Task, i: nat)
    requires t.job.Valid() && Sorted(t.input) && 0 < i < |t.input| && t.input[i - 1].key == t.input[i].key
    requires t.job.InRange(t.input[i].key) && !SweptAway(t, i)
    requires t.input[i - 1].kind != SingleDelete && Late(t, t.input[i - 1])
    ensures Shown(t, i)
    decreases i
  {
    var p := i - 1;
    ShownStep(t, i);
    LateIsAfterEarliest(t, t.input[p]);
    if Sweeps(t, Head(t, p)) {
      if !SharesStripe(t, i) {
        SweptIsShown(t, i);
      }
    } else if !SharesStripe(t, p) {
      assert Head(t, p) == p;
      assert Survives(t, p);
    } else {
      ShownStep(t, p);
      assert Before(t.input[p - 1], t.input[p]);
      if t.input[p - 1].kind == SingleDelete {
        assert Survives(t, p) <==> !Cancels(t, p - 1);
      } else {
        ShownAfter(t, p);
      }
    }
  }

  /** Before a late SingleDelete a write of the key is shown unless there is nothing but SingleDeletes in its stripe. */
  lemma {:induction false} ShownIff(t: Task, i: nat)
    requires t.job.Valid() && Sorted(t.input) && i < |t.input| && t.job.InRange(t.input[i].key)
    requires t.input[i].kind == SingleDelete && Late(t, t.input[i]) && !SweptAway(t, i)
    ensures Shown(t, i) <==> !OnlySingleDeletes(t, i)
    decreases i
  {
    if i == 0 {
    } else if t.input[i - 1].key != t.input[i].key {
      ShownStep(t, i);
      forall j: nat | NewerThan(t, j, i) ensures false {
        Between(t, j, i - 1, i);
      }
    } else {
      var p := i - 1;
      ShownStep(t, i);
      assert NewerThan(t, p, i) && Before(t.input[p], t.input[i]);
      if t.input[p].kind != SingleDelete {
        ShownAfter(t, i);
      } else if SharesStripe(t, i) {
        assert !SingleDeleteSurvives(t, p);
        ShownIff(t, p);
        OnlySingleDeletesStep(t, i);
      } else if Sweeps(t, Head(t, p)) {
        SweptIsShown(t, i);
      } else {
        assert SingleDeleteSurvives(t, p) && Survives(t, p);
      }
    }
  }

  lemma OnlySingleDeletesStep(t: Task, i: nat)
    requires Ascending(t.job.snapshots) && SharesStripe(t, i) && t.input[i - 1].kind == SingleDelete
    ensures OnlySingleDeletes(t, i) <==> OnlySingleDeletes(t, i - 1)
  {
    assert forall j: nat :: NewerThan(t, j, i) <==> j == i - 1 || NewerThan(t, j, i - 1);
  }

  // ---- Disciplined keys

  lemma DisciplinedNeighbours(t: Task, i: nat)
    requires Sorted(t.input) && i < |t.input| && SingleDeleteDiscipline(t.input + t.below, t.input[i].key)
    ensures t.input[i].kind != Delete
    ensures i > 0 && t.input[i - 1].key == t.input[i].key && t.input[i].kind == Put ==> t.input[i - 1].kind == SingleDelete
  {
    var history := t.input + t.below;
    assert history[i] == t.input[i];
    DisciplinedKinds(history, i);
    if i > 0 && t.input[i - 1].key == t.input[i].key && t.input[i].kind == Put {
      assert history[i - 1] == t.input[i - 1];
      DisciplinedKinds(history, i - 1);
      if t.input[i - 1].kind == Put {
        assert history == history[..i - 1] + [t.input[i - 1]] + history[i..];
        NoPutUnderPut(history[..i - 1], t.input[i - 1], history[i..]);
      }
    }
  }

  lemma NeverSwept(t: Task, i: nat)
    requires Ascending(t.job.snapshots) && Sorted(t.input) && i < |t.input|
    requires SingleDeleteDiscipline(t.input + t.below, t.input[i].key)
    ensures !SweptAway(t, i)
  {
    HeadIs(t, i);
    DisciplinedNeighbours(t, Head(t, i));
  }

  /**
   * Under the SingleDelete discipline a Put stays as it is unless a SingleDelete of its stripe is over it:
   * then the two share their fate, and the value goes in any case.
   */
  lemma DisciplinedPutSurvives(t: Task, i: nat)
    requires t.job.Valid() && Sorted(t.input) && i < |t.input| && t.job.InRange(t.input[i].key)
    requires SingleDeleteDiscipline(t.input + t.below, t.input[i].key) && t.input[i].kind == Put
    ensures if SharesStripe(t, i)
            then && t.input[i - 1].kind == SingleDelete && (Survives(t, i) <==> Survives(t, i - 1))
                 && Outcome(t, i) == t.input[i].(value := "")
            else Survives(t, i) && Outcome(t, i) == t.input[i]
  {
    DisciplinedNeighbours(t, i);
    NeverSwept(t, i);
    if SharesStripe(t, i) {
      NeverSwept(t, i - 1);
      assert SingleDeleteSurvives(t, i - 1) <==> !Cancels(t, i - 1);
    }
  }

  /**
   * Under the discipline a SingleDelete goes if another follows in its stripe, if it ends its key over nothing,
   * or together with a Put of its stripe, if no transaction needs the write: it is not late, or the key has shown
   * a write already, the very first output of all not counted.
   */
  lemma DisciplinedSingleDeleteSurvives(t: Task, i: nat)
    requires t.job.Valid() && Sorted(t.input) && i < |t.input| && t.job.InRange(t.input[i].key)
    requires SingleDeleteDiscipline(t.input + t.below, t.input[i].key) && t.input[i].kind == SingleDelete
    ensures Outcome(t, i) == t.input[i]
    ensures Survives(t, i) <==>
              if !HasOlder(t, i) then !OverNothing(t, i)
              else SharesStripe(t, i + 1) ==>
                && t.input[i + 1].kind == Put && Late(t, t.input[i])
                && (OnlySingleDeletes(t, i) || |Survivors(t, i)| < 2)
  {
    NeverSwept(t, i);
    if HasOlder(t, i) {
      DisciplinedNeighbours(t, i + 1);
    }
    if Late(t, t.input[i]) {
      ShownIff(t, i);
    }
    assert Cancels(t, i) <==> !Late(t, t.input[i]) || (!OnlySingleDeletes(t, i) && |Survivors(t, i)| >= 2);
    assert Survives(t, i) <==> SingleDeleteSurvives(t, i);
  }

  // ---- The first output of all

  /** Two snapshots, and versions in the three stripes they make. */
  function Flush(): Job {
    Job([3, 8], 3, None, None, 0)
  }

  function Rewrites(): seq<Record> {
    [Record(1, 9, Put, "a"), Record(1, 7, SingleDelete, ""), Record(1, 5, Put, "b")]
  }

  lemma FlushStripes()
    ensures Flush().Valid() && Stripe([3, 8], 1) == 3
    ensures Stripe([3, 8], 9) == MAX_SEQUENCE && Stripe([3, 8], 7) == 8 && Stripe([3, 8], 5) == 8
  {
    StripeIs([3, 8], 1, 3);
    StripeIs([3, 8], 9, MAX_SEQUENCE);
    StripeIs([3, 8], 7, 8);
    StripeIs([3, 8], 5, 8);
  }

  /** Behind the first output of all, which is not on record, the pair stays. */
  lemma PairStaysBehindFirst()
    ensures Task(Flush(), Rewrites(), []).Valid()
    ensures Survivors(Task(Flush(), Rewrites(), []), 3) ==
            [Record(1, 9, Put, "a"), Record(1, 7, SingleDelete, ""), Record(1, 5, Put, "")]
  {
    var t := Task(Flush(), Rewrites(), []);
    FlushStripes();
    assert Survivors(t, 1) == [Record(1, 9, Put, "a")];
    assert !Cancels(t, 1) && HasOlder(t, 1);
    assert Survivors(t, 2) == [Record(1, 9, Put, "a"), Record(1, 7, SingleDelete, "")];
    assert UnderSingleDelete(t, 2);
  }

  /** Behind any other output of the key it goes. */
  lemma PairGoesBehindSecond()
    ensures Task(Flush(), [Record(0, 1, Put, "z")] + Rewrites(), []).Valid()
    ensures Survivors(Task(Flush(), [Record(0, 1, Put, "z")] + Rewrites(), []), 4) ==
            [Record(0, 1, Put, "z"), Record(1, 9, Put, "a")]
  {
    var t := Task(Flush(), [Record(0, 1, Put, "z")] + Rewrites(), []);
    FlushStripes();
    assert Survivors(t, 1) == [Record(0, 1, Put, "z")];
    assert Survivors(t, 2) == [Record(0, 1, Put, "z"), Record(1, 9, Put, "a")];
    assert Cancels(t, 2) && HasOlder(t, 2);
    assert Survivors(t, 3) == Survivors(t, 2);
    assert UnderSingleDelete(t, 3);
  }
}
