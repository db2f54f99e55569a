/** The lists that a compaction in progress stands for, and the rewrites that keep their reads. */
module Rewriting {
  import opened Records
  import opened SnapshotStripes
  import opened Compactable

  /** Two outputs of one key. */
  predicate Superseded(raw: seq<Record>, i: int, j: int) {
    0 <= i < j < |raw| && raw[i].key == raw[j].key
  }

  /** The outputs so far, with a dropped Delete that older input still hides behind. */
  ghost function Kept(raw: seq<Record>, shadow: Option<Record>): seq<Record> {
    if shadow.Some? then raw + [shadow.value] else raw
  }

  /** A compaction to run, and what lies below it. */
  datatype Task = Task(job: Job, input: seq<Record>, below: seq<Record>) {
    ghost predicate Valid() {
      job.Valid() && Sorted(input) && LiesBelow(job, input, below) && SentinelFree(job, input)
    }

    /** Keys whose reads must survive. */
    ghost predicate Promised(k: UserKey) {
      Eligible(input, below, k)
    }

    ghost function StripeOf(i: nat): SequenceNumber
      requires Ascending(job.snapshots) && i < |input|
    {
      Stripe(job.snapshots, input[i].seqno)
    }

    /** What has been kept, with the rest of the input, still reads like the whole input. */
    ghost predicate Rewritten(kept: seq<Record>, rest: nat) {
      && rest <= |input|
      && Sorted(kept + input[rest..])
      && SameReads(job, input, below, kept + input[rest..] + below)
      && KeepsDiscipline(input + below, kept + input[rest..] + below)
    }

    /** What a bottommost output promises so that its sequence numbers can be zeroed. */
    ghost predicate Zeroable(raw: seq<Record>) {
      && (job.Bottommost() ==> forall i, j :: Superseded(raw, i, j) ==> raw[i].seqno > job.EarliestSnapshot())
      && (forall i :: 0 <= i < |raw| && job.ZeroesSequence(raw[i]) ==> raw[i].kind == Put)
    }

    ghost predicate CursorsBehind(levelPtrs: seq<nat>, rest: nat) {
      job.compaction.Some? ==>
        |levelPtrs| == |job.compaction.value.levels| &&
        forall j :: rest <= j < |input| ==> job.compaction.value.Behind(levelPtrs, input[j].key)
    }

    /** With the sentinel free, no record's stripe is taken for "no snapshot yet". */
    lemma StripePositive(i: nat)
      requires Ascending(job.snapshots) && SentinelFree(job, input) && i < |input|
      ensures StripeOf(i) > 0
    {
      var s := StripeOf(i);
      assert IsView(job.snapshots, s) && input[i].seqno <= s;
    }

    /** What follows a record in the input is a later key or an older version. */
    lemma Follows(i: nat)
      requires Sorted(input) && i < |input|
      ensures forall j {:trigger input[j]} :: i < j < |input| ==>
                input[i].key < input[j].key || (input[i].key == input[j].key && input[j].seqno < input[i].seqno)
    {
      assert forall j :: i < j < |input| ==> Before(input[i], input[j]);
    }

    /** Emitting the next record unchanged. */
    lemma RewrittenEmit(kept: seq<Record>, pos: nat)
      requires Rewritten(kept, pos) && pos < |input|
      ensures Rewritten(kept + [input[pos]], pos + 1)
    {
      assert kept + [input[pos]] + input[pos + 1..] == kept + input[pos..];
    }

    /** Passing over covered input, where no Put of a disciplined key comes up. */
    lemma RewrittenSkip(kept: seq<Record>, pos: nat, rest: nat)
      requires Ascending(job.snapshots) && Rewritten(kept, pos) && pos <= rest <= |input|
      requires AllCovered(job, input, below, kept, input[pos..rest])
      requires forall i :: pos <= i < rest && SingleDeleteDiscipline(input + below, input[i].key) ==>
                 !TopIsPut(input[rest..] + below, input[i].key)
      ensures Rewritten(kept, rest)
    {
      var x, b := input[pos..rest], input[rest..] + below;
      assert kept + input[pos..] + below == kept + x + b;
      assert kept + [] + b == kept + b == kept + input[rest..] + below;
      assert SameReads(job, input, below, kept + b) by {
        ReplaceCovered(job, input, below, kept, x, [], b);
      }
      assert KeepsDiscipline(input + below, kept + b) by {
        forall k | SingleDeleteDiscipline(input + below, k) && Versions(x, k) != [] ensures !TopIsPut(b, k) {
          VersionsMember(x, k);
          assert Versions(x, k)[0] in x;
        }
        DisciplineWithout(input + below, kept, x, b);
      }
      assert kept + input[pos..] == kept + x + input[rest..];
      SortedWithout(kept, x, input[rest..]);
    }

    /** Dropping the next record because a kept one covers it. */
    lemma RewrittenHidden(kept: seq<Record>, pos: nat)
      requires Ascending(job.snapshots) && Rewritten(kept, pos) && pos < |input|
      requires input[pos].kind != SingleDelete
      requires Promised(input[pos].key) ==> Covered(job, kept, input[pos].key, input[pos].seqno)
      ensures Rewritten(kept, pos + 1)
    {
      var r, under := input[pos], input[pos + 1..] + below;
      assert kept + input[pos..] + below == kept + [r] + under;
      if SingleDeleteDiscipline(input + below, r.key) {
        assert (kept + [r] + under)[|kept|] == r;
        DisciplinedKinds(kept + [r] + under, |kept|);
        NoPutUnderPut(kept, r, under);
      }
      assert input[pos..pos + 1] == [r];
      RewrittenSkip(kept, pos, pos + 1);
    }

    /** Emitting the next record with another value, a kept one covering it. */
    lemma RewrittenCleared(kept: seq<Record>, pos: nat, y: Record)
      requires Ascending(job.snapshots) && Rewritten(kept, pos) && pos < |input|
      requires y == input[pos].(value := y.value)
      requires Promised(y.key) ==> Covered(job, kept, y.key, y.seqno)
      ensures Rewritten(kept + [y], pos + 1) && Sorted(kept + [y])
    {
      var x, b := input[pos], input[pos + 1..] + below;
      assert kept + [x] + input[pos + 1..] == kept + input[pos..];
      SortedSwap(kept, x, y, input[pos + 1..]);
      SortedPrefix(kept + [y], input[pos + 1..]);
      assert kept + input[pos..] + below == kept + [x] + b;
      ReplaceCovered(job, input, below, kept, [x], [y], b);
      DisciplineSwap(input + below, kept, x, y, b);
      assert kept + [y] + b == kept + [y] + input[pos + 1..] + below;
    }

    /** Versions over nothing that a reader at the tip would get may go. */
    lemma DisciplineOverNothing(a: seq<Record>, x: seq<Record>, b: seq<Record>)
      requires KeepsDiscipline(input + below, a + x + b)
      requires x != [] && forall i :: 0 <= i < |x| ==> x[i].key == x[0].key
      requires Promised(x[0].key) ==> Read(b, x[0].key, MAX_SEQUENCE) == None
      ensures KeepsDiscipline(input + below, a + b)
    {
      forall k | SingleDeleteDiscipline(input + below, k) && Versions(x, k) != [] ensures !TopIsPut(b, k) {
        VersionsMember(x, k);
        assert Versions(x, k)[0] in x;
        ReadAtTip(b, k);
      }
      DisciplineWithout(input + below, a, x, b);
    }

    /** Dropping a tombstone and what it hides, where nothing older comes to light. */
    lemma RewrittenRun(kept: seq<Record>, pos: nat, rest: nat)
      requires Ascending(job.snapshots) && Rewritten(kept, pos) && pos < rest <= |input|
      requires TombstoneRun(job, input[pos..rest])
      requires Promised(input[pos].key) ==>
                 forall s: nat :: IsView(job.snapshots, s) && input[pos].seqno <= s ==>
                   Read(input[rest..] + below, input[pos].key, s) == None
      ensures Rewritten(kept, rest)
    {
      var x, b := input[pos..rest], input[rest..] + below;
      assert kept + input[pos..] + below == kept + x + b;
      assert kept + b == kept + input[rest..] + below;
      assert SameReads(job, input, below, kept + b) by {
        DropTombstoneRun(job, input, below, kept, x, b);
      }
      assert KeepsDiscipline(input + below, kept + b) by {
        DisciplineOverNothing(kept, x, b);
      }
      assert kept + input[pos..] == kept + x + input[rest..];
      SortedWithout(kept, x, input[rest..]);
    }

    /** Forgetting a dropped Delete once no older input can hide behind it. */
    lemma RewrittenForget(raw: seq<Record>, d: Record, rest: nat)
      requires Ascending(job.snapshots) && Rewritten(raw + [d], rest)
      requires d.kind == Delete
      requires Promised(d.key) ==>
                 forall s: nat :: IsView(job.snapshots, s) ==> Read(input[rest..] + below, d.key, s) == None
      ensures Rewritten(raw, rest)
    {
      var b := input[rest..] + below;
      assert raw + [d] + input[rest..] + below == raw + [d] + b;
      DropTombstoneRun(job, input, below, raw, [d], b);
      DisciplineOverNothing(raw, [d], b);
      assert raw + b == raw + input[rest..] + below;
      SortedWithout(raw, [d], input[rest..]);
    }

    lemma ZeroableAppend(raw: seq<Record>, x: Record)
      requires Zeroable(raw) && Sorted(raw + [x])
      requires job.Bottommost() && raw != [] && raw[|raw| - 1].key == x.key ==>
                 raw[|raw| - 1].seqno > job.EarliestSnapshot()
      requires job.ZeroesSequence(x) ==> x.kind == Put
      ensures Zeroable(raw + [x])
    {
      var out := raw + [x];
      forall i, j | job.Bottommost() && Superseded(out, i, j)
        ensures out[i].seqno > job.EarliestSnapshot()
      {
        if j == |raw| {
          assert Before(out[i], out[j]) && (i < |raw| - 1 ==> Before(out[i], out[|raw| - 1]));
          assert out[|raw| - 1] == raw[|raw| - 1];
          assert Before(out[|raw| - 1], out[j]);
        } else {
          assert Superseded(raw, i, j);
        }
      }
    }

    /** Where the compaction finds the key absent from deeper levels, nothing lies below it. */
    lemma AbsentBelow(i: nat)
      requires LiesBelow(job, input, below) && i < |input|
      requires job.compaction.Some? && job.compaction.value.KeyAbsentBelow(input[i].key)
      ensures forall j :: 0 <= j < |below| ==> below[j].key != input[i].key
    {
      forall j | 0 <= j < |below| ensures below[j].key != input[i].key {
        assert Shared(input, below, i, j) <==> input[i].key == below[j].key;
      }
    }

    /** A sorted input has no more of a key once another key has come up. */
    lemma KeyFinished(k: UserKey, pos: nat, rest: nat, s: nat)
      requires Sorted(input) && pos < rest <= |input| && input[pos].key == k
      requires rest < |input| ==> input[rest].key != k
      requires forall j :: 0 <= j < |below| ==> below[j].key != k
      ensures Read(input[rest..] + below, k, s) == None
    {
      forall i | rest <= i < |input| ensures input[i].key != k {
        assert Before(input[pos], input[rest]);
        assert i > rest ==> Before(input[rest], input[i]);
      }
      ReadAbsent(input[rest..] + below, k, s);
    }

    /** The last output precedes all input still to come. */
    lemma KeptLast(raw: seq<Record>, shadow: Option<Record>, pos: nat)
      requires pos <= |input| && Sorted(Kept(raw, shadow) + input[pos..])
      ensures forall j :: pos <= j < |input| && raw != [] ==> Before(raw[|raw| - 1], input[j])
      ensures forall j :: pos <= j < |input| && shadow.Some? ==> Before(shadow.value, input[j])
    {
      var whole := Kept(raw, shadow) + input[pos..];
      forall j | pos <= j < |input| && raw != [] ensures Before(raw[|raw| - 1], input[j]) {
        assert whole[|raw| - 1] == raw[|raw| - 1];
        assert whole[|Kept(raw, shadow)| + (j - pos)] == input[j];
      }
      forall j | pos <= j < |input| && shadow.Some? ensures Before(shadow.value, input[j]) {
        assert whole[|raw|] == shadow.value;
        assert whole[|Kept(raw, shadow)| + (j - pos)] == input[j];
      }
    }

    /** The first of two SingleDeletes in one stripe says nothing that the second does not. */
    lemma DropRepeatedSingleDelete(kept: seq<Record>, pos: nat)
      requires Ascending(job.snapshots) && Rewritten(kept, pos) && pos + 1 < |input|
      requires input[pos].kind == SingleDelete && input[pos + 1].kind == SingleDelete
      requires input[pos].key == input[pos + 1].key
      requires StripeOf(pos) == StripeOf(pos + 1)
      ensures Rewritten(kept, pos + 1)
    {
      assert input[pos..pos + 1] == [input[pos]];
      RewrittenRun(kept, pos, pos + 1);
    }

    /** Whatever comes after a record, in the input or below it, is older if it is of the same key. */
    lemma OlderBelow(pos: nat, rest: nat)
      requires Valid() && pos < rest <= |input|
      ensures var under := input[rest..] + below;
              forall m :: 0 <= m < |under| && under[m].key == input[pos].key ==> under[m].seqno < input[pos].seqno
    {
      var under := input[rest..] + below;
      Follows(pos);
      forall m | 0 <= m < |under| && under[m].key == input[pos].key ensures under[m].seqno < input[pos].seqno {
        if m < |input| - rest {
          assert under[m] == input[rest + m];
        } else {
          assert Shared(input, below, pos, m - (|input| - rest));
        }
      }
    }

    /** A SingleDelete and the Put under it cancel: the next version down is no Put. */
    lemma DropPair(kept: seq<Record>, pos: nat)
      requires Valid() && Rewritten(kept, pos) && pos + 1 < |input|
      requires input[pos].kind == SingleDelete && input[pos + 1].kind != SingleDelete
      requires input[pos].key == input[pos + 1].key
      requires StripeOf(pos) == StripeOf(pos + 1)
      ensures Rewritten(kept, pos + 2)
    {
      assert input[pos..pos + 2] == [input[pos], input[pos + 1]];
      var history := input + below;
      var k := input[pos].key;
      assert UsesSingleDelete(input, k);
      if Promised(k) {
        var under := input[pos + 2..] + below;
        assert history == input[..pos + 1] + [input[pos + 1]] + under;
        DisciplinedKinds(history, pos + 1);
        NoPutUnderPut(input[..pos + 1], input[pos + 1], under);
        forall s: nat | IsView(job.snapshots, s) && input[pos].seqno <= s ensures Read(under, k, s) == None {
          OlderBelow(pos, pos + 2);
          ReadUnderTop(under, k, s);
        }
      }
      RewrittenRun(kept, pos, pos + 2);
    }

    /** A SingleDelete over nothing. */
    lemma DropLastSingleDelete(kept: seq<Record>, pos: nat)
      requires Valid() && Rewritten(kept, pos) && pos < |input|
      requires input[pos].kind == SingleDelete && (pos + 1 < |input| ==> input[pos + 1].key != input[pos].key)
      requires job.compaction.Some? && job.compaction.value.KeyAbsentBelow(input[pos].key)
      ensures Rewritten(kept, pos + 1)
    {
      AbsentBelow(pos);
      assert input[pos..pos + 1] == [input[pos]];
      var under := input[pos + 1..] + below;
      forall s: nat ensures Read(under, input[pos].key, s) == None {
        KeyFinished(input[pos].key, pos, pos + 1, s);
      }
      RewrittenRun(kept, pos, pos + 1);
    }
  }
}
