/** The reads that a compaction must keep, and the local rewrites of a record list that keep them. */
module Compactable {
  import opened Records
  import opened SnapshotStripes
  import opened Compaction

  /** What a compaction iterator is constructed with, apart from its input. */
  datatype Job = Job(
    snapshots: seq<SequenceNumber>,
    earliestWriteConflictSnapshot: SequenceNumber,
    compaction: Option<CompactionInfo>,
    end: Option<UserKey>,
    preserveDeletesSeqnum: SequenceNumber)
  {
    function EarliestSnapshot(): SequenceNumber {
      if snapshots == [] then MAX_SEQUENCE else snapshots[0]
    }

    predicate Bottommost() {
      compaction.Some? && compaction.value.bottommostLevel
    }

    predicate InRange(k: UserKey) {
      end.Some? ==> k < end.value
    }

    /** Not held back for an incremental snapshot. */
    predicate NotNeededForIncrementalSnapshot(r: Record)
      requires compaction.Some?
    {
      !compaction.value.preserveDeletes || r.seqno < preserveDeletesSeqnum
    }

    /** The guard under which an emitted record loses its sequence number. */
    predicate ZeroesSequence(r: Record) {
      compaction.Some? && !compaction.value.allowIngestBehind &&
      NotNeededForIncrementalSnapshot(r) && Bottommost() && r.seqno <= EarliestSnapshot()
    }

    function PrepareOutput(r: Record): Record {
      if ZeroesSequence(r) then r.(seqno := 0) else r
    }

    /** Snapshots are kept in order, and the write-conflict snapshot is one of them or the tip. */
    ghost predicate Valid() {
      Ascending(snapshots) &&
      IsView(snapshots, earliestWriteConflictSnapshot) &&
      (compaction.Some? ==> compaction.value.DeeperSorted())
    }
  }

  predicate Shared(input: seq<Record>, below: seq<Record>, i: int, j: int) {
    0 <= i < |input| && 0 <= j < |below| && input[i].key == below[j].key
  }

  /**
   * What lies under the input: older versions only, none of them under a bottommost compaction, and where a
   * level compaction writes below level 0, in files of the levels past its output level.
   */
  ghost predicate LiesBelow(job: Job, input: seq<Record>, below: seq<Record>) {
    && Sorted(below)
    && (forall i, j {:trigger Shared(input, below, i, j)} :: Shared(input, below, i, j) ==> below[j].seqno < input[i].seqno)
    && (job.compaction.Some? ==>
          var c := job.compaction.value;
          && (c.bottommostLevel ==> forall i, j :: !Shared(input, below, i, j))
          && (c.levelStyle && c.outputLevel != 0 ==>
                forall i, j :: Shared(input, below, i, j) ==> c.DeeperFileContains(below[j].key)))
  }

  ghost predicate Disciplined(versions: seq<Record>) {
    && (forall i :: 0 <= i < |versions| ==> versions[i].kind != Delete)
    && (forall i :: 0 <= i < |versions| - 1 ==> !(versions[i].kind == Put && versions[i + 1].kind == Put))
  }

  /** A key written with SingleDelete is never Deleted, and a Put never overwrites a Put. */
  ghost predicate SingleDeleteDiscipline(history: seq<Record>, k: UserKey) {
    Disciplined(Versions(history, k))
  }

  ghost predicate UsesSingleDelete(rs: seq<Record>, k: UserKey) {
    exists i :: 0 <= i < |rs| && rs[i].key == k && rs[i].kind == SingleDelete
  }

  /** The keys whose reads are promised to survive. */
  ghost predicate Eligible(input: seq<Record>, below: seq<Record>, k: UserKey) {
    UsesSingleDelete(input, k) ==> SingleDeleteDiscipline(input + below, k)
  }

  /** 0 stands for "no snapshot yet", so a snapshot numbered 0 must have nothing to show. */
  ghost predicate SentinelFree(job: Job, input: seq<Record>) {
    0 in job.snapshots ==> forall i :: 0 <= i < |input| ==> input[i].seqno > 0
  }

  /** Every eligible key reads the same from `rs` as from the untouched input and what lies below. */
  ghost predicate SameReads(job: Job, input: seq<Record>, below: seq<Record>, rs: seq<Record>) {
    forall k, s: nat :: Eligible(input, below, k) && IsView(job.snapshots, s) ==>
      Read(rs, k, s) == Read(input + below, k, s)
  }

  /** Some kept version of the key is seen by exactly the views that see version `q`. */
  ghost predicate Covered(job: Job, kept: seq<Record>, k: UserKey, q: SequenceNumber)
    requires Ascending(job.snapshots)
  {
    exists i :: 0 <= i < |kept| && kept[i].key == k &&
                Stripe(job.snapshots, kept[i].seqno) == Stripe(job.snapshots, q)
  }

  ghost predicate AllCovered(job: Job, input: seq<Record>, below: seq<Record>, kept: seq<Record>, xs: seq<Record>)
    requires Ascending(job.snapshots)
  {
    forall i :: 0 <= i < |xs| && Eligible(input, below, xs[i].key) ==>
      Covered(job, kept, xs[i].key, xs[i].seqno)
  }

  lemma CoveredIsHidden(job: Job, input: seq<Record>, below: seq<Record>,
                        kept: seq<Record>, xs: seq<Record>, k: UserKey, s: nat)
    requires Ascending(job.snapshots) && AllCovered(job, input, below, kept, xs)
    requires Eligible(input, below, k) && IsView(job.snapshots, s)
    ensures Lookup(xs, k, s).Some? ==> Lookup(kept, k, s).Some?
  {
    LookupMember(xs, k, s);
    LookupMember(kept, k, s);
  }

  /** Covered records may be dropped or altered freely. */
  lemma ReplaceCovered(job: Job, input: seq<Record>, below: seq<Record>,
                       a: seq<Record>, x: seq<Record>, y: seq<Record>, b: seq<Record>)
    requires Ascending(job.snapshots) && SameReads(job, input, below, a + x + b)
    requires AllCovered(job, input, below, a, x) && AllCovered(job, input, below, a, y)
    ensures SameReads(job, input, below, a + y + b)
  {
    forall k, s: nat | Eligible(input, below, k) && IsView(job.snapshots, s)
      ensures Read(a + y + b, k, s) == Read(input + below, k, s)
    {
      assert Read(a + x + b, k, s) == Read(input + below, k, s);
      CoveredIsHidden(job, input, below, a, x, k, s);
      CoveredIsHidden(job, input, below, a, y, k, s);
      LookupConcat(a + x, b, k, s);
      LookupConcat(a, x, k, s);
      LookupConcat(a + y, b, k, s);
      LookupConcat(a, y, k, s);
    }
  }

  /** Versions of one key, all in the stripe of a tombstone on top of them. */
  ghost predicate TombstoneRun(job: Job, x: seq<Record>)
    requires Ascending(job.snapshots)
  {
    && x != [] && x[0].kind != Put
    && forall i :: 0 <= i < |x| ==>
         x[i].key == x[0].key && Stripe(job.snapshots, x[i].seqno) == Stripe(job.snapshots, x[0].seqno)
  }

  /** A tombstone and the versions it hides may go where nothing older would come to light. */
  lemma DropTombstoneRun(job: Job, input: seq<Record>, below: seq<Record>,
                         a: seq<Record>, x: seq<Record>, b: seq<Record>)
    requires Ascending(job.snapshots) && SameReads(job, input, below, a + x + b)
    requires TombstoneRun(job, x)
    requires Eligible(input, below, x[0].key) ==>
               forall s: nat :: IsView(job.snapshots, s) && x[0].seqno <= s ==> Read(b, x[0].key, s) == None
    ensures SameReads(job, input, below, a + b)
  {
    forall k, s: nat | Eligible(input, below, k) && IsView(job.snapshots, s)
      ensures Read(a + b, k, s) == Read(input + below, k, s)
    {
      assert Read(a + x + b, k, s) == Read(input + below, k, s);
      LookupMember(x, k, s);
      LookupConcat(a + x, b, k, s);
      LookupConcat(a, x, k, s);
      LookupConcat(a, b, k, s);
    }
  }

  lemma ReadAbsent(rs: seq<Record>, k: UserKey, s: nat)
    requires forall i :: 0 <= i < |rs| ==> rs[i].key != k
    ensures Read(rs, k, s) == None
  {
    LookupMember(rs, k, s);
  }

  /** A rewrite that keeps the discipline, under any newer versions there may be. */
  ghost predicate KeepsDiscipline(history: seq<Record>, rs: seq<Record>) {
    forall k :: SingleDeleteDiscipline(history, k) ==>
      && SingleDeleteDiscipline(rs, k)
      && (TopIsPut(rs, k) ==> TopIsPut(history, k))
  }

  ghost predicate TopIsPut(rs: seq<Record>, k: UserKey) {
    var vs := Versions(rs, k);
    vs != [] && vs[0].kind == Put
  }

  /** Versions may go from a history where no Put comes up under them. */
  lemma DisciplineWithout(history: seq<Record>, a: seq<Record>, x: seq<Record>, b: seq<Record>)
    requires KeepsDiscipline(history, a + x + b)
    requires forall k :: SingleDeleteDiscipline(history, k) && Versions(x, k) != [] ==> !TopIsPut(b, k)
    ensures KeepsDiscipline(history, a + b)
  {
    forall k | SingleDeleteDiscipline(history, k)
      ensures SingleDeleteDiscipline(a + b, k) && (TopIsPut(a + b, k) ==> TopIsPut(history, k))
    {
      VersionsConcat(a + x, b, k);
      VersionsConcat(a, x, k);
      VersionsConcat(a, b, k);
      DisciplinedWithout(Versions(a, k), Versions(x, k), Versions(b, k));
    }
  }

  lemma DisciplinedWithout(a: seq<Record>, x: seq<Record>, b: seq<Record>)
    requires Disciplined(a + x + b)
    requires x != [] && b != [] ==> b[0].kind != Put
    ensures Disciplined(a + b)
    ensures a + b != [] && (a + b)[0].kind == Put ==> (a + x + b)[0].kind == Put
  {
    var all, less := a + x + b, a + b;
    forall i | 0 <= i < |less| ensures less[i].kind != Delete {
      assert less[i] == all[if i < |a| then i else i + |x|];
    }
    forall i | 0 <= i < |less| - 1 ensures !(less[i].kind == Put && less[i + 1].kind == Put) {
      var i' := if i < |a| then i else i + |x|;
      assert less[i] == all[i'];
      if i + 1 != |a| || x == [] {
        assert less[i + 1] == all[i' + 1];
      }
    }
  }

  lemma DisciplinedSuffix(a: seq<Record>, b: seq<Record>)
    requires Disciplined(a + b)
    ensures Disciplined(b)
  {
    var all := a + b;
    forall i | 0 <= i < |b| ensures b[i].kind != Delete {
      assert b[i] == all[|a| + i];
    }
    forall i | 0 <= i < |b| - 1 ensures !(b[i].kind == Put && b[i + 1].kind == Put) {
      assert b[i] == all[|a| + i] && b[i + 1] == all[|a| + i + 1];
    }
  }

  /** A disciplined history may be put under newer versions in place of another. */
  lemma DisciplinedUnder(a: seq<Record>, b: seq<Record>, c: seq<Record>)
    requires Disciplined(a + b) && Disciplined(c)
    requires c != [] && c[0].kind == Put ==> b != [] && b[0].kind == Put
    ensures Disciplined(a + c)
  {
    var was, now := a + b, a + c;
    forall i | 0 <= i < |now| ensures now[i].kind != Delete {
      assert now[i] == if i < |a| then was[i] else c[i - |a|];
    }
    forall i | 0 <= i < |now| - 1 ensures !(now[i].kind == Put && now[i + 1].kind == Put) {
      if i < |a| {
        assert now[i] == was[i];
        assert i + 1 < |a| ==> now[i + 1] == was[i + 1];
        assert i + 1 == |a| && b != [] ==> was[i + 1] == b[0];
      } else {
        assert now[i] == c[i - |a|] && now[i + 1] == c[i + 1 - |a|];
      }
    }
  }

  /** Only the kinds of versions matter to the discipline. */
  lemma DisciplineSwap(history: seq<Record>, a: seq<Record>, x: Record, y: Record, b: seq<Record>)
    requires KeepsDiscipline(history, a + [x] + b) && x.key == y.key && x.kind == y.kind
    ensures KeepsDiscipline(history, a + [y] + b)
  {
    forall k | SingleDeleteDiscipline(history, k)
      ensures SingleDeleteDiscipline(a + [y] + b, k) && (TopIsPut(a + [y] + b, k) ==> TopIsPut(history, k))
    {
      VersionsConcat(a + [x], b, k);
      VersionsConcat(a, [x], k);
      VersionsConcat(a + [y], b, k);
      VersionsConcat(a, [y], k);
      DisciplinedByKind(Versions(a + [x] + b, k), Versions(a + [y] + b, k));
    }
  }

  lemma DisciplinedByKind(vs: seq<Record>, ws: seq<Record>)
    requires Disciplined(vs) && |vs| == |ws| && forall i :: 0 <= i < |vs| ==> vs[i].kind == ws[i].kind
    ensures Disciplined(ws)
  {
  }

  lemma DisciplinedKinds(history: seq<Record>, i: nat)
    requires i < |history| && SingleDeleteDiscipline(history, history[i].key)
    ensures history[i].kind != Delete
  {
    VersionsMember(history, history[i].key);
  }

  /** In a disciplined history, what comes under a Put is no Put. */
  lemma NoPutUnderPut(a: seq<Record>, p: Record, b: seq<Record>)
    requires SingleDeleteDiscipline(a + [p] + b, p.key) && p.kind == Put
    ensures !TopIsPut(b, p.key)
  {
    VersionsConcat(a + [p], b, p.key);
    VersionsConcat(a, [p], p.key);
    var va, vb := Versions(a, p.key), Versions(b, p.key);
    var vs := Versions(a + [p] + b, p.key);
    assert vs == va + [p] + vb;
    assert vb != [] ==> vs[|va|] == p && vs[|va| + 1] == vb[0];
  }

  /** Where the newest version is no Put, a view that sees it reads nothing. */
  lemma {:induction false} ReadUnderTop(rs: seq<Record>, k: UserKey, s: nat)
    requires !TopIsPut(rs, k)
    requires forall i :: 0 <= i < |rs| && rs[i].key == k ==> rs[i].seqno <= s
    ensures Read(rs, k, s) == None
  {
    if rs != [] && rs[0].key != k {
      ReadUnderTop(rs[1..], k, s);
    }
  }

  /** The previous snapshot, 0 standing for none, tells the stripe of an older version apart. */
  lemma PrevSeparates(job: Job, q: SequenceNumber, prev: SequenceNumber, p: SequenceNumber)
    requires Ascending(job.snapshots) && p < q
    requires prev == 0 || (prev in job.snapshots && prev < q)
    requires forall s :: s in job.snapshots && s < q ==> s <= prev
    requires 0 in job.snapshots ==> p > 0
    ensures (prev == 0 || p > prev) <==> Stripe(job.snapshots, p) == Stripe(job.snapshots, q)
  {
    SameStripe(job.snapshots, q, p);
    if prev != 0 && p <= prev {
      assert IsView(job.snapshots, prev);
    }
  }

  /** Everything up to the earliest snapshot is one stripe, named by that snapshot. */
  lemma EarliestStripe(job: Job, q: SequenceNumber)
    requires Ascending(job.snapshots)
    ensures q <= job.EarliestSnapshot() <==> Stripe(job.snapshots, q) == job.EarliestSnapshot()
    ensures forall s: nat :: IsView(job.snapshots, s) ==> job.EarliestSnapshot() <= s
  {
    assert IsView(job.snapshots, job.EarliestSnapshot());
    assert IsView(job.snapshots, Stripe(job.snapshots, q));
  }

  /** A number is zeroed exactly if every view sees the record, at the bottom, and nothing is kept or brought in under it. */
  lemma ZeroedExactly(job: Job, r: Record)
    requires Ascending(job.snapshots)
    ensures job.PrepareOutput(r) ==
            if && job.Bottommost() && !job.compaction.value.allowIngestBehind
               && (job.compaction.value.preserveDeletes ==> r.seqno < job.preserveDeletesSeqnum)
               && forall s: nat :: IsView(job.snapshots, s) ==> r.seqno <= s
            then r.(seqno := 0) else r
  {
    EarliestStripe(job, r.seqno);
    assert IsView(job.snapshots, job.EarliestSnapshot());
  }

  function PrepareAll(job: Job, rs: seq<Record>): seq<Record> {
    seq(|rs|, i requires 0 <= i < |rs| => job.PrepareOutput(rs[i]))
  }

  /** Zeroing changes no visibility: what is zeroed was already visible to every view. */
  lemma {:induction false} LookupPrepared(job: Job, rs: seq<Record>, k: UserKey, s: nat)
    requires Ascending(job.snapshots) && IsView(job.snapshots, s)
    ensures Lookup(PrepareAll(job, rs), k, s) ==
            match Lookup(rs, k, s) case Some(r) => Some(job.PrepareOutput(r)) case None => None
  {
    if rs != [] {
      LookupPrepared(job, rs[1..], k, s);
      assert PrepareAll(job, rs)[1..] == PrepareAll(job, rs[1..]);
      EarliestStripe(job, rs[0].seqno);
    }
  }
}
