/** A whole compaction: every output of the iterator, and what readers see afterwards. */
module CompactionRun {
  import opened Records
  import opened SnapshotStripes
  import opened Compaction
  import opened Compactable
  import opened Rewriting
  import opened CompactionSteps
  import opened ConflictChecks
  import opened Surviving
  import opened CompactionIterators

  /** Promised keys read the same from the output as from the input, over what lies below. */
  ghost predicate ReadsPreserved(t: Task, out: seq<Record>) {
    forall k, s: nat :: t.job.InRange(k) && t.Promised(k) && IsView(t.job.snapshots, s) ==>
      Read(out + t.below, k, s) == Read(t.input + t.below, k, s)
  }

  /** The output keeps the SingleDelete discipline, so that it can be compacted again. */
  ghost predicate DisciplinePreserved(t: Task, out: seq<Record>) {
    forall k :: t.job.InRange(k) && SingleDeleteDiscipline(t.input + t.below, k) ==>
      && SingleDeleteDiscipline(out + t.below, k)
      && (TopIsPut(out + t.below, k) ==> TopIsPut(t.input + t.below, k))
  }

  /** Input past the end key is of no interest to keys before it. */
  lemma PastEnd(t: Task, rest: nat, k: UserKey, s: nat)
    requires Sorted(t.input) && rest <= |t.input| && t.job.InRange(k)
    requires rest < |t.input| ==> !t.job.InRange(t.input[rest].key)
    ensures Lookup(t.input[rest..], k, s) == None && Versions(t.input[rest..], k) == []
  {
    forall i | rest <= i < |t.input| ensures t.input[i].key != k {
      assert i > rest ==> Before(t.input[rest], t.input[i]);
    }
    LookupMember(t.input[rest..], k, s);
    NoVersions(t.input[rest..], k);
  }

  lemma FinalReads(t: Task, raw: seq<Record>, rest: nat)
    requires t.Valid() && t.Rewritten(raw, rest)
    requires rest < |t.input| ==> !t.job.InRange(t.input[rest].key)
    ensures ReadsPreserved(t, PrepareAll(t.job, raw))
  {
    var out := PrepareAll(t.job, raw);
    forall k, s: nat | t.job.InRange(k) && t.Promised(k) && IsView(t.job.snapshots, s)
      ensures Read(out + t.below, k, s) == Read(t.input + t.below, k, s)
    {
      LookupConcat(raw + t.input[rest..], t.below, k, s);
      LookupConcat(raw, t.input[rest..], k, s);
      PastEnd(t, rest, k, s);
      LookupPrepared(t.job, raw, k, s);
      LookupConcat(out, t.below, k, s);
    }
  }

  lemma {:induction false} VersionsPrepared(job: Job, rs: seq<Record>, k: UserKey)
    ensures var vs, ws := Versions(rs, k), Versions(PrepareAll(job, rs), k);
            |vs| == |ws| && forall i :: 0 <= i < |vs| ==> vs[i].kind == ws[i].kind
  {
    if rs != [] {
      VersionsPrepared(job, rs[1..], k);
      assert PrepareAll(job, rs)[1..] == PrepareAll(job, rs[1..]);
    }
  }

  lemma FinalDiscipline(t: Task, raw: seq<Record>, rest: nat)
    requires t.Valid() && t.Rewritten(raw, rest)
    requires rest < |t.input| ==> !t.job.InRange(t.input[rest].key)
    ensures DisciplinePreserved(t, PrepareAll(t.job, raw))
  {
    var out := PrepareAll(t.job, raw);
    forall k | t.job.InRange(k) && SingleDeleteDiscipline(t.input + t.below, k)
      ensures SingleDeleteDiscipline(out + t.below, k)
      ensures TopIsPut(out + t.below, k) ==> TopIsPut(t.input + t.below, k)
    {
      VersionsConcat(raw + t.input[rest..], t.below, k);
      VersionsConcat(raw, t.input[rest..], k);
      PastEnd(t, rest, k, 0);
      VersionsPrepared(t.job, raw, k);
      VersionsConcat(out, t.below, k);
      var vs, ws := Versions(raw + t.input[rest..] + t.below, k), Versions(out + t.below, k);
      assert |vs| == |ws| && forall i :: 0 <= i < |vs| ==> vs[i].kind == ws[i].kind;
    }
  }

  /** Zeroing keeps the order: a zeroed version is the oldest of its key in the output. */
  lemma FinalOrder(t: Task, raw: seq<Record>)
    requires Sorted(raw) && t.Zeroable(raw)
    ensures Sorted(PrepareAll(t.job, raw))
  {
    var out := PrepareAll(t.job, raw);
    forall i, j | 0 <= i < j < |out| ensures Before(out[i], out[j]) {
      assert Before(raw[i], raw[j]) && (raw[i].key == raw[j].key <==> Superseded(raw, i, j));
    }
  }

  /** Nothing past the end key survives. */
  lemma {:induction false} SurvivorsPastEnd(t: Task, rest: nat, n: nat)
    requires t.Valid() && rest <= n <= |t.input|
    requires rest < |t.input| ==> !t.job.InRange(t.input[rest].key)
    ensures Survivors(t, n) == Survivors(t, rest)
  {
    if n > rest {
      SurvivorsPastEnd(t, rest, n - 1);
      KeysAscend(t, rest, n - 1);
    }
  }

  /** What the invariant comes to once the input in range is used up. */
  lemma Finish(t: Task, s: State)
    requires Sound(t, s)
    requires s.rest < |t.input| ==> !t.job.InRange(t.input[s.rest].key)
    ensures Sorted(PrepareAll(t.job, s.raw)) && WritesShown(t, PrepareAll(t.job, s.raw))
    ensures ReadsPreserved(t, PrepareAll(t.job, s.raw)) && DisciplinePreserved(t, PrepareAll(t.job, s.raw))
    ensures Derived(t, PrepareAll(t.job, s.raw)) && s.raw == Survivors(t, |t.input|)
  {
    assert s.shadow == None;
    SortedPrefix(s.raw, t.input[s.rest..]);
    FinalOrder(t, s.raw);
    FinalReads(t, s.raw, s.rest);
    FinalDiscipline(t, s.raw, s.rest);
    AllShown(t, s.raw, s.rest);
    AllDerived(t, s.raw, s.rest);
    SurvivorsPastEnd(t, s.rest, |t.input|);
  }

  lemma PreparedMore(job: Job, raw: seq<Record>, raw': seq<Record>)
    requires raw <= raw' && |raw'| <= |raw| + 1
    ensures PrepareAll(job, raw') == PrepareAll(job, raw) + if raw' == raw then [] else [job.PrepareOutput(raw'[|raw|])]
  {
  }

  /** All that a new iterator puts out. */
  method Drain(job: Job, input: seq<Record>, ghost below: seq<Record>) returns (out: seq<Record>, ghost s: State)
    requires Task(job, input, below).Valid()
    ensures out == PrepareAll(job, s.raw) && Sound(Task(job, input, below), s)
    ensures s.rest < |input| ==> !job.InRange(input[s.rest].key)
  {
    var it := new CompactionIterator(job, input, below);
    out := [];
    it.SeekToFirst();
    while it.valid
      invariant it.Valid() && it.Env() == Task(job, input, below)
      invariant !it.valid && it.pos < |input| ==> !job.InRange(input[it.pos].key)
      invariant PrepareAll(job, it.raw) == out + if it.valid then [it.ikey] else []
      decreases |input| - it.Rest(), it.valid
    {
      ghost var raw := it.raw;
      out := out + [it.ikey];
      it.Next();
      PreparedMore(job, raw, it.raw);
    }
    s := it.View(it.pos);
    assert out == PrepareAll(job, it.raw);
  }

  /** A whole compaction: the output is in order, readers and later compactions see no difference, and late writes show. */
  method Compact(job: Job, input: seq<Record>, ghost below: seq<Record>) returns (out: seq<Record>)
    requires Task(job, input, below).Valid()
    ensures Sorted(out)
    ensures ReadsPreserved(Task(job, input, below), out)
    ensures DisciplinePreserved(Task(job, input, below), out)
    ensures WritesShown(Task(job, input, below), out)
    ensures Derived(Task(job, input, below), out)
    ensures out == PrepareAll(job, Survivors(Task(job, input, below), |input|))
  {
    ghost var s;
    out, s := Drain(job, input, below);
    Finish(Task(job, input, below), s);
  }

  /** The one case in which no late write is shown: at the bottom, a Delete that no snapshot sees goes altogether. */
  method VanishedWrite() returns (job: Job, input: seq<Record>, out: seq<Record>)
    ensures Task(job, input, []).Valid() && job.Bottommost() && job.InRange(1)
    ensures input == [Record(1, 5, Delete, "")] && Late(Task(job, input, []), input[0]) && Vanishes(Task(job, input, []), 0)
    ensures WritesShown(Task(job, input, []), out) && !ShowsWrite(Task(job, input, []), out, 1)
  {
    job := Job([3], 3, Some(CompactionInfo(1, [], true, true, false, false)), None, 0);
    input := [Record(1, 5, Delete, "")];
    out := Compact(job, input, []);
    assert Newest(Task(job, input, []), 0);
  }

  /** Nothing changes for readers of a store that holds newer versions as well, and the discipline of it all survives. */
  lemma UnderNewerVersions(t: Task, out: seq<Record>, above: seq<Record>, k: UserKey, s: nat)
    requires ReadsPreserved(t, out) && DisciplinePreserved(t, out) && t.job.InRange(k)
    ensures SingleDeleteDiscipline(above + (t.input + t.below), k) ==>
              t.Promised(k) && SingleDeleteDiscipline(above + (out + t.below), k)
    ensures t.Promised(k) && IsView(t.job.snapshots, s) ==>
              Read(above + (out + t.below), k, s) == Read(above + (t.input + t.below), k, s)
  {
    LookupConcat(above, t.input + t.below, k, s);
    LookupConcat(above, out + t.below, k, s);
    if SingleDeleteDiscipline(above + (t.input + t.below), k) {
      VersionsConcat(above, t.input + t.below, k);
      VersionsConcat(above, out + t.below, k);
      DisciplinedSuffix(Versions(above, k), Versions(t.input + t.below, k));
      DisciplinedUnder(Versions(above, k), Versions(t.input + t.below, k), Versions(out + t.below, k));
    }
  }
}
