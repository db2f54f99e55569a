/** The levels of a store, and what a compaction that the picker starts finds above and below its inputs. */
module LevelStores {
  import opened Records
  import opened SnapshotStripes
  import opened LevelFiles
  import opened RunningCompactions
  import opened CompactionPickers
  import Levels = Compaction
  import opened Compactable
  import opened Rewriting
  import opened ConflictChecks
  import opened CompactionRun

  type Compaction = RunningCompactions.Compaction

  /** What the table files hold, by file number. */
  type Contents = map<nat, seq<Record>>

  predicate Has(cs: Contents, f: File, r: Record) {
    f.number in cs && r in cs[f.number]
  }

  predicate Stores(v: seq<seq<File>>, cs: Contents, l: int, f: File, r: Record) {
    0 <= l < |v| && f in v[l] && Has(cs, f, r)
  }

  /** A file holds keys of its range only, versions of a key get older from level to level, and no two have one number. */
  ghost predicate Layered(v: seq<seq<File>>, cs: Contents) {
    && (forall l, f, r :: Stores(v, cs, l, f, r) ==> f.Contains(r.key))
    && (forall l, f, r, g, q :: Stores(v, cs, l, f, r) && Stores(v, cs, l, g, q) && r.key == q.key && r.seqno == q.seqno ==>
          r == q)
    && (forall l, f, r, m, g, q :: Stores(v, cs, l, f, r) && Stores(v, cs, m, g, q) && l < m && r.key == q.key ==>
          q.seqno < r.seqno)
  }

  /** IsBottommostLevel, for an output level below 0. */
  predicate IsBottommost(v: seq<seq<File>>, c: Compaction) {
    forall l, f :: c.outputLevel < l < |v| && f in v[l] ==> !Overlaps(f, c.smallest, c.largest)
  }

  function InfoOf(v: seq<seq<File>>, c: Compaction, ingestBehind: bool, preserveDeletes: bool): Levels.CompactionInfo {
    Levels.CompactionInfo(c.outputLevel, v, IsBottommost(v, c), true, ingestBehind, preserveDeletes)
  }

  ghost predicate IsInput(v: seq<seq<File>>, cs: Contents, c: Compaction, l: int, f: File, r: Record) {
    Stores(v, cs, l, f, r) && Input(l, f) in c.inputs
  }

  /** What the merging iterator runs over. */
  ghost predicate Merged(v: seq<seq<File>>, cs: Contents, c: Compaction, input: seq<Record>) {
    Sorted(input) && forall r :: r in input <==> exists l, f :: IsInput(v, cs, c, l, f, r)
  }

  /** A file that the compaction leaves on its output level or deeper. */
  ghost predicate IsBelow(v: seq<seq<File>>, cs: Contents, c: Compaction, l: int, f: File, r: Record) {
    Stores(v, cs, l, f, r) && l >= c.outputLevel && Input(l, f) !in c.inputs
  }

  ghost predicate Beneath(v: seq<seq<File>>, cs: Contents, c: Compaction, below: seq<Record>) {
    Sorted(below) && forall r :: r in below <==> exists l, f :: IsBelow(v, cs, c, l, f, r)
  }

  /** A file that it leaves on an earlier level. */
  ghost predicate IsAbove(v: seq<seq<File>>, cs: Contents, c: Compaction, l: int, f: File, r: Record) {
    Stores(v, cs, l, f, r) && l < c.outputLevel && Input(l, f) !in c.inputs
  }

  ghost predicate NewestFirst(rs: seq<Record>) {
    forall i, j :: 0 <= i < j < |rs| && rs[i].key == rs[j].key ==> rs[i].seqno > rs[j].seqno
  }

  ghost predicate Overhead(v: seq<seq<File>>, cs: Contents, c: Compaction, above: seq<Record>) {
    NewestFirst(above) && forall r :: r in above <==> exists l, f :: IsAbove(v, cs, c, l, f, r)
  }

  /** What the picker promises of a compaction into a level below 0. */
  ghost predicate WellPicked(v: seq<seq<File>>, c: Compaction) {
    && ValidVersion(v) && 1 <= c.outputLevel < |v| && c.startLevel <= c.outputLevel
    && c.WellFormed() && FromLevels(v, c) && NothingLeftBehind(v, c) && RangeClear(v, c)
  }

  /** An input and a version of the same key left on the output level or deeper: that is deeper, and older. */
  lemma BelowIsOlder(v: seq<seq<File>>, cs: Contents, c: Compaction, l: int, f: File, r: Record, m: int, g: File, q: Record)
    requires WellPicked(v, c) && Layered(v, cs) && IsInput(v, cs, c, l, f, r) && IsBelow(v, cs, c, m, g, q) && r.key == q.key
    ensures q.seqno < r.seqno && m > c.outputLevel && g.Contains(q.key) && !IsBottommost(v, c)
  {
    assert Within(Input(l, f).file, c.smallest, c.largest) && f.Contains(r.key) && g.Contains(q.key);
    assert m == c.outputLevel ==> LeftOut(v, c, m, g);
    assert Overlaps(g, f.smallest, f.largest) && Overlaps(g, c.smallest, c.largest);
  }

  lemma DeeperContains(info: Levels.CompactionInfo, l: int, f: File, k: UserKey)
    requires info.outputLevel < l < |info.levels| && f in info.levels[l] && f.Contains(k)
    ensures info.DeeperFileContains(k)
  {
    var j :| 0 <= j < |info.levels[l]| && info.levels[l][j] == f;
  }

  lemma SharedBelow(v: seq<seq<File>>, cs: Contents, c: Compaction, input: seq<Record>, below: seq<Record>, i: int, j: int,
                    ingestBehind: bool, preserveDeletes: bool)
    requires WellPicked(v, c) && Layered(v, cs) && Merged(v, cs, c, input) && Beneath(v, cs, c, below) && Shared(input, below, i, j)
    ensures below[j].seqno < input[i].seqno && !IsBottommost(v, c)
    ensures InfoOf(v, c, ingestBehind, preserveDeletes).DeeperFileContains(below[j].key)
  {
    assert input[i] in input && below[j] in below;
    var l, f :| IsInput(v, cs, c, l, f, input[i]);
    var m, g :| IsBelow(v, cs, c, m, g, below[j]);
    BelowIsOlder(v, cs, c, l, f, input[i], m, g, below[j]);
    DeeperContains(InfoOf(v, c, ingestBehind, preserveDeletes), m, g, below[j].key);
  }

  /** What the iterator asks of the data below its input holds of every compaction that the picker starts below level 0. */
  lemma PickedLiesBelow(v: seq<seq<File>>, cs: Contents, c: Compaction, job: Job, input: seq<Record>, below: seq<Record>,
                        ingestBehind: bool, preserveDeletes: bool)
    requires WellPicked(v, c) && Layered(v, cs) && Merged(v, cs, c, input) && Beneath(v, cs, c, below)
    requires job.compaction == Some(InfoOf(v, c, ingestBehind, preserveDeletes))
    ensures LiesBelow(job, input, below) && job.compaction.value.DeeperSorted()
  {
    forall i, j | Shared(input, below, i, j)
      ensures below[j].seqno < input[i].seqno && !IsBottommost(v, c)
      ensures job.compaction.value.DeeperFileContains(below[j].key)
    {
      SharedBelow(v, cs, c, input, below, i, j, ingestBehind, preserveDeletes);
    }
  }

  // ---- The whole store

  /** No file lies between the start level and the output level. */
  predicate NothingBetween(v: seq<seq<File>>, c: Compaction) {
    forall l :: c.startLevel < l < c.outputLevel && l < |v| ==> v[l] == []
  }

  lemma AboveIsNewer(v: seq<seq<File>>, cs: Contents, c: Compaction, l: int, f: File, r: Record, m: int, g: File, q: Record)
    requires WellPicked(v, c) && Layered(v, cs) && NothingBetween(v, c) && IsAbove(v, cs, c, l, f, r) && r.key == q.key
    requires IsInput(v, cs, c, m, g, q) || IsBelow(v, cs, c, m, g, q)
    ensures q.seqno < r.seqno
  {
    assert f.Contains(r.key) && g.Contains(q.key);
    assert Overlaps(f, g.smallest, g.largest);
    assert l == c.startLevel ==> LeftOut(v, c, l, f);
    assert Input(m, g) in c.inputs ==> m == c.startLevel || m == c.outputLevel;
  }

  lemma NewestFirstOver(a: seq<Record>, b: seq<Record>)
    requires NewestFirst(a) && NewestFirst(b) && forall r, q :: r in a && q in b && r.key == q.key ==> q.seqno < r.seqno
    ensures NewestFirst(a + b)
  {
    forall i, j | 0 <= i < j < |a + b| && (a + b)[i].key == (a + b)[j].key ensures (a + b)[i].seqno > (a + b)[j].seqno {
      if i < |a| <= j {
        assert a[i] in a && b[j - |a|] in b;
      }
    }
  }

  lemma SortedNewestFirst(rs: seq<Record>)
    requires Sorted(rs)
    ensures NewestFirst(rs)
  {
    forall i, j | 0 <= i < j < |rs| && rs[i].key == rs[j].key ensures rs[i].seqno > rs[j].seqno {
      assert Before(rs[i], rs[j]);
    }
  }

  /** Above, inputs and below, one after the other, have newer versions first. */
  lemma StoreInOrder(v: seq<seq<File>>, cs: Contents, c: Compaction, above: seq<Record>, input: seq<Record>, below: seq<Record>)
    requires WellPicked(v, c) && Layered(v, cs) && NothingBetween(v, c)
    requires Overhead(v, cs, c, above) && Merged(v, cs, c, input) && Beneath(v, cs, c, below)
    ensures NewestFirst(above + (input + below))
  {
    SortedNewestFirst(input);
    SortedNewestFirst(below);
    forall r, q | r in input && q in below && r.key == q.key ensures q.seqno < r.seqno {
      var l, f :| IsInput(v, cs, c, l, f, r);
      var m, g :| IsBelow(v, cs, c, m, g, q);
      BelowIsOlder(v, cs, c, l, f, r, m, g, q);
    }
    NewestFirstOver(input, below);
    forall r, q | r in above && q in input + below && r.key == q.key ensures q.seqno < r.seqno {
      var l, f :| IsAbove(v, cs, c, l, f, r);
      var m, g :| IsInput(v, cs, c, m, g, q) || IsBelow(v, cs, c, m, g, q);
      AboveIsNewer(v, cs, c, l, f, r, m, g, q);
    }
    NewestFirstOver(above, input + below);
  }

  /** The picker's own choice meets what the iterator asks for. */
  method PickLevel(p: CompactionPicker, v: seq<seq<File>>, h: Hints) returns (r: Option<Compaction>)
    requires p.Valid() && ValidVersion(v) && StayOnLevels(v, p.running) && ValidHints(v, h, p.marked)
    modifies p
    ensures p.Valid() && (r.Some? && r.value.outputLevel >= 1 ==> WellPicked(v, r.value))
  {
    r := p.PickCompaction(v, h);
  }

  method PickRange(p: CompactionPicker, v: seq<seq<File>>, level: nat, out: nat, begin: Option<Key>, end: Option<Key>, limit: nat)
    returns (r: Option<Compaction>, conflict: bool, next: Option<Key>)
    requires p.Valid() && ValidVersion(v) && level <= out < |v|
    modifies p
    ensures p.Valid() && (r.Some? && out >= 1 ==> WellPicked(v, r.value))
  {
    r, conflict, next := p.CompactRange(v, level, out, begin, end, limit);
  }

  /** Running a compaction that the picker has started changes no read of the store at any view. */
  method CompactPicked(v: seq<seq<File>>, ghost cs: Contents, c: Compaction, job: Job, input: seq<Record>,
                       ghost below: seq<Record>, ghost above: seq<Record>, ingestBehind: bool, preserveDeletes: bool)
    returns (out: seq<Record>)
    requires WellPicked(v, c) && Layered(v, cs) && Merged(v, cs, c, input) && Beneath(v, cs, c, below)
    requires job.compaction == Some(InfoOf(v, c, ingestBehind, preserveDeletes)) && SentinelFree(job, input)
    requires Ascending(job.snapshots) && IsView(job.snapshots, job.earliestWriteConflictSnapshot)
    ensures Sorted(out) && Derived(Task(job, input, below), out)
    ensures ReadsPreserved(Task(job, input, below), out) && DisciplinePreserved(Task(job, input, below), out)
    ensures forall k, s: nat :: job.InRange(k) && Eligible(input, below, k) && IsView(job.snapshots, s) ==>
              Read(above + (out + below), k, s) == Read(above + (input + below), k, s)
  {
    PickedLiesBelow(v, cs, c, job, input, below, ingestBehind, preserveDeletes);
    out := Compact(job, input, below);
    forall k, s: nat | job.InRange(k) && Eligible(input, below, k) && IsView(job.snapshots, s)
      ensures Read(above + (out + below), k, s) == Read(above + (input + below), k, s)
    {
      UnderNewerVersions(Task(job, input, below), out, above, k, s);
    }
  }
}
