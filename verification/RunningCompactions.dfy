/** The compactions in progress, and the picking of another one that conflicts with none of them. */
module RunningCompactions {
  import opened LevelFiles
  import opened CompactionInputs

  datatype Input = Input(level: nat, file: File)

  datatype Compaction = Compaction(startLevel: nat, inputs: seq<Input>, outputLevel: nat, smallest: Key, largest: Key)
  {
    function Numbers(): set<nat> {
      set x | x in inputs :: x.file.number
    }

    /** It has inputs, its range spans them, and it counts as a level-0 compaction if it has any from there. */
    predicate WellFormed() {
      && inputs != [] && smallest <= largest
      && forall x :: x in inputs ==> Within(x.file, smallest, largest) && (x.level == 0 ==> startLevel == 0)
    }
  }

  function Tag(level: nat, files: seq<File>): (r: seq<Input>)
    ensures |r| == |files| && forall x :: x in r <==> x.level == level && x.file in files
  {
    if files == [] then [] else [Input(level, files[0])] + Tag(level, files[1..])
  }

  ghost predicate Clear(c: Compaction, d: Compaction) {
    c.Numbers() !! d.Numbers() && (c.outputLevel == d.outputLevel >= 1 ==> c.largest < d.smallest || d.largest < c.smallest)
  }

  /** No two running compactions share an input, and no two write overlapping ranges of one level below 0. */
  ghost predicate ConflictFree(running: set<Compaction>) {
    forall c, d :: c in running && d in running && c != d ==> Clear(c, d)
  }

  /** The files marked as being compacted are the inputs of the running compactions. */
  ghost predicate MarkedAre(running: set<Compaction>, marked: set<nat>) {
    && (forall c :: c in running ==> c.Numbers() <= marked)
    && (forall n :: n in marked ==> exists c :: c in running && n in c.Numbers())
  }

  ghost predicate Consistent(running: set<Compaction>, level0: set<Compaction>, marked: set<nat>) {
    && (forall c :: c in running ==> c.WellFormed())
    && (forall c :: c in level0 <==> c in running && c.startLevel == 0)
    && MarkedAre(running, marked) && ConflictFree(running)
  }

  /** RangeOverlapWithCompaction. */
  predicate OverlapsRunning(running: set<Compaction>, lo: Key, hi: Key, level: nat) {
    exists c :: c in running && c.outputLevel == level && lo <= c.largest && hi >= c.smallest
  }

  /** What must be true of a compaction for it to be registered. */
  ghost predicate Admissible(running: set<Compaction>, marked: set<nat>, c: Compaction) {
    && c.WellFormed() && c.Numbers() !! marked
    && (c.outputLevel >= 1 ==> !OverlapsRunning(running, c.smallest, c.largest, c.outputLevel))
  }

  lemma RegisterKeeps(running: set<Compaction>, level0: set<Compaction>, marked: set<nat>, c: Compaction)
    requires Consistent(running, level0, marked) && Admissible(running, marked, c)
    ensures c !in running
    ensures Consistent(running + {c}, if c.startLevel == 0 then level0 + {c} else level0, marked + c.Numbers())
  {
    var x := c.inputs[0];
    assert x.file.number in c.Numbers();
    forall d | d in running ensures Clear(c, d) && Clear(d, c) {
      assert d.Numbers() <= marked;
    }
    var running', marked' := running + {c}, marked + c.Numbers();
    forall n | n in marked' ensures exists d :: d in running' && n in d.Numbers() {
      if n in marked {
        var d :| d in running && n in d.Numbers();
        assert d in running';
      } else {
        assert c in running' && n in c.Numbers();
      }
    }
  }

  /** Registering a compaction that shares a range with a running one into its level leaves two in conflict. */
  lemma RegisterBreaks(running: set<Compaction>, marked: set<nat>, c: Compaction)
    requires MarkedAre(running, marked) && c.WellFormed() && c.Numbers() !! marked
    requires c.outputLevel >= 1 && OverlapsRunning(running, c.smallest, c.largest, c.outputLevel)
    ensures !ConflictFree(running + {c})
  {
    var d :| d in running && d.outputLevel == c.outputLevel && c.smallest <= d.largest && c.largest >= d.smallest;
    assert c.inputs[0].file.number in c.Numbers();
    assert c != d && !Clear(c, d);
  }

  lemma ReleaseKeeps(running: set<Compaction>, level0: set<Compaction>, marked: set<nat>, c: Compaction)
    requires Consistent(running, level0, marked) && c in running
    ensures Consistent(running - {c}, level0 - {c}, marked - c.Numbers())
  {
    var running', marked' := running - {c}, marked - c.Numbers();
    forall d | d in running' ensures d.Numbers() <= marked' {
      assert Clear(c, d);
    }
    forall n | n in marked' ensures exists d :: d in running' && n in d.Numbers() {
      var d :| d in running && n in d.Numbers();
      assert d in running';
    }
  }

  // ---- Runs

  datatype PickerState = PickerState(running: set<Compaction>, level0: set<Compaction>, marked: set<nat>)
  {
    function Registered(c: Compaction): PickerState {
      PickerState(running + {c}, if c.startLevel == 0 then level0 + {c} else level0, marked + c.Numbers())
    }

    function Released(c: Compaction): PickerState {
      PickerState(running - {c}, level0 - {c}, marked - c.Numbers())
    }
  }

  ghost predicate IsRun(states: seq<PickerState>) {
    && states != [] && states[0] == PickerState({}, {}, {})
    && forall i :: 0 < i < |states| ==> Step(states[i - 1], states[i])
  }

  ghost predicate Step(s: PickerState, t: PickerState) {
    || (exists c :: Admissible(s.running, s.marked, c) && t == s.Registered(c))
    || (exists c :: c in s.running && t == s.Released(c))
  }

  /** In every run of registering admissible compactions and releasing running ones, no two running ones conflict. */
  lemma {:induction false} RunsAreConflictFree(states: seq<PickerState>, i: nat)
    requires IsRun(states) && i < |states|
    ensures var s := states[i]; Consistent(s.running, s.level0, s.marked) && ConflictFree(s.running)
    decreases i
  {
    if i > 0 {
      RunsAreConflictFree(states, i - 1);
      var s, t := states[i - 1], states[i];
      assert Step(s, t);
      if c :| Admissible(s.running, s.marked, c) && t == s.Registered(c) {
        RegisterKeeps(s.running, s.level0, s.marked, c);
      } else {
        var c :| c in s.running && t == s.Released(c);
        ReleaseKeeps(s.running, s.level0, s.marked, c);
      }
    }
  }

  // ---- Versions

  ghost predicate ValidVersion(v: seq<seq<File>>) {
    |v| > 1 && forall l :: 0 <= l < |v| ==> ValidLevel(l, v[l])
  }

  /** The inputs of running compactions stay on their levels. */
  ghost predicate StayOnLevels(v: seq<seq<File>>, running: set<Compaction>) {
    forall c, x, l, f :: c in running && x in c.inputs && 0 <= l < |v| && f in v[l] && f.number == x.file.number ==> x.level == l
  }

  /** While no level-0 compaction runs, no level-0 file is being compacted. */
  lemma LevelZeroFree(v: seq<seq<File>>, running: set<Compaction>, level0: set<Compaction>, marked: set<nat>, f: File)
    requires |v| > 0 && Consistent(running, level0, marked) && level0 == {} && StayOnLevels(v, running) && f in v[0]
    ensures f.number !in marked
  {
    assert forall c :: c in running ==> f.number !in c.Numbers();
  }

  /** Files chosen on a level: some, none of them taken, and below level 0 a clean cut. */
  ghost predicate Chosen(v: seq<seq<File>>, level: nat, sel: Selection, marked: set<nat>) {
    && level < |v| && sel.Of(level, v[level]) && sel.In(v[level]) != []
    && !InCompaction(marked, sel.In(v[level])) && sel.CleanIn(level, v[level])
  }

  datatype Start = NoStart | Start(level: nat, out: nat, inputs: Selection)

  ghost predicate Started(v: seq<seq<File>>, s: Start, level0: set<Compaction>, marked: set<nat>) {
    s.Start? ==>
      && s.level <= s.out < |v| && Chosen(v, s.level, s.inputs, marked)
      && (s.level == 0 && s.out != 0 ==> level0 == {})
  }

  datatype Flagged = Flagged(level: nat, index: nat, toParent: bool)

  /** What the version's statistics say: which levels are due, in which order to try files, which files are flagged. */
  datatype Hints = Hints(due: seq<nat>, order: seq<seq<nat>>, baseLevel: nat, trigger: nat,
                         flagged: seq<Flagged>, bottommost: seq<Flagged>, limit: nat)

  ghost predicate Free(v: seq<seq<File>>, g: Flagged, marked: set<nat>) {
    g.level < |v| && g.index < |v[g.level]| && v[g.level][g.index].number !in marked && (g.toParent ==> g.level + 1 < |v|)
  }

  ghost predicate ValidHints(v: seq<seq<File>>, h: Hints, marked: set<nat>) {
    && 0 < h.baseLevel < |v| && |h.order| == |v|
    && (forall l :: l in h.due ==> l + 1 < |v|)
    && (forall l, i :: 0 <= l < |v| && i in h.order[l] ==> i < |v[l]|)
    && (forall g :: g in h.flagged || g in h.bottommost ==> Free(v, g, marked))
  }

  const MAX_SIZE: nat := 0xFFFF_FFFF_FFFF_FFFF

  /** What merging the first t + 1 files costs for each of the t files it saves. */
  function Work(files: seq<File>, t: nat): nat
    requires t < |files|
  {
    if t == 0 then MAX_SIZE else BytesOf(files[..t + 1]) / t
  }

  /** Taking file t in as well costs no more for each file saved. */
  predicate Worth(files: seq<File>, marked: set<nat>, t: nat)
    requires 0 < t < |files|
  {
    files[t].number !in marked && Work(files, t) <= Work(files, t - 1)
  }

  /** The longest run of newest files, each of which was worth taking in. */
  function IntraRun(files: seq<File>, marked: set<nat>, t: nat): (r: nat)
    requires 0 < t <= |files|
    ensures t <= r <= |files| && (forall i :: t <= i < r ==> Worth(files, marked, i))
    ensures r == |files| || !Worth(files, marked, r)
    decreases |files| - t
  {
    if t < |files| && Worth(files, marked, t) then IntraRun(files, marked, t + 1) else t
  }

  /** How many of the newest files to merge, or 0 if they are too few. */
  function IntraSpan(files: seq<File>, marked: set<nat>, least: nat): (span: nat)
    requires files != []
    ensures span <= |files| && (span == 0 || least <= span)
  {
    var run := IntraRun(files, marked, 1);
    if run >= least && Work(files, run - 1) < MAX_SIZE then run else 0
  }

  lemma {:induction false} IntraRunFrom(files: seq<File>, marked: set<nat>, t: nat, r: nat)
    requires 0 < t <= r <= |files| && forall i :: t <= i < r ==> Worth(files, marked, i)
    requires r == |files| || !Worth(files, marked, r)
    ensures IntraRun(files, marked, t) == r
    decreases r - t
  {
    if t < r {
      IntraRunFrom(files, marked, t + 1, r);
    }
  }

  /** FindIntraL0Compaction: how many of the newest files to merge, while the work for each one saved goes down. */
  method FindIntraL0(files: seq<File>, marked: set<nat>, least: nat) returns (span: nat)
    requires files != [] && files[0].number !in marked && 0 < least
    ensures span == IntraSpan(files, marked, least) && !InCompaction(marked, files[..span])
  {
    var bytes, perFile := files[0].bytes, MAX_SIZE;
    span := 1;
    BytesOneMore(files, 0);
    while span < |files|
      invariant 1 <= span <= |files| && bytes == BytesOf(files[..span]) && perFile == Work(files, span - 1)
      invariant forall i :: 1 <= i < span ==> Worth(files, marked, i)
    {
      BytesOneMore(files, span);
      if files[span].number in marked || (bytes + files[span].bytes) / span > perFile {
        break;
      }
      bytes := bytes + files[span].bytes;
      perFile, span := bytes / span, span + 1;
    }
    IntraRunFrom(files, marked, 1, span);
    RunUnmarked(files, marked, span);
    if !(span >= least && perFile < MAX_SIZE) {
      span := 0;
    }
  }

  lemma BytesOneMore(files: seq<File>, n: nat)
    requires n < |files|
    ensures BytesOf(files[..n + 1]) == BytesOf(files[..n]) + files[n].bytes
  {
    assert files[..n + 1][..n] == files[..n];
  }

  lemma RunUnmarked(files: seq<File>, marked: set<nat>, n: nat)
    requires 1 <= n <= |files| && files[0].number !in marked && forall i :: 1 <= i < n ==> Worth(files, marked, i)
    ensures !InCompaction(marked, files[..n])
  {
    forall f | f in files[..n] ensures f.number !in marked {
      var i :| 0 <= i < n && files[..n][i] == f;
      assert i > 0 ==> Worth(files, marked, i);
    }
  }

  /** The one file at an index, as a selection. */
  function One(level: nat, files: seq<File>, i: nat): Selection
    requires i < |files|
  {
    if level == 0 then Picked([files[i]]) else Span(i, i + 1)
  }

  lemma OneHas(level: nat, files: seq<File>, i: nat)
    requires i < |files|
    ensures One(level, files, i).Of(level, files) && One(level, files, i).In(files) == [files[i]]
  {
  }
}
