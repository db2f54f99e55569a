/** The compaction picker of the level style: every compaction it starts is clear of those already running. */
module CompactionPickers {
  import opened LevelFiles
  import opened CompactionInputs
  import opened Records
  import opened RunningCompactions
  import opened CompactionChoices
  import opened Sanitizing

  function Matching(files: seq<File>, sel: set<nat>): (r: seq<File>)
    ensures forall f :: f in r <==> f in files && f.number in sel
  {
    if files == [] then []
    else (if files[0].number in sel then [files[0]] else []) + Matching(files[1..], sel)
  }

  function FilesOf(inputs: seq<Input>): (r: seq<File>)
    ensures |r| == |inputs| && (forall i :: 0 <= i < |r| ==> r[i] == inputs[i].file)
  {
    seq(|inputs|, i requires 0 <= i < |inputs| => inputs[i].file)
  }

  /** GetBoundaryKeys: the range from the smallest to the largest key of some inputs. */
  method GetBoundaryKeys(inputs: seq<Input>) returns (lo: Key, hi: Key)
    requires inputs != [] && forall x :: x in inputs ==> x.file.smallest <= x.file.largest
    ensures Spans(FilesOf(inputs), lo, hi) && lo <= hi
  {
    ghost var files := FilesOf(inputs);
    lo, hi := inputs[0].file.smallest, inputs[0].file.largest;
    assert inputs[0] in inputs && files[..1] == [inputs[0].file];
    for i := 1 to |inputs|
      invariant Spans(files[..i], lo, hi) && lo <= hi
    {
      assert files[..i + 1] == files[..i] + [files[i]];
      assert inputs[i] in inputs;
      var f := inputs[i].file;
      SpansStep(files[..i], f, lo, hi);
      lo, hi := if f.smallest < lo then f.smallest else lo, if f.largest > hi then f.largest else hi;
    }
    assert files[..|files|] == files;
  }

  /** GetCompactionInputsFromFileNumbers: the files of these numbers, level by level. */
  method CollectInputs(v: seq<seq<File>>, sel: set<nat>) returns (inputs: seq<Input>)
    ensures forall x :: x in inputs <==> x.level < |v| && x.file in v[x.level] && x.file.number in sel
    ensures forall x :: x in inputs ==> inputs[0].level <= x.level
  {
    inputs := [];
    for l := 0 to |v|
      invariant forall x :: x in inputs <==> x.level < l && x.file in v[x.level] && x.file.number in sel
      invariant forall x :: x in inputs ==> inputs[0].level <= x.level
    {
      inputs := inputs + Tag(l, Matching(v[l], sel));
    }
  }

  /** The inputs are files of the start level and of the output level. */
  predicate FromLevels(v: seq<seq<File>>, c: Compaction) {
    forall x :: x in c.inputs ==>
      (x.level == c.startLevel || x.level == c.outputLevel) && x.level < |v| && x.file in v[x.level]
  }

  /** The files c..d of the output level are all that the start files need from there. */
  ghost predicate Suffice(v: seq<seq<File>>, level: nat, inputs: Selection, out: nat, c: nat, d: nat)
    requires level < |v| && out < |v|
  {
    && (level == 0 ==> Detached(v[0], inputs.In(v[0]))) && c <= d <= |v[out]|
    && if level == out then c == d
       else Separated(v[out], c, d, inputs.In(v[level])) &&
            (c < d ==> Clean(v[out], c, d) && Touches(v[out], c, d, inputs.In(v[level])))
  }

  predicate AllWithin(files: seq<File>, lo: Key, hi: Key) {
    forall f :: f in files ==> Within(f, lo, hi)
  }

  /** The range of start files and the files c..d of the output level. */
  method HullOf(v: seq<seq<File>>, level: nat, inputs: Selection, out: nat, c: nat, d: nat) returns (lo: Key, hi: Key)
    requires level < |v| && out < |v| && ValidLevel(level, v[level]) && ValidLevel(out, v[out])
    requires inputs.Of(level, v[level]) && inputs.In(v[level]) != [] && c <= d <= |v[out]| && (c < d ==> out > 0)
    ensures lo <= hi && AllWithin(inputs.In(v[level]), lo, hi) && AllWithin(v[out][c..d], lo, hi)
    ensures IsHull(inputs.In(v[level]), v[out][c..d], lo, hi)
  {
    lo, hi := GetRange(level, v[level], inputs);
    if c < d {
      var p, q := lo, hi;
      var lo', hi' := GetRange(out, v[out], Span(c, d));
      SpanEnds(v[out], c, d);
      SpansUnique(v[out][c..d], lo', hi', v[out][c].smallest, v[out][d - 1].largest);
      lo, hi := if lo' < lo then lo' else lo, if hi' > hi then hi' else hi;
      assert HullOver(v[out][c..d], p, q, lo, hi);
    }
  }

  predicate HullOver(output: seq<File>, p: Key, q: Key, lo: Key, hi: Key) {
    if output == [] then lo == p && hi == q
    else
      && lo == (if output[0].smallest < p then output[0].smallest else p)
      && hi == (if output[|output| - 1].largest > q then output[|output| - 1].largest else q)
  }

  ghost predicate IsHull(start: seq<File>, output: seq<File>, lo: Key, hi: Key) {
    exists p, q :: Spans(start, p, q) && HullOver(output, p, q, lo, hi)
  }

  /** No file left on the output level overlaps the range of the whole compaction. */
  ghost predicate RangeClear(v: seq<seq<File>>, c: Compaction) {
    forall f :: LeftOut(v, c, c.outputLevel, f) ==> !Overlaps(f, c.smallest, c.largest)
  }

  lemma OutsideHull(files: seq<File>, c: nat, d: nat, start: seq<File>, p: Key, q: Key, lo: Key, hi: Key, i: nat)
    requires SortedLevel(files) && c <= d <= |files| && Spans(start, p, q) && p <= q && HullOver(files[c..d], p, q, lo, hi)
    requires Separated(files, c, d, start) && (c < d ==> Clean(files, c, d) && Touches(files, c, d, start))
    requires i < |files| && !(c <= i < d)
    ensures !Overlaps(files[i], lo, hi)
  {
    assert !Overlaps(files[i], p, q);
    if c < d {
      var x, y, k :| Spans(start, x, y) && c <= k < d && Overlaps(files[k], x, y);
      SpansUnique(start, p, q, x, y);
      HullSeparates(files, c, d, p, q, i, k);
    }
  }

  lemma RangeIsClear(v: seq<seq<File>>, level: nat, inputs: Selection, out: nat, c: nat, d: nat, r: Compaction)
    requires ValidVersion(v) && level <= out < |v| && inputs.Of(level, v[level])
    requires inputs.In(v[level]) != [] && inputs.CleanIn(level, v[level]) && Suffice(v, level, inputs, out, c, d)
    requires r.startLevel == level && r.outputLevel == out >= 1
    requires r.inputs == Tag(level, inputs.In(v[level])) + Tag(out, v[out][c..d])
    requires IsHull(inputs.In(v[level]), v[out][c..d], r.smallest, r.largest)
    ensures RangeClear(v, r)
  {
    var start := inputs.In(v[level]);
    var p, q :| Spans(start, p, q) && HullOver(v[out][c..d], p, q, r.smallest, r.largest);
    SpanUpright(level, v[level], inputs, p, q);
    forall f | LeftOut(v, r, out, f) ensures !Overlaps(f, r.smallest, r.largest) {
      LeftOutOf(v, start, v[out][c..d], r, f);
      if level == out {
        SpanClear(v[out], inputs.a, inputs.b, p, q, f);
      } else {
        HullClear(v[out], c, d, start, p, q, r.smallest, r.largest, f);
      }
    }
  }

  lemma SpanUpright(level: nat, files: seq<File>, sel: Selection, p: Key, q: Key)
    requires ValidLevel(level, files) && sel.Of(level, files) && sel.In(files) != [] && Spans(sel.In(files), p, q)
    ensures p <= q
  {
    SelectionNonempty(level, files, sel);
    assert sel.In(files)[0] in sel.In(files);
  }

  lemma LeftOutOf(v: seq<seq<File>>, start: seq<File>, output: seq<File>, r: Compaction, f: File)
    requires LeftOut(v, r, r.outputLevel, f) && r.inputs == Tag(r.startLevel, start) + Tag(r.outputLevel, output)
    ensures f !in output && (r.startLevel == r.outputLevel ==> f !in start)
  {
    var x := Input(r.outputLevel, f);
    assert x !in Tag(r.startLevel, start) && x !in Tag(r.outputLevel, output);
  }

  lemma SpanClear(files: seq<File>, a: nat, b: nat, p: Key, q: Key, f: File)
    requires SortedLevel(files) && Clean(files, a, b) && Spans(files[a..b], p, q) && f in files && f !in files[a..b]
    ensures !Overlaps(f, p, q)
  {
    var i :| 0 <= i < |files| && files[i] == f;
    OutsideSpan(files, a, b, i);
    SpanEnds(files, a, b);
    SpansUnique(files[a..b], p, q, files[a].smallest, files[b - 1].largest);
    CleanSeparates(files, a, b, i);
  }

  lemma HullClear(files: seq<File>, c: nat, d: nat, start: seq<File>, p: Key, q: Key, lo: Key, hi: Key, f: File)
    requires SortedLevel(files) && c <= d <= |files| && Spans(start, p, q) && p <= q && HullOver(files[c..d], p, q, lo, hi)
    requires Separated(files, c, d, start) && (c < d ==> Clean(files, c, d) && Touches(files, c, d, start))
    requires f in files && f !in files[c..d]
    ensures !Overlaps(f, lo, hi)
  {
    var i :| 0 <= i < |files| && files[i] == f;
    OutsideSpan(files, c, d, i);
    OutsideHull(files, c, d, start, p, q, lo, hi, i);
  }

  lemma TaggedWellFormed(start: seq<File>, output: seq<File>, c: Compaction, marked: set<nat>)
    requires c.inputs == Tag(c.startLevel, start) + Tag(c.outputLevel, output) && start != [] && c.smallest <= c.largest
    requires AllWithin(start, c.smallest, c.largest) && AllWithin(output, c.smallest, c.largest)
    requires !InCompaction(marked, start) && !InCompaction(marked, output) && (output != [] ==> c.outputLevel > 0)
    ensures c.WellFormed() && c.Numbers() !! marked
  {
  }

  /** The compaction of chosen start files and the files c..d of the output level. */
  method Assemble(v: seq<seq<File>>, level: nat, inputs: Selection, out: nat, c: nat, d: nat, ghost marked: set<nat>)
    returns (r: Compaction)
    requires ValidVersion(v) && Chosen(v, level, inputs, marked) && level <= out < |v| && c <= d <= |v[out]|
    requires !InCompaction(marked, v[out][c..d]) && (c < d ==> out > 0) && (out == 0 ==> level == 0)
    ensures r.WellFormed() && r.Numbers() !! marked && r.outputLevel == out && r.startLevel == level
    ensures r.inputs == Tag(level, inputs.In(v[level])) + Tag(out, v[out][c..d]) && FromLevels(v, r)
    ensures IsHull(inputs.In(v[level]), v[out][c..d], r.smallest, r.largest)
    ensures out >= 1 && Suffice(v, level, inputs, out, c, d) ==> NothingLeftBehind(v, r) && RangeClear(v, r)
  {
    var lo, hi := HullOf(v, level, inputs, out, c, d);
    r := Compaction(level, Tag(level, inputs.In(v[level])) + Tag(out, v[out][c..d]), out, lo, hi);
    TaggedWellFormed(inputs.In(v[level]), v[out][c..d], r, marked);
    TaggedFromLevels(v, inputs.In(v[level]), v[out][c..d], r);
    AssembledClear(v, level, inputs, out, c, d, r);
  }

  lemma AssembledClear(v: seq<seq<File>>, level: nat, inputs: Selection, out: nat, c: nat, d: nat, r: Compaction)
    requires ValidVersion(v) && level <= out < |v| && inputs.Of(level, v[level]) && c <= d <= |v[out]|
    requires inputs.In(v[level]) != [] && inputs.CleanIn(level, v[level]) && r.startLevel == level && r.outputLevel == out
    requires r.inputs == Tag(level, inputs.In(v[level])) + Tag(out, v[out][c..d])
    requires IsHull(inputs.In(v[level]), v[out][c..d], r.smallest, r.largest)
    ensures out >= 1 && Suffice(v, level, inputs, out, c, d) ==> NothingLeftBehind(v, r) && RangeClear(v, r)
  {
    if out >= 1 && Suffice(v, level, inputs, out, c, d) {
      LeavesNothing(v, level, inputs, out, c, d, r);
      RangeIsClear(v, level, inputs, out, c, d, r);
    }
  }

  lemma TaggedFromLevels(v: seq<seq<File>>, start: seq<File>, output: seq<File>, c: Compaction)
    requires c.startLevel < |v| && c.outputLevel < |v| && c.inputs == Tag(c.startLevel, start) + Tag(c.outputLevel, output)
    requires (forall f :: f in start ==> f in v[c.startLevel]) && forall f :: f in output ==> f in v[c.outputLevel]
    ensures FromLevels(v, c)
  {
  }

  predicate LeftOut(v: seq<seq<File>>, c: Compaction, l: nat, f: File) {
    (l == c.startLevel || l == c.outputLevel) && l < |v| && f in v[l] && Input(l, f) !in c.inputs
  }

  /**
   * On the start level and the output level, no file left out overlaps an input of its own level, and
   * none left on the output level overlaps an input from the start level.
   */
  ghost predicate NothingLeftBehind(v: seq<seq<File>>, c: Compaction) {
    forall l, f, x :: LeftOut(v, c, l, f) && x in c.inputs && x.level <= l ==> !Overlaps(f, x.file.smallest, x.file.largest)
  }

  /** All level-0 files that hang together with the chosen ones. */
  ghost predicate HangTogether(files: seq<File>, chosen: seq<File>, all: seq<File>) {
    forall lo, hi :: Spans(chosen, lo, hi) ==> Closure(files, lo, hi, all)
  }

  lemma OneClosure(files: seq<File>, chosen: seq<File>, lo: Key, hi: Key)
    requires Spans(chosen, lo, hi)
    ensures forall all :: Closure(files, lo, hi, all) ==> HangTogether(files, chosen, all)
  {
    forall lo', hi' | Spans(chosen, lo', hi') ensures lo' == lo && hi' == hi {
      SpansUnique(chosen, lo, hi, lo', hi');
    }
  }

  /**
   * The inputs are the start files as far as they have grown and just the files c..d of the output level that the
   * start files need, and the range is theirs.
   */
  ghost predicate CompletedWith(v: seq<seq<File>>, start: Selection, grown: Selection, c: nat, d: nat,
                                limit: nat, marked: set<nat>, r: Compaction) {
    && r.startLevel < |v| && r.outputLevel < |v| && c <= d <= |v[r.outputLevel]|
    && (var files, out := v[r.startLevel], v[r.outputLevel];
        && start.Of(r.startLevel, files) && grown.Of(r.startLevel, files)
        && (forall f :: f in start.In(files) ==> f in grown.In(files))
        && r.inputs == Tag(r.startLevel, grown.In(files)) + Tag(r.outputLevel, out[c..d])
        && IsHull(grown.In(files), out[c..d], r.smallest, r.largest)
        && if r.startLevel == r.outputLevel then grown == start && c == d
           else && IsOutputCut(out, start.In(files), c, d)
                && (r.startLevel > 0 ==> IsGrowth(files, out, marked, start, c, d, limit, grown)))
  }

  ghost predicate Completion(v: seq<seq<File>>, level: nat, start: Selection, out: nat,
                             limit: nat, marked: set<nat>, r: Compaction) {
    && r.startLevel == level && r.outputLevel == out
    && exists grown, c, d :: CompletedWith(v, start, grown, c, d, limit, marked, r)
  }

  /** A file that would be needed from the output level is taken, or a running compaction writes into the whole range. */
  ghost predicate Blocked(v: seq<seq<File>>, level: nat, start: Selection, out: nat, limit: nat, p: PickerState)
    requires level < |v| && out < |v|
  {
    || (level != out && !OutputFree(v[out], start.In(v[level]), p.marked))
    || (out != 0 && exists c :: Completion(v, level, start, out, limit, p.marked, c) &&
                                OverlapsRunning(p.running, c.smallest, c.largest, out))
  }

  /** The start files are completed, unless something is in the way. */
  ghost predicate Completed(v: seq<seq<File>>, level: nat, start: Selection, out: nat, limit: nat, p: PickerState,
                            r: Option<Compaction>)
    requires level < |v| && out < |v|
  {
    if r.None? then Blocked(v, level, start, out, limit, p)
    else && Completion(v, level, start, out, limit, p.marked, r.value)
         && (level != out ==> OutputFree(v[out], start.In(v[level]), p.marked))
  }

  /** What goes from the start level: on the way out of level 0, all that hangs together with the chosen files. */
  ghost predicate StartFiles(v: seq<seq<File>>, s: Start, start: Selection)
    requires s.Start? && 0 < |v| && s.level < |v|
  {
    if s.level == 0 && s.out != 0 then HangTogether(v[0], s.inputs.In(v[0]), start.In(v[0])) else start == s.inputs
  }

  /** What comes of the first start: with none there is no compaction, and otherwise it is completed or blocked. */
  ghost predicate ComesOf(v: seq<seq<File>>, s: Start, limit: nat, p: PickerState, r: Option<Compaction>)
    requires 0 < |v|
  {
    if s.NoStart? then r.None?
    else s.level <= s.out < |v| && exists start :: StartFiles(v, s, start) && Completed(v, s.level, start, s.out, limit, p, r)
  }

  /** One of the chosen files or one needed with them is taken, or a running compaction writes into the whole range. */
  ghost predicate RangeBlocked(v: seq<seq<File>>, level: nat, start: Selection, out: nat, limit: nat, p: PickerState)
    requires level < |v| && out < |v|
  {
    || (level != out && !OutputFree(v[out], start.In(v[level]), p.marked)) || InCompaction(p.marked, start.In(v[level]))
    || (exists c :: Completion(v, level, start, out, limit, p.marked, c) &&
                    OverlapsRunning(p.running, c.smallest, c.largest, out))
  }

  /** The files a..b of a level are just those in the interval. */
  predicate IntervalRun(files: seq<File>, begin: Option<Key>, end: Option<Key>, a: nat, b: nat) {
    a < b <= |files| && forall i :: 0 <= i < |files| ==> (a <= i < b <==> InInterval(files[i], begin, end))
  }

  /** The files of the output level that overlap a range, if it is another level. */
  ghost predicate Parents(out: seq<File>, same: bool, lo: Key, hi: Key, parents: seq<File>) {
    if same then parents == []
    else exists c: nat, d: nat :: c <= d <= |out| && Exactly(out, c, d, lo, hi) && parents == out[c..d]
  }

  /** The clean cut around the first files of a..b, as many as it takes to weigh as much as the limit. */
  ghost predicate LimitedCut(files: seq<File>, out: seq<File>, same: bool, a: nat, b: nat, limit: nat, sel: Selection)
    requires a < b <= |files|
  {
    sel.Span? && exists keep: nat :: KeepIs(files[a..b], out, same, limit, keep) && NarrowestCut(files, a, a + keep, sel.a, sel.b)
  }

  ghost predicate KeepIs(run: seq<File>, out: seq<File>, same: bool, limit: nat, keep: nat)
    requires run != []
  {
    exists parents :: Parents(out, same, run[0].smallest, run[|run| - 1].largest, parents) &&
                      LeastWeight(run, parents, same, limit, keep)
  }

  /** What a manual compaction starts with: on level 0 all that hangs together with the interval, below a limited cut. */
  ghost predicate RangeChoice(v: seq<seq<File>>, level: nat, out: nat, begin: Option<Key>, end: Option<Key>,
                              limit: nat, sel: Selection)
    requires level < |v| && out < |v|
  {
    && sel.Of(level, v[level]) && sel.In(v[level]) != []
    && if level == 0
       then exists lo, hi :: Spans(v[0], lo, hi) && Closure(v[0], if begin.Some? then begin.value else lo,
                                                             if end.Some? then end.value else hi, sel.In(v[0]))
       else exists a: nat, b: nat :: IntervalRun(v[level], begin, end, a, b) &&
                                     LimitedCut(v[level], v[out], level == out, a, b, limit, sel)
  }

  /** A level-0 compaction is running, or what the interval means cannot be compacted now. */
  ghost predicate RangeConflict(v: seq<seq<File>>, level: nat, out: nat, begin: Option<Key>, end: Option<Key>,
                                limit: nat, p: PickerState)
    requires level < |v| && out < |v|
  {
    || (level == 0 && p.level0 != {})
    || (exists sel :: RangeChoice(v, level, out, begin, end, limit, sel) && RangeBlocked(v, level, sel, out, limit, p))
  }

  class CompactionPicker {
    var running: set<Compaction>
    var level0: set<Compaction>    // those that start at level 0
    var marked: set<nat>           // the files that carry the being-compacted flag

    ghost predicate Valid()
      reads this
    {
      Consistent(running, level0, marked)
    }

    ghost function View(): PickerState
      reads this
    {
      PickerState(running, level0, marked)
    }

    constructor ()
      ensures Valid() && View() == PickerState({}, {}, {})
    {
      running, level0, marked := {}, {}, {};
    }

    /** RegisterCompaction, with the marking of the files: the picker stays valid exactly if its assertion holds. */
    method Register(c: Compaction)
      requires Valid() && c.WellFormed() && c.Numbers() !! marked
      modifies this
      ensures View() == old(View()).Registered(c) && (Valid() <==> Admissible(old(running), old(marked), c))
    {
      if Admissible(running, marked, c) {
        RegisterKeeps(running, level0, marked, c);
      } else {
        RegisterBreaks(running, marked, c);
      }
      if c.startLevel == 0 {
        level0 := level0 + {c};
      }
      running := running + {c};
      marked := marked + c.Numbers();
    }

    /** UnregisterCompaction, with the clearing of the marks. */
    method Release(c: Compaction)
      requires Valid() && c in running
      modifies this
      ensures Valid() && View() == old(View()).Released(c)
    {
      ReleaseKeeps(running, level0, marked, c);
      if c.startLevel == 0 {
        level0 := level0 - {c};
      }
      running := running - {c};
      marked := marked - c.Numbers();
      assert c.startLevel != 0 ==> level0 == level0 - {c};
    }

    /** Whether a file at an index can start a compaction into the output level, and the inputs it starts with. */
    method TryFile(v: seq<seq<File>>, level: nat, out: nat, index: nat) returns (ok: bool, inputs: Selection)
      requires Valid() && ValidVersion(v) && level < |v| && out < |v| && index < |v[level]|
      requires v[level][index].number !in marked && out != 0
      ensures ok ==> Chosen(v, level, inputs, marked)
      ensures CutOf(level, v[level], index, inputs) && (ok <==> StartsWith(v, level, out, index, inputs, View()))
    {
      inputs := One(level, v[level], index);
      OneHas(level, v[level], index);
      inputs, ok := ExpandToCleanCut(level, v[level], inputs, marked);
      if !ok {
        return;
      }
      var lo, hi := GetRange(level, v[level], inputs);
      WayDecides(out, v[out], inputs.In(v[level]), lo, hi, View());
      if OverlapsRunning(running, lo, hi, out) {
        return false, inputs;
      }
      ok := OutputIsFree(v, out, lo, hi);
    }

    /** None of the output level's files for a range, cut clean, is being compacted. */
    method OutputIsFree(v: seq<seq<File>>, out: nat, lo: Key, hi: Key) returns (ok: bool)
      requires ValidVersion(v) && 0 < out < |v|
      ensures ok <==> CutFree(v[out], lo, hi, marked)
    {
      var below := GetOverlapping(out, v[out], lo, hi);
      if below.In(v[out]) == [] {
        NothingToCut(v[out], lo, hi, marked);
        return true;
      }
      assert Exactly(v[out], below.a, below.b, lo, hi);
      var cut;
      cut, ok := ExpandToCleanCut(out, v[out], below, marked);
      NarrowestIsAround(v[out], below.a, below.b, cut.a, cut.b, lo, hi);
      CutDecides(v[out], cut.a, cut.b, lo, hi, marked);
    }

    /** PickFileToCompact: the first file in order of priority that can start; none while another level-0 compaction runs. */
    method PickFileToCompact(v: seq<seq<File>>, level: nat, out: nat, order: seq<nat>) returns (ok: bool, inputs: Selection)
      requires Valid() && ValidVersion(v) && level < |v| && 0 < out < |v| && forall i :: i in order ==> i < |v[level]|
      ensures ok ==> Chosen(v, level, inputs, marked) && (level == 0 ==> level0 == {})
      ensures ok <==> !(Waits(level, View()) || NoneStarts(v, level, out, order, View()))
      ensures ok ==> FirstStarts(v, level, out, order, inputs, View())
    {
      ok, inputs := false, Picked([]);
      if level == 0 && level0 != {} {
        return;
      }
      for k := 0 to |order|
        invariant !ok && NoneStarts(v, level, out, order[..k], View())
      {
        assert order[k] in order;
        if v[level][order[k]].number !in marked {
          ok, inputs := TryFile(v, level, out, order[k]);
          if ok {
            StartsHere(v, level, out, order, k, inputs, View());
            return;
          }
        }
        NotHere(v, level, out, order[k], inputs, View());
        NoneStartsMore(v, level, out, order, k, View());
      }
      assert order[..|order|] == order;
    }

    /** PickIntraL0Compaction. */
    method PickIntraL0(v: seq<seq<File>>, trigger: nat) returns (ok: bool, inputs: Selection)
      requires Valid() && ValidVersion(v)
      ensures ok ==> Chosen(v, 0, inputs, marked)
      ensures ok <==> IntraReady(v[0], trigger, marked)
      ensures ok ==> inputs == Picked(v[0][..IntraSpan(v[0], marked, 4)])
    {
      ok, inputs := false, Picked([]);
      if |v[0]| < trigger + 2 || v[0][0].number in marked {
        return;
      }
      var span := FindIntraL0(v[0], marked, 4);
      if span > 0 {
        ok, inputs := true, Picked(v[0][..span]);
      }
    }

    /** The clean cut around a flagged file, if it is free. */
    method TryCut(v: seq<seq<File>>, g: Flagged, out: nat) returns (s: Start)
      requires Valid() && ValidVersion(v) && Free(v, g, marked) && g.level <= out < |v|
      ensures if s.Start? then FlagStarts(v, g, out, s, View()) && Chosen(v, g.level, s.inputs, marked)
              else FlagIdle(v, g, View())
    {
      OneHas(g.level, v[g.level], g.index);
      var inputs, ok := ExpandToCleanCut(g.level, v[g.level], One(g.level, v[g.level], g.index), marked);
      s := if ok then Start(g.level, out, inputs) else NoStart;
      CutIs(g.level, v[g.level], g.index, inputs);
    }

    /** A flagged file, cut clean; one of level 0 waits while a level-0 compaction runs. */
    method TryFlagged(v: seq<seq<File>>, g: Flagged, baseLevel: nat) returns (s: Start)
      requires Valid() && ValidVersion(v) && Free(v, g, marked) && 0 < baseLevel < |v|
      ensures Started(v, s, level0, marked)
      ensures if s.Start? then FlagStarts(v, g, FlagOut(g, baseLevel), s, View()) && !Waits(g.level, View())
              else Waits(g.level, View()) || FlagIdle(v, g, View())
    {
      var out := if !g.toParent then g.level else if g.level == 0 then baseLevel else g.level + 1;
      if g.level == 0 && level0 != {} {
        return NoStart;
      }
      s := TryCut(v, g, out);
    }

    /** A flagged file of the bottommost data, rewritten within its level. */
    method TryBottommost(v: seq<seq<File>>, g: Flagged) returns (s: Start)
      requires Valid() && ValidVersion(v) && Free(v, g, marked)
      ensures Started(v, s, level0, marked)
      ensures if s.Start? then FlagStarts(v, g, g.level, s, View()) else FlagIdle(v, g, View())
    {
      s := TryCut(v, g, g.level);
    }

    /** What a level that is due starts, if anything. */
    method TryLevel(v: seq<seq<File>>, h: Hints, level: nat) returns (s: Start)
      requires Valid() && ValidVersion(v) && ValidHints(v, h, marked) && level in h.due
      ensures Started(v, s, level0, marked)
      ensures if s.Start? then LevelStarts(v, h, level, s, View()) else LevelIdle(v, h, level, View())
    {
      var out := if level == 0 then h.baseLevel else level + 1;
      var ok, inputs := PickFileToCompact(v, level, out, h.order[level]);
      if ok {
        return Start(level, out, inputs);
      }
      if level == 0 {
        ok, inputs := PickIntraL0(v, h.trigger);
        if ok {
          return Start(0, 0, inputs);
        }
      }
      s := NoStart;
    }

    /** SetupInitialFiles, by size: the levels that are due; once level 0 has failed, the base level is left alone. */
    method PickBySize(v: seq<seq<File>>, h: Hints) returns (s: Start)
      requires Valid() && ValidVersion(v) && ValidHints(v, h, marked)
      ensures Started(v, s, level0, marked)
      ensures if s.Start? then DueStarts(v, h, s, View()) else DueIdle(v, h, |h.due|, View())
    {
      var skipped := false;
      for k := 0 to |h.due|
        invariant DueIdle(v, h, k, View()) && (skipped <==> 0 in h.due[..k])
      {
        var level := h.due[k];
        assert level in h.due && h.due[..k + 1] == h.due[..k] + [level];
        if skipped && level == h.baseLevel {
          continue;
        }
        s := TryLevel(v, h, level);
        if s.Start? {
          return;
        }
        if level == 0 {
          skipped := true;
        }
      }
      s := NoStart;
    }

    /** SetupInitialFiles: by size, then by flag, then by flag at the bottom; the first that can start. */
    method SetupInitialFiles(v: seq<seq<File>>, h: Hints) returns (s: Start)
      requires Valid() && ValidVersion(v) && ValidHints(v, h, marked)
      ensures Started(v, s, level0, marked) && FirstStart(v, h, s, View())
    {
      s := PickBySize(v, h);
      if s.Start? {
        return;
      }
      s := PickFlagged(v, h);
      if s.Start? {
        return;
      }
      s := PickBottommost(v, h);
    }

    method PickFlagged(v: seq<seq<File>>, h: Hints) returns (s: Start)
      requires Valid() && ValidVersion(v) && ValidHints(v, h, marked)
      ensures Started(v, s, level0, marked)
      ensures if s.Start? then FlagsStart(v, h.flagged, true, Some(h.baseLevel), s, View())
              else FlagsIdle(v, h.flagged, true, View())
    {
      for k := 0 to |h.flagged|
        invariant FlagsIdle(v, h.flagged[..k], true, View())
      {
        s := TryFlagged(v, h.flagged[k], h.baseLevel);
        if s.Start? {
          return;
        }
        FlagsIdleMore(v, h.flagged, k, true, View());
      }
      assert h.flagged[..|h.flagged|] == h.flagged;
      s := NoStart;
    }

    method PickBottommost(v: seq<seq<File>>, h: Hints) returns (s: Start)
      requires Valid() && ValidVersion(v) && ValidHints(v, h, marked)
      ensures Started(v, s, level0, marked)
      ensures if s.Start? then FlagsStart(v, h.bottommost, false, None, s, View())
              else FlagsIdle(v, h.bottommost, false, View())
    {
      for k := 0 to |h.bottommost|
        invariant FlagsIdle(v, h.bottommost[..k], false, View())
      {
        s := TryBottommost(v, h.bottommost[k]);
        if s.Start? {
          return;
        }
        FlagsIdleMore(v, h.bottommost, k, false, View());
      }
      assert h.bottommost[..|h.bottommost|] == h.bottommost;
      s := NoStart;
    }

    /** GetOverlappingL0Files: all level-0 files that go with the chosen ones; no other level-0 compaction is running. */
    method GetOverlappingL0Files(v: seq<seq<File>>, inputs: Selection, out: nat) returns (ok: bool, inputs': Selection)
      requires Valid() && ValidVersion(v) && StayOnLevels(v, running) && level0 == {} && Chosen(v, 0, inputs, marked) && out < |v|
      ensures ok ==> Chosen(v, 0, inputs', marked) && Detached(v[0], inputs'.In(v[0]))
      ensures HangTogether(v[0], inputs.In(v[0]), inputs'.In(v[0]))
      ensures !ok && out > 0 ==> !OutputFree(v[out], inputs'.In(v[0]), marked)
    {
      var lo, hi := GetRange(0, v[0], inputs);
      OneClosure(v[0], inputs.In(v[0]), lo, hi);
      inputs' := GetOverlapping(0, v[0], lo, hi);
      assert inputs.In(v[0])[0] in inputs'.In(v[0]);
      forall f | f in inputs'.In(v[0]) ensures f.number !in marked {
        LevelZeroFree(v, running, level0, marked, f);
      }
      lo, hi := GetRange(0, v[0], inputs');
      var below := GetOverlapping(out, v[out], lo, hi);
      ok := !InCompaction(marked, below.In(v[out]));
      if !ok && out > 0 {
        CutTaken(v[out], below.a, below.b, lo, hi, marked);
        OneRange(v[out], inputs'.In(v[0]), lo, hi, marked);
      }
    }

    /** SetupOtherInputsIfNeeded and the checks on the whole set of inputs. */
    method Complete(v: seq<seq<File>>, level: nat, inputs: Selection, out: nat, limit: nat) returns (r: Option<Compaction>)
      requires Valid() && ValidVersion(v) && Chosen(v, level, inputs, marked) && level <= out < |v|
      ensures r.Some? ==> Admissible(running, marked, r.value) && r.value.startLevel == level && r.value.outputLevel == out
      ensures r.Some? ==> FromLevels(v, r.value)
      ensures r.Some? && out >= 1 && (level == 0 ==> Detached(v[0], inputs.In(v[0]))) ==>
                NothingLeftBehind(v, r.value) && RangeClear(v, r.value)
      ensures Completed(v, level, inputs, out, limit, View(), r)
    {
      var ok, inputs', c, d := SetupOtherInputs(level, v[level], out, v[out], marked, inputs, limit);
      if !ok {
        return None;
      }
      var comp := Assemble(v, level, inputs', out, c, d, marked);
      assert CompletedWith(v, inputs, inputs', c, d, limit, marked, comp);
      if out != 0 && OverlapsRunning(running, comp.smallest, comp.largest, out) {
        return None;
      }
      r := Some(comp);
    }

    /** PickCompaction of the level style. */
    method PickCompaction(v: seq<seq<File>>, h: Hints) returns (r: Option<Compaction>)
      requires Valid() && ValidVersion(v) && StayOnLevels(v, running) && ValidHints(v, h, marked)
      modifies this
      ensures Valid()
      ensures if r.None? then View() == old(View())
              else Admissible(old(running), old(marked), r.value) && View() == old(View()).Registered(r.value)
      ensures r.Some? ==> FromLevels(v, r.value) && r.value.startLevel <= r.value.outputLevel < |v|
      ensures r.Some? && r.value.outputLevel >= 1 ==> NothingLeftBehind(v, r.value) && RangeClear(v, r.value)
      ensures exists s :: FirstStart(v, h, s, old(View())) && ComesOf(v, s, h.limit, old(View()), r)
    {
      var s := SetupInitialFiles(v, h);
      if s.NoStart? {
        return None;
      }
      r := CompleteStart(v, s, h.limit);
      if r.Some? {
        Register(r.value);
      }
    }

    /** SetupOtherL0FilesIfNeeded and what follows, for the first start. */
    method CompleteStart(v: seq<seq<File>>, s: Start, limit: nat) returns (r: Option<Compaction>)
      requires Valid() && ValidVersion(v) && StayOnLevels(v, running) && s.Start? && Started(v, s, level0, marked)
      ensures r.Some? ==> Admissible(running, marked, r.value) && FromLevels(v, r.value)
      ensures r.Some? ==> r.value.startLevel == s.level && r.value.outputLevel == s.out
      ensures r.Some? && s.out >= 1 ==> NothingLeftBehind(v, r.value) && RangeClear(v, r.value)
      ensures ComesOf(v, s, limit, View(), r)
    {
      var inputs := s.inputs;
      if s.level == 0 && s.out != 0 {
        var ok;
        ok, inputs := GetOverlappingL0Files(v, inputs, s.out);
        assert StartFiles(v, s, inputs);
        if !ok {
          assert Completed(v, s.level, inputs, s.out, limit, View(), None);
          return None;
        }
      }
      assert StartFiles(v, s, inputs);
      r := Complete(v, s.level, inputs, s.out, limit);
    }

    /**
     * The files of a level that overlap an interval, cut clean; below level 0 only as many as the byte limit
     * leaves. What is left out of them starts at the next key or later.
     */
    method ChooseRange(v: seq<seq<File>>, level: nat, out: nat, begin: Option<Key>, end: Option<Key>, limit: nat)
      returns (ok: bool, conflict: bool, inputs: Selection, next: Option<Key>)
      requires Valid() && ValidVersion(v) && level <= out < |v|
      ensures !ok && !conflict ==> forall f :: f in v[level] ==> !InInterval(f, begin, end)
      ensures ok ==> inputs.Of(level, v[level]) && inputs.In(v[level]) != [] && inputs.CleanIn(level, v[level])
      ensures ok && level == 0 ==> Detached(v[0], inputs.In(v[0]))
      ensures ok ==> Handled(v[level], inputs.In(v[level]), begin, end, next)
      ensures ok || (conflict && level > 0) ==> RangeChoice(v, level, out, begin, end, limit, inputs)
      ensures conflict ==> !ok && if level == 0 then level0 != {} else InCompaction(marked, inputs.In(v[level]))
    {
      ok, conflict, inputs, next := false, false, Picked([]), None;
      var files := v[level];
      if files == [] {
        return;
      }
      var lo, hi := GetRange(level, files, if level == 0 then Picked(files) else Span(0, |files|));
      var sel := GetOverlapping(level, files, if begin.Some? then begin.value else lo, if end.Some? then end.value else hi);
      IntervalOverlaps(level, files, lo, hi, begin, end);
      if sel.In(files) == [] {
        return;
      }
      if level == 0 && level0 != {} {
        conflict := true;
        return;
      }
      if level == 0 {
        ok, inputs := true, sel;
        return;
      }
      inputs, ok, next := LimitAndCut(level, files, sel, out, v[out], limit, marked);
      assert IntervalRun(files, begin, end, sel.a, sel.b);
      conflict := !ok;
      HandledBelow(files, sel, inputs, begin, end, next);
    }

    /**
     * CompactRange: a manual compaction of the files that overlap an interval, as many as the byte limit
     * leaves, with the key to go on from.
     */
    method CompactRange(v: seq<seq<File>>, level: nat, out: nat, begin: Option<Key>, end: Option<Key>, limit: nat)
      returns (r: Option<Compaction>, conflict: bool, next: Option<Key>)
      requires Valid() && ValidVersion(v) && level <= out < |v|
      modifies this
      ensures Valid()
      ensures if r.None? then View() == old(View())
              else Admissible(old(running), old(marked), r.value) && View() == old(View()).Registered(r.value)
      ensures r.Some? ==> r.value.startLevel == level && r.value.outputLevel == out && FromLevels(v, r.value)
      ensures r.Some? && r.value.outputLevel >= 1 ==> NothingLeftBehind(v, r.value) && RangeClear(v, r.value)
      ensures r.None? && !conflict ==> forall f :: f in v[level] ==> !InInterval(f, begin, end)
      ensures r.Some? ==> !conflict && Served(v, level, r.value, begin, end, next)
      ensures conflict ==> RangeConflict(v, level, out, begin, end, limit, old(View()))
      ensures r.Some? ==> exists sel :: RangeChoice(v, level, out, begin, end, limit, sel) &&
                                        Completion(v, level, sel, out, limit, old(marked), r.value)
    {
      r := None;
      var ok, inputs;
      ok, conflict, inputs, next := ChooseRange(v, level, out, begin, end, limit);
      if !ok {
        return;
      }
      r := CompleteRange(v, level, inputs, out, limit);
      conflict := r.None?;
      if r.Some? {
        ServedBy(v, level, inputs.In(v[level]), r.value, begin, end, next);
        Register(r.value);
      }
    }

    /** The compaction of the chosen files with those of the output level, if nothing is in its way. */
    method CompleteRange(v: seq<seq<File>>, level: nat, inputs: Selection, out: nat, limit: nat) returns (r: Option<Compaction>)
      requires Valid() && ValidVersion(v) && level <= out < |v| && inputs.Of(level, v[level]) && inputs.In(v[level]) != []
      requires inputs.CleanIn(level, v[level]) && (level == 0 ==> Detached(v[0], inputs.In(v[0])))
      ensures r.Some? ==> Admissible(running, marked, r.value) && r.value.startLevel == level && r.value.outputLevel == out
      ensures r.Some? ==> FromLevels(v, r.value)
      ensures r.Some? && r.value.outputLevel >= 1 ==> NothingLeftBehind(v, r.value) && RangeClear(v, r.value)
      ensures r.Some? ==> forall f :: f in inputs.In(v[level]) ==> Input(level, f) in r.value.inputs
      ensures if r.Some? then Completion(v, level, inputs, out, limit, marked, r.value)
              else RangeBlocked(v, level, inputs, out, limit, View())
    {
      var ok, inputs', c, d := SetupOtherInputs(level, v[level], out, v[out], marked, inputs, limit);
      if !ok || InCompaction(marked, inputs'.In(v[level])) {
        return None;
      }
      var comp := Assemble(v, level, inputs', out, c, d, marked);
      assert CompletedWith(v, inputs, inputs', c, d, limit, marked, comp);
      r := if OverlapsRunning(running, comp.smallest, comp.largest, out) then None else Some(comp);
    }

    /**
     * CompactFiles on a set of files, after completing it. What comes out conflicts with no running
     * compaction exactly if, for each that writes into the output level, the given files are all on one side of it.
     */
    method CompactFiles(v: seq<seq<File>>, input: set<nat>, out: int, maxOut: int, emptyKey: Key, ghost closed: set<nat>)
      returns (status: Status, r: Option<Compaction>)
      requires Valid() && ValidLevels(v)
      modifies this
      ensures r.None? <==> status != OK
      ensures r.None? ==> View() == old(View())
      ensures BadRequest(v, input, out, maxOut) ==> status == InvalidArgument
      ensures status == InvalidArgument ==> BadRequest(v, input, out, maxOut) || exists n :: n in input && !Exists(v, n)
      ensures r.Some? ==>
                && out >= 0 && r.value.outputLevel == out && r.value.WellFormed() && r.value.Numbers() !! old(marked)
                && View() == old(View()).Registered(r.value)
                && input <= r.value.Numbers() && ClosedSelection(v, r.value.Numbers(), out)
                && AreInputs(v, r.value.Numbers(), r.value.inputs)
                && (!OverlapsRunning(old(running), r.value.smallest, r.value.largest, out)
                    <==> OneSided(v, input, out, old(running)))
                && (Valid() <==> out == 0 || OneSided(v, input, out, old(running)))
      ensures !BadRequest(v, input, out, maxOut) && ClosedSelection(v, closed, out) && Sub(v, input, closed) ==>
                && (status == FileBusy ==> !AllFree(v, closed, old(marked)))
                && (status == RangeBusy ==> RangeTaken(v, input, closed, out, old(running), emptyKey))
                && (status == OK ==> Sub(v, r.value.Numbers(), closed))
    {
      var sel;
      status, sel := SanitizeInputFiles(v, input, out, maxOut, marked, running, emptyKey, closed);
      if status != OK {
        return status, None;
      }
      var comp := RegisterSelected(v, input, sel, out);
      r := Some(comp);
    }

    /** Registers the compaction of a completed selection. */
    method RegisterSelected(v: seq<seq<File>>, ghost input: set<nat>, sel: set<nat>, out: nat) returns (c: Compaction)
      requires Valid() && ValidLevels(v) && sel != {} && forall n :: n in sel ==> n !in marked && Exists(v, n)
      requires input <= sel && SameAfter(v, input, sel, out) && ClearOfRunning(v, sel, out, running)
      requires NoneBefore(v, input, out + 1) ==> sel == input
      modifies this
      ensures c.outputLevel == out && c.WellFormed() && c.Numbers() == sel && AreInputs(v, sel, c.inputs)
      ensures View() == old(View()).Registered(c)
      ensures !OverlapsRunning(old(running), c.smallest, c.largest, out) <==> OneSided(v, input, out, old(running))
      ensures Valid() <==> out == 0 || OneSided(v, input, out, old(running))
    {
      c := FormCompaction(v, sel, out, marked);
      SpanDecides(v, sel, c, running);
      GivenDecide(v, input, sel, out, running);
      Register(c);
    }
  }

  /** The compaction of some existing and free files. */
  method FormCompaction(v: seq<seq<File>>, sel: set<nat>, out: nat, marked: set<nat>) returns (c: Compaction)
    requires ValidLevels(v) && sel != {} && forall n :: n in sel ==> n !in marked && Exists(v, n)
    ensures c.WellFormed() && c.Numbers() == sel && c.outputLevel == out
    ensures AreInputs(v, sel, c.inputs) && Spans(FilesOf(c.inputs), c.smallest, c.largest)
  {
    var inputs := CollectInputs(v, sel);
    InputsSelected(v, sel, marked, inputs);
    var lo, hi := GetBoundaryKeys(inputs);
    c := Compaction(inputs[0].level, inputs, out, lo, hi);
    InputsWithin(inputs, lo, hi);
    assert !InCompaction(marked, FilesOf(inputs));
    AllNumbered(v, sel, c);
  }

  lemma AllNumbered(v: seq<seq<File>>, sel: set<nat>, c: Compaction)
    requires AreInputs(v, sel, c.inputs) && forall n :: n in sel ==> Exists(v, n)
    ensures c.Numbers() == sel
  {
    forall n | n in sel ensures n in c.Numbers() {
      var l, i :| IsFile(v, l, i) && v[l][i].number == n;
      var x := Input(l, v[l][i]);
      assert x in c.inputs;
    }
  }

  lemma InputsWithin(inputs: seq<Input>, lo: Key, hi: Key)
    requires Spans(FilesOf(inputs), lo, hi)
    ensures forall x :: x in inputs ==> Within(x.file, lo, hi)
  {
    forall x | x in inputs ensures Within(x.file, lo, hi) {
      var k :| 0 <= k < |inputs| && inputs[k] == x;
      assert FilesOf(inputs)[k] in FilesOf(inputs);
    }
  }

  /** One side of a range holds all the selected files. */
  ghost predicate Beside(v: seq<seq<File>>, sel: set<nat>, d: Compaction) {
    || (forall l, i :: Selected(v, sel, l, i) ==> v[l][i].largest < d.smallest)
    || (forall l, i :: Selected(v, sel, l, i) ==> d.largest < v[l][i].smallest)
  }

  /** For every compaction that writes into the level, the selected files are all on one side of it. */
  ghost predicate OneSided(v: seq<seq<File>>, sel: set<nat>, out: nat, running: set<Compaction>) {
    forall d :: d in running && d.outputLevel == out ==> Beside(v, sel, d)
  }

  ghost predicate AreInputs(v: seq<seq<File>>, sel: set<nat>, inputs: seq<Input>) {
    forall x :: x in inputs <==> x.level < |v| && x.file in v[x.level] && x.file.number in sel
  }

  lemma InputsSelected(v: seq<seq<File>>, sel: set<nat>, marked: set<nat>, inputs: seq<Input>)
    requires ValidLevels(v) && AreInputs(v, sel, inputs) && sel != {}
    requires forall n :: n in sel ==> n !in marked && Exists(v, n)
    ensures inputs != [] && forall x :: x in inputs ==> x.file.smallest <= x.file.largest && x.file.number !in marked
  {
    var n :| n in sel;
    var l, i :| IsFile(v, l, i) && v[l][i].number == n;
    assert Input(l, v[l][i]) in inputs;
  }

  /** The range of the inputs meets no running compaction into the level exactly if the selected files are one-sided. */
  lemma SpanDecides(v: seq<seq<File>>, sel: set<nat>, c: Compaction, running: set<Compaction>)
    requires AreInputs(v, sel, c.inputs) && Spans(FilesOf(c.inputs), c.smallest, c.largest)
    ensures !OverlapsRunning(running, c.smallest, c.largest, c.outputLevel) <==> OneSided(v, sel, c.outputLevel, running)
  {
    forall d | d in running && d.outputLevel == c.outputLevel
      ensures Beside(v, sel, d) <==> d.largest < c.smallest || c.largest < d.smallest
    {
      SpanBeside(v, sel, c.inputs, c.smallest, c.largest, d);
    }
  }

  lemma SpanBeside(v: seq<seq<File>>, sel: set<nat>, inputs: seq<Input>, lo: Key, hi: Key, d: Compaction)
    requires AreInputs(v, sel, inputs) && Spans(FilesOf(inputs), lo, hi)
    ensures Beside(v, sel, d) <==> d.largest < lo || hi < d.smallest
  {
    InputsWithin(inputs, lo, hi);
    forall l, i | Selected(v, sel, l, i) ensures Within(v[l][i], lo, hi) {
      assert Input(l, v[l][i]) in inputs;
    }
    var f :| f in FilesOf(inputs) && f.smallest == lo;
    var g :| g in FilesOf(inputs) && g.largest == hi;
    InputIsSelected(v, sel, inputs, f);
    InputIsSelected(v, sel, inputs, g);
  }

  lemma InputIsSelected(v: seq<seq<File>>, sel: set<nat>, inputs: seq<Input>, f: File)
    requires AreInputs(v, sel, inputs) && f in FilesOf(inputs)
    ensures exists l, i :: Selected(v, sel, l, i) && v[l][i] == f
  {
    var k :| 0 <= k < |inputs| && inputs[k].file == f;
    var x := inputs[k];
    assert x in inputs;
    var i :| 0 <= i < |v[x.level]| && v[x.level][i] == f;
    assert Selected(v, sel, x.level, i);
  }

  /** The completed selection is one-sided exactly if the given files are. */
  lemma GivenDecide(v: seq<seq<File>>, input: set<nat>, sel: set<nat>, out: nat, running: set<Compaction>)
    requires ValidLevels(v) && input <= sel && SameAfter(v, input, sel, out) && ClearOfRunning(v, sel, out, running)
    requires NoneBefore(v, input, out + 1) ==> sel == input
    requires forall d :: d in running ==> d.smallest <= d.largest
    ensures OneSided(v, sel, out, running) <==> OneSided(v, input, out, running)
  {
    forall d | d in running && d.outputLevel == out ensures Beside(v, sel, d) <==> Beside(v, input, d) {
      if Beside(v, input, d) && sel != input {
        GivenBeside(v, input, sel, out, running, d);
      }
      if Beside(v, sel, d) {
        assert forall l, i :: Selected(v, input, l, i) ==> Selected(v, sel, l, i);
      }
    }
  }

  lemma GivenBeside(v: seq<seq<File>>, input: set<nat>, sel: set<nat>, out: nat, running: set<Compaction>, d: Compaction)
    requires ValidLevels(v) && input <= sel && SameAfter(v, input, sel, out) && ClearOfRunning(v, sel, out, running)
    requires !NoneBefore(v, input, out + 1) && d in running && d.outputLevel == out && d.smallest <= d.largest
    requires Beside(v, input, d)
    ensures Beside(v, sel, d)
  {
    var m, j :| m < out + 1 && Selected(v, input, m, j);
    assert Selected(v, sel, m, j) && v[m][j].smallest <= v[m][j].largest;
    if v[m][j].largest < d.smallest {
      forall l, i | Selected(v, sel, l, i) ensures v[l][i].largest < d.smallest {
        assert l > out ==> Selected(v, input, l, i);
      }
    } else {
      forall l, i | Selected(v, sel, l, i) ensures d.largest < v[l][i].smallest {
        assert l > out ==> Selected(v, input, l, i);
      }
    }
  }

  /** The files that an interval with open ends means. */
  predicate InInterval(f: File, begin: Option<Key>, end: Option<Key>) {
    (begin.Some? ==> begin.value <= f.largest) && (end.Some? ==> f.smallest <= end.value)
  }

  lemma IntervalOverlaps(level: nat, files: seq<File>, lo: Key, hi: Key, begin: Option<Key>, end: Option<Key>)
    requires ValidLevel(level, files)
    requires Spans(if level == 0 then files else files[0..|files|], lo, hi)
    ensures var p, q := if begin.Some? then begin.value else lo, if end.Some? then end.value else hi;
            forall f :: f in files ==> (InInterval(f, begin, end) <==> Overlaps(f, p, q))
  {
    assert files[0..|files|] == files;
    forall f | f in files ensures f.smallest <= f.largest {
      var i :| 0 <= i < |files| && files[i] == f;
    }
  }

  /** Every file in the interval is chosen, or starts at the next key or later. */
  ghost predicate Handled(files: seq<File>, chosen: seq<File>, begin: Option<Key>, end: Option<Key>, next: Option<Key>) {
    forall f :: f in files && InInterval(f, begin, end) ==> f in chosen || (next.Some? && next.value <= f.smallest)
  }

  ghost predicate Served(v: seq<seq<File>>, level: nat, c: Compaction, begin: Option<Key>, end: Option<Key>, next: Option<Key>)
    requires level < |v|
  {
    forall f :: f in v[level] && InInterval(f, begin, end) ==>
      Input(level, f) in c.inputs || (next.Some? && next.value <= f.smallest)
  }

  lemma ServedBy(v: seq<seq<File>>, level: nat, chosen: seq<File>, c: Compaction,
                 begin: Option<Key>, end: Option<Key>, next: Option<Key>)
    requires level < |v| && Handled(v[level], chosen, begin, end, next)
    requires forall f :: f in chosen ==> Input(level, f) in c.inputs
    ensures Served(v, level, c, begin, end, next)
  {
  }

  predicate LaterOnly(files: seq<File>, sel: Selection, inputs: Selection, next: Option<Key>)
    requires sel.Span? && inputs.Span? && sel.b <= |files|
  {
    forall i :: sel.a <= i < sel.b ==> inputs.a <= i < inputs.b || (next.Some? && next.value <= files[i].smallest)
  }

  lemma HandledBelow(files: seq<File>, sel: Selection, inputs: Selection, begin: Option<Key>, end: Option<Key>, next: Option<Key>)
    requires sel.Span? && inputs.Span? && sel.a <= sel.b <= |files| && inputs.a <= inputs.b <= |files|
    requires LaterOnly(files, sel, inputs, next)
    requires forall i :: 0 <= i < |files| && InInterval(files[i], begin, end) ==> sel.a <= i < sel.b
    ensures Handled(files, inputs.In(files), begin, end, next)
  {
    forall f | f in files && InInterval(f, begin, end)
      ensures f in inputs.In(files) || (next.Some? && next.value <= f.smallest)
    {
      var i :| 0 <= i < |files| && files[i] == f;
      if inputs.a <= i < inputs.b {
        assert files[inputs.a..inputs.b][i - inputs.a] == f;
      }
    }
  }

  /** The first files of a selection, within the byte limit, cut clean; and where the rest begins. */
  method LimitAndCut(level: nat, files: seq<File>, sel: Selection, out: nat, outFiles: seq<File>, limit: nat, marked: set<nat>)
    returns (inputs: Selection, ok: bool, next: Option<Key>)
    requires 0 < level <= out && ValidLevel(level, files) && ValidLevel(out, outFiles)
    requires sel.Of(level, files) && sel.In(files) != []
    ensures inputs.Of(level, files) && inputs.In(files) != [] && inputs.CleanIn(level, files)
    ensures LaterOnly(files, sel, inputs, next)
    ensures next.Some? ==> files[inputs.b - 1].largest < next.value
    ensures LimitedCut(files, outFiles, level == out, sel.a, sel.b, limit, inputs)
    ensures ok <==> !InCompaction(marked, inputs.In(files))
  {
    SortedSlice(files, sel.a, sel.b);
    var keep := LimitRun(sel.In(files), out, outFiles, level == out, limit);
    inputs, ok := ExpandToCleanCut(level, files, Span(sel.a, sel.a + keep), marked);
    assert NarrowestCut(files, sel.a, sel.a + keep, inputs.a, inputs.b);
    next := if keep < sel.b - sel.a && inputs.b < |files| then Some(files[inputs.b].smallest) else None;
    RestIsLater(files, sel, inputs, keep);
  }

  /** How many of the selected files the byte limit leaves. */
  method LimitRun(run: seq<File>, out: nat, outFiles: seq<File>, same: bool, limit: nat) returns (keep: nat)
    requires 0 < out && ValidLevel(out, outFiles) && run != [] && SortedLevel(run)
    ensures 0 < keep <= |run| && KeepIs(run, outFiles, same, limit, keep)
  {
    var parents := FindParents(out, outFiles, same, run[0].smallest, run[|run| - 1].largest);
    keep := LimitInputs(run, parents, same, limit);
  }

  method FindParents(out: nat, outFiles: seq<File>, same: bool, lo: Key, hi: Key) returns (parents: seq<File>)
    requires 0 < out && ValidLevel(out, outFiles)
    ensures Parents(outFiles, same, lo, hi, parents)
  {
    if same {
      return [];
    }
    var sel := GetOverlapping(out, outFiles, lo, hi);
    assert Exactly(outFiles, sel.a, sel.b, lo, hi);
    parents := outFiles[sel.a..sel.b];
  }

  lemma SortedSlice(files: seq<File>, a: nat, b: nat)
    requires SortedLevel(files) && a <= b <= |files|
    ensures SortedLevel(files[a..b])
  {
    var s := files[a..b];
    assert forall i :: 0 <= i < |s| ==> s[i] == files[a + i];
  }

  lemma RestIsLater(files: seq<File>, sel: Selection, inputs: Selection, keep: nat)
    requires SortedLevel(files) && sel.Span? && inputs.Span? && sel.a < sel.b <= |files| && 0 < keep <= sel.b - sel.a
    requires inputs.a <= sel.a && sel.a + keep <= inputs.b && Clean(files, inputs.a, inputs.b)
    ensures var next := if keep < sel.b - sel.a && inputs.b < |files| then Some(files[inputs.b].smallest) else None;
            LaterOnly(files, sel, inputs, next) && (next.Some? ==> files[inputs.b - 1].largest < next.value)
  {
    forall i | inputs.b < i < |files| ensures files[inputs.b].smallest <= files[i].smallest {
      assert files[inputs.b].largest <= files[i].smallest;
    }
  }

  // ---- The byte limit of a manual compaction

  /** How many output files, from the first p on, start at or before a key. */
  function Reached(parents: seq<File>, p: nat, key: Key): (n: nat)
    ensures n >= p
    decreases |parents| - p
  {
    if p < |parents| && key >= parents[p].smallest then Reached(parents, p + 1, key) else p
  }

  function FirstOf(files: seq<File>, n: nat): seq<File> {
    if n < |files| then files[..n] else files
  }

  /** What the first k files weigh: alone on one level, else with the output files that they reach. */
  function Weight(inputs: seq<File>, parents: seq<File>, same: bool, k: nat): nat
    requires 0 < k <= |inputs|
  {
    if same then BytesOf(inputs[..k])
    else SizeOf(inputs[..k]) + BytesOf(FirstOf(parents, Reached(parents, 1, inputs[k - 1].largest)))
  }

  /** The least number of files that weigh as much as the limit, or all of them. */
  predicate LeastWeight(inputs: seq<File>, parents: seq<File>, same: bool, limit: nat, keep: nat) {
    && 0 < keep <= |inputs| && (keep == |inputs| || Weight(inputs, parents, same, keep) >= limit)
    && forall k :: 0 < k < keep ==> Weight(inputs, parents, same, k) < limit
  }

  lemma {:induction false} ReachedFrom(parents: seq<File>, p: nat, q: nat, key: Key)
    requires p <= q && (p < q ==> q <= |parents|) && forall i :: p <= i < q ==> key >= parents[i].smallest
    ensures Reached(parents, p, key) == Reached(parents, q, key)
    decreases q - p
  {
    if p < q {
      ReachedFrom(parents, p + 1, q, key);
    }
  }

  lemma OneMore(files: seq<File>, n: nat)
    requires n < |files|
    ensures SizeOf(files[..n + 1]) == SizeOf(files[..n]) + files[n].size
    ensures BytesOf(files[..n + 1]) == BytesOf(files[..n]) + files[n].bytes
    ensures FirstOf(files, n) == files[..n] && FirstOf(files, n + 1) == files[..n + 1]
  {
    assert files[..n + 1][..n] == files[..n];
  }

  /** Where the output files that were reached end. */
  predicate UpTo(parents: seq<File>, index: nat, key: Key) {
    && 1 <= index && (index <= |parents| || index == 1)
    && forall j :: 1 <= j < index ==> key >= parents[j].smallest
  }

  /** Adds the output files that a key reaches. */
  method AddReached(parents: seq<File>, index: nat, key: Key, total: nat) returns (index': nat, total': nat)
    requires UpTo(parents, index, key)
    ensures UpTo(parents, index', key) && index' == Reached(parents, 1, key)
    ensures total' == total - BytesOf(FirstOf(parents, index)) + BytesOf(FirstOf(parents, index'))
  {
    index', total' := index, total;
    while index' < |parents| && key >= parents[index'].smallest
      invariant UpTo(parents, index', key)
      invariant total' == total - BytesOf(FirstOf(parents, index)) + BytesOf(FirstOf(parents, index'))
    {
      OneMore(parents, index');
      total', index' := total' + parents[index'].bytes, index' + 1;
    }
    ReachedFrom(parents, 1, index', key);
  }

  /** The loops of CompactRange: the least number of files that weigh as much as the limit, or all of them. */
  method LimitInputs(inputs: seq<File>, parents: seq<File>, same: bool, limit: nat) returns (keep: nat)
    requires inputs != [] && SortedLevel(inputs)
    ensures LeastWeight(inputs, parents, same, limit, keep)
  {
    var total := if same || parents == [] then 0 else parents[0].bytes;
    var index, i := 1, 0;
    FirstBytes(parents);
    while i + 1 < |inputs|
      invariant i < |inputs| && UpTo(parents, index, inputs[i].largest)
      invariant forall k :: 0 < k <= i ==> Weight(inputs, parents, same, k) < limit
      invariant total == if same then BytesOf(inputs[..i]) else SizeOf(inputs[..i]) + BytesOf(FirstOf(parents, index))
    {
      OneMore(inputs, i);
      total := total + if same then inputs[i].bytes else inputs[i].size;
      if !same {
        index, total := AddReached(parents, index, inputs[i].largest, total);
      }
      assert total == Weight(inputs, parents, same, i + 1);
      if total >= limit {
        return i + 1;
      }
      i := i + 1;
    }
    keep := |inputs|;
  }

  lemma FirstBytes(parents: seq<File>)
    ensures BytesOf(FirstOf(parents, 1)) == if parents == [] then 0 else parents[0].bytes
  {
    if parents != [] {
      assert parents[..1] == [parents[0]];
      assert |parents| == 1 ==> parents == [parents[0]];
      assert BytesOf([parents[0]]) == parents[0].bytes;
    }
  }

  lemma LeavesNothing(v: seq<seq<File>>, level: nat, inputs: Selection, out: nat, c: nat, d: nat, r: Compaction)
    requires ValidVersion(v) && level <= out < |v| && inputs.Of(level, v[level])
    requires inputs.In(v[level]) != [] && inputs.CleanIn(level, v[level]) && Suffice(v, level, inputs, out, c, d)
    requires r.startLevel == level && r.outputLevel == out >= 1
    requires r.inputs == Tag(level, inputs.In(v[level])) + Tag(out, v[out][c..d])
    ensures NothingLeftBehind(v, r)
  {
    if level > 0 {
      CleanDetached(v[level], inputs.a, inputs.b);
    }
    SelectionNonempty(level, v[level], inputs);
    forall l, f, x | LeftOut(v, r, l, f) && x in r.inputs && x.level <= l ensures !Overlaps(f, x.file.smallest, x.file.largest) {
      LeftOutApart(v, inputs.In(v[level]), c, d, r, l, f, x);
    }
  }

  lemma LeftOutApart(v: seq<seq<File>>, start: seq<File>, c: nat, d: nat, r: Compaction, l: nat, f: File, x: Input)
    requires r.startLevel <= r.outputLevel < |v| && r.outputLevel > 0
    requires SortedLevel(v[r.outputLevel]) && c <= d <= |v[r.outputLevel]|
    requires Detached(v[r.startLevel], start) && start != [] && Nonempty(start)
    requires if r.startLevel == r.outputLevel then c == d
             else Separated(v[r.outputLevel], c, d, start) && (c < d ==> Clean(v[r.outputLevel], c, d))
    requires r.inputs == Tag(r.startLevel, start) + Tag(r.outputLevel, v[r.outputLevel][c..d])
    requires LeftOut(v, r, l, f) && x in r.inputs && x.level <= l
    ensures !Overlaps(f, x.file.smallest, x.file.largest)
  {
    var output := Tag(r.outputLevel, v[r.outputLevel][c..d]);
    assert x in Tag(r.startLevel, start) || x in output;
    assert Input(l, f) !in Tag(r.startLevel, start) && Input(l, f) !in output;
    if l == r.outputLevel && r.startLevel < l {
      OutputLeavesNothing(v[l], c, d, start, f, x.file);
    }
  }

  lemma OutputLeavesNothing(out: seq<File>, c: nat, d: nat, inputs: seq<File>, f: File, g: File)
    requires SortedLevel(out) && c <= d <= |out| && inputs != [] && Nonempty(inputs)
    requires Separated(out, c, d, inputs) && (c < d ==> Clean(out, c, d))
    requires f in out && f !in out[c..d] && (g in inputs || g in out[c..d])
    ensures !Overlaps(f, g.smallest, g.largest)
  {
    if g in inputs {
      var lo, hi := SpanOf(inputs);
      var i :| 0 <= i < |out| && out[i] == f;
      OutsideSpan(out, c, d, i);
    } else {
      CleanDetached(out, c, d);
    }
  }

  const LEFT := File(1, 0, 10, 1, 1)
  const INSIDE := File(2, 55, 58, 1, 1)
  const BUSY := File(3, 50, 60, 1, 1)
  const ESCAPE := [[], [LEFT, BUSY], [INSIDE]]

  lemma EscapeFiles(l: int, i: int)
    ensures IsFile(ESCAPE, l, i) <==> (l == 1 && 0 <= i <= 1) || (l == 2 && i == 0)
    ensures Selected(ESCAPE, {1, 2}, l, i) <==> (l == 1 || l == 2) && i == 0
  {
  }

  lemma EscapeLevels()
    ensures ValidLevels(ESCAPE) && (forall n :: n in {1, 2} ==> Exists(ESCAPE, n))
    ensures ClosedSelection(ESCAPE, {1, 2}, 1) && Sub(ESCAPE, {1, 2}, {1, 2}) && AllFree(ESCAPE, {1, 2}, {3})
  {
    forall l, i ensures IsFile(ESCAPE, l, i) <==> (l == 1 && 0 <= i <= 1) || (l == 2 && i == 0) {
      EscapeFiles(l, i);
    }
    forall l, i ensures Selected(ESCAPE, {1, 2}, l, i) <==> (l == 1 || l == 2) && i == 0 {
      EscapeFiles(l, i);
    }
    assert IsFile(ESCAPE, 1, 0) && IsFile(ESCAPE, 2, 0);
  }

  lemma EscapeRange(running: set<Compaction>, emptyKey: Key)
    requires forall d :: d in running ==> d.smallest == 50 && d.largest == 60
    ensures !RangeTaken(ESCAPE, {1, 2}, {1, 2}, 1, running, emptyKey)
    ensures forall d :: d in running ==> !Beside(ESCAPE, {1, 2}, d)
  {
    forall l, i ensures Selected(ESCAPE, {1, 2}, l, i) <==> (l == 1 || l == 2) && i == 0 {
      EscapeFiles(l, i);
    }
    assert Selected(ESCAPE, {1, 2}, 1, 0) && Selected(ESCAPE, {1, 2}, 2, 0);
  }

  /** Files that may go together and are free, with nothing in their range, start: even where that is a conflict. */
  method StartBeside(p: CompactionPicker, v: seq<seq<File>>, input: set<nat>, out: nat, maxOut: int, emptyKey: Key)
    requires p.Valid() && ValidLevels(v) && out >= 1 && !BadRequest(v, input, out, maxOut)
    requires ClosedSelection(v, input, out) && Sub(v, input, input) && AllFree(v, input, p.marked)
    requires !RangeTaken(v, input, input, out, p.running, emptyKey) && forall n :: n in input ==> Exists(v, n)
    modifies p
    ensures p.Valid() <==> OneSided(v, input, out, old(p.running))
  {
    var status, r := p.CompactFiles(v, input, out, maxOut, emptyKey, input);
  }

  /**
   * The range check covers levels 0 to the output level only: a file given from below can lie in the range of
   * a running compaction, and the source starts the two side by side.
   */
  method DeeperInputConflicts(emptyKey: Key) returns (p: CompactionPicker)
    ensures fresh(p) && !p.Valid()
  {
    var c := Compaction(1, [Input(1, BUSY)], 1, 50, 60);
    p := new CompactionPicker();
    p.Register(c);
    assert p.running == {c} && p.marked == {3};
    EscapeLevels();
    EscapeRange(p.running, emptyKey);
    StartBeside(p, ESCAPE, {1, 2}, 1, 2, emptyKey);
  }
}
