/** Which files the picker of the level style starts with: the first in its order of trying that can start. */
module CompactionChoices {
  import opened Records
  import opened LevelFiles
  import opened CompactionInputs
  import opened RunningCompactions

  /** The narrowest clean cut around one file; on level 0, the file alone. */
  ghost predicate CutOf(level: nat, files: seq<File>, i: nat, sel: Selection) {
    i < |files| &&
    if level == 0 then sel == Picked([files[i]])
    else sel.Span? && sel.b <= |files| && NarrowestCut(files, i, i + 1, sel.a, sel.b)
  }

  lemma CutUnique(level: nat, files: seq<File>, i: nat, sel: Selection, sel': Selection)
    requires CutOf(level, files, i, sel) && CutOf(level, files, i, sel')
    ensures sel == sel'
  {
  }

  /** The way into the output level is free: its range is not being written, and none of the files there is taken. */
  ghost predicate WayFree(out: nat, files: seq<File>, start: seq<File>, p: PickerState) {
    forall lo, hi :: Spans(start, lo, hi) ==> !OverlapsRunning(p.running, lo, hi, out) && CutFree(files, lo, hi, p.marked)
  }

  lemma WayDecides(out: nat, files: seq<File>, start: seq<File>, lo: Key, hi: Key, p: PickerState)
    requires Spans(start, lo, hi)
    ensures WayFree(out, files, start, p) <==> !OverlapsRunning(p.running, lo, hi, out) && CutFree(files, lo, hi, p.marked)
  {
    forall lo', hi' | Spans(start, lo', hi') ensures lo' == lo && hi' == hi {
      SpansUnique(start, lo, hi, lo', hi');
    }
  }

  /** What is known of one clean cut around the file is known of every one. */
  lemma CutIs(level: nat, files: seq<File>, i: nat, sel: Selection)
    requires CutOf(level, files, i, sel)
    ensures forall sel' :: CutOf(level, files, i, sel') ==> sel' == sel
  {
    forall sel' | CutOf(level, files, i, sel') ensures sel' == sel {
      CutUnique(level, files, i, sel, sel');
    }
  }

  /** File `i` can start a compaction into the output level, with the files `sel`. */
  ghost predicate StartsWith(v: seq<seq<File>>, level: nat, out: nat, i: nat, sel: Selection, p: PickerState)
    requires level < |v| && out < |v|
  {
    && CutOf(level, v[level], i, sel) && v[level][i].number !in p.marked
    && !InCompaction(p.marked, sel.In(v[level])) && WayFree(out, v[out], sel.In(v[level]), p)
  }

  ghost predicate CanStart(v: seq<seq<File>>, level: nat, out: nat, i: nat, p: PickerState)
    requires level < |v| && out < |v|
  {
    exists sel :: StartsWith(v, level, out, i, sel, p)
  }

  ghost predicate NoneStarts(v: seq<seq<File>>, level: nat, out: nat, order: seq<nat>, p: PickerState)
    requires level < |v| && out < |v|
  {
    forall k :: 0 <= k < |order| ==> !CanStart(v, level, out, order[k], p)
  }

  /** Some file of the order starts with `sel`, and none before it can start. */
  ghost predicate FirstStarts(v: seq<seq<File>>, level: nat, out: nat, order: seq<nat>, sel: Selection, p: PickerState)
    requires level < |v| && out < |v|
  {
    exists k :: 0 <= k < |order| && StartsWith(v, level, out, order[k], sel, p) && NoneStarts(v, level, out, order[..k], p)
  }

  lemma NotHere(v: seq<seq<File>>, level: nat, out: nat, i: nat, sel: Selection, p: PickerState)
    requires level < |v| && out < |v| && i < |v[level]|
    requires v[level][i].number !in p.marked ==> CutOf(level, v[level], i, sel) && !StartsWith(v, level, out, i, sel, p)
    ensures !CanStart(v, level, out, i, p)
  {
    if v[level][i].number !in p.marked {
      CutIs(level, v[level], i, sel);
    }
  }

  lemma NoneStartsMore(v: seq<seq<File>>, level: nat, out: nat, order: seq<nat>, k: nat, p: PickerState)
    requires level < |v| && out < |v| && k < |order|
    requires NoneStarts(v, level, out, order[..k], p) && !CanStart(v, level, out, order[k], p)
    ensures NoneStarts(v, level, out, order[..k + 1], p)
  {
    assert forall j :: 0 <= j < k ==> order[..k + 1][j] == order[..k][j];
  }

  lemma StartsHere(v: seq<seq<File>>, level: nat, out: nat, order: seq<nat>, k: nat, sel: Selection, p: PickerState)
    requires level < |v| && out < |v| && k < |order|
    requires NoneStarts(v, level, out, order[..k], p) && StartsWith(v, level, out, order[k], sel, p)
    ensures FirstStarts(v, level, out, order, sel, p) && !NoneStarts(v, level, out, order, p)
  {
    assert CanStart(v, level, out, order[k], p);
  }

  // ---- By size

  /** A level-0 file waits while a level-0 compaction runs. */
  predicate Waits(level: nat, p: PickerState) {
    level == 0 && p.level0 != {}
  }

  function OutOf(h: Hints, level: nat): nat {
    if level == 0 then h.baseLevel else level + 1
  }

  /** Enough of the newest level-0 files can be merged among themselves. */
  predicate IntraReady(files: seq<File>, trigger: nat, marked: set<nat>) {
    |files| >= trigger + 2 && files[0].number !in marked && IntraSpan(files, marked, 4) > 0
  }

  /** Nothing can start on a level that is due. */
  ghost predicate LevelIdle(v: seq<seq<File>>, h: Hints, level: nat, p: PickerState) {
    && level < |v| && OutOf(h, level) < |v| && |h.order| == |v|
    && (Waits(level, p) || NoneStarts(v, level, OutOf(h, level), h.order[level], p))
    && !(level == 0 && IntraReady(v[0], h.trigger, p.marked))
  }

  /** What a level that is due starts: from level 0 into the base level or within level 0, from others one level down. */
  ghost predicate LevelStarts(v: seq<seq<File>>, h: Hints, level: nat, s: Start, p: PickerState) {
    s.Start? && s.level == level < |v| && OutOf(h, level) < |v| && |h.order| == |v| &&
    if Waits(level, p) || NoneStarts(v, level, OutOf(h, level), h.order[level], p)
    then level == 0 && IntraReady(v[0], h.trigger, p.marked)
         && s == Start(0, 0, Picked(v[0][..IntraSpan(v[0], p.marked, 4)]))
    else s.out == OutOf(h, level) && FirstStarts(v, level, s.out, h.order[level], s.inputs, p)
  }

  /** After level 0 has been tried in vain, the base level is left alone. */
  predicate PassedOver(h: Hints, k: nat)
    requires k < |h.due|
  {
    h.due[k] == h.baseLevel && 0 in h.due[..k]
  }

  /** The first `n` levels that are due start nothing. */
  ghost predicate DueIdle(v: seq<seq<File>>, h: Hints, n: nat, p: PickerState)
    requires ValidHints(v, h, p.marked) && n <= |h.due|
  {
    forall k :: 0 <= k < n ==> PassedOver(h, k) || LevelIdle(v, h, h.due[k], p)
  }

  /** The first of the levels that are due to start anything starts `s`. */
  ghost predicate DueStarts(v: seq<seq<File>>, h: Hints, s: Start, p: PickerState)
    requires ValidHints(v, h, p.marked)
  {
    exists k :: 0 <= k < |h.due| && !PassedOver(h, k) && LevelStarts(v, h, h.due[k], s, p) && DueIdle(v, h, k, p)
  }

  // ---- By flag

  function FlagOut(g: Flagged, baseLevel: nat): nat {
    if !g.toParent then g.level else if g.level == 0 then baseLevel else g.level + 1
  }

  /** The clean cut around a flagged file is free, and is what starts. */
  ghost predicate FlagStarts(v: seq<seq<File>>, g: Flagged, out: nat, s: Start, p: PickerState) {
    && s.Start? && s.level == g.level < |v| && s.out == out
    && CutOf(g.level, v[g.level], g.index, s.inputs) && !InCompaction(p.marked, s.inputs.In(v[g.level]))
  }

  ghost predicate FlagIdle(v: seq<seq<File>>, g: Flagged, p: PickerState) {
    g.level < |v| && forall sel :: CutOf(g.level, v[g.level], g.index, sel) ==> InCompaction(p.marked, sel.In(v[g.level]))
  }

  ghost predicate FlagsIdle(v: seq<seq<File>>, flags: seq<Flagged>, waiting: bool, p: PickerState) {
    forall k :: 0 <= k < |flags| ==> (waiting && Waits(flags[k].level, p)) || FlagIdle(v, flags[k], p)
  }

  lemma FlagsIdleMore(v: seq<seq<File>>, flags: seq<Flagged>, k: nat, waiting: bool, p: PickerState)
    requires k < |flags| && FlagsIdle(v, flags[..k], waiting, p)
    requires (waiting && Waits(flags[k].level, p)) || FlagIdle(v, flags[k], p)
    ensures FlagsIdle(v, flags[..k + 1], waiting, p)
  {
    assert forall j :: 0 <= j < k ==> flags[..k + 1][j] == flags[..k][j];
  }

  /** The first flagged file that can start does; with `waiting`, those of level 0 wait for level-0 compactions. */
  ghost predicate FlagsStart(v: seq<seq<File>>, flags: seq<Flagged>, waiting: bool, base: Option<nat>, s: Start, p: PickerState) {
    exists k :: 0 <= k < |flags| &&
      FlagStarts(v, flags[k], if base.Some? then FlagOut(flags[k], base.value) else flags[k].level, s, p) &&
      !(waiting && Waits(flags[k].level, p)) && FlagsIdle(v, flags[..k], waiting, p)
  }

  // ---- The first start

  /** Levels by size come first, then the flagged files, then those of the bottommost data; the first start is taken. */
  ghost predicate FirstStart(v: seq<seq<File>>, h: Hints, s: Start, p: PickerState)
    requires ValidHints(v, h, p.marked)
  {
    if s.NoStart? then
      DueIdle(v, h, |h.due|, p) && FlagsIdle(v, h.flagged, true, p) && FlagsIdle(v, h.bottommost, false, p)
    else
      || DueStarts(v, h, s, p)
      || (DueIdle(v, h, |h.due|, p) && FlagsStart(v, h.flagged, true, Some(h.baseLevel), s, p))
      || (DueIdle(v, h, |h.due|, p) && FlagsIdle(v, h.flagged, true, p) && FlagsStart(v, h.bottommost, false, None, s, p))
  }

  /** A compaction by size goes from level 0 to the base level or stays there, and from others one level down. */
  lemma SizeStartLevels(v: seq<seq<File>>, h: Hints, s: Start, p: PickerState)
    requires ValidHints(v, h, p.marked) && DueStarts(v, h, s, p)
    ensures s.Start? && s.level in h.due
    ensures if s.level == 0 then s.out == h.baseLevel || s.out == 0 else s.out == s.level + 1
  {
  }
}
