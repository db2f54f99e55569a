/** Completing a set of files that a caller asks to have compacted. */
module Sanitizing {
  import opened LevelFiles
  import opened RunningCompactions

  /** HaveOverlappingKeyRanges, case by case as it is decided. */
  predicate HaveOverlappingKeyRanges(a: File, b: File) {
    if a.smallest >= b.smallest && a.smallest <= b.largest then true
    else if a.smallest < b.smallest && a.largest >= b.smallest then true
    else if a.largest <= b.largest then a.largest >= b.smallest
    else a.smallest <= b.largest
  }

  lemma OverlapIsIntersection(a: File, b: File)
    requires a.smallest <= a.largest && b.smallest <= b.largest
    ensures HaveOverlappingKeyRanges(a, b)
            <==> exists k :: a.Contains(k) && b.Contains(k)
    ensures HaveOverlappingKeyRanges(a, b) <==> Overlaps(b, a.smallest, a.largest)
  {
    if HaveOverlappingKeyRanges(a, b) {
      var k := if a.smallest < b.smallest then b.smallest else a.smallest;
      assert a.Contains(k) && b.Contains(k);
    }
  }

  /** Aborted because a file that must go along is being compacted, or because of a running compaction's range. */
  datatype Status = OK | InvalidArgument | FileBusy | RangeBusy

  ghost predicate ValidLevels(levels: seq<seq<File>>) {
    && (forall l :: 0 <= l < |levels| ==> Nonempty(levels[l]) && (l > 0 ==> SortedLevel(levels[l])))
    && (forall l, i, m, j :: IsFile(levels, l, i) && IsFile(levels, m, j) ==>
          levels[l][i].number == levels[m][j].number ==> l == m && i == j)
  }

  predicate IsFile(levels: seq<seq<File>>, l: int, i: int) {
    0 <= l < |levels| && 0 <= i < |levels[l]|
  }

  predicate Selected(levels: seq<seq<File>>, sel: set<nat>, l: int, i: int) {
    IsFile(levels, l, i) && levels[l][i].number in sel
  }

  ghost predicate Exists(levels: seq<seq<File>>, n: nat) {
    exists l, i :: IsFile(levels, l, i) && levels[l][i].number == n
  }

  // ---- What the result promises

  /** Some file selected on levels 0..m starts no later than f ends, and some such file ends no earlier than f starts. */
  ghost predicate InHull(levels: seq<seq<File>>, sel: set<nat>, m: nat, f: File) {
    && (exists l, i :: l <= m && Selected(levels, sel, l, i) && levels[l][i].smallest <= f.largest)
    && (exists l, i :: l <= m && Selected(levels, sel, l, i) && f.smallest <= levels[l][i].largest)
  }

  ghost predicate LevelClosed(levels: seq<seq<File>>, sel: set<nat>, m: nat)
    requires m < |levels|
  {
    forall i :: 0 <= i < |levels[m]| && InHull(levels, sel, m, levels[m][i]) ==> Selected(levels, sel, m, i)
  }

  /** Level 0 is ordered by age: with a file go all the later ones. */
  ghost predicate SuffixSelected(levels: seq<seq<File>>, sel: set<nat>) {
    forall i, j :: Selected(levels, sel, 0, i) && i <= j < |levels[0]| ==> Selected(levels, sel, 0, j)
  }

  ghost predicate NoGaps(levels: seq<seq<File>>, sel: set<nat>) {
    forall i, j, k :: Selected(levels, sel, 0, i) && Selected(levels, sel, 0, k) && i <= j <= k ==> Selected(levels, sel, 0, j)
  }

  /** Nothing on levels 0..out is left out that must go with the selected files. */
  ghost predicate ClosedSelection(levels: seq<seq<File>>, sel: set<nat>, out: nat)
    requires out < |levels|
  {
    && (forall m :: 0 < m <= out ==> LevelClosed(levels, sel, m))
    && (if out > 0 then SuffixSelected(levels, sel) else NoGaps(levels, sel))
  }

  /** All selected files on levels before n lie within [lo, hi]. */
  ghost predicate SpanBefore(levels: seq<seq<File>>, sel: set<nat>, n: nat, lo: Key, hi: Key) {
    forall l, i :: l < n && Selected(levels, sel, l, i) ==> Within(levels[l][i], lo, hi)
  }

  ghost predicate NoneAt(levels: seq<seq<File>>, sel: set<nat>, n: nat) {
    forall i :: !Selected(levels, sel, n, i)
  }

  ghost predicate NoneBefore(levels: seq<seq<File>>, sel: set<nat>, n: nat) {
    forall l, i :: l < n ==> !Selected(levels, sel, l, i)
  }

  lemma NoneGiven(levels: seq<seq<File>>, input: set<nat>, sel: set<nat>, n: nat)
    requires input <= sel && NoneBefore(levels, sel, n)
    ensures NoneBefore(levels, input, n)
  {
    assert forall l, i :: Selected(levels, input, l, i) ==> Selected(levels, sel, l, i);
  }

  ghost predicate FreeBefore(levels: seq<seq<File>>, sel: set<nat>, n: nat, marked: set<nat>) {
    forall l, i :: l < n && Selected(levels, sel, l, i) ==> levels[l][i].number !in marked
  }

  /** Every file of the level that overlaps [lo, hi] is selected. */
  ghost predicate Covered(levels: seq<seq<File>>, sel: set<nat>, m: nat, lo: Key, hi: Key)
    requires m < |levels|
  {
    forall i :: 0 <= i < |levels[m]| && Overlaps(levels[m][i], lo, hi) ==> Selected(levels, sel, m, i)
  }

  /** The same files are selected before level n. */
  ghost predicate SameBefore(levels: seq<seq<File>>, sel: set<nat>, sel': set<nat>, n: nat) {
    forall l, i :: l < n ==> (Selected(levels, sel, l, i) <==> Selected(levels, sel', l, i))
  }

  /** The same files are selected on the levels after out. */
  ghost predicate SameAfter(levels: seq<seq<File>>, sel: set<nat>, sel': set<nat>, out: nat) {
    forall l, i :: l > out ==> (Selected(levels, sel, l, i) <==> Selected(levels, sel', l, i))
  }

  lemma ClosedByHull(levels: seq<seq<File>>, sel: set<nat>, m: nat, lo: Key, hi: Key)
    requires m < |levels| && SpanBefore(levels, sel, m + 1, lo, hi) && Covered(levels, sel, m, lo, hi)
    ensures LevelClosed(levels, sel, m)
  {
    forall i | 0 <= i < |levels[m]| && InHull(levels, sel, m, levels[m][i]) ensures Selected(levels, sel, m, i) {
      var l, j :| l <= m && Selected(levels, sel, l, j) && levels[l][j].smallest <= levels[m][i].largest;
      var l', j' :| l' <= m && Selected(levels, sel, l', j') && levels[m][i].smallest <= levels[l'][j'].largest;
      assert Within(levels[l][j], lo, hi) && Within(levels[l'][j'], lo, hi);
    }
  }

  lemma ClosedStays(levels: seq<seq<File>>, sel: set<nat>, sel': set<nat>, m: nat, n: nat)
    requires m < n && m < |levels| && LevelClosed(levels, sel, m) && SameBefore(levels, sel, sel', n)
    ensures LevelClosed(levels, sel', m)
  {
    forall i | 0 <= i < |levels[m]| && InHull(levels, sel', m, levels[m][i]) ensures Selected(levels, sel', m, i) {
      var l, j :| l <= m && Selected(levels, sel', l, j) && levels[l][j].smallest <= levels[m][i].largest;
      var l', j' :| l' <= m && Selected(levels, sel', l', j') && levels[m][i].smallest <= levels[l'][j'].largest;
      assert Selected(levels, sel, l, j) && Selected(levels, sel, l', j');
      assert InHull(levels, sel, m, levels[m][i]);
    }
  }

  // ---- One level

  /** The first and the last selected file of a level. */
  method FindIncluded(files: seq<File>, sel: set<nat>) returns (first: nat, last: int)
    ensures last == -1 ==> forall i :: 0 <= i < |files| ==> files[i].number !in sel
    ensures last != -1 ==> first <= last < |files| && files[first].number in sel && files[last].number in sel
    ensures forall i :: 0 <= i < |files| && files[i].number in sel ==> first <= i <= last
  {
    first, last := |files|, -1;
    for f := 0 to |files|
      invariant last == -1 ==> first == |files|
      invariant last != -1 ==> first <= last < f && files[first].number in sel && files[last].number in sel
      invariant forall i :: 0 <= i < f && files[i].number in sel ==> first <= i <= last
    {
      if files[f].number in sel {
        first, last := if first < f then first else f, if last > f then last else f;
      }
    }
  }

  /** Below level 0, out to where no neighbour shares a key. */
  method ExtendIncluded(files: seq<File>, first: nat, last: nat) returns (first': nat, last': nat)
    requires first <= last < |files|
    ensures first' <= first && last <= last' < |files| && Clean(files, first', last' + 1)
    ensures forall k :: first' <= k < first || last <= k < last' ==> files[k].largest >= files[k + 1].smallest
  {
    first', last' := first, last;
    while first' > 0 && files[first' - 1].largest >= files[first'].smallest
      invariant first' <= first && forall k :: first' <= k < first ==> files[k].largest >= files[k + 1].smallest
    {
      first' := first' - 1;
    }
    while last' < |files| - 1 && files[last' + 1].smallest <= files[last'].largest
      invariant last <= last' < |files| && forall k :: last <= k < last' ==> files[k].largest >= files[k + 1].smallest
    {
      last' := last' + 1;
    }
  }

  /** Selects the files first..last, unless one of them is being compacted. */
  method Include(levels: seq<seq<File>>, l: nat, first: nat, last: nat, sel: set<nat>, marked: set<nat>)
    returns (ok: bool, sel': set<nat>)
    requires ValidLevels(levels) && l < |levels| && first <= last < |levels[l]|
    ensures sel <= sel' && forall n :: n in sel' ==> n in sel || Exists(levels, n)
    ensures forall k, i :: Selected(levels, sel', k, i) && !Selected(levels, sel, k, i) ==> k == l && first <= i <= last
    ensures ok ==> forall i :: first <= i <= last ==> Selected(levels, sel', l, i) && levels[l][i].number !in marked
    ensures !ok ==> exists i :: first <= i <= last && levels[l][i].number in marked
  {
    sel', ok := sel, true;
    for f := first to last + 1
      invariant sel <= sel' && forall n :: n in sel' ==> n in sel || Exists(levels, n)
      invariant forall k, i :: Selected(levels, sel', k, i) && !Selected(levels, sel, k, i) ==> k == l && first <= i < f
      invariant forall i :: first <= i < f ==> Selected(levels, sel', l, i) && levels[l][i].number !in marked
    {
      assert IsFile(levels, l, f);
      if levels[l][f].number in marked {
        return false, sel';
      }
      sel' := sel' + {levels[l][f].number};
    }
  }

  /** Selects the files of one level that overlap [lo, hi], unless one of them is being compacted. */
  method IncludeOverlapping(levels: seq<seq<File>>, m: nat, lo: Key, hi: Key, sel: set<nat>, marked: set<nat>)
    returns (ok: bool, sel': set<nat>)
    requires ValidLevels(levels) && m < |levels| && lo <= hi
    ensures Added(levels, sel, sel', m, m, lo, hi, marked)
    ensures ok ==> Covered(levels, sel', m, lo, hi)
    ensures !ok ==> exists i :: BusyAt(levels, m, i, lo, hi, marked)
  {
    sel', ok := sel, true;
    for f := 0 to |levels[m]|
      invariant Added(levels, sel, sel', m, m, lo, hi, marked)
      invariant forall i :: 0 <= i < f && Overlaps(levels[m][i], lo, hi) ==> Selected(levels, sel', m, i)
    {
      assert IsFile(levels, m, f);
      var file := levels[m][f];
      OverlapIsIntersection(File(0, lo, hi, 0, 0), file);
      if HaveOverlappingKeyRanges(File(0, lo, hi, 0, 0), file) {
        if file.number in marked {
          assert BusyAt(levels, m, f, lo, hi, marked);
          return false, sel';
        }
        sel' := sel' + {file.number};
      }
    }
  }

  /** Each number added belongs to a free file of levels from..to that overlaps [lo, hi]. */
  ghost predicate Added(levels: seq<seq<File>>, sel: set<nat>, sel': set<nat>, from: nat, to: nat,
                        lo: Key, hi: Key, marked: set<nat>) {
    && sel <= sel' && (forall n :: n in sel' ==> n in sel || Exists(levels, n))
    && forall l, i :: Selected(levels, sel', l, i) && !Selected(levels, sel, l, i) ==>
                        from <= l <= to && Overlaps(levels[l][i], lo, hi) && levels[l][i].number !in marked
  }

  predicate BusyAt(levels: seq<seq<File>>, m: int, i: int, lo: Key, hi: Key, marked: set<nat>) {
    IsFile(levels, m, i) && Overlaps(levels[m][i], lo, hi) && levels[m][i].number in marked
  }

  method IncludeBelow(levels: seq<seq<File>>, from: nat, out: nat, lo: Key, hi: Key, sel: set<nat>, marked: set<nat>)
    returns (ok: bool, sel': set<nat>)
    requires ValidLevels(levels) && from <= out + 1 && out < |levels| && lo <= hi
    ensures Added(levels, sel, sel', from, out, lo, hi, marked)
    ensures ok ==> forall m :: from <= m <= out ==> Covered(levels, sel', m, lo, hi)
    ensures !ok ==> exists m, i :: from <= m <= out && BusyAt(levels, m, i, lo, hi, marked)
  {
    sel', ok := sel, true;
    for m := from to out + 1
      invariant Added(levels, sel, sel', from, out, lo, hi, marked)
      invariant forall k :: from <= k < m ==> Covered(levels, sel', k, lo, hi)
    {
      ghost var before := sel';
      ok, sel' := IncludeOverlapping(levels, m, lo, hi, sel', marked);
      if !ok {
        return;
      }
      forall k | from <= k < m ensures Covered(levels, sel', k, lo, hi) {
        CoveredGrows(levels, before, sel', k, lo, hi);
      }
    }
  }

  lemma CoveredGrows(levels: seq<seq<File>>, sel: set<nat>, sel': set<nat>, m: nat, lo: Key, hi: Key)
    requires m < |levels| && sel <= sel' && Covered(levels, sel, m, lo, hi)
    ensures Covered(levels, sel', m, lo, hi)
  {
    forall i | 0 <= i < |levels[m]| && Overlaps(levels[m][i], lo, hi) ensures Selected(levels, sel', m, i) {
      assert Selected(levels, sel, m, i);
    }
  }

  /** What holds once the levels before n are done. */
  ghost predicate Done(levels: seq<seq<File>>, out: nat, n: nat, sel: set<nat>, marked: set<nat>,
                       started: bool, lo: Key, hi: Key)
    requires out < |levels| && n <= out + 1
  {
    && (if started then
          && lo <= hi && SpanBefore(levels, sel, n, lo, hi)
          && (forall m :: n <= m <= out && 0 < m ==> Covered(levels, sel, m, lo, hi))
        else NoneBefore(levels, sel, n))
    && FreeBefore(levels, sel, n, marked)
    && (forall m :: 0 < m < n ==> LevelClosed(levels, sel, m))
    && (0 < n ==> if 0 < out then SuffixSelected(levels, sel) else NoGaps(levels, sel))
  }

  /** A level without a selected file is passed over. */
  lemma SkipLevel(levels: seq<seq<File>>, out: nat, n: nat, sel: set<nat>, marked: set<nat>,
                  started: bool, lo: Key, hi: Key)
    requires n <= out < |levels| && Done(levels, out, n, sel, marked, started, lo, hi)
    requires NoneAt(levels, sel, n)
    ensures Done(levels, out, n + 1, sel, marked, started, lo, hi)
  {
    if n > 0 {
      if started {
        ClosedByHull(levels, sel, n, lo, hi);
      } else {
        assert LevelClosed(levels, sel, n);
      }
    }
  }

  /** Widens [lo, hi] over the files first..last. */
  method WidenHull(l: nat, files: seq<File>, first: nat, last: nat, lo: Key, hi: Key) returns (lo': Key, hi': Key)
    requires first <= last < |files| && Nonempty(files) && (l > 0 ==> SortedLevel(files))
    ensures lo' <= lo && hi <= hi' && forall i :: first <= i <= last ==> Within(files[i], lo', hi')
    ensures lo' == lo || exists i :: first <= i <= last && files[i].smallest == lo'
    ensures hi' == hi || exists i :: first <= i <= last && files[i].largest == hi'
    ensures l > 0 ==> lo' == Min(lo, files[first].smallest) && hi' == Max(hi, files[last].largest)
  {
    lo', hi' := lo, hi;
    if l == 0 {
      for f := first to last + 1
        invariant lo' <= lo && hi <= hi' && forall i :: first <= i < f ==> Within(files[i], lo', hi')
        invariant lo' == lo || exists i :: first <= i < f && files[i].smallest == lo'
        invariant hi' == hi || exists i :: first <= i < f && files[i].largest == hi'
      {
        lo', hi' := Min(lo', files[f].smallest), Max(hi', files[f].largest);
      }
    } else {
      lo', hi' := Min(lo, files[first].smallest), Max(hi, files[last].largest);
    }
  }

  function Min(a: Key, b: Key): Key { if a > b then b else a }

  function Max(a: Key, b: Key): Key { if a < b then b else a }

  /** No file of the level straddles an end of the widened interval. */
  lemma HullStays(files: seq<File>, first: nat, last: nat, lo: Key, hi: Key, k: nat)
    requires SortedLevel(files) && last < |files| && Clean(files, first, last + 1) && lo <= hi && k < |files|
    requires Overlaps(files[k], lo, hi) ==> first <= k <= last
    ensures var lo', hi' := Min(lo, files[first].smallest), Max(hi, files[last].largest);
            Overlaps(files[k], lo', hi') ==> Within(files[k], lo', hi')
  {
    CleanSeparates(files, first, last + 1, k);
    if k < first {
      assert files[k].largest <= files[first].smallest;
      assert first < last ==> files[first].largest <= files[last].smallest;
    } else if k > last {
      assert files[last].largest <= files[k].smallest;
      assert first < last ==> files[first].largest <= files[last].smallest;
    } else {
      assert k > first ==> files[first].largest <= files[k].smallest;
      assert k < last ==> files[k].largest <= files[last].smallest;
    }
  }

  /** The step from one level to the next, put together. */
  lemma LevelDone(levels: seq<seq<File>>, out: nat, n: nat, marked: set<nat>, started: bool, lo: Key, hi: Key,
                  sel: set<nat>, sel1: set<nat>, sel2: set<nat>, first: nat, last: nat, lo': Key, hi': Key)
    requires ValidLevels(levels) && n <= out < |levels| && Done(levels, out, n, sel, marked, started, lo, hi)
    requires first <= last < |levels[n]| && forall i :: Selected(levels, sel, n, i) ==> first <= i <= last
    requires sel <= sel1 && forall k, i :: Selected(levels, sel1, k, i) && !Selected(levels, sel, k, i) ==>
                                             k == n && first <= i <= last
    requires forall i :: first <= i <= last ==>
               && Selected(levels, sel1, n, i) && levels[n][i].number !in marked && Within(levels[n][i], lo', hi')
    requires lo' <= hi' && (started ==> lo' <= lo && hi <= hi')
    requires Added(levels, sel1, sel2, if n == 0 then 1 else n, out, lo', hi', marked)
    requires forall m :: n <= m <= out && 0 < m ==> Covered(levels, sel2, m, lo', hi')
    requires n > 0 ==> forall i :: 0 <= i < |levels[n]| && Overlaps(levels[n][i], lo', hi') ==> Within(levels[n][i], lo', hi')
    requires n == 0 && out > 0 ==> last == |levels[0]| - 1
    ensures Done(levels, out, n + 1, sel2, marked, true, lo', hi')
  {
    assert SameBefore(levels, sel, sel2, n);
    forall l, i | l < n + 1 && Selected(levels, sel2, l, i)
      ensures Within(levels[l][i], lo', hi') && levels[l][i].number !in marked
    {
      if l < n {
        assert Selected(levels, sel, l, i);
      } else if Selected(levels, sel1, n, i) {
        assert first <= i <= last;
      }
    }
    forall m | 0 < m < n + 1 ensures LevelClosed(levels, sel2, m) {
      if m < n {
        ClosedStays(levels, sel, sel2, m, n);
      } else {
        ClosedByHull(levels, sel2, n, lo', hi');
      }
    }
    if n > 0 && out > 0 {
      forall i, j | Selected(levels, sel2, 0, i) && i <= j < |levels[0]| ensures Selected(levels, sel2, 0, j) {
        assert Selected(levels, sel, 0, i);
        assert Selected(levels, sel, 0, j);
      }
    }
  }

  // ---- Nothing is selected that need not be

  /** Both ends of [lo, hi] are ends of files on levels before n that the set holds. */
  ghost predicate Anchored(levels: seq<seq<File>>, closed: set<nat>, n: nat, lo: Key, hi: Key) {
    && (exists l, i :: l < n && Selected(levels, closed, l, i) && levels[l][i].smallest == lo)
    && (exists l, i :: l < n && Selected(levels, closed, l, i) && levels[l][i].largest == hi)
  }

  lemma ForcedByHull(levels: seq<seq<File>>, closed: set<nat>, out: nat, n: nat, lo: Key, hi: Key, m: nat, i: nat)
    requires out < |levels| && ClosedSelection(levels, closed, out) && Anchored(levels, closed, n, lo, hi)
    requires n <= m + 1 && 0 < m <= out && IsFile(levels, m, i) && Overlaps(levels[m][i], lo, hi)
    ensures Selected(levels, closed, m, i)
  {
    assert LevelClosed(levels, closed, m);
    var l, j :| l < n && Selected(levels, closed, l, j) && levels[l][j].smallest == lo;
    var l', j' :| l' < n && Selected(levels, closed, l', j') && levels[l'][j'].largest == hi;
    assert l <= m && l' <= m;
    assert InHull(levels, closed, m, levels[m][i]);
  }

  /** Every file selected in one is selected in the other. */
  ghost predicate Sub(levels: seq<seq<File>>, sel: set<nat>, closed: set<nat>) {
    forall l, i :: Selected(levels, sel, l, i) ==> Selected(levels, closed, l, i)
  }

  lemma ForcedOne(levels: seq<seq<File>>, closed: set<nat>, m: nat, a: nat, b: nat, k: nat)
    requires 0 < m < |levels| && LevelClosed(levels, closed, m) && IsFile(levels, m, k)
    requires Selected(levels, closed, m, a) && levels[m][a].smallest <= levels[m][k].largest
    requires Selected(levels, closed, m, b) && levels[m][k].smallest <= levels[m][b].largest
    ensures Selected(levels, closed, m, k)
  {
    assert InHull(levels, closed, m, levels[m][k]);
  }

  lemma {:induction false} ForcedLeft(levels: seq<seq<File>>, closed: set<nat>, m: nat, k: nat, first: nat)
    requires 0 < m < |levels| && LevelClosed(levels, closed, m) && SortedLevel(levels[m])
    requires k <= first && Selected(levels, closed, m, first)
    requires forall j :: k <= j < first ==> levels[m][j].largest >= levels[m][j + 1].smallest
    ensures Selected(levels, closed, m, k)
    decreases first - k
  {
    if k < first {
      ForcedLeft(levels, closed, m, k + 1, first);
      assert levels[m][k].largest <= levels[m][k + 1].smallest;
      ForcedOne(levels, closed, m, k + 1, k + 1, k);
    }
  }

  lemma {:induction false} ForcedRight(levels: seq<seq<File>>, closed: set<nat>, m: nat, k: nat, last: nat)
    requires 0 < m < |levels| && LevelClosed(levels, closed, m) && SortedLevel(levels[m])
    requires last <= k < |levels[m]| && Selected(levels, closed, m, last)
    requires forall j :: last <= j < k ==> levels[m][j].largest >= levels[m][j + 1].smallest
    ensures Selected(levels, closed, m, k)
    decreases k
  {
    if k > last {
      ForcedRight(levels, closed, m, k - 1, last);
      assert levels[m][k - 1].largest <= levels[m][k].smallest;
      ForcedOne(levels, closed, m, k - 1, k - 1, k);
    }
  }

  /** A closed set that holds two files of a level holds the run between and around them. */
  lemma ForcedRun(levels: seq<seq<File>>, closed: set<nat>, m: nat, first: nat, last: nat, first': nat, last': nat)
    requires 0 < m < |levels| && LevelClosed(levels, closed, m) && SortedLevel(levels[m])
    requires first' <= first <= last <= last' < |levels[m]|
    requires Selected(levels, closed, m, first) && Selected(levels, closed, m, last)
    requires forall k :: first' <= k < first || last <= k < last' ==> levels[m][k].largest >= levels[m][k + 1].smallest
    ensures forall k :: first' <= k <= last' ==> Selected(levels, closed, m, k)
  {
    forall k | first' <= k <= last' ensures Selected(levels, closed, m, k) {
      if k < first {
        ForcedLeft(levels, closed, m, k, first);
      } else if k > last {
        ForcedRight(levels, closed, m, k, last);
      } else {
        assert k > first ==> levels[m][first].largest <= levels[m][k].smallest;
        assert k < last ==> levels[m][k].largest <= levels[m][last].smallest;
        ForcedOne(levels, closed, m, first, last, k);
      }
    }
  }

  /** The set is closed and holds everything selected so far. */
  ghost predicate Forced(levels: seq<seq<File>>, out: nat, n: nat, sel: set<nat>, started: bool, lo: Key, hi: Key, closed: set<nat>)
    requires out < |levels|
  {
    ClosedSelection(levels, closed, out) && Sub(levels, sel, closed) && (started ==> Anchored(levels, closed, n, lo, hi))
  }

  /** The files first..last that a level's pass takes are forced. */
  lemma ForcedLevel(levels: seq<seq<File>>, out: nat, n: nat, closed: set<nat>, first: nat, last: nat, first': nat, last': nat)
    requires n <= out < |levels| && ClosedSelection(levels, closed, out) && (n > 0 ==> SortedLevel(levels[n]))
    requires first' <= first <= last <= last' < |levels[n]|
    requires Selected(levels, closed, n, first) && Selected(levels, closed, n, last)
    requires n > 0 ==> forall k :: first' <= k < first || last <= k < last' ==>
                                     levels[n][k].largest >= levels[n][k + 1].smallest
    requires n == 0 ==> first' == first && (last' == last || out > 0)
    ensures forall k :: first' <= k <= last' ==> Selected(levels, closed, n, k)
  {
    if n > 0 {
      ForcedRun(levels, closed, n, first, last, first', last');
    }
  }

  lemma AnchoredMore(levels: seq<seq<File>>, sel: set<nat>, sel': set<nat>, n: nat, lo: Key, hi: Key)
    requires sel <= sel' && Anchored(levels, sel, n, lo, hi)
    ensures Anchored(levels, sel', n, lo, hi) && Anchored(levels, sel', n + 1, lo, hi)
  {
    var l, j :| l < n && Selected(levels, sel, l, j) && levels[l][j].smallest == lo;
    var l', j' :| l' < n && Selected(levels, sel, l', j') && levels[l'][j'].largest == hi;
    assert Selected(levels, sel', l, j) && Selected(levels, sel', l', j') && l < n + 1 && l' < n + 1;
  }

  /** The hull is that of what is selected, no wider. */
  lemma AnchoredSelected(levels: seq<seq<File>>, n: nat, sel: set<nat>, sel1: set<nat>, sel2: set<nat>, started: bool,
                         lo: Key, hi: Key, first: nat, last: nat, lo': Key, hi': Key)
    requires n < |levels| && first <= last < |levels[n]| && sel <= sel1 <= sel2
    requires started ==> Anchored(levels, sel, n, lo, hi)
    requires forall k :: first <= k <= last ==> Selected(levels, sel1, n, k)
    requires (started && lo' == lo) || exists i :: first <= i <= last && levels[n][i].smallest == lo'
    requires (started && hi' == hi) || exists i :: first <= i <= last && levels[n][i].largest == hi'
    ensures Anchored(levels, sel2, n + 1, lo', hi')
  {
    if started {
      AnchoredMore(levels, sel, sel1, n, lo, hi);
    }
    AnchoredWider(levels, sel1, n, started, lo, hi, first, last, lo', hi');
    AnchoredMore(levels, sel1, sel2, n + 1, lo', hi');
  }

  lemma AnchoredWider(levels: seq<seq<File>>, closed: set<nat>, n: nat, started: bool, lo: Key, hi: Key,
                      first: nat, last: nat, lo': Key, hi': Key)
    requires n < |levels| && first <= last < |levels[n]|
    requires forall k :: first <= k <= last ==> Selected(levels, closed, n, k)
    requires started ==> Anchored(levels, closed, n, lo, hi)
    requires (started && lo' == lo) || exists i :: first <= i <= last && levels[n][i].smallest == lo'
    requires (started && hi' == hi) || exists i :: first <= i <= last && levels[n][i].largest == hi'
    ensures Anchored(levels, closed, n + 1, lo', hi')
  {
    if started && lo' == lo {
      var l, j :| l < n && Selected(levels, closed, l, j) && levels[l][j].smallest == lo;
      assert l < n + 1;
    } else {
      var i :| first <= i <= last && levels[n][i].smallest == lo';
      assert Selected(levels, closed, n, i);
    }
    if started && hi' == hi {
      var l, j :| l < n && Selected(levels, closed, l, j) && levels[l][j].largest == hi;
      assert l < n + 1;
    } else {
      var i :| first <= i <= last && levels[n][i].largest == hi';
      assert Selected(levels, closed, n, i);
    }
  }

  lemma SubAfter(levels: seq<seq<File>>, out: nat, n: nat, sel: set<nat>, sel1: set<nat>, sel2: set<nat>, closed: set<nat>,
                 first: nat, last: nat, lo: Key, hi: Key, marked: set<nat>)
    requires n <= out < |levels| && ClosedSelection(levels, closed, out) && Anchored(levels, closed, n + 1, lo, hi)
    requires Sub(levels, sel, closed) && forall k :: first <= k <= last ==> Selected(levels, closed, n, k)
    requires forall k, i :: Selected(levels, sel1, k, i) && !Selected(levels, sel, k, i) ==> k == n && first <= i <= last
    requires Added(levels, sel1, sel2, if n == 0 then 1 else n, out, lo, hi, marked)
    ensures Sub(levels, sel2, closed)
  {
    forall l, i | Selected(levels, sel2, l, i) ensures Selected(levels, closed, l, i) {
      if !Selected(levels, sel1, l, i) {
        ForcedByHull(levels, closed, out, n + 1, lo, hi, l, i);
      }
    }
  }

  /** A file that a closed set must hold is being compacted. */
  lemma ForcedBusy(levels: seq<seq<File>>, out: nat, n: nat, closed: set<nat>, m: nat, i: nat, lo: Key, hi: Key, marked: set<nat>)
    requires n <= m <= out < |levels| && 0 < m && ClosedSelection(levels, closed, out)
    requires Anchored(levels, closed, n + 1, lo, hi) && BusyAt(levels, m, i, lo, hi, marked)
    ensures !FreeBefore(levels, closed, out + 1, marked)
  {
    ForcedByHull(levels, closed, out, n + 1, lo, hi, m, i);
  }

  // ---- The whole

  /** The run of files to take from a level: from the first selected one, first0, to the last, and their neighbours. */
  method ChooseRun(levels: seq<seq<File>>, out: nat, n: nat, sel: set<nat>, ghost closed: set<nat>)
    returns (found: bool, first0: nat, first: nat, last: nat)
    requires ValidLevels(levels) && n <= out < |levels|
    ensures found <==> !NoneAt(levels, sel, n)
    ensures found ==>
              && first <= first0 <= last < |levels[n]| && (forall i :: Selected(levels, sel, n, i) ==> first <= i <= last)
              && (n > 0 ==> Clean(levels[n], first, last + 1)) && (n == 0 && out > 0 ==> last == |levels[0]| - 1)
    ensures found && ClosedSelection(levels, closed, out) && Sub(levels, sel, closed) ==>
              forall k :: first <= k <= last ==> Selected(levels, closed, n, k)
  {
    var last0;
    first0, last0 := FindIncluded(levels[n], sel);
    found, first, last := last0 != -1, 0, 0;
    if found {
      assert Selected(levels, sel, n, first0) && Selected(levels, sel, n, last0);
      first, last := first0, last0;
      if n != 0 {
        first, last := ExtendIncluded(levels[n], first0, last0);
      } else if out > 0 {
        last := |levels[n]| - 1;
      }
      if ClosedSelection(levels, closed, out) && Sub(levels, sel, closed) {
        ForcedLevel(levels, out, n, closed, first0, last0, first, last);
      }
    }
  }

  /** A closed set that holds what was selected before a level's pass holds what is selected after it. */
  lemma ForcedStep(levels: seq<seq<File>>, out: nat, n: nat, started: bool, lo: Key, hi: Key, closed: set<nat>,
                   first: nat, last: nat, sel: set<nat>, sel1: set<nat>, sel2: set<nat>, lo': Key, hi': Key,
                   marked: set<nat>, ok: bool)
    requires n <= out < |levels| && Forced(levels, out, n, sel, started, lo, hi, closed)
    requires first <= last < |levels[n]| && forall k :: first <= k <= last ==> Selected(levels, closed, n, k)
    requires (started && lo' == lo) || exists i :: first <= i <= last && levels[n][i].smallest == lo'
    requires (started && hi' == hi) || exists i :: first <= i <= last && levels[n][i].largest == hi'
    requires forall k, i :: Selected(levels, sel1, k, i) && !Selected(levels, sel, k, i) ==> k == n && first <= i <= last
    requires Added(levels, sel1, sel2, if n == 0 then 1 else n, out, lo', hi', marked)
    requires !ok ==> exists m, i :: n <= m <= out && 0 < m && BusyAt(levels, m, i, lo', hi', marked)
    ensures if ok then Forced(levels, out, n + 1, sel2, true, lo', hi', closed)
            else !FreeBefore(levels, closed, out + 1, marked)
  {
    AnchoredWider(levels, closed, n, started, lo, hi, first, last, lo', hi');
    if ok {
      SubAfter(levels, out, n, sel, sel1, sel2, closed, first, last, lo', hi', marked);
    } else {
      var m, i :| n <= m <= out && 0 < m && BusyAt(levels, m, i, lo', hi', marked);
      ForcedBusy(levels, out, n, closed, m, i, lo', hi', marked);
    }
  }

  method SanitizeLevel(levels: seq<seq<File>>, out: nat, n: nat, sel: set<nat>, marked: set<nat>,
                       started: bool, lo: Key, hi: Key, ghost closed: set<nat>)
    returns (ok: bool, sel': set<nat>, started': bool, lo': Key, hi': Key)
    requires ValidLevels(levels) && n <= out < |levels| && Done(levels, out, n, sel, marked, started, lo, hi)
    ensures sel <= sel' && SameAfter(levels, sel, sel', out) && forall k :: k in sel' ==> k in sel || Exists(levels, k)
    ensures ok ==> Done(levels, out, n + 1, sel', marked, started', lo', hi')
    ensures ok && !started' ==> lo' == lo && hi' == hi && !started
    ensures NoneAt(levels, sel, n) ==> ok && sel' == sel && started' == started
    ensures ok && started' && (started ==> Anchored(levels, sel, n, lo, hi)) ==> Anchored(levels, sel', n + 1, lo', hi')
    ensures Forced(levels, out, n, sel, started, lo, hi, closed) ==>
              if ok then Forced(levels, out, n + 1, sel', started', lo', hi', closed)
              else !FreeBefore(levels, closed, out + 1, marked)
  {
    ok, sel', started', lo', hi' := true, sel, started, lo, hi;
    var found, first0, first, last := ChooseRun(levels, out, n, sel, closed);
    if !found {
      SkipLevel(levels, out, n, sel, marked, started, lo, hi);
      ForcedSkip(levels, out, n, sel, started, lo, hi, closed);
      if started && Anchored(levels, sel, n, lo, hi) {
        AnchoredMore(levels, sel, sel, n, lo, hi);
      }
      return;
    }
    var files := levels[n];
    if !started {
      lo', hi' := files[first0].smallest, files[first0].largest;
    }
    var sel1;
    ok, sel1 := Include(levels, n, first, last, sel, marked);
    sel' := sel1;
    if !ok {
      return;
    }
    ghost var lo0, hi0 := lo', hi';
    lo', hi' := WidenHull(n, files, first, last, lo', hi');
    if n > 0 {
      StraddleFree(levels, out, n, sel, marked, started, lo, hi, first0, first, last, lo0, hi0);
    }
    ok, sel' := IncludeBelow(levels, if n < 1 then 1 else n, out, lo', hi', sel1, marked);
    started' := true;
    if Forced(levels, out, n, sel, started, lo, hi, closed) {
      ForcedStep(levels, out, n, started, lo, hi, closed, first, last, sel, sel1, sel', lo', hi', marked, ok);
    }
    if ok {
      LevelDone(levels, out, n, marked, started, lo, hi, sel, sel1, sel', first, last, lo', hi');
      if started ==> Anchored(levels, sel, n, lo, hi) {
        AnchoredSelected(levels, n, sel, sel1, sel', started, lo, hi, first, last, lo', hi');
      }
    }
  }

  lemma ForcedSkip(levels: seq<seq<File>>, out: nat, n: nat, sel: set<nat>, started: bool, lo: Key, hi: Key, closed: set<nat>)
    requires out < |levels|
    ensures Forced(levels, out, n, sel, started, lo, hi, closed) ==> Forced(levels, out, n + 1, sel, started, lo, hi, closed)
  {
    if Forced(levels, out, n, sel, started, lo, hi, closed) && started {
      AnchoredMore(levels, closed, closed, n, lo, hi);
    }
  }

  /** Below level 0 no file of the level sticks out of the widened interval. */
  lemma StraddleFree(levels: seq<seq<File>>, out: nat, n: nat, sel: set<nat>, marked: set<nat>, started: bool,
                     lo: Key, hi: Key, first0: nat, first: nat, last: nat, lo0: Key, hi0: Key)
    requires ValidLevels(levels) && 0 < n <= out < |levels| && Done(levels, out, n, sel, marked, started, lo, hi)
    requires first <= first0 <= last < |levels[n]| && Clean(levels[n], first, last + 1)
    requires forall i :: Selected(levels, sel, n, i) ==> first <= i <= last
    requires if started then lo0 == lo && hi0 == hi
             else lo0 == levels[n][first0].smallest && hi0 == levels[n][first0].largest
    ensures var lo', hi' := Min(lo0, levels[n][first].smallest), Max(hi0, levels[n][last].largest);
            forall i :: 0 <= i < |levels[n]| && Overlaps(levels[n][i], lo', hi') ==> Within(levels[n][i], lo', hi')
  {
    var files := levels[n];
    forall i | 0 <= i < |files|
      ensures var lo', hi' := Min(lo0, files[first].smallest), Max(hi0, files[last].largest);
              Overlaps(files[i], lo', hi') ==> Within(files[i], lo', hi')
    {
      if started {
        assert Covered(levels, sel, n, lo, hi);
        assert Overlaps(files[i], lo, hi) ==> Selected(levels, sel, n, i);
      } else {
        CleanSeparates(files, first, last + 1, i);
        assert first < first0 ==> files[first].largest <= files[first0].smallest;
        assert first0 < last ==> files[first0].largest <= files[last].smallest;
      }
      HullStays(files, first, last, lo0, hi0, i);
    }
  }

  /** No running compaction into the level overlaps the hull of the files selected on levels 0..out. */
  ghost predicate ClearOfRunning(levels: seq<seq<File>>, sel: set<nat>, out: nat, running: set<Compaction>) {
    forall c, l, i, m, j ::
      c in running && c.outputLevel == out && l <= out && m <= out && Selected(levels, sel, l, i) && Selected(levels, sel, m, j)
      ==> c.largest < levels[l][i].smallest || levels[m][j].largest < c.smallest
  }

  /** A file selected on levels 0..out overlaps a running compaction, or lies around it together with another. */
  lemma AnchorsOverlap(levels: seq<seq<File>>, sel: set<nat>, out: nat, running: set<Compaction>, lo: Key, hi: Key)
    requires Anchored(levels, sel, out + 1, lo, hi) && OverlapsRunning(running, lo, hi, out)
    ensures !ClearOfRunning(levels, sel, out, running)
  {
    var c :| c in running && c.outputLevel == out && lo <= c.largest && hi >= c.smallest;
    var l, i :| l < out + 1 && Selected(levels, sel, l, i) && levels[l][i].smallest == lo;
    var m, j :| m < out + 1 && Selected(levels, sel, m, j) && levels[m][j].largest == hi;
    assert !(c.largest < levels[l][i].smallest || levels[m][j].largest < c.smallest);
  }

  /** A compaction writes into the range of the selection, or over the empty key if nothing down to out was given. */
  ghost predicate RangeTaken(levels: seq<seq<File>>, input: set<nat>, sel: set<nat>, out: nat, running: set<Compaction>,
                             emptyKey: Key) {
    if NoneBefore(levels, input, out + 1) then OverlapsRunning(running, emptyKey, emptyKey, out)
    else !ClearOfRunning(levels, sel, out, running)
  }

  lemma RangeTakenMore(levels: seq<seq<File>>, input: set<nat>, sel: set<nat>, closed: set<nat>, out: nat,
                       running: set<Compaction>, emptyKey: Key)
    requires Sub(levels, sel, closed) && RangeTaken(levels, input, sel, out, running, emptyKey)
    ensures RangeTaken(levels, input, closed, out, running, emptyKey)
  {
    if !NoneBefore(levels, input, out + 1) {
      var c, l, i, m, j :| c in running && c.outputLevel == out && l <= out && m <= out
                           && Selected(levels, sel, l, i) && Selected(levels, sel, m, j)
                           && !(c.largest < levels[l][i].smallest || levels[m][j].largest < c.smallest);
      assert Selected(levels, closed, l, i) && Selected(levels, closed, m, j);
    }
  }

  /**
   * SanitizeCompactionInputFilesForAllLevels. When it succeeds the selection has grown to the least
   * closed one, none of it is being compacted, and no compaction writes into its range of the output level.
   */
  method SanitizeForAllLevels(levels: seq<seq<File>>, input: set<nat>, out: nat, marked: set<nat>,
                              running: set<Compaction>, emptyKey: Key, ghost closed: set<nat>)
    returns (status: Status, sel: set<nat>)
    requires ValidLevels(levels) && out < |levels|
    ensures input <= sel && SameAfter(levels, input, sel, out) && forall n :: n in sel ==> n in input || Exists(levels, n)
    ensures !status.InvalidArgument?
    ensures status != FileBusy ==> ClosedSelection(levels, sel, out) && FreeBefore(levels, sel, out + 1, marked)
    ensures status == OK ==> ClearOfRunning(levels, sel, out, running)
    ensures status == RangeBusy ==> RangeTaken(levels, input, sel, out, running, emptyKey)
    ensures NoneBefore(levels, input, out + 1) ==> sel == input
    ensures ClosedSelection(levels, closed, out) && Sub(levels, input, closed) ==>
              if status == FileBusy then !FreeBefore(levels, closed, out + 1, marked) else Sub(levels, sel, closed)
  {
    var started, lo, hi := false, emptyKey, emptyKey;
    sel := input;
    for l := 0 to out + 1
      invariant input <= sel && SameAfter(levels, input, sel, out) && Done(levels, out, l, sel, marked, started, lo, hi)
      invariant forall n :: n in sel ==> n in input || Exists(levels, n)
      invariant if started then Anchored(levels, sel, l, lo, hi) else lo == hi == emptyKey
      invariant NoneBefore(levels, input, out + 1) ==> sel == input && !started
      invariant ClosedSelection(levels, closed, out) && Sub(levels, input, closed) ==>
                  Forced(levels, out, l, sel, started, lo, hi, closed)
    {
      var ok;
      ok, sel, started, lo, hi := SanitizeLevel(levels, out, l, sel, marked, started, lo, hi, closed);
      if !ok {
        return FileBusy, sel;
      }
    }
    if OverlapsRunning(running, lo, hi, out) {
      if started {
        AnchorsOverlap(levels, sel, out, running, lo, hi);
      } else {
        NoneGiven(levels, input, sel, out + 1);
      }
      return RangeBusy, sel;
    }
    status := OK;
  }

  // ---- The checks around it

  method FindFile(levels: seq<seq<File>>, n: nat) returns (found: bool, l: nat, i: nat)
    ensures found <==> Exists(levels, n)
    ensures found ==> IsFile(levels, l, i) && levels[l][i].number == n
  {
    found, l := false, 0;
    while l < |levels|
      invariant l <= |levels| && forall k, j :: k < l && IsFile(levels, k, j) ==> levels[k][j].number != n
    {
      i := 0;
      while i < |levels[l]|
        invariant i <= |levels[l]| && forall j :: 0 <= j < i ==> levels[l][j].number != n
      {
        if levels[l][i].number == n {
          assert IsFile(levels, l, i);
          return true, l, i;
        }
        i := i + 1;
      }
      l := l + 1;
    }
    i := 0;
  }

  ghost predicate AllFree(levels: seq<seq<File>>, sel: set<nat>, marked: set<nat>) {
    forall l, i :: Selected(levels, sel, l, i) ==> levels[l][i].number !in marked
  }

  /** Each number belongs to a file, and that file is not being compacted. */
  method CheckFiles(levels: seq<seq<File>>, sel: set<nat>, marked: set<nat>) returns (status: Status)
    ensures status == OK ==> forall n :: n in sel ==> n !in marked && Exists(levels, n)
    ensures status == InvalidArgument ==> exists n :: n in sel && !Exists(levels, n)
    ensures status == FileBusy ==> !AllFree(levels, sel, marked)
    ensures status != RangeBusy
  {
    var rest := sel;
    while rest != {}
      invariant rest <= sel && forall n :: n in sel - rest ==> n !in marked && Exists(levels, n)
    {
      var n :| n in rest;
      var found, l, i := FindFile(levels, n);
      if !found {
        return InvalidArgument;
      }
      if levels[l][i].number in marked {
        assert Selected(levels, sel, l, i);
        return FileBusy;
      }
      rest := rest - {n};
    }
    status := OK;
  }

  /** What the source turns away before it looks at any file. */
  predicate BadRequest(levels: seq<seq<File>>, input: set<nat>, out: int, maxOut: int) {
    out >= |levels| || out > maxOut || out < 0 || input == {}
  }

  /** SanitizeCompactionInputFiles, for all its outcomes. */
  method SanitizeInputFiles(levels: seq<seq<File>>, input: set<nat>, out: int, maxOut: int, marked: set<nat>,
                            running: set<Compaction>, emptyKey: Key, ghost closed: set<nat>)
    returns (status: Status, sel: set<nat>)
    requires ValidLevels(levels)
    ensures BadRequest(levels, input, out, maxOut) ==> status == InvalidArgument
    ensures status == InvalidArgument ==>
              BadRequest(levels, input, out, maxOut) || exists n :: n in input && !Exists(levels, n)
    ensures status == OK ==>
              && input <= sel && SameAfter(levels, input, sel, out) && ClosedSelection(levels, sel, out)
              && ClearOfRunning(levels, sel, out, running) && (NoneBefore(levels, input, out + 1) ==> sel == input)
              && forall n :: n in sel ==> n !in marked && Exists(levels, n)
    ensures !BadRequest(levels, input, out, maxOut) && ClosedSelection(levels, closed, out) && Sub(levels, input, closed) ==>
              && (status == FileBusy ==> !AllFree(levels, closed, marked))
              && (status == RangeBusy ==> RangeTaken(levels, input, closed, out, running, emptyKey))
              && (status == OK ==> Sub(levels, sel, closed))
  {
    sel := input;
    if out >= |levels| || out > maxOut || out < 0 || input == {} {
      return InvalidArgument, sel;
    }
    status, sel := SanitizeForAllLevels(levels, input, out, marked, running, emptyKey, closed);
    if status != OK {
      if status == RangeBusy && Sub(levels, sel, closed) {
        RangeTakenMore(levels, input, sel, closed, out, running, emptyKey);
      }
      return;
    }
    status := CheckFiles(levels, sel, marked);
  }
}
