/** How the picker completes the inputs of a compaction between two levels. */
module CompactionInputs {
  import opened Records
  import opened LevelFiles

  /** Files chosen on one level: consecutive ones below level 0, any on level 0. */
  datatype Selection = Span(a: nat, b: nat) | Picked(files: seq<File>)
  {
    predicate Of(level: nat, files: seq<File>) {
      if level == 0 then Picked? && forall f :: f in this.files ==> f in files
      else Span? && a <= b <= |files|
    }

    function In(files: seq<File>): seq<File> {
      if Picked? then this.files else if a <= b <= |files| then files[a..b] else []
    }

    /** Below level 0, a clean cut. */
    predicate CleanIn(level: nat, files: seq<File>) {
      level > 0 ==> Span? && Clean(files, a, b)
    }
  }

  predicate ValidLevel(level: nat, files: seq<File>) {
    Nonempty(files) && (level > 0 ==> SortedLevel(files))
  }

  predicate InCompaction(marked: set<nat>, files: seq<File>) {
    exists f :: f in files && f.number in marked
  }

  /** The interval from the smallest to the largest key of some files. */
  predicate Spans(files: seq<File>, lo: Key, hi: Key) {
    && (forall f :: f in files ==> Within(f, lo, hi))
    && (exists f :: f in files && f.smallest == lo)
    && (exists f :: f in files && f.largest == hi)
  }

  lemma SpansMore(files: seq<File>, more: seq<File>, lo: Key, hi: Key, lo': Key, hi': Key)
    requires Spans(files, lo, hi) && Spans(more, lo', hi') && forall f :: f in files ==> f in more
    ensures lo' <= lo && hi <= hi'
  {
  }

  method GetRange(level: nat, files: seq<File>, sel: Selection) returns (lo: Key, hi: Key)
    requires ValidLevel(level, files) && sel.Of(level, files) && sel.In(files) != []
    ensures Spans(sel.In(files), lo, hi) && lo <= hi
  {
    var s := sel.In(files);
    if level == 0 {
      SelectionNonempty(level, files, sel);
      lo, hi := FullRange(s);
    } else {
      lo, hi := s[0].smallest, s[|s| - 1].largest;
      SpanEnds(files, sel.a, sel.b);
    }
  }

  method FullRange(s: seq<File>) returns (lo: Key, hi: Key)
    requires s != [] && Nonempty(s)
    ensures Spans(s, lo, hi) && lo <= hi
  {
    lo, hi := s[0].smallest, s[0].largest;
    for i := 1 to |s|
      invariant Spans(s[..i], lo, hi) && lo <= hi
    {
      assert s[..i + 1] == s[..i] + [s[i]];
      SpansStep(s[..i], s[i], lo, hi);
      lo, hi := if s[i].smallest < lo then s[i].smallest else lo, if s[i].largest > hi then s[i].largest else hi;
    }
    assert s[..|s|] == s;
  }

  lemma SpansStep(files: seq<File>, f: File, lo: Key, hi: Key)
    requires Spans(files, lo, hi) && f.smallest <= f.largest
    ensures Spans(files + [f], if f.smallest < lo then f.smallest else lo, if f.largest > hi then f.largest else hi)
  {
    var more := files + [f];
    assert more[|files|] == f;
    var p :| p in files && p.smallest == lo;
    var q :| q in files && q.largest == hi;
    assert p in more && q in more;
  }

  lemma {:induction false} SpanOf(files: seq<File>) returns (lo: Key, hi: Key)
    requires files != [] && Nonempty(files)
    ensures Spans(files, lo, hi)
  {
    var n := |files| - 1;
    var rest, last := files[..n], files[n];
    assert files == rest + [last] && last in files;
    if n == 0 {
      lo, hi := last.smallest, last.largest;
    } else {
      assert forall f :: f in rest ==> f in files;
      lo, hi := SpanOf(rest);
      SpansStep(rest, last, lo, hi);
      lo, hi := if last.smallest < lo then last.smallest else lo, if last.largest > hi then last.largest else hi;
    }
  }

  lemma SpanEnds(files: seq<File>, a: nat, b: nat)
    requires SortedLevel(files) && a < b <= |files|
    ensures Spans(files[a..b], files[a].smallest, files[b - 1].largest)
    ensures files[a].smallest <= files[b - 1].largest
  {
    var s := files[a..b];
    assert s[0] == files[a] && s[b - a - 1] == files[b - 1];
    forall f | f in s ensures Within(f, files[a].smallest, files[b - 1].largest) {
      var i :| 0 <= i < b - a && s[i] == f;
      assert f == files[a + i];
    }
  }

  /** None of the files left out overlaps a chosen one. */
  ghost predicate Detached(files: seq<File>, chosen: seq<File>) {
    forall f, g :: f in files && f !in chosen && g in chosen ==> !Overlaps(f, g.smallest, g.largest)
  }

  lemma OutsideSpan(files: seq<File>, a: nat, b: nat, i: nat)
    requires a <= b <= |files| && i < |files| && files[i] !in files[a..b]
    ensures !(a <= i < b)
  {
  }

  lemma CleanDetached(files: seq<File>, a: nat, b: nat)
    requires SortedLevel(files) && Clean(files, a, b)
    ensures Detached(files, files[a..b])
  {
    SpanEnds(files, a, b);
    forall f, g | f in files && f !in files[a..b] && g in files[a..b] ensures !Overlaps(f, g.smallest, g.largest) {
      var i :| 0 <= i < |files| && files[i] == f;
      OutsideSpan(files, a, b, i);
      CleanSeparates(files, a, b, i);
    }
  }

  /** All files of the narrowest interval around [lo, hi] that no file crosses the border of. */
  ghost predicate Closure(files: seq<File>, lo: Key, hi: Key, taken: seq<File>) {
    exists p, q :: NarrowestClosed(files, lo, hi, p, q) && forall f :: f in taken <==> f in files && Overlaps(f, p, q)
  }

  ghost predicate NarrowestClosed(files: seq<File>, lo: Key, hi: Key, p: Key, q: Key) {
    && p <= lo && hi <= q && ClosedInterval(files, p, q)
    && forall x, y :: x <= lo && hi <= y && ClosedInterval(files, x, y) ==> x <= p && q <= y
  }

  /** GetOverlappingInputs on any level. */
  method GetOverlapping(level: nat, files: seq<File>, lo: Key, hi: Key) returns (sel: Selection)
    requires ValidLevel(level, files)
    ensures sel.Of(level, files)
    ensures forall f :: f in files && Overlaps(f, lo, hi) ==> f in sel.In(files)
    ensures level == 0 ==> Detached(files, sel.In(files)) && Closure(files, lo, hi, sel.In(files))
    ensures level > 0 ==> forall i :: 0 <= i < |files| ==> (sel.a <= i < sel.b <==> Overlaps(files[i], lo, hi))
  {
    if level == 0 {
      var taken;
      ghost var p, q;
      taken, p, q := OverlappingL0(files, lo, hi);
      sel := Picked(taken);
      assert NarrowestClosed(files, lo, hi, p, q);
    } else {
      var a, b, _ := OverlappingRange(files, lo, hi, None);
      sel := Span(a, b);
      forall f | f in files && Overlaps(f, lo, hi) ensures f in files[a..b] {
        var i :| 0 <= i < |files| && files[i] == f;
        assert files[a..b][i - a] == f;
      }
    }
  }

  /** ExpandInputsToCleanCut, with whether none of the files is being compacted; level 0 needs no cut. */
  method ExpandToCleanCut(level: nat, files: seq<File>, sel: Selection, marked: set<nat>)
    returns (sel': Selection, ok: bool)
    requires ValidLevel(level, files) && sel.Of(level, files) && sel.In(files) != []
    ensures sel'.Of(level, files) && sel'.CleanIn(level, files)
    ensures level == 0 ==> sel' == sel && ok
    ensures level > 0 ==>
              && sel'.a <= sel.a && sel.b <= sel'.b
              && (forall c: nat, d: nat :: c <= sel.a && sel.b <= d && Clean(files, c, d) ==> c <= sel'.a && sel'.b <= d)
              && (ok <==> !InCompaction(marked, sel'.In(files)))
    ensures forall f :: f in sel.In(files) ==> f in sel'.In(files)
  {
    if level == 0 {
      return sel, true;
    }
    var x, y := CleanCut(files, sel.a, sel.b);
    sel' := Span(x, y);
    ok := !InCompaction(marked, sel'.In(files));
    WiderSpan(files, sel, sel');
  }

  lemma WiderSpan(files: seq<File>, s: Selection, t: Selection)
    requires s.Span? && t.Span? && t.a <= s.a <= s.b <= t.b <= |files|
    ensures forall f :: f in s.In(files) ==> f in t.In(files)
  {
    forall f | f in s.In(files) ensures f in t.In(files) {
      var i :| 0 <= i < s.b - s.a && s.In(files)[i] == f;
      assert t.In(files)[s.a + i - t.a] == f;
    }
  }

  /** Files outside a clean cut around everything that overlaps the inputs do not overlap the two together. */
  lemma HullSeparates(files: seq<File>, c: nat, d: nat, lo: Key, hi: Key, i: nat, k: nat)
    requires SortedLevel(files) && Clean(files, c, d) && i < |files| && !(c <= i < d) && c <= k < d && lo <= hi
    requires Overlaps(files[k], lo, hi) && !Overlaps(files[i], lo, hi)
    ensures var lo' := if files[c].smallest < lo then files[c].smallest else lo;
            var hi' := if files[d - 1].largest > hi then files[d - 1].largest else hi;
            !Overlaps(files[i], lo', hi')
  {
    CleanSeparates(files, c, d, i);
    if i < c {
      assert files[i].largest <= files[k].smallest;
    } else {
      assert files[k].largest <= files[i].smallest;
    }
  }

  /** What SetupOtherInputs promises: no file left out of the output level overlaps the final inputs. */
  ghost predicate Separated(out: seq<File>, c: nat, d: nat, inputs: seq<File>) {
    forall lo, hi, i :: Spans(inputs, lo, hi) && 0 <= i < |out| && !(c <= i < d) ==> !Overlaps(out[i], lo, hi)
  }

  lemma SpansUnique(files: seq<File>, lo: Key, hi: Key, lo': Key, hi': Key)
    requires Spans(files, lo, hi) && Spans(files, lo', hi')
    ensures lo == lo' && hi == hi'
  {
  }

  lemma SeparatedBy(out: seq<File>, c: nat, d: nat, inputs: seq<File>, lo: Key, hi: Key)
    requires Spans(inputs, lo, hi) && forall i :: 0 <= i < |out| && !(c <= i < d) ==> !Overlaps(out[i], lo, hi)
    ensures Separated(out, c, d, inputs)
  {
    forall p, q, i | Spans(inputs, p, q) && 0 <= i < |out| && !(c <= i < d) ensures !Overlaps(out[i], p, q) {
      SpansUnique(inputs, lo, hi, p, q);
    }
  }

  /** Some of the files c..d overlap the span of the inputs. */
  ghost predicate Touches(out: seq<File>, c: nat, d: nat, inputs: seq<File>) {
    exists lo, hi, k :: Spans(inputs, lo, hi) && c <= k < d <= |out| && Overlaps(out[k], lo, hi)
  }

  lemma TouchesMore(out: seq<File>, c: nat, d: nat, inputs: seq<File>, more: seq<File>)
    requires Touches(out, c, d, inputs) && (forall f :: f in inputs ==> f in more) && more != [] && Nonempty(more)
    ensures Touches(out, c, d, more)
  {
    var lo, hi, k :| Spans(inputs, lo, hi) && c <= k < d <= |out| && Overlaps(out[k], lo, hi);
    var lo', hi' := SpanOf(more);
    SpansMore(inputs, more, lo, hi, lo', hi');
    assert Overlaps(out[k], lo', hi');
  }

  /** The files c..d of the output level are the narrowest clean cut around those that overlap [lo, hi]. */
  ghost predicate CutAround(out: seq<File>, c: nat, d: nat, lo: Key, hi: Key) {
    && Clean(out, c, d)
    && (forall i :: 0 <= i < |out| && Overlaps(out[i], lo, hi) ==> c <= i < d)
    && (exists k :: c <= k < d && Overlaps(out[k], lo, hi))
    && (forall x: nat, y: nat :: Clean(out, x, y) && Covers(out, x, y, lo, hi) ==> x <= c && d <= y)
  }

  predicate Covers(out: seq<File>, x: nat, y: nat, lo: Key, hi: Key) {
    forall i :: 0 <= i < |out| && Overlaps(out[i], lo, hi) ==> x <= i < y
  }

  /** A selection of exactly the files that overlap the interval. */
  predicate Exactly(out: seq<File>, a: nat, b: nat, lo: Key, hi: Key) {
    forall i :: 0 <= i < |out| ==> (a <= i < b <==> Overlaps(out[i], lo, hi))
  }

  ghost predicate NarrowestCut(out: seq<File>, a: nat, b: nat, c: nat, d: nat) {
    && c <= a && b <= d && Clean(out, c, d)
    && forall x: nat, y: nat :: x <= a && b <= y && Clean(out, x, y) ==> x <= c && d <= y
  }

  lemma NarrowestIsAround(out: seq<File>, a: nat, b: nat, c: nat, d: nat, lo: Key, hi: Key)
    requires a < b <= |out| && Exactly(out, a, b, lo, hi) && NarrowestCut(out, a, b, c, d)
    ensures CutAround(out, c, d, lo, hi)
  {
    assert Overlaps(out[a], lo, hi) && Overlaps(out[b - 1], lo, hi);
  }

  /** None of the files in the narrowest clean cut around what overlaps [lo, hi] is being compacted. */
  ghost predicate CutFree(out: seq<File>, lo: Key, hi: Key, marked: set<nat>) {
    forall c: nat, d: nat :: CutAround(out, c, d, lo, hi) ==> !InCompaction(marked, out[c..d])
  }

  /** There is one such cut at most. */
  lemma CutDecides(out: seq<File>, c: nat, d: nat, lo: Key, hi: Key, marked: set<nat>)
    requires CutAround(out, c, d, lo, hi)
    ensures CutFree(out, lo, hi, marked) <==> !InCompaction(marked, out[c..d])
  {
    forall c': nat, d': nat | CutAround(out, c', d', lo, hi) ensures c' == c && d' == d {
      assert Covers(out, c, d, lo, hi) && Covers(out, c', d', lo, hi);
    }
  }

  /** The same for the range of some start files. */
  ghost predicate OutputFree(out: seq<File>, start: seq<File>, marked: set<nat>) {
    forall lo, hi :: Spans(start, lo, hi) ==> CutFree(out, lo, hi, marked)
  }

  /** The files c..d are the narrowest clean cut around what the start files overlap, or none if they overlap nothing. */
  ghost predicate IsOutputCut(out: seq<File>, start: seq<File>, c: nat, d: nat) {
    exists lo, hi :: Spans(start, lo, hi) &&
      if c < d then CutAround(out, c, d, lo, hi) else forall i :: 0 <= i < |out| ==> !Overlaps(out[i], lo, hi)
  }

  lemma OneRange(out: seq<File>, start: seq<File>, lo: Key, hi: Key, marked: set<nat>)
    requires Spans(start, lo, hi)
    ensures OutputFree(out, start, marked) <==> CutFree(out, lo, hi, marked)
  {
    forall lo', hi' | Spans(start, lo', hi') ensures lo' == lo && hi' == hi {
      SpansUnique(start, lo, hi, lo', hi');
    }
  }

  lemma NothingToCut(out: seq<File>, lo: Key, hi: Key, marked: set<nat>)
    requires forall i :: 0 <= i < |out| ==> !Overlaps(out[i], lo, hi)
    ensures CutFree(out, lo, hi, marked)
  {
  }

  /** The cut has all the files it is made around. */
  lemma CutHas(out: seq<File>, a: nat, b: nat, c: nat, d: nat, marked: set<nat>)
    requires c <= a <= b <= d <= |out| && InCompaction(marked, out[a..b])
    ensures InCompaction(marked, out[c..d])
  {
    var f :| f in out[a..b] && f.number in marked;
    var i :| 0 <= i < b - a && out[a..b][i] == f;
    assert out[c..d][a - c + i] == f;
  }

  lemma {:induction false} CutExists(files: seq<File>, a: nat, b: nat) returns (c: nat, d: nat)
    requires SortedLevel(files) && a < b <= |files|
    ensures NarrowestCut(files, a, b, c, d)
    decreases |files| - (b - a)
  {
    if a > 0 && files[a - 1].largest >= files[a].smallest {
      c, d := CutExists(files, a - 1, b);
      CutWider(files, a, b, a - 1, b, c, d);
    } else if b < |files| && files[b - 1].largest >= files[b].smallest {
      c, d := CutExists(files, a, b + 1);
      CutWider(files, a, b, a, b + 1, c, d);
    } else {
      c, d := a, b;
    }
  }

  /** A cut between two files that share a key is not clean, so that both are in it or neither. */
  lemma CutWider(files: seq<File>, a: nat, b: nat, a': nat, b': nat, c: nat, d: nat)
    requires a < b <= |files| && NarrowestCut(files, a', b', c, d)
    requires || (0 < a && a' == a - 1 && b' == b && files[a - 1].largest >= files[a].smallest)
             || (b < |files| && a' == a && b' == b + 1 && files[b - 1].largest >= files[b].smallest)
    ensures NarrowestCut(files, a, b, c, d)
  {
    forall x: nat, y: nat | x <= a && b <= y && Clean(files, x, y) ensures x <= c && d <= y {
      assert x <= a' && b' <= y;
    }
  }

  lemma CutTaken(out: seq<File>, a: nat, b: nat, lo: Key, hi: Key, marked: set<nat>)
    requires SortedLevel(out) && a < b <= |out| && Exactly(out, a, b, lo, hi) && InCompaction(marked, out[a..b])
    ensures !CutFree(out, lo, hi, marked)
  {
    var c, d := CutExists(out, a, b);
    NarrowestIsAround(out, a, b, c, d, lo, hi);
    CutHas(out, a, b, c, d, marked);
    CutDecides(out, c, d, lo, hi, marked);
  }

  /** The output level's files for a start range: none, or the narrowest clean cut; false exactly if some are taken. */
  method OutputCut(out: seq<File>, marked: set<nat>, lo: Key, hi: Key) returns (c: nat, d: nat, ok: bool)
    requires ValidLevel(1, out)
    ensures c <= d <= |out|
    ensures c == d ==> forall i :: 0 <= i < |out| ==> !Overlaps(out[i], lo, hi)
    ensures c < d && ok ==> CutAround(out, c, d, lo, hi)
    ensures ok ==> !InCompaction(marked, out[c..d])
    ensures ok <==> CutFree(out, lo, hi, marked)
  {
    var sel := GetOverlapping(1, out, lo, hi);
    assert Exactly(out, sel.a, sel.b, lo, hi);
    c, d, ok := sel.a, sel.b, true;
    if c == d {
      NothingToCut(out, lo, hi, marked);
    }
    if InCompaction(marked, sel.In(out)) {
      ok := false;
      CutTaken(out, sel.a, sel.b, lo, hi, marked);
    } else if c < d {
      var cut;
      cut, ok := ExpandToCleanCut(1, out, sel, marked);
      NarrowestIsAround(out, sel.a, sel.b, cut.a, cut.b, lo, hi);
      CutDecides(out, cut.a, cut.b, lo, hi, marked);
      c, d := cut.a, cut.b;
    }
  }

  /** The hull of the start inputs and the output inputs meets nothing else on the output level. */
  lemma HullCut(out: seq<File>, c: nat, d: nat, lo: Key, hi: Key, lo': Key, hi': Key)
    requires SortedLevel(out) && CutAround(out, c, d, lo, hi) && lo <= hi
    requires lo' == if out[c].smallest < lo then out[c].smallest else lo
    requires hi' == if out[d - 1].largest > hi then out[d - 1].largest else hi
    ensures forall i :: 0 <= i < |out| && !(c <= i < d) ==> !Overlaps(out[i], lo', hi')
  {
    var k :| c <= k < d && Overlaps(out[k], lo, hi);
    forall i | 0 <= i < |out| && !(c <= i < d) ensures !Overlaps(out[i], lo', hi') {
      HullSeparates(out, c, d, lo, hi, i, k);
    }
  }

  /** Widening the start range without adding an output file adds none at all. */
  lemma SameCut(out: seq<File>, c: nat, d: nat, lo: Key, hi: Key, c': nat, d': nat, lo': Key, hi': Key)
    requires CutAround(out, c, d, lo, hi) && CutAround(out, c', d', lo', hi') && lo' <= lo && hi <= hi'
    requires d' - c' == d - c
    ensures c' == c && d' == d
  {
    assert forall i :: 0 <= i < |out| && Overlaps(out[i], lo, hi) ==> Overlaps(out[i], lo', hi');
    assert Covers(out, c', d', lo, hi);
  }

  /** What the chosen start inputs keep when they grow. */
  ghost predicate Grown(level: nat, files: seq<File>, inputs: Selection, inputs': Selection, marked: set<nat>) {
    && inputs'.Of(level, files) && inputs'.In(files) != []
    && (inputs' == inputs || (!InCompaction(marked, inputs'.In(files)) && (level == 0 ==> Detached(files, inputs'.In(files)))))
    && (inputs.CleanIn(level, files) ==>
          inputs'.CleanIn(level, files) && forall f :: f in inputs.In(files) ==> f in inputs'.In(files))
  }

  /** The limits on growing: more files, within the byte limit, none of them taken. */
  predicate Affordable(files: seq<File>, n: nat, size: nat, outSize: nat, limit: nat, marked: set<nat>) {
    |files| > n && outSize + size < limit && !InCompaction(marked, files)
  }

  /** The clean cut x..y around all start files that overlap the hull; it must need just the same output files. */
  ghost predicate Across(files: seq<File>, out: seq<File>, marked: set<nat>, n: nat, c: nat, d: nat,
                         lo: Key, hi: Key, limit: nat, x: nat, y: nat) {
    exists a: nat, b: nat :: AcrossFrom(files, out, marked, n, c, d, lo, hi, limit, a, b, x, y)
  }

  ghost predicate AcrossFrom(files: seq<File>, out: seq<File>, marked: set<nat>, n: nat, c: nat, d: nat,
                             lo: Key, hi: Key, limit: nat, a: nat, b: nat, x: nat, y: nat) {
    && Spread(files, lo, hi, a, b, x, y) && c <= d <= |out|
    && Affordable(files[x..y], n, SizeOf(files[a..b]), SizeOf(out[c..d]), limit, marked)
    && NeedsSame(files, out, c, d, x, y)
  }

  /** The files x..y are the narrowest clean cut around a..b, which are just those that overlap the interval. */
  ghost predicate Spread(files: seq<File>, lo: Key, hi: Key, a: nat, b: nat, x: nat, y: nat) {
    a < b <= |files| && Exactly(files, a, b, lo, hi) && NarrowestCut(files, a, b, x, y)
  }

  /** The start files x..y need just the files c..d of the output level. */
  ghost predicate NeedsSame(files: seq<File>, out: seq<File>, c: nat, d: nat, x: nat, y: nat) {
    x < y <= |files| && CutAround(out, c, d, files[x].smallest, files[y - 1].largest)
  }

  /** The widest clean run of start files inside the hull. */
  ghost predicate WidestInside(files: seq<File>, lo: Key, hi: Key, a: nat, b: nat) {
    && Clean(files, a, b) && (forall i :: a <= i < b ==> Within(files[i], lo, hi))
    && forall x: nat, y: nat :: CleanInside(files, x, y, lo, hi) ==> a <= x && y <= b
  }

  ghost predicate Inside(files: seq<File>, out: seq<File>, marked: set<nat>, n: nat, c: nat, d: nat,
                         lo: Key, hi: Key, limit: nat, a: nat, b: nat) {
    && WidestInside(files, lo, hi, a, b) && c <= d <= |out|
    && Affordable(files[a..b], n, SizeOf(files[a..b]), SizeOf(out[c..d]), limit, marked)
  }

  /** Below level 0: the inputs grow across the hull if they can, else inside it if they can, else not. */
  ghost predicate GrownTo(files: seq<File>, out: seq<File>, marked: set<nat>, inputs: Selection, c: nat, d: nat,
                          lo: Key, hi: Key, limit: nat, inputs': Selection)
    requires inputs.Span? && inputs'.Span?
  {
    var n := |inputs.In(files)|;
    if !NoneGrowsAcross(files, out, marked, n, c, d, lo, hi, limit)
    then Across(files, out, marked, n, c, d, lo, hi, limit, inputs'.a, inputs'.b)
    else if !NoneGrowsInside(files, out, marked, n, c, d, lo, hi, limit)
    then Inside(files, out, marked, n, c, d, lo, hi, limit, inputs'.a, inputs'.b)
    else inputs' == inputs
  }

  ghost predicate NoneGrowsAcross(files: seq<File>, out: seq<File>, marked: set<nat>, n: nat, c: nat, d: nat,
                             lo: Key, hi: Key, limit: nat) {
    forall x: nat, y: nat :: !Across(files, out, marked, n, c, d, lo, hi, limit, x, y)
  }

  ghost predicate NoneGrowsInside(files: seq<File>, out: seq<File>, marked: set<nat>, n: nat, c: nat, d: nat,
                             lo: Key, hi: Key, limit: nat) {
    forall x: nat, y: nat :: !Inside(files, out, marked, n, c, d, lo, hi, limit, x, y)
  }

  lemma ExactlyUnique(files: seq<File>, a: nat, b: nat, a': nat, b': nat, lo: Key, hi: Key)
    requires a < b <= |files| && a' < b' <= |files| && Exactly(files, a, b, lo, hi) && Exactly(files, a', b', lo, hi)
    ensures a == a' && b == b'
  {
    assert Overlaps(files[a], lo, hi) && Overlaps(files[b - 1], lo, hi);
    assert Overlaps(files[a'], lo, hi) && Overlaps(files[b' - 1], lo, hi);
  }

  /** There is one way to grow across, if any. */
  lemma AcrossDecides(files: seq<File>, out: seq<File>, marked: set<nat>, n: nat, c: nat, d: nat,
                      lo: Key, hi: Key, limit: nat, a: nat, b: nat, x: nat, y: nat)
    requires Spread(files, lo, hi, a, b, x, y)
    ensures if AcrossFrom(files, out, marked, n, c, d, lo, hi, limit, a, b, x, y)
            then Across(files, out, marked, n, c, d, lo, hi, limit, x, y)
            else NoneGrowsAcross(files, out, marked, n, c, d, lo, hi, limit)
  {
    forall x': nat, y': nat | Across(files, out, marked, n, c, d, lo, hi, limit, x', y')
      ensures AcrossFrom(files, out, marked, n, c, d, lo, hi, limit, a, b, x, y)
    {
      var a': nat, b': nat :| AcrossFrom(files, out, marked, n, c, d, lo, hi, limit, a', b', x', y');
      ExactlyUnique(files, a, b, a', b', lo, hi);
    }
  }

  /** And one way to grow inside. */
  lemma InsideIs(files: seq<File>, lo: Key, hi: Key, a: nat, b: nat, x: nat, y: nat)
    requires WidestInside(files, lo, hi, x, y) && forall c: nat, d: nat :: CleanInside(files, c, d, lo, hi) ==> a <= c && d <= b
    requires a < b ==> Clean(files, a, b) && forall i :: a <= i < b ==> Within(files[i], lo, hi)
    ensures a == x && b == y
  {
    assert CleanInside(files, x, y, lo, hi);
    assert CleanInside(files, a, b, lo, hi);
  }

  /** The start-level files that overlap the hull, cut clean, with their size before the cut. */
  method ChooseAcross(level: nat, files: seq<File>, marked: set<nat>, inputs: Selection,
                      ghost lo: Key, ghost hi: Key, allLo: Key, allHi: Key)
    returns (inputs': Selection, size: nat, ok: bool, ghost sel: Selection)
    requires ValidLevel(level, files) && inputs.Of(level, files) && inputs.In(files) != []
    requires Spans(inputs.In(files), lo, hi) && allLo <= lo <= hi <= allHi
    ensures inputs'.Of(level, files) && inputs'.In(files) != [] && inputs'.CleanIn(level, files)
    ensures level == 0 ==> Detached(files, inputs'.In(files))
    ensures forall f :: f in inputs.In(files) ==> f in inputs'.In(files)
    ensures level > 0 ==>
              && sel.Span? && Spread(files, allLo, allHi, sel.a, sel.b, inputs'.a, inputs'.b)
              && size == SizeOf(files[sel.a..sel.b]) && (ok <==> !InCompaction(marked, inputs'.In(files)))
  {
    var over := GetOverlapping(level, files, allLo, allHi);
    sel := over;
    forall f | f in inputs.In(files) ensures f in over.In(files) {
      assert f in files && Overlaps(f, allLo, allHi);
    }
    assert inputs.In(files)[0] in over.In(files);
    size := SizeOf(over.In(files));
    inputs', ok := ExpandToCleanCut(level, files, over, marked);
    assert inputs.In(files)[0] in inputs'.In(files);
  }

  /** Growing across: all start-level files that overlap the hull, if the output inputs stay as they are. */
  method GrowAcross(level: nat, files: seq<File>, out: seq<File>, marked: set<nat>, inputs: Selection,
                    c: nat, d: nat, ghost lo: Key, ghost hi: Key, allLo: Key, allHi: Key, limit: nat)
    returns (inputs': Selection, ok: bool)
    requires ValidLevel(level, files) && ValidLevel(1, out) && inputs.Of(level, files) && inputs.In(files) != []
    requires Spans(inputs.In(files), lo, hi) && allLo <= lo <= hi <= allHi && CutAround(out, c, d, lo, hi)
    requires !InCompaction(marked, out[c..d])
    ensures ok ==> Grown(level, files, inputs, inputs', marked) && Separated(out, c, d, inputs'.In(files))
    ensures level > 0 ==>
              if ok then Across(files, out, marked, |inputs.In(files)|, c, d, allLo, allHi, limit, inputs'.a, inputs'.b)
              else NoneGrowsAcross(files, out, marked, |inputs.In(files)|, c, d, allLo, allHi, limit)
  {
    ghost var sel;
    inputs', ok, sel := TryAcross(level, files, out, marked, inputs, c, d, lo, hi, allLo, allHi, limit);
    if level > 0 {
      AcrossDecides(files, out, marked, |inputs.In(files)|, c, d, allLo, allHi, limit, sel.a, sel.b, inputs'.a, inputs'.b);
    }
  }

  method TryAcross(level: nat, files: seq<File>, out: seq<File>, marked: set<nat>, inputs: Selection,
                   c: nat, d: nat, ghost lo: Key, ghost hi: Key, allLo: Key, allHi: Key, limit: nat)
    returns (inputs': Selection, ok: bool, ghost sel: Selection)
    requires ValidLevel(level, files) && ValidLevel(1, out) && inputs.Of(level, files) && inputs.In(files) != []
    requires Spans(inputs.In(files), lo, hi) && allLo <= lo <= hi <= allHi && CutAround(out, c, d, lo, hi)
    requires !InCompaction(marked, out[c..d])
    ensures ok ==> Grown(level, files, inputs, inputs', marked) && Separated(out, c, d, inputs'.In(files))
    ensures level > 0 ==>
              && sel.Span? && inputs'.Span? && Spread(files, allLo, allHi, sel.a, sel.b, inputs'.a, inputs'.b)
              && (ok <==> AcrossFrom(files, out, marked, |inputs.In(files)|, c, d, allLo, allHi, limit,
                                     sel.a, sel.b, inputs'.a, inputs'.b))
  {
    var size;
    inputs', size, ok, sel := ChooseAcross(level, files, marked, inputs, lo, hi, allLo, allHi);
    ok := ok && Affordable(inputs'.In(files), |inputs.In(files)|, size, SizeOf(out[c..d]), limit, marked);
    if ok {
      ok := StaysAcross(level, files, out, marked, inputs, inputs', c, d, lo, hi);
    }
  }

  /** Whether the grown inputs need just the same files of the output level. */
  method StaysAcross(level: nat, files: seq<File>, out: seq<File>, marked: set<nat>, inputs: Selection, inputs': Selection,
                     c: nat, d: nat, ghost lo: Key, ghost hi: Key)
    returns (ok: bool)
    requires ValidLevel(level, files) && ValidLevel(1, out) && inputs'.Of(level, files) && inputs'.In(files) != []
    requires Spans(inputs.In(files), lo, hi) && CutAround(out, c, d, lo, hi) && !InCompaction(marked, out[c..d])
    requires forall f :: f in inputs.In(files) ==> f in inputs'.In(files)
    ensures ok ==> Separated(out, c, d, inputs'.In(files))
    ensures level > 0 ==> inputs'.Span? && (ok <==> NeedsSame(files, out, c, d, inputs'.a, inputs'.b))
  {
    var newLo, newHi := GetRange(level, files, inputs');
    SpansMore(inputs.In(files), inputs'.In(files), lo, hi, newLo, newHi);
    ok := SameOutput(out, marked, c, d, lo, hi, newLo, newHi);
    RangeDecides(level, files, out, c, d, inputs', newLo, newHi);
  }

  lemma RangeDecides(level: nat, files: seq<File>, out: seq<File>, c: nat, d: nat, sel: Selection, lo: Key, hi: Key)
    requires ValidLevel(level, files) && sel.Of(level, files) && sel.In(files) != [] && Spans(sel.In(files), lo, hi)
    ensures CutAround(out, c, d, lo, hi) ==> Separated(out, c, d, sel.In(files))
    ensures level > 0 ==> sel.Span? && (CutAround(out, c, d, lo, hi) <==> NeedsSame(files, out, c, d, sel.a, sel.b))
  {
    if CutAround(out, c, d, lo, hi) {
      SeparatedBy(out, c, d, sel.In(files), lo, hi);
    }
    if level > 0 {
      EndsOf(files, sel.a, sel.b, lo, hi);
    }
  }

  lemma EndsOf(files: seq<File>, a: nat, b: nat, lo: Key, hi: Key)
    requires SortedLevel(files) && a < b <= |files| && Spans(files[a..b], lo, hi)
    ensures lo == files[a].smallest && hi == files[b - 1].largest
  {
    SpanEnds(files, a, b);
    SpansUnique(files[a..b], lo, hi, files[a].smallest, files[b - 1].largest);
  }

  /** Whether a wider range needs just the same files of the output level. */
  method SameOutput(out: seq<File>, marked: set<nat>, c: nat, d: nat, ghost lo: Key, ghost hi: Key, newLo: Key, newHi: Key)
    returns (same: bool)
    requires ValidLevel(1, out) && CutAround(out, c, d, lo, hi) && newLo <= lo && hi <= newHi && !InCompaction(marked, out[c..d])
    ensures same <==> CutAround(out, c, d, newLo, newHi)
  {
    var c', d', free := OutputCut(out, marked, newLo, newHi);
    CutNonempty(out, c, d, lo, hi, newLo, newHi);
    same := free && d' - c' == d - c;
    if same {
      SameCut(out, c, d, lo, hi, c', d', newLo, newHi);
    } else if CutAround(out, c, d, newLo, newHi) {
      CutDecides(out, c, d, newLo, newHi, marked);
      assert Covers(out, c, d, newLo, newHi) && Covers(out, c', d', newLo, newHi);
    }
  }

  lemma CutNonempty(out: seq<File>, c: nat, d: nat, lo: Key, hi: Key, lo': Key, hi': Key)
    requires CutAround(out, c, d, lo, hi) && lo' <= lo && hi <= hi'
    ensures exists k :: 0 <= k < |out| && Overlaps(out[k], lo', hi')
  {
    var k :| c <= k < d && Overlaps(out[k], lo, hi);
    assert Overlaps(out[k], lo', hi');
  }

  /** Growing within: the widest clean run of start-level files inside the hull, which reaches no new output file. */
  method GrowWithin(level: nat, files: seq<File>, out: seq<File>, marked: set<nat>, inputs: Selection,
                    c: nat, d: nat, ghost lo: Key, ghost hi: Key, allLo: Key, allHi: Key, limit: nat)
    returns (inputs': Selection, ok: bool)
    requires ValidLevel(level, files) && c <= d <= |out| && inputs.Of(level, files) && inputs.In(files) != []
    requires Spans(inputs.In(files), lo, hi) && allLo <= lo <= hi <= allHi
    requires forall i :: 0 <= i < |out| && !(c <= i < d) ==> !Overlaps(out[i], allLo, allHi)
    ensures ok ==> Grown(level, files, inputs, inputs', marked) && Separated(out, c, d, inputs'.In(files))
    ensures level > 0 ==>
              if ok then Inside(files, out, marked, |inputs.In(files)|, c, d, allLo, allHi, limit, inputs'.a, inputs'.b)
              else NoneGrowsInside(files, out, marked, |inputs.In(files)|, c, d, allLo, allHi, limit)
  {
    if level == 0 {
      return inputs, false;
    }
    var a, b := CleanWithin(files, allLo, allHi);
    inputs' := Span(a, b);
    ghost var n := |inputs.In(files)|;
    forall x: nat, y: nat | Inside(files, out, marked, n, c, d, allLo, allHi, limit, x, y) ensures a == x && b == y
    {
      InsideIs(files, allLo, allHi, a, b, x, y);
    }
    ok := b - a > inputs.b - inputs.a && SizeOf(out[c..d]) + SizeOf(files[a..b]) < limit
          && !InCompaction(marked, files[a..b]);
    if ok {
      WithinSeparates(files, a, b, out, c, d, allLo, allHi);
      if Clean(files, inputs.a, inputs.b) {
        WithinCovers(files, inputs, lo, hi, allLo, allHi);
        WiderSpan(files, inputs, inputs');
      }
    }
  }

  lemma WithinSeparates(files: seq<File>, a: nat, b: nat, out: seq<File>, c: nat, d: nat, lo: Key, hi: Key)
    requires SortedLevel(files) && a < b <= |files| && Within(files[a], lo, hi) && Within(files[b - 1], lo, hi)
    requires forall i :: 0 <= i < |out| && !(c <= i < d) ==> !Overlaps(out[i], lo, hi)
    ensures Separated(out, c, d, files[a..b])
  {
    SpanEnds(files, a, b);
    SeparatedBy(out, c, d, files[a..b], files[a].smallest, files[b - 1].largest);
  }

  lemma WithinCovers(files: seq<File>, inputs: Selection, lo: Key, hi: Key, allLo: Key, allHi: Key)
    requires inputs.Span? && Clean(files, inputs.a, inputs.b)
    requires Spans(inputs.In(files), lo, hi) && allLo <= lo && hi <= allHi
    ensures CleanInside(files, inputs.a, inputs.b, allLo, allHi)
  {
    var s := inputs.In(files);
    assert s[0] == files[inputs.a] && s[|s| - 1] == files[inputs.b - 1];
    assert s[0] in s && s[|s| - 1] in s;
  }

  /**
   * SetupOtherInputs: adds the output level's files, and then more of the start level's where that
   * draws in no further output file. False means some of the output level's files are taken.
   */
  method SetupOtherInputs(level: nat, files: seq<File>, outLevel: nat, out: seq<File>, marked: set<nat>,
                          inputs: Selection, limit: nat)
    returns (ok: bool, inputs': Selection, c: nat, d: nat)
    requires ValidLevel(level, files) && ValidLevel(outLevel, out) && (outLevel == 0 ==> level == 0)
    requires inputs.Of(level, files) && inputs.In(files) != []
    ensures c <= d <= |out| && Grown(level, files, inputs, inputs', marked)
    ensures level == outLevel ==> ok && inputs' == inputs && c == d
    ensures level != outLevel ==> (ok <==> OutputFree(out, inputs.In(files), marked))
    ensures level != outLevel && ok ==> IsOutputCut(out, inputs.In(files), c, d)
    ensures level != outLevel && ok && level > 0 ==> IsGrowth(files, out, marked, inputs, c, d, limit, inputs')
    ensures level != outLevel && ok ==>
              && Separated(out, c, d, inputs'.In(files))
              && (c < d ==> Clean(out, c, d)) && !InCompaction(marked, out[c..d])
              && (c < d && inputs.CleanIn(level, files) ==> Touches(out, c, d, inputs'.In(files)))
  {
    inputs', c, d := inputs, 0, 0;
    if level == outLevel {
      return true, inputs', c, d;
    }
    var lo, hi := GetRange(level, files, inputs);
    c, d, ok := OutputCut(out, marked, lo, hi);
    OneRange(out, inputs.In(files), lo, hi, marked);
    if !ok {
      return;
    }
    SeparatedBy(out, c, d, inputs.In(files), lo, hi);
    if c < d {
      inputs' := GrowStart(level, files, out, marked, inputs, c, d, lo, hi, limit);
    }
  }

  /** The growth over the hull of a start range and the files c..d of the output level. */
  ghost predicate GrownOver(files: seq<File>, out: seq<File>, marked: set<nat>, inputs: Selection, c: nat, d: nat,
                            lo: Key, hi: Key, limit: nat, inputs': Selection)
    requires inputs.Span? && inputs'.Span?
  {
    && c < d <= |out|
    && (var outLo, outHi := out[c].smallest, out[d - 1].largest;
        GrownTo(files, out, marked, inputs, c, d, if lo < outLo then lo else outLo, if hi < outHi then outHi else hi,
                limit, inputs'))
  }

  /** What the start inputs become, below level 0: exactly what the hull and the limit allow. */
  ghost predicate IsGrowth(files: seq<File>, out: seq<File>, marked: set<nat>, inputs: Selection, c: nat, d: nat,
                           limit: nat, inputs': Selection)
    requires inputs.Span? && inputs'.Span?
  {
    if c == d then inputs' == inputs
    else exists lo, hi :: Spans(inputs.In(files), lo, hi) && GrownOver(files, out, marked, inputs, c, d, lo, hi, limit, inputs')
  }

  /** More of the start level's files, where that draws in no further output file. */
  method GrowStart(level: nat, files: seq<File>, out: seq<File>, marked: set<nat>, inputs: Selection,
                   c: nat, d: nat, lo: Key, hi: Key, limit: nat)
    returns (inputs': Selection)
    requires ValidLevel(level, files) && ValidLevel(1, out) && inputs.Of(level, files) && inputs.In(files) != []
    requires Spans(inputs.In(files), lo, hi) && lo <= hi && CutAround(out, c, d, lo, hi) && !InCompaction(marked, out[c..d])
    ensures Grown(level, files, inputs, inputs', marked) && Separated(out, c, d, inputs'.In(files))
    ensures inputs.CleanIn(level, files) ==> Touches(out, c, d, inputs'.In(files))
    ensures level > 0 ==> GrownOver(files, out, marked, inputs, c, d, lo, hi, limit, inputs')
  {
    inputs' := inputs;
    SeparatedBy(out, c, d, inputs.In(files), lo, hi);
    var outLo, outHi := out[c].smallest, out[d - 1].largest;
    var allLo, allHi := if lo < outLo then lo else outLo, if hi < outHi then outHi else hi;
    HullCut(out, c, d, lo, hi, allLo, allHi);
    var more, grow := GrowAcross(level, files, out, marked, inputs, c, d, lo, hi, allLo, allHi, limit);
    if !grow {
      more, grow := GrowWithin(level, files, out, marked, inputs, c, d, lo, hi, allLo, allHi, limit);
    }
    assert Touches(out, c, d, inputs.In(files));
    if grow {
      inputs' := more;
      if inputs.CleanIn(level, files) {
        SelectionNonempty(level, files, more);
        TouchesMore(out, c, d, inputs.In(files), more.In(files));
      }
    }
  }

  lemma SelectionNonempty(level: nat, files: seq<File>, sel: Selection)
    requires ValidLevel(level, files) && sel.Of(level, files)
    ensures Nonempty(sel.In(files))
  {
  }
}
