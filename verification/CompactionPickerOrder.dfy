/**
 * What comes of the first start, below level 0: it is completed if and only if nothing is in its way. The picker
 * goes no further: a later start that could be completed is not looked at.
 */
module CompactionPickerOrder {
  import opened Records
  import opened LevelFiles
  import opened CompactionInputs
  import opened RunningCompactions
  import opened CompactionChoices
  import opened CompactionPickers

  // ---- There is one way to complete a start

  lemma CutsSame(out: seq<File>, start: seq<File>, c: nat, d: nat, c': nat, d': nat)
    requires c <= d <= |out| && c' <= d' <= |out| && IsOutputCut(out, start, c, d) && IsOutputCut(out, start, c', d')
    ensures if c < d then c == c' && d == d' else c' == d'
  {
    var lo, hi :| Spans(start, lo, hi) &&
      if c < d then CutAround(out, c, d, lo, hi) else forall i :: 0 <= i < |out| ==> !Overlaps(out[i], lo, hi);
    var lo', hi' :| Spans(start, lo', hi') &&
      if c' < d' then CutAround(out, c', d', lo', hi') else forall i :: 0 <= i < |out| ==> !Overlaps(out[i], lo', hi');
    SpansUnique(start, lo, hi, lo', hi');
    assert c < d ==> Covers(out, c, d, lo, hi);
    assert c' < d' ==> Covers(out, c', d', lo, hi);
  }

  lemma AcrossSame(files: seq<File>, out: seq<File>, marked: set<nat>, n: nat, c: nat, d: nat, lo: Key, hi: Key,
                   limit: nat, x: nat, y: nat, x': nat, y': nat)
    requires Across(files, out, marked, n, c, d, lo, hi, limit, x, y)
    requires Across(files, out, marked, n, c, d, lo, hi, limit, x', y')
    ensures x == x' && y == y'
  {
    var a: nat, b: nat :| AcrossFrom(files, out, marked, n, c, d, lo, hi, limit, a, b, x, y);
    var a': nat, b': nat :| AcrossFrom(files, out, marked, n, c, d, lo, hi, limit, a', b', x', y');
    ExactlyUnique(files, a, b, a', b', lo, hi);
  }

  lemma GrowthSame(files: seq<File>, out: seq<File>, marked: set<nat>, inputs: Selection, c: nat, d: nat, limit: nat,
                   grown: Selection, grown': Selection)
    requires inputs.Span? && grown.Span? && grown'.Span?
    requires IsGrowth(files, out, marked, inputs, c, d, limit, grown)
    requires IsGrowth(files, out, marked, inputs, c, d, limit, grown')
    ensures grown == grown'
  {
    if c != d {
      var lo, hi :| Spans(inputs.In(files), lo, hi) && GrownOver(files, out, marked, inputs, c, d, lo, hi, limit, grown);
      var lo', hi' :| Spans(inputs.In(files), lo', hi') && GrownOver(files, out, marked, inputs, c, d, lo', hi', limit, grown');
      SpansUnique(inputs.In(files), lo, hi, lo', hi');
      var n, outLo, outHi := |inputs.In(files)|, out[c].smallest, out[d - 1].largest;
      var p, q := if lo < outLo then lo else outLo, if hi < outHi then outHi else hi;
      if !NoneGrowsAcross(files, out, marked, n, c, d, p, q, limit) {
        AcrossSame(files, out, marked, n, c, d, p, q, limit, grown.a, grown.b, grown'.a, grown'.b);
      } else if !NoneGrowsInside(files, out, marked, n, c, d, p, q, limit) {
        InsideIs(files, p, q, grown.a, grown.b, grown'.a, grown'.b);
      }
    }
  }

  lemma HullSame(start: seq<File>, output: seq<File>, lo: Key, hi: Key, lo': Key, hi': Key)
    requires IsHull(start, output, lo, hi) && IsHull(start, output, lo', hi')
    ensures lo == lo' && hi == hi'
  {
    var p, q :| Spans(start, p, q) && HullOver(output, p, q, lo, hi);
    var p', q' :| Spans(start, p', q') && HullOver(output, p', q', lo', hi');
    SpansUnique(start, p, q, p', q');
  }

  /** The files of the two levels are determined. */
  lemma FilesSame(files: seq<File>, out: seq<File>, same: bool, start: Selection, limit: nat, marked: set<nat>,
                  grown: Selection, c: nat, d: nat, grown': Selection, c': nat, d': nat)
    requires start.Span? && grown.Span? && grown'.Span? && c <= d <= |out| && c' <= d' <= |out|
    requires if same then grown == start && c == d
             else IsOutputCut(out, start.In(files), c, d) && IsGrowth(files, out, marked, start, c, d, limit, grown)
    requires if same then grown' == start && c' == d'
             else IsOutputCut(out, start.In(files), c', d') && IsGrowth(files, out, marked, start, c', d', limit, grown')
    ensures grown == grown' && out[c..d] == out[c'..d']
  {
    if !same {
      CutsSame(out, start.In(files), c, d, c', d');
      if c < d {
        GrowthSame(files, out, marked, start, c, d, limit, grown, grown');
      }
    }
  }

  /** Below level 0, start files and byte limit determine the whole compaction. */
  lemma CompletionSame(v: seq<seq<File>>, level: nat, start: Selection, out: nat, limit: nat, marked: set<nat>,
                       r: Compaction, r': Compaction)
    requires level > 0
    requires Completion(v, level, start, out, limit, marked, r) && Completion(v, level, start, out, limit, marked, r')
    ensures r == r'
  {
    var grown, c, d :| CompletedWith(v, start, grown, c, d, limit, marked, r);
    var grown', c', d' :| CompletedWith(v, start, grown', c', d', limit, marked, r');
    CompletedSame(v, start, grown, c, d, grown', c', d', limit, marked, r, r');
  }

  lemma CompletedSame(v: seq<seq<File>>, start: Selection, grown: Selection, c: nat, d: nat,
                      grown': Selection, c': nat, d': nat, limit: nat, marked: set<nat>, r: Compaction, r': Compaction)
    requires r.startLevel == r'.startLevel > 0 && r.outputLevel == r'.outputLevel
    requires CompletedWith(v, start, grown, c, d, limit, marked, r) && CompletedWith(v, start, grown', c', d', limit, marked, r')
    ensures r == r'
  {
    var files, out := v[r.startLevel], v[r.outputLevel];
    FilesSame(files, out, r.startLevel == r.outputLevel, start, limit, marked, grown, c, d, grown', c', d');
    HullSame(grown.In(files), out[c..d], r.smallest, r.largest, r'.smallest, r'.largest);
  }

  /** A start below level 0 comes to nothing if and only if it is blocked. */
  lemma NoneIffBlocked(v: seq<seq<File>>, s: Start, limit: nat, p: PickerState, r: Option<Compaction>)
    requires 0 < |v| && s.Start? && s.level > 0 && ComesOf(v, s, limit, p, r)
    requires r.Some? ==> Admissible(p.running, p.marked, r.value)
    ensures s.level < |v| && s.out < |v| && (r.None? <==> Blocked(v, s.level, s.inputs, s.out, limit, p))
  {
    if r.Some? {
      forall c | Completion(v, s.level, s.inputs, s.out, limit, p.marked, c) ensures c == r.value {
        CompletionSame(v, s.level, s.inputs, s.out, limit, p.marked, c, r.value);
      }
    }
  }

  // ---- The first start only

  const NEAR := File(1, 0, 10, 1, 1)
  const FAR := File(2, 20, 30, 1, 1)
  const TAKEN := File(3, 5, 8, 1, 1)
  const VERSION := [[], [NEAR, FAR], [TAKEN], []]
  const DEEPER := Compaction(2, [Input(2, TAKEN)], 3, 5, 8)
  const BUSY := PickerState({DEEPER}, {}, {3})

  /** Nothing is due by size, and some files of level 1 are flagged to go to the next level. */
  function Flags(flagged: seq<Flagged>): Hints {
    Hints([], [[], [], [], []], 1, 4, flagged, [], 100)
  }

  const BOTH := Flags([Flagged(1, 0, true), Flagged(1, 1, true)])
  const SECOND := Flags([Flagged(1, 1, true)])

  lemma Cuts()
    ensures ValidVersion(VERSION)
    ensures CutOf(1, VERSION[1], 0, Span(0, 1)) && CutOf(1, VERSION[1], 1, Span(1, 2))
    ensures !InCompaction({3}, [NEAR]) && !InCompaction({3}, [FAR])
    ensures Span(0, 1).In(VERSION[1]) == [NEAR] && Span(1, 2).In(VERSION[1]) == [FAR]
  {
  }

  lemma OnlyFirst(s: Start)
    requires ValidHints(VERSION, BOTH, {3}) && FirstStart(VERSION, BOTH, s, BUSY)
    ensures s == Start(1, 2, Span(0, 1))
  {
    Cuts();
    CutIs(1, VERSION[1], 0, Span(0, 1));
    assert BOTH.flagged[0] == Flagged(1, 0, true);
    assert !FlagIdle(VERSION, BOTH.flagged[0], BUSY);
  }

  lemma OnlySecond(s: Start)
    requires ValidHints(VERSION, SECOND, {3}) && FirstStart(VERSION, SECOND, s, BUSY)
    ensures s == Start(1, 2, Span(1, 2))
  {
    Cuts();
    CutIs(1, VERSION[1], 1, Span(1, 2));
    assert SECOND.flagged[0] == Flagged(1, 1, true);
    assert !FlagIdle(VERSION, SECOND.flagged[0], BUSY);
  }

  /** The file under the first flagged one is taken. */
  lemma NearBlocked(r: Option<Compaction>)
    requires ComesOf(VERSION, Start(1, 2, Span(0, 1)), 100, BUSY, r)
    ensures r.None?
  {
    Cuts();
    assert Spans([NEAR], 0, 10) by { assert NEAR in [NEAR]; }
    assert TAKEN in VERSION[2][0..1] && Overlaps(VERSION[2][0], 0, 10);
    assert CutAround(VERSION[2], 0, 1, 0, 10);
    CutDecides(VERSION[2], 0, 1, 0, 10, {3});
    OneRange(VERSION[2], [NEAR], 0, 10, {3});
  }

  /** Nothing is under the second, and nobody writes into its level. */
  lemma FarFree(r: Option<Compaction>)
    requires ComesOf(VERSION, Start(1, 2, Span(1, 2)), 100, BUSY, r)
    ensures r.Some?
  {
    Cuts();
    assert Spans([FAR], 20, 30) by { assert FAR in [FAR]; }
    NothingToCut(VERSION[2], 20, 30, {3});
    OneRange(VERSION[2], [FAR], 20, 30, {3});
    assert forall lo, hi :: !OverlapsRunning({DEEPER}, lo, hi, 2);
  }

  lemma Applies()
    ensures ValidVersion(VERSION) && StayOnLevels(VERSION, {DEEPER})
    ensures ValidHints(VERSION, BOTH, {3}) && ValidHints(VERSION, SECOND, {3})
  {
    Cuts();
    forall c, x, l, f | c in {DEEPER} && x in c.inputs && 0 <= l < 4 && f in VERSION[l] && f.number == x.file.number
      ensures x.level == l
    {
      assert x == Input(2, TAKEN) && (l == 1 ==> f == NEAR || f == FAR);
    }
  }

  method BusyPicker() returns (p: CompactionPicker)
    ensures fresh(p) && p.Valid() && p.View() == BUSY
  {
    p := new CompactionPicker();
    assert Input(2, TAKEN) in DEEPER.inputs;
    p.Register(DEEPER);
  }

  method PickOfBoth(p: CompactionPicker) returns (r: Option<Compaction>)
    requires p.Valid() && p.View() == BUSY
    modifies p
    ensures r.None? && p.Valid() && p.View() == BUSY
  {
    Applies();
    r := p.PickCompaction(VERSION, BOTH);
    ghost var s :| FirstStart(VERSION, BOTH, s, BUSY) && ComesOf(VERSION, s, 100, BUSY, r);
    OnlyFirst(s);
    NearBlocked(r);
  }

  method PickOfSecond(p: CompactionPicker) returns (r: Option<Compaction>)
    requires p.Valid() && p.View() == BUSY
    modifies p
    ensures r.Some?
  {
    Applies();
    r := p.PickCompaction(VERSION, SECOND);
    ghost var s :| FirstStart(VERSION, SECOND, s, BUSY) && ComesOf(VERSION, s, 100, BUSY, r);
    OnlySecond(s);
    FarFree(r);
  }

  /** With the first of two flagged files blocked, none is picked; without it, the second is. */
  method FirstStartOnly() returns (both: Option<Compaction>, second: Option<Compaction>)
    ensures both.None? && second.Some?
  {
    var p := BusyPicker();
    both := PickOfBoth(p);
    second := PickOfSecond(p);
  }
}
