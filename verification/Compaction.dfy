/** The compaction an iterator runs for, and its test for keys in deeper levels. */
module Compaction {
  import opened Records
  import opened LevelFiles
  import opened Tally

  datatype CompactionInfo = CompactionInfo(
    outputLevel: nat,
    levels: seq<seq<File>>,
    bottommostLevel: bool,
    levelStyle: bool,
    allowIngestBehind: bool,
    preserveDeletes: bool)
  {
    /** Levels past the output level hold files in key order; neighbours may share an end key. */
    ghost predicate DeeperSorted() {
      forall l :: outputLevel < l < |levels| ==> SortedLevel(levels[l])
    }

    ghost predicate DeeperFileContains(k: UserKey) {
      exists l, j :: outputLevel < l < |levels| && 0 <= j < |levels[l]| && levels[l][j].Contains(k)
    }

    /** The answer of a full scan that remembers nothing. */
    ghost predicate KeyAbsentBelow(k: UserKey) {
      bottommostLevel || (outputLevel != 0 && levelStyle && !DeeperFileContains(k))
    }

    /** Cursors that have only passed files lying before `k`. */
    ghost predicate Behind(ptrs: seq<nat>, k: UserKey) {
      |ptrs| == |levels| &&
      forall l :: 0 <= l < |levels| ==> PassedOnly(levels[l], ptrs[l], k)
    }
  }

  ghost predicate PassedOnly(files: seq<File>, p: nat, k: UserKey) {
    p <= |files| && forall j :: 0 <= j < p ==> files[j].largest < k
  }

  /** Moves one level's cursor up to the first file that may hold `k`. */
  method AdvanceCursor(files: seq<File>, p: nat, k: UserKey) returns (q: nat, found: bool)
    requires SortedLevel(files) && PassedOnly(files, p, k)
    ensures p <= q && PassedOnly(files, q, k)
    ensures found <==> exists j :: 0 <= j < |files| && files[j].Contains(k)
  {
    q := p;
    while q < |files| && k > files[q].largest
      invariant p <= q && PassedOnly(files, q, k)
    {
      q := q + 1;
    }
    found := q < |files| && k >= files[q].smallest;
    assert found ==> files[q].Contains(k);
  }

  /** Asks whether any deeper level may hold `k`, starting each level where the last call stopped. */
  method KeyNotExistsBeyondOutputLevel(c: CompactionInfo, k: UserKey, ptrs: seq<nat>)
    returns (absent: bool, ptrs': seq<nat>)
    requires c.DeeperSorted() && c.Behind(ptrs, k)
    ensures absent <==> c.KeyAbsentBelow(k)
    ensures c.Behind(ptrs', k)
    ensures forall l :: 0 <= l < |ptrs| ==> ptrs[l] <= ptrs'[l]
    ensures forall l :: 0 <= l < |ptrs| && l <= c.outputLevel ==> ptrs[l] == ptrs'[l]
  {
    ptrs' := ptrs;
    if c.bottommostLevel {
      return true, ptrs';
    } else if c.outputLevel != 0 && c.levelStyle {
      var l := c.outputLevel + 1;
      while l < |c.levels|
        invariant c.outputLevel < l && c.Behind(ptrs', k)
        invariant forall m :: 0 <= m < |ptrs| ==> ptrs[m] <= ptrs'[m]
        invariant forall m :: 0 <= m < |ptrs| && m <= c.outputLevel ==> ptrs[m] == ptrs'[m]
        invariant forall m, j :: c.outputLevel < m < l && m < |c.levels| && 0 <= j < |c.levels[m]| ==>
                    !c.levels[m][j].Contains(k)
      {
        var q, found := AdvanceCursor(c.levels[l], ptrs'[l], k);
        ptrs' := ptrs'[l := q];
        if found {
          return false, ptrs';
        }
        l := l + 1;
      }
      return true, ptrs';
    }
    return false, ptrs';
  }

  /** How many files each level below the output level has. */
  ghost function DeeperSizes(c: CompactionInfo): seq<nat> {
    seq(|c.levels|, l requires 0 <= l < |c.levels| => if l > c.outputLevel then |c.levels[l]| else 0)
  }

  /**
   * A whole subcompaction's queries: over any non-decreasing keys the remembered cursors
   * answer as fresh full scans do, and all of them together move at most once past each deeper file.
   */
  method AnswerAll(c: CompactionInfo, keys: seq<UserKey>) returns (answers: seq<bool>, ghost moves: nat)
    requires c.DeeperSorted()
    requires forall i, j :: 0 <= i < j < |keys| ==> keys[i] <= keys[j]
    ensures |answers| == |keys|
    ensures forall i :: 0 <= i < |keys| ==> (answers[i] <==> c.KeyAbsentBelow(keys[i]))
    ensures moves <= Sum(DeeperSizes(c))
  {
    var ptrs: seq<nat> := seq(|c.levels|, _ => 0);
    SumZeroes(ptrs);
    answers, moves := [], 0;
    for i := 0 to |keys|
      invariant |answers| == i
      invariant forall j :: 0 <= j < i ==> (answers[j] <==> c.KeyAbsentBelow(keys[j]))
      invariant |ptrs| == |c.levels| && moves == Sum(ptrs)
      invariant forall k: UserKey :: (forall j :: 0 <= j < i ==> keys[j] <= k) ==> c.Behind(ptrs, k)
      invariant forall l :: 0 <= l < |ptrs| ==> ptrs[l] <= DeeperSizes(c)[l]
    {
      assert c.Behind(ptrs, keys[i]);
      var absent, ptrs' := KeyNotExistsBeyondOutputLevel(c, keys[i], ptrs);
      SumMonotone(ptrs, ptrs');
      moves := moves + (Sum(ptrs') - Sum(ptrs));
      ptrs := ptrs';
      answers := answers + [absent];
    }
    SumMonotone(ptrs, DeeperSizes(c));
  }
}
