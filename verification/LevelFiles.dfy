/** The files of a level, and how the picker selects the ones that overlap an interval of user keys. */
module LevelFiles {
  import opened Records

  type Key = UserKey

  /** A table file: its compensated size, and its bytes. */
  datatype File = File(number: nat, smallest: Key, largest: Key, size: nat, bytes: nat) {
    predicate Contains(k: Key) { smallest <= k <= largest }
  }

  function SizeOf(files: seq<File>): nat {
    if files == [] then 0 else SizeOf(files[..|files| - 1]) + files[|files| - 1].size
  }

  function BytesOf(files: seq<File>): nat {
    if files == [] then 0 else BytesOf(files[..|files| - 1]) + files[|files| - 1].bytes
  }

  predicate Overlaps(f: File, lo: Key, hi: Key) {
    lo <= f.largest && f.smallest <= hi
  }

  predicate Within(f: File, lo: Key, hi: Key) {
    lo <= f.smallest && f.largest <= hi
  }

  /** A level below level 0: ascending, where neighbours may share one boundary key. */
  predicate SortedLevel(files: seq<File>) {
    && (forall i :: 0 <= i < |files| ==> files[i].smallest <= files[i].largest)
    && (forall i, j :: 0 <= i < j < |files| ==> files[i].largest <= files[j].smallest)
  }

  /** No key is both in one of the files a..b and in one outside. */
  predicate Clean(files: seq<File>, a: nat, b: nat) {
    && a < b <= |files|
    && (a == 0 || files[a - 1].largest < files[a].smallest)
    && (b == |files| || files[b - 1].largest < files[b].smallest)
  }

  predicate CleanInside(files: seq<File>, a: nat, b: nat, lo: Key, hi: Key) {
    Clean(files, a, b) && lo <= files[a].smallest && files[b - 1].largest <= hi
  }

  lemma InsideIsWithin(files: seq<File>, a: nat, b: nat, lo: Key, hi: Key)
    requires SortedLevel(files) && CleanInside(files, a, b, lo, hi)
    ensures Within(files[a], lo, hi) && Within(files[b - 1], lo, hi)
    ensures Overlaps(files[a], lo, hi) && Overlaps(files[b - 1], lo, hi)
  {
    assert a < b - 1 ==> files[a].largest <= files[b - 1].smallest;
  }

  lemma NoneInside(files: seq<File>, lo: Key, hi: Key)
    requires SortedLevel(files) && forall i :: 0 <= i < |files| ==> !Within(files[i], lo, hi)
    ensures forall a: nat, b: nat :: !CleanInside(files, a, b, lo, hi)
  {
    forall a: nat, b: nat ensures !CleanInside(files, a, b, lo, hi) {
      if CleanInside(files, a, b, lo, hi) {
        InsideIsWithin(files, a, b, lo, hi);
      }
    }
  }

  /** A clean range separates: no file outside it overlaps the interval it spans. */
  lemma CleanSeparates(files: seq<File>, a: nat, b: nat, i: nat)
    requires SortedLevel(files) && Clean(files, a, b) && i < |files|
    ensures a <= i < b <==> Overlaps(files[i], files[a].smallest, files[b - 1].largest)
  {
    if i < a {
      assert i < a - 1 ==> files[i].largest <= files[a - 1].smallest;
    } else if i >= b {
      assert b < i ==> files[b].largest <= files[i].smallest;
    }
  }

  /** Bisection for a file that overlaps [lo, hi]. */
  method FindOverlapping(files: seq<File>, lo: Key, hi: Key) returns (mid: nat, found: bool)
    requires SortedLevel(files)
    ensures found ==> mid < |files| && Overlaps(files[mid], lo, hi)
    ensures !found ==> forall i :: 0 <= i < |files| ==> !Overlaps(files[i], lo, hi)
  {
    var min, max := 0, |files| - 1;
    mid, found := 0, false;
    while !found && min <= max
      invariant 0 <= min && -1 <= max < |files|
      invariant forall i :: 0 <= i < min && i < |files| ==> files[i].largest < lo
      invariant forall i :: max < i < |files| ==> files[i].smallest > hi
      invariant found ==> mid < |files| && Overlaps(files[mid], lo, hi)
      decreases max - min, !found
    {
      mid := (min + max) / 2;
      if lo > files[mid].largest {
        min := mid + 1;
      } else if files[mid].smallest > hi {
        max := mid - 1;
      } else {
        found := true;
      }
    }
  }

  /** From one file that overlaps [lo, hi], all that do: the files a..b. */
  method ExtendOverlapping(files: seq<File>, lo: Key, hi: Key, mid: nat) returns (a: nat, b: nat)
    requires SortedLevel(files) && mid < |files| && Overlaps(files[mid], lo, hi)
    ensures a <= mid < b <= |files|
    ensures forall i :: 0 <= i < |files| ==> (a <= i < b <==> Overlaps(files[i], lo, hi))
  {
    a, b := mid, mid + 1;
    while a > 0 && lo <= files[a - 1].largest
      invariant a <= mid && lo <= files[a].largest
    {
      a := a - 1;
    }
    while b < |files| && files[b].smallest <= hi
      invariant mid < b <= |files| && files[b - 1].smallest <= hi
    {
      b := b + 1;
    }
  }

  /**
   * GetOverlappingInputs below level 0: exactly the files that overlap [lo, hi], which are consecutive, and
   * one of them. A file already known to overlap saves the bisection.
   */
  method OverlappingRange(files: seq<File>, lo: Key, hi: Key, hint: Option<nat>) returns (a: nat, b: nat, index: Option<nat>)
    requires SortedLevel(files) && (hint.Some? ==> hint.value < |files| && Overlaps(files[hint.value], lo, hi))
    ensures a <= b <= |files|
    ensures forall i :: 0 <= i < |files| ==> (a <= i < b <==> Overlaps(files[i], lo, hi))
    ensures if a == b then index == None else index.Some? && a <= index.value < b
  {
    var mid, found;
    if hint.Some? {
      mid, found := hint.value, true;
    } else {
      mid, found := FindOverlapping(files, lo, hi);
    }
    if found {
      a, b := ExtendOverlapping(files, lo, hi, mid);
      index := Some(mid);
    } else {
      a, b, index := 0, 0, None;
    }
  }

  /** Bisection for a file that lies within [lo, hi]. */
  method FindWithin(files: seq<File>, lo: Key, hi: Key) returns (mid: nat, found: bool)
    requires SortedLevel(files)
    ensures found ==> mid < |files| && Within(files[mid], lo, hi)
    ensures !found ==> forall i :: 0 <= i < |files| ==> !Within(files[i], lo, hi)
  {
    var min, max := 0, |files| - 1;
    mid, found := 0, false;
    while !found && min <= max
      invariant 0 <= min && -1 <= max < |files|
      invariant forall i :: 0 <= i < min && i < |files| ==> files[i].smallest < lo
      invariant forall i :: max < i < |files| ==> files[i].largest > hi
      invariant found ==> mid < |files| && Within(files[mid], lo, hi)
      decreases max - min, !found
    {
      mid := (min + max) / 2;
      if lo > files[mid].smallest {
        assert forall i :: 0 <= i < mid ==> files[i].largest <= files[mid].smallest;
        min := mid + 1;
      } else if files[mid].largest > hi {
        assert forall i :: mid < i < |files| ==> files[mid].largest <= files[i].smallest;
        max := mid - 1;
      } else {
        found := true;
      }
    }
  }

  /** GetCleanInputsWithinInterval: the widest clean run of files that lie within [lo, hi]. */
  method CleanWithin(files: seq<File>, lo: Key, hi: Key) returns (a: nat, b: nat)
    requires SortedLevel(files) && lo <= hi
    ensures a <= b <= |files|
    ensures a < b ==> Clean(files, a, b) && forall i :: a <= i < b ==> Within(files[i], lo, hi)
    ensures forall c: nat, d: nat :: CleanInside(files, c, d, lo, hi) ==> a <= c && d <= b
  {
    var mid, found := FindWithin(files, lo, hi);
    if !found {
      a, b := 0, 0;
      NoneInside(files, lo, hi);
      return;
    }
    a, b := ExtendOverlapping(files, lo, hi, mid);
    forall c: nat, d: nat | CleanInside(files, c, d, lo, hi) ensures a <= c && d <= b {
      InsideIsWithin(files, c, d, lo, hi);
    }
    while a < b && (lo > files[a].smallest || (a > 0 && files[a].smallest == files[a - 1].largest))
      invariant a <= b <= |files|
      invariant forall i :: a <= i < b ==> Overlaps(files[i], lo, hi)
      invariant forall c: nat, d: nat :: CleanInside(files, c, d, lo, hi) ==> a <= c && d <= b
    {
      a := a + 1;
    }
    while a < b && (files[b - 1].largest > hi || (b < |files| && files[b].smallest == files[b - 1].largest))
      invariant a <= b <= |files|
      invariant forall i :: a <= i < b ==> Overlaps(files[i], lo, hi)
      invariant a < b ==> lo <= files[a].smallest && (a == 0 || files[a - 1].largest < files[a].smallest)
      invariant forall c: nat, d: nat :: CleanInside(files, c, d, lo, hi) ==> a <= c && d <= b
    {
      b := b - 1;
    }
  }

  /** ExpandInputsToCleanCut below level 0: the narrowest clean range around the files a..b. */
  method CleanCut(files: seq<File>, a: nat, b: nat) returns (x: nat, y: nat)
    requires SortedLevel(files) && a < b <= |files|
    ensures x <= a && b <= y && Clean(files, x, y)
    ensures forall c: nat, d: nat :: c <= a && b <= d && Clean(files, c, d) ==> c <= x && y <= d
  {
    x, y := a, b;
    var hint := None;
    while true
      invariant x <= a < b <= y <= |files|
      invariant hint.Some? ==> x <= hint.value < y
      invariant forall c: nat, d: nat :: c <= a && b <= d && Clean(files, c, d) ==> c <= x && y <= d
      decreases |files| - (y - x)
    {
      var x', y';
      x', y', hint := OverlappingRange(files, files[x].smallest, files[y - 1].largest, hint);
      assert Overlaps(files[x], files[x].smallest, files[y - 1].largest);
      assert Overlaps(files[y - 1], files[x].smallest, files[y - 1].largest);
      if y' - x' <= y - x {
        break;
      }
      x, y := x', y';
    }
  }

  // ---- Level 0

  predicate Nonempty(files: seq<File>) {
    forall f :: f in files ==> f.smallest <= f.largest
  }

  /** Every file that overlaps the interval lies within it. */
  predicate ClosedInterval(files: seq<File>, lo: Key, hi: Key) {
    forall f :: f in files && Overlaps(f, lo, hi) ==> Within(f, lo, hi)
  }

  /**
   * GetOverlappingInputs on level 0, where files overlap each other: the interval widens with every
   * file taken, to the narrowest one around [lo, hi] that is closed, and all its files are taken.
   */
  method OverlappingL0(files: seq<File>, lo: Key, hi: Key) returns (taken: seq<File>, ghost lo': Key, ghost hi': Key)
    requires Nonempty(files)
    ensures lo' <= lo && hi <= hi' && ClosedInterval(files, lo', hi')
    ensures forall f :: f in taken <==> f in files && Overlaps(f, lo', hi')
    ensures forall p, q :: p <= lo && hi <= q && ClosedInterval(files, p, q) ==> p <= lo' && hi' <= q
    ensures |taken| <= |files|
  {
    var left, begin, end := files, lo, hi;
    taken := [];
    while left != []
      invariant begin <= lo && hi <= end && |taken| + |left| == |files|
      invariant forall f :: f in files <==> f in taken || f in left
      invariant forall f :: f in taken ==> Within(f, begin, end)
      invariant forall p, q :: p <= lo && hi <= q && ClosedInterval(files, p, q) ==> p <= begin && end <= q
      decreases |left|
    {
      ghost var begin0, end0 := begin, end;
      var kept: seq<File>, found := [], false;
      for k := 0 to |left|
        invariant begin <= begin0 && end0 <= end
        invariant |kept| <= k && (found ==> |kept| < k) && |taken| + |kept| + (|left| - k) == |files|
        invariant forall f :: f in files <==> f in taken || f in kept || f in left[k..]
        invariant forall f :: f in taken ==> Within(f, begin, end)
        invariant !found ==> begin == begin0 && end == end0
        invariant !found ==> forall f :: f in kept ==> !Overlaps(f, begin, end)
        invariant forall p, q :: p <= lo && hi <= q && ClosedInterval(files, p, q) ==> p <= begin && end <= q
      {
        var f := left[k];
        assert left[k..] == [f] + left[k + 1..];
        if f.largest < begin || f.smallest > end {
          kept := kept + [f];
        } else {
          taken, found := taken + [f], true;
          assert f in files;
          begin, end := if f.smallest < begin then f.smallest else begin, if f.largest > end then f.largest else end;
        }
      }
      left := kept;
      if !found {
        break;
      }
    }
    lo', hi' := begin, end;
  }
}
