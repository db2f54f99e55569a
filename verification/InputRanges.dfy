/** Putting the ranges selected for a map compaction in order and merging those that meet. */
module InputRanges {
  import Records

  type Key = Records.UserKey

  datatype Range = Range(start: Key, limit: Key, includeStart: bool, includeLimit: bool)

  predicate Holds(r: Range, k: Key) {
    (r.start < k || (r.start == k && r.includeStart)) && (k < r.limit || (k == r.limit && r.includeLimit))
  }

  ghost predicate Covers(rs: seq<Range>, k: Key) {
    exists r :: r in rs && Holds(r, k)
  }

  ghost predicate SameCover(a: seq<Range>, b: seq<Range>) {
    forall k :: Covers(a, k) <==> Covers(b, k)
  }

  /** The comparison that orders the ranges. */
  predicate Less(a: Range, b: Range) {
    if a.limit != b.limit then a.limit < b.limit
    else if a.includeLimit != b.includeLimit then b.includeLimit
    else if a.start != b.start then a.start < b.start
    else a.includeStart && !b.includeStart
  }

  predicate InOrder(rs: seq<Range>) {
    forall i, j :: 0 <= i < j < |rs| ==> !Less(rs[j], rs[i])
  }

  /** Orders the ranges without adding or losing any. */
  method Sort(rs: seq<Range>) returns (s: seq<Range>)
    ensures InOrder(s) && multiset(s) == multiset(rs)
  {
    s := [];
    for i := 0 to |rs|
      invariant InOrder(s) && multiset(s) == multiset(rs[..i])
    {
      var j := |s|;
      while j > 0 && Less(rs[i], s[j - 1])
        invariant 0 <= j <= |s| && forall k :: j <= k < |s| ==> Less(rs[i], s[k])
      {
        j := j - 1;
      }
      assert rs[..i + 1] == rs[..i] + [rs[i]];
      InsertInOrder(s, j, rs[i]);
      InsertKeeps(s, j, rs[i]);
      s := s[..j] + [rs[i]] + s[j..];
    }
    assert rs[..|rs|] == rs;
  }

  lemma InsertInOrder(s: seq<Range>, j: nat, r: Range)
    requires InOrder(s) && j <= |s| && (forall k :: j <= k < |s| ==> Less(r, s[k])) && (j > 0 ==> !Less(r, s[j - 1]))
    ensures InOrder(s[..j] + [r] + s[j..])
  {
    var t := s[..j] + [r] + s[j..];
    forall x, y | 0 <= x < y < |t| ensures !Less(t[y], t[x]) {
      if y < j {
        assert t[x] == s[x] && t[y] == s[y];
      } else if y == j {
        assert t[x] == s[x] && t[y] == r;
        if x < j - 1 {
          NotLessChain(r, s[j - 1], s[x]);
        }
      } else if x == j {
        assert t[x] == r && t[y] == s[y - 1];
      } else {
        assert t[x] == s[if x < j then x else x - 1] && t[y] == s[y - 1];
      }
    }
  }

  lemma InsertKeeps(s: seq<Range>, j: nat, r: Range)
    requires j <= |s|
    ensures multiset(s[..j] + [r] + s[j..]) == multiset(s) + multiset{r}
  {
    assert s == s[..j] + s[j..];
  }

  lemma NotLessChain(a: Range, b: Range, c: Range)
    requires !Less(a, b) && !Less(b, c)
    ensures !Less(a, c)
  {
  }

  /** What the caller has to bring: inclusive starts that ascend with the limits, and equal limits alike. */
  predicate Mergeable(rs: seq<Range>) {
    && (forall r :: r in rs ==> r.includeStart && r.start <= r.limit)
    && (forall a, b :: a in rs && b in rs ==> Compatible(a, b))
  }

  predicate Compatible(a: Range, b: Range) {
    && (a.limit < b.limit ==> a.start <= b.start)
    && (a.limit == b.limit ==> a.includeLimit == b.includeLimit)
  }

  /** Apart from each other, in order. */
  predicate Apart(rs: seq<Range>) {
    forall i, j :: 0 <= i < j < |rs| ==> rs[i].limit < rs[j].start
  }

  predicate WellFormed(rs: seq<Range>) {
    forall i :: 0 <= i < |rs| ==> rs[i].start <= rs[i].limit
  }

  /** The ranges as the merging pass meets them. */
  predicate Ascending(rs: seq<Range>) {
    && (forall i :: 0 <= i < |rs| ==> rs[i].includeStart && rs[i].start <= rs[i].limit)
    && (forall i, j :: 0 <= i < j < |rs| ==>
          && rs[i].limit <= rs[j].limit && rs[i].start <= rs[j].start
          && (rs[i].limit == rs[j].limit ==> rs[i].includeLimit == rs[j].includeLimit))
  }

  lemma SortedAscend(rs: seq<Range>, s: seq<Range>)
    requires Mergeable(rs) && InOrder(s) && multiset(s) == multiset(rs)
    ensures Ascending(s) && SameCover(s, rs)
  {
    forall r ensures r in s <==> r in rs {
      assert r in s <==> r in multiset(s);
    }
    forall i, j | 0 <= i < j < |s|
      ensures s[i].limit <= s[j].limit && s[i].start <= s[j].start
      ensures s[i].limit == s[j].limit ==> s[i].includeLimit == s[j].includeLimit
    {
      assert s[i] in rs && s[j] in rs;
      assert Compatible(s[i], s[j]) && !Less(s[j], s[i]);
    }
  }

  lemma SortedWellFormed(rs: seq<Range>, s: seq<Range>)
    requires multiset(s) == multiset(rs)
    ensures WellFormed(s) <==> WellFormed(rs)
  {
    forall r ensures r in s <==> r in rs {
      assert r in s <==> r in multiset(s);
    }
    if WellFormed(s) {
      assert forall r :: r in s ==> r.start <= r.limit;
    }
    if WellFormed(rs) {
      assert forall r :: r in rs ==> r.start <= r.limit;
    }
  }

  /** What two ranges that meet become. */
  function Join(a: Range, b: Range): Range {
    if a.limit < b.limit then a.(limit := b.limit, includeLimit := b.includeLimit) else a
  }

  /** Two ranges that touch at a key that both exclude are joined over it. */
  lemma JoinGains(a: Range, b: Range)
    requires a.limit == b.start && !a.includeLimit && !b.includeStart && a.start < a.limit && b.start < b.limit
    ensures Holds(Join(a, b), a.limit) && !Holds(a, a.limit) && !Holds(b, a.limit)
  {
  }

  /** The first range's start cannot give way, so a second that starts before it loses its start. */
  lemma JoinLosesStart(a: Range, b: Range)
    requires b.start < a.start && Holds(b, b.start)
    ensures !Holds(Join(a, b), b.start)
  {
  }

  /** Nor can its end if the limits are equal. */
  lemma JoinLosesLimit(a: Range, b: Range)
    requires a.limit == b.limit && !a.includeLimit && Holds(b, b.limit)
    ensures !Holds(Join(a, b), b.limit)
  {
  }

  /** With inclusive starts, joining two ranges that meet is their union exactly if neither of the two happens. */
  lemma JoinIsUnion(a: Range, b: Range)
    requires a.includeStart && b.includeStart && a.start <= a.limit <= b.limit && b.start <= a.limit
    ensures (forall k :: Holds(Join(a, b), k) <==> Holds(a, k) || Holds(b, k))
            <==> (Holds(b, b.start) ==> a.start <= b.start) && (a.limit == b.limit && b.includeLimit ==> a.includeLimit)
  {
    if b.start < a.start && Holds(b, b.start) {
      JoinLosesStart(a, b);
    } else if a.limit == b.limit && b.includeLimit && !a.includeLimit {
      JoinLosesLimit(a, b);
    }
  }

  /** One turn of the merging pass keeps what the ranges cover together. */
  lemma MergeStep(done: seq<Range>, rest: seq<Range>, done': seq<Range>, rest': seq<Range>)
    requires done != [] && rest != [] && rest' == rest[1..]
    requires var a, b := done[|done| - 1], rest[0];
             if a.limit >= b.start then
               && a.includeStart && b.includeStart && a.start <= a.limit && b.start <= b.limit && a.start <= b.start
               && a.limit <= b.limit && (a.limit == b.limit ==> a.includeLimit == b.includeLimit)
               && done' == done[|done| - 1 := Join(a, b)]
             else done' == done + [b]
    ensures SameCover(done' + rest', done + rest)
  {
    var n, a, b := |done|, done[|done| - 1], rest[0];
    if a.limit >= b.start {
      var m := done'[n - 1];
      assert done + rest == done[..n - 1] + [a, b] + rest' && done' + rest' == done[..n - 1] + [m] + rest';
      JoinIsUnion(a, b);
      forall k ensures Covers(done' + rest', k) <==> Covers(done + rest, k) {
        CoversAround(done[..n - 1], [a, b], [m], rest', k);
      }
    } else {
      assert done' + rest' == done + rest;
    }
  }

  lemma CoversAround(p: seq<Range>, x: seq<Range>, y: seq<Range>, q: seq<Range>, k: Key)
    requires (exists r :: r in x && Holds(r, k)) <==> (exists r :: r in y && Holds(r, k))
    ensures Covers(p + x + q, k) <==> Covers(p + y + q, k)
  {
    assert forall r :: r in p + x + q <==> r in p || r in x || r in q;
    assert forall r :: r in p + y + q <==> r in p || r in y || r in q;
  }

  /** The merging pass between two turns: the ranges 0..c are done, those from i on are as they were. */
  ghost predicate Merging(rs: seq<Range>, m: seq<Range>, c: int, i: int) {
    && 0 <= c < i <= |rs| == |m| && m[i..] == rs[i..]
    && (forall j :: 0 <= j <= c ==> m[j].includeStart && m[j].start <= m[j].limit)
    && Apart(m[..c + 1])
    && (forall j :: i <= j < |rs| ==>
          && m[c].limit <= rs[j].limit && m[c].start <= rs[j].start
          && (m[c].limit == rs[j].limit ==> m[c].includeLimit == rs[j].includeLimit))
  }

  /** Ranges that are apart stay so when the next one joins the last of them or goes after it. */
  lemma ApartAfter(done: seq<Range>, b: Range, done': seq<Range>)
    requires done != [] && WellFormed(done) && Apart(done) && b.start <= b.limit
    requires var a := done[|done| - 1];
             done' == if a.limit >= b.start then done[|done| - 1 := Join(a, b)] else done + [b]
    ensures WellFormed(done') && Apart(done')
  {
    var n := |done| - 1;
    forall i, j | 0 <= i < j < |done'| ensures done'[i].limit < done'[j].start {
      assert i < n ==> done[i].limit < done[n].start;
    }
  }

  /** One turn: the range at i joins the one at c or goes after it. */
  method MergeTurn(rs: seq<Range>, m: seq<Range>, c: nat, i: nat) returns (m': seq<Range>, c': nat)
    requires c < i < |rs| == |m| && m[i..] == rs[i..] && (Ascending(rs) ==> Merging(rs, m, c, i))
    ensures c' <= i && |m'| == |rs| && m'[i + 1..] == rs[i + 1..] && (Ascending(rs) ==> Merging(rs, m', c', i + 1))
    ensures WellFormed(rs) && WellFormed(m[..c + 1]) && Apart(m[..c + 1]) ==> WellFormed(m'[..c' + 1]) && Apart(m'[..c' + 1])
    ensures Ascending(rs) ==> SameCover(m'[..c' + 1] + m'[i + 1..], m[..c + 1] + m[i..])
  {
    m', c' := m, c;
    ghost var done, rest := m[..c + 1], m[i..];
    if m[c].limit >= m[i].start {
      if m[c].limit < m[i].limit {
        m' := m[c := m[c].(limit := m[i].limit, includeLimit := m[i].includeLimit)];
      }
      assert m'[..c' + 1] == done[c := m'[c]];
    } else {
      c' := c + 1;
      if c' != i {
        m' := m[c' := m[i]];
      }
      assert m'[..c' + 1] == done + [m[i]];
    }
    assert m[i] == m[i..][0] == rs[i];
    if WellFormed(rs) && WellFormed(done) && Apart(done) {
      ApartAfter(done, rs[i], m'[..c' + 1]);
    }
    assert m'[i + 1..] == m[i..][1..] == rs[i + 1..] == rest[1..];
    if Ascending(rs) {
      MergeStep(done, rest, m'[..c' + 1], m'[i + 1..]);
    }
  }

  method Merge(rs: seq<Range>) returns (m: seq<Range>)
    ensures Ascending(rs) ==> Apart(m) && SameCover(m, rs) && forall r :: r in m ==> r.includeStart && r.start <= r.limit
    ensures WellFormed(rs) ==> Apart(m) && WellFormed(m)
  {
    m := rs;
    if |rs| <= 1 {
      return;
    }
    var c := 0;
    assert m[..c + 1] + m[1..] == rs;
    for i := 1 to |rs|
      invariant 0 <= c < i && |m| == |rs| && m[i..] == rs[i..]
      invariant WellFormed(rs) ==> WellFormed(m[..c + 1]) && Apart(m[..c + 1])
      invariant Ascending(rs) ==> Merging(rs, m, c, i) && SameCover(m[..c + 1] + m[i..], rs)
    {
      m, c := MergeTurn(rs, m, c, i);
    }
    assert m[..c + 1] + m[|rs|..] == m[..c + 1];
    m := m[..c + 1];
  }

  /** Starts and limits both ascend, without repeats. */
  predicate Rising(rs: seq<Range>) {
    forall i, j :: 0 <= i < j < |rs| ==> rs[i].start < rs[j].start && rs[i].limit < rs[j].limit
  }

  /** Of two ascending ranges that share a start or a limit, the first with the second's end is the union. */
  lemma EqualUnion(a: Range, b: Range, k: Key)
    requires a.includeStart && b.includeStart && a.start <= b.start && a.limit <= b.limit && b.start <= b.limit
    requires a.limit == b.limit ==> a.includeLimit == b.includeLimit
    requires a.start == b.start || a.limit == b.limit
    ensures Holds(a.(limit := b.limit, includeLimit := b.includeLimit), k) <==> Holds(a, k) || Holds(b, k)
  {
  }

  /** The range at i joins the one before it. */
  function Joined(m: seq<Range>, i: nat): seq<Range>
    requires 0 < i < |m|
  {
    m[..i - 1] + [m[i - 1].(limit := m[i].limit, includeLimit := m[i].includeLimit)] + m[i + 1..]
  }

  lemma JoinedCovers(m: seq<Range>, i: nat)
    requires Ascending(m) && 0 < i < |m| && (m[i].start == m[i - 1].start || m[i].limit == m[i - 1].limit)
    ensures SameCover(Joined(m, i), m)
  {
    var a, b := m[i - 1], m[i];
    var j := a.(limit := b.limit, includeLimit := b.includeLimit);
    assert m == m[..i - 1] + [a, b] + m[i + 1..];
    forall k ensures Covers(Joined(m, i), k) <==> Covers(m, k) {
      EqualUnion(a, b, k);
      assert (exists r :: r in [a, b] && Holds(r, k)) <==> (Holds(a, k) || Holds(b, k));
      assert (exists r :: r in [j] && Holds(r, k)) <==> Holds(j, k);
      CoversAround(m[..i - 1], [a, b], [j], m[i + 1..], k);
    }
  }

  lemma JoinedAt(m: seq<Range>, i: nat, x: nat)
    requires 0 < i < |m| && x < |m| - 1
    ensures |Joined(m, i)| == |m| - 1
    ensures Joined(m, i)[x] == if x < i - 1 then m[x]
                               else if x == i - 1 then m[x].(limit := m[i].limit, includeLimit := m[i].includeLimit)
                               else m[x + 1]
  {
  }

  lemma JoinedAscends(m: seq<Range>, i: nat)
    requires Ascending(m) && 0 < i < |m|
    ensures Ascending(Joined(m, i)) && (Rising(m[..i]) ==> Rising(Joined(m, i)[..i]))
  {
    var m' := Joined(m, i);
    forall x | 0 <= x < |m'| ensures m'[x].includeStart && m'[x].start <= m'[x].limit {
      JoinedAt(m, i, x);
    }
    forall x, y | 0 <= x < y < |m'|
      ensures m'[x].limit <= m'[y].limit && m'[x].start <= m'[y].start
      ensures m'[x].limit == m'[y].limit ==> m'[x].includeLimit == m'[y].includeLimit
    {
      JoinedAt(m, i, x);
      JoinedAt(m, i, y);
    }
    if Rising(m[..i]) {
      forall x, y | 0 <= x < y < i ensures m'[x].start < m'[y].start && m'[x].limit < m'[y].limit {
        JoinedAt(m, i, x);
        JoinedAt(m, i, y);
        assert m[..i][x] == m[x] && m[..i][y] == m[y];
      }
    }
  }

  /** Neighbours with equal starts or equal limits become one; ranges that are apart have none. */
  method JoinEqual(rs: seq<Range>) returns (m: seq<Range>)
    ensures Apart(rs) && WellFormed(rs) ==> m == rs
    ensures Ascending(rs) ==> Ascending(m) && Rising(m) && SameCover(m, rs)
  {
    m := rs;
    var i := 1;
    while i < |m|
      invariant 1 <= i && (i <= |m| || m == rs)
      invariant Apart(rs) && WellFormed(rs) ==> m == rs
      invariant Ascending(rs) ==> Ascending(m) && SameCover(m, rs) && Rising(m[..if i <= |m| then i else |m|])
      decreases |m| - i
    {
      if m[i].start == m[i - 1].start || m[i].limit == m[i - 1].limit {
        ghost var m0 := m;
        m := m[i - 1 := m[i - 1].(limit := m[i].limit, includeLimit := m[i].includeLimit)];
        m := m[..i] + m[i + 1..];
        assert m == Joined(m0, i);
        if Ascending(rs) {
          JoinedCovers(m0, i);
          JoinedAscends(m0, i);
        }
      } else {
        if Ascending(rs) {
          RisingMore(m, i);
        }
        i := i + 1;
      }
    }
    assert |m| <= i ==> m[..|m|] == m;
  }

  lemma RisingMore(m: seq<Range>, i: nat)
    requires Ascending(m) && 0 < i < |m| && Rising(m[..i]) && m[i].start != m[i - 1].start && m[i].limit != m[i - 1].limit
    ensures Rising(m[..i + 1])
  {
    assert forall x :: 0 <= x < i ==> m[..i + 1][x] == m[..i][x];
  }

  predicate Hollow(r: Range) {
    r.start == r.limit && (!r.includeStart || !r.includeLimit)
  }

  method DropHollow(rs: seq<Range>) returns (m: seq<Range>)
    ensures forall r :: r in m <==> r in rs && !Hollow(r)
    ensures Apart(rs) ==> Apart(m)
    ensures Rising(rs) ==> Rising(m)
    ensures SameCover(m, rs)
  {
    m := [];
    for i := 0 to |rs|
      invariant forall r :: r in m <==> r in rs[..i] && !Hollow(r)
      invariant Apart(rs) ==> Apart(m)
      invariant Rising(rs) ==> Rising(m)
    {
      assert rs[..i + 1] == rs[..i] + [rs[i]];
      if !Hollow(rs[i]) {
        assert Apart(rs) ==> forall r :: r in rs[..i] ==> r.limit < rs[i].start;
        assert Rising(rs) ==> forall r :: r in rs[..i] ==> r.start < rs[i].start && r.limit < rs[i].limit;
        m := m + [rs[i]];
      }
    }
    assert rs[..|rs|] == rs;
  }

  lemma ApartRises(rs: seq<Range>)
    requires Apart(rs) && WellFormed(rs)
    ensures Rising(rs)
  {
    assert forall i, j :: 0 <= i < j < |rs| ==> rs[i].start <= rs[i].limit < rs[j].start <= rs[j].limit;
  }

  /** Rising ranges, none of them empty or upside down: what the source asserts of the result. */
  predicate Fixed(rs: seq<Range>) {
    Rising(rs) && forall r :: r in rs ==> r.start <= r.limit && Holds(r, r.start)
  }

  /**
   * FixInputRange: of mergeable ranges, what it leaves covers the same keys, rises and has no empty range; true
   * if there are any. Merged, any ranges at all that are not upside down come out apart and rising.
   */
  method FixInputRange(ranges: seq<Range>, sort: bool, merge: bool) returns (ok: bool, m: seq<Range>)
    requires !sort ==> InOrder(ranges)
    ensures (forall r :: r in m ==> !Hollow(r)) && (ok <==> m != [])
    ensures Mergeable(ranges) ==> Fixed(m) && SameCover(m, ranges) && (ok <==> exists k :: Covers(ranges, k))
    ensures merge && WellFormed(ranges) ==> Apart(m) && Rising(m)
  {
    m := ranges;
    if sort {
      m := Sort(m);
    }
    SortedWellFormed(ranges, m);
    if Mergeable(ranges) {
      SortedAscend(ranges, m);
    }
    if merge {
      m := Merge(m);
    }
    m := JoinEqual(m);
    if merge && WellFormed(ranges) {
      ApartRises(m);
    }
    m := DropHollow(m);
    ok := m != [];
    if ok && Mergeable(ranges) {
      assert m[0] in m && Holds(m[0], m[0].start);
      assert Covers(m, m[0].start);
    }
  }
}
