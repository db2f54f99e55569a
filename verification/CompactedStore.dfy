/** Stores before and after their compactions: they stay layered, and no reader sees a difference. */
module CompactedStores {
  import opened Records
  import opened SnapshotStripes
  import opened LevelFiles
  import opened CompactionInputs
  import opened RunningCompactions
  import opened CompactionPickers
  import opened Compactable
  import opened ConflictChecks
  import opened CompactionRun
  import opened LevelStores

  datatype Store = Store(v: seq<seq<File>>, cs: Contents) {
    ghost predicate Proper() {
      ValidVersion(v) && Layered(v, cs)
    }

    predicate Holds(l: int, f: File, r: Record) {
      Stores(v, cs, l, f, r)
    }

    /** All its records, newer versions first. */
    ghost predicate Lists(all: seq<Record>) {
      NewestFirst(all) && forall r :: r in all <==> exists l, f :: Holds(l, f, r)
    }

    /** The newest version of a key that a reader at a snapshot may see, wherever it lies. */
    ghost predicate Finds(k: UserKey, s: nat, found: Option<Record>) {
      && (found.Some? ==> found.value.key == k && found.value.seqno <= s && exists l, f :: Holds(l, f, found.value))
      && forall l, f, q :: Holds(l, f, q) && q.key == k && q.seqno <= s ==> found.Some? && q.seqno <= found.value.seqno
    }

    ghost predicate Reads(k: UserKey, s: nat, value: Option<Value>) {
      exists found :: Finds(k, s, found) && value == ValueOf(found)
    }
  }

  function ValueOf(found: Option<Record>): Option<Value> {
    if found.Some? && found.value.kind == Put then Some(found.value.value) else None
  }

  lemma {:induction false} LookupNewest(rs: seq<Record>, k: UserKey, s: nat, q: Record)
    requires NewestFirst(rs) && q in rs && q.key == k && q.seqno <= s
    ensures Lookup(rs, k, s).Some? && q.seqno <= Lookup(rs, k, s).value.seqno
  {
    var i :| 0 <= i < |rs| && rs[i] == q;
    if !(rs[0].key == k && rs[0].seqno <= s) {
      assert rs[1..][i - 1] == q;
      assert forall x :: 0 <= x < |rs[1..]| ==> rs[1..][x] == rs[x + 1];
      LookupNewest(rs[1..], k, s, q);
    } else {
      assert i > 0 ==> rs[0].seqno > rs[i].seqno;
    }
  }

  /** A lookup in the list finds what the store finds. */
  lemma ListFinds(st: Store, all: seq<Record>, k: UserKey, s: nat)
    requires st.Lists(all)
    ensures st.Finds(k, s, Lookup(all, k, s)) && Read(all, k, s) == ValueOf(Lookup(all, k, s))
  {
    forall l, f, q | st.Holds(l, f, q) && q.key == k && q.seqno <= s
      ensures Lookup(all, k, s).Some? && q.seqno <= Lookup(all, k, s).value.seqno
    {
      assert q in all;
      LookupNewest(all, k, s, q);
    }
    LookupMember(all, k, s);
  }

  lemma FindsOne(st: Store, k: UserKey, s: nat, a: Option<Record>, b: Option<Record>)
    requires st.Proper() && st.Finds(k, s, a) && st.Finds(k, s, b)
    ensures a == b
  {
    if a.Some? && b.Some? {
      var l, f :| st.Holds(l, f, a.value);
      var m, g :| st.Holds(m, g, b.value);
      assert l == m;
    }
  }

  /** What a store reads is what any list of its records reads. */
  lemma ListReads(st: Store, all: seq<Record>, k: UserKey, s: nat, value: Option<Value>)
    requires st.Proper() && st.Lists(all)
    ensures st.Reads(k, s, value) <==> value == Read(all, k, s)
  {
    ListFinds(st, all, k, s);
    if st.Reads(k, s, value) {
      var found :| st.Finds(k, s, found) && value == ValueOf(found);
      FindsOne(st, k, s, found, Lookup(all, k, s));
    }
  }

  // ---- One compaction

  /** A compaction: what the picker chose, what the iterator ran over and put out, and the files written. */
  datatype Step = Step(c: LevelStores.Compaction, job: Job, ingestBehind: bool, preserveDeletes: bool,
                       above: seq<Record>, input: seq<Record>, below: seq<Record>, out: seq<Record>, added: seq<File>)
  {
    ghost function Task(): Rewriting.Task {
      Rewriting.Task(job, input, below)
    }

    /** It runs over the whole range of the inputs, with what the store says of the levels. */
    ghost predicate StartsFrom(st: Store) {
      && WellPicked(st.v, c) && NothingBetween(st.v, c) && job.end.None?
      && job.compaction == Some(InfoOf(st.v, c, ingestBehind, preserveDeletes))
      && Overhead(st.v, st.cs, c, above) && Merged(st.v, st.cs, c, input) && Beneath(st.v, st.cs, c, below)
    }

    /** What the iterator promises of its output. */
    ghost predicate Ran() {
      Sorted(out) && Derived(Task(), out) && ReadsPreserved(Task(), out) && DisciplinePreserved(Task(), out)
    }

    /** A file of the store before, left alone. */
    predicate Left(st: Store, l: int, f: File) {
      0 <= l < |st.v| && f in st.v[l] && Input(l, f) !in c.inputs
    }

    /** The inputs go, and new files with the output come to the output level. */
    ghost predicate Installed(st: Store, st': Store) {
      && ValidVersion(st'.v) && |st'.v| == |st.v|
      && (forall l, f :: 0 <= l < |st'.v| ==> (f in st'.v[l] <==> Left(st, l, f) || (l == c.outputLevel && f in added)))
      && (forall l, f, r :: Left(st, l, f) ==> f !in added && (Has(st'.cs, f, r) <==> Has(st.cs, f, r)))
      && (forall f, r :: f in added && Has(st'.cs, f, r) ==> r in out && f.Contains(r.key))
      && (forall r :: r in out ==> exists f :: f in added && Has(st'.cs, f, r))
    }
  }

  // ---- Putting the output in place

  /** The files of a level that are no inputs. */
  function Remaining(files: seq<File>, l: nat, inputs: seq<Input>): (r: seq<File>)
    ensures forall f :: f in r <==> f in files && Input(l, f) !in inputs
  {
    if files == [] then []
    else (if Input(l, files[0]) in inputs then [] else [files[0]]) + Remaining(files[1..], l, inputs)
  }

  lemma {:induction false} RemainingSorted(files: seq<File>, l: nat, inputs: seq<Input>)
    requires SortedLevel(files)
    ensures SortedLevel(Remaining(files, l, inputs))
  {
    if files != [] {
      SortedTail(files);
      RemainingSorted(files[1..], l, inputs);
      SortedInFront(files[0], Remaining(files[1..], l, inputs));
    }
  }

  lemma SortedTail(files: seq<File>)
    requires SortedLevel(files) && files != []
    ensures SortedLevel(files[1..]) && forall g :: g in files[1..] ==> files[0].largest <= g.smallest
  {
    var rest := files[1..];
    assert forall i :: 0 <= i < |rest| ==> rest[i] == files[i + 1];
  }

  lemma SortedInFront(f: File, files: seq<File>)
    requires SortedLevel(files) && f.smallest <= f.largest && forall g :: g in files ==> f.largest <= g.smallest
    ensures SortedLevel([f] + files)
  {
    var all := [f] + files;
    forall i, j | 0 <= i < j < |all| ensures all[i].largest <= all[j].smallest {
      assert all[j] in files;
    }
  }

  /** A file goes behind those that lie before it. */
  function WithFile(files: seq<File>, f: File): (r: seq<File>)
    ensures forall g :: g in r <==> g in files || g == f
  {
    if files == [] || files[0].largest >= f.smallest then [f] + files else [files[0]] + WithFile(files[1..], f)
  }

  lemma {:induction false} WithFileSorted(files: seq<File>, f: File)
    requires SortedLevel(files) && f.smallest <= f.largest && forall g :: g in files ==> !Overlaps(g, f.smallest, f.largest)
    ensures SortedLevel(WithFile(files, f))
  {
    if files == [] || files[0].largest >= f.smallest {
      forall g | g in files ensures f.largest <= g.smallest {
        var i :| 0 <= i < |files| && files[i] == g;
        assert files[0] in files;
      }
      SortedInFront(f, files);
    } else {
      SortedTail(files);
      WithFileSorted(files[1..], f);
      SortedInFront(files[0], WithFile(files[1..], f));
    }
  }

  lemma OutputIsOlder(st: Store, e: Step, l: int, f: File, r: Record, q: Record)
    requires st.Proper() && e.StartsFrom(st) && e.Ran() && IsAbove(st.v, st.cs, e.c, l, f, r) && q in e.out && r.key == q.key
    ensures q.seqno < r.seqno
  {
    var x :| x in e.input && DerivedFrom(e.Task(), x, q);
    var m, g :| IsInput(st.v, st.cs, e.c, m, g, x);
    AboveIsNewer(st.v, st.cs, e.c, l, f, r, m, g, x);
  }

  lemma OutputIsNewer(st: Store, e: Step, r: Record, m: int, g: File, q: Record)
    requires st.Proper() && e.StartsFrom(st) && e.Ran() && r in e.out && IsBelow(st.v, st.cs, e.c, m, g, q) && r.key == q.key
    ensures q.seqno < r.seqno && m > e.c.outputLevel
  {
    var x :| x in e.input && DerivedFrom(e.Task(), x, r);
    var l, f :| IsInput(st.v, st.cs, e.c, l, f, x);
    BelowIsOlder(st.v, st.cs, e.c, l, f, x, m, g, q);
  }

  /** What the store after it holds: what it left, and its output. */
  lemma HeldAfter(st: Store, e: Step, st': Store, l: int, f: File, r: Record)
    requires e.StartsFrom(st) && e.Installed(st, st') && st'.Holds(l, f, r)
    ensures || (st.Holds(l, f, r) && Input(l, f) !in e.c.inputs)
            || (l == e.c.outputLevel && f in e.added && r in e.out && f.Contains(r.key))
  {
  }

  lemma DeeperIsOlder(st: Store, e: Step, st': Store, l: int, f: File, r: Record, m: int, g: File, q: Record)
    requires st.Proper() && e.StartsFrom(st) && e.Ran() && e.Installed(st, st')
    requires st'.Holds(l, f, r) && st'.Holds(m, g, q) && l < m && r.key == q.key
    ensures q.seqno < r.seqno
  {
    HeldAfter(st, e, st', l, f, r);
    HeldAfter(st, e, st', m, g, q);
    if f in e.added && l == e.c.outputLevel && r in e.out {
      OutputIsNewer(st, e, r, m, g, q);
    } else if g in e.added && m == e.c.outputLevel && q in e.out {
      OutputIsOlder(st, e, l, f, r, q);
    }
  }

  lemma OneOfANumber(st: Store, e: Step, st': Store, l: int, f: File, r: Record, g: File, q: Record)
    requires st.Proper() && e.StartsFrom(st) && e.Ran() && e.Installed(st, st')
    requires st'.Holds(l, f, r) && st'.Holds(l, g, q) && r.key == q.key && r.seqno == q.seqno
    ensures r == q
  {
    HeldAfter(st, e, st', l, f, r);
    HeldAfter(st, e, st', l, g, q);
    if r in e.out && q in e.out {
      var i :| 0 <= i < |e.out| && e.out[i] == r;
      var j :| 0 <= j < |e.out| && e.out[j] == q;
      assert i < j ==> Before(e.out[i], e.out[j]);
      assert j < i ==> Before(e.out[j], e.out[i]);
    } else if r in e.out && st.Holds(l, g, q) && l == e.c.outputLevel && Input(l, g) !in e.c.inputs {
      OutputIsNewer(st, e, r, l, g, q);
    } else if q in e.out && st.Holds(l, f, r) && l == e.c.outputLevel && Input(l, f) !in e.c.inputs {
      OutputIsNewer(st, e, q, l, f, r);
    }
  }

  /** The store stays layered. */
  lemma StepKeepsLayers(st: Store, e: Step, st': Store)
    requires st.Proper() && e.StartsFrom(st) && e.Ran() && e.Installed(st, st')
    ensures st'.Proper()
  {
    forall l, f, r | Stores(st'.v, st'.cs, l, f, r) ensures f.Contains(r.key) {
      HeldAfter(st, e, st', l, f, r);
    }
    forall l, f, r, g, q | Stores(st'.v, st'.cs, l, f, r) && Stores(st'.v, st'.cs, l, g, q) && r.key == q.key && r.seqno == q.seqno
      ensures r == q
    {
      OneOfANumber(st, e, st', l, f, r, g, q);
    }
    forall l, f, r, m, g, q | Stores(st'.v, st'.cs, l, f, r) && Stores(st'.v, st'.cs, m, g, q) && l < m && r.key == q.key
      ensures q.seqno < r.seqno
    {
      DeeperIsOlder(st, e, st', l, f, r, m, g, q);
    }
  }

  // ---- What readers see

  lemma ListsBefore(st: Store, e: Step)
    requires st.Proper() && e.StartsFrom(st)
    ensures st.Lists(e.above + (e.input + e.below))
  {
    var all := e.above + (e.input + e.below);
    StoreInOrder(st.v, st.cs, e.c, e.above, e.input, e.below);
    forall r ensures r in all <==> exists l, f :: st.Holds(l, f, r) {
      if r in all {
        FromStore(st, e, r);
      }
      if l, f :| st.Holds(l, f, r) {
        assert IsAbove(st.v, st.cs, e.c, l, f, r) || IsInput(st.v, st.cs, e.c, l, f, r) || IsBelow(st.v, st.cs, e.c, l, f, r);
      }
    }
  }

  lemma FromStore(st: Store, e: Step, r: Record)
    requires e.StartsFrom(st) && r in e.above + (e.input + e.below)
    ensures exists l, f :: st.Holds(l, f, r)
  {
    if r in e.above {
      var l, f :| IsAbove(st.v, st.cs, e.c, l, f, r);
      assert st.Holds(l, f, r);
    } else if r in e.below {
      var l, f :| IsBelow(st.v, st.cs, e.c, l, f, r);
      assert st.Holds(l, f, r);
    } else {
      var l, f :| IsInput(st.v, st.cs, e.c, l, f, r);
      assert st.Holds(l, f, r);
    }
  }

  lemma OrderAfter(st: Store, e: Step)
    requires st.Proper() && e.StartsFrom(st) && e.Ran()
    ensures NewestFirst(e.above + (e.out + e.below))
  {
    SortedNewestFirst(e.out);
    SortedNewestFirst(e.below);
    forall r, q | r in e.out && q in e.below && r.key == q.key ensures q.seqno < r.seqno {
      var m, g :| IsBelow(st.v, st.cs, e.c, m, g, q);
      OutputIsNewer(st, e, r, m, g, q);
    }
    NewestFirstOver(e.out, e.below);
    forall r, q | r in e.above && q in e.out + e.below && r.key == q.key ensures q.seqno < r.seqno {
      var l, f :| IsAbove(st.v, st.cs, e.c, l, f, r);
      if q in e.out {
        OutputIsOlder(st, e, l, f, r, q);
      } else {
        var m, g :| IsBelow(st.v, st.cs, e.c, m, g, q);
        AboveIsNewer(st.v, st.cs, e.c, l, f, r, m, g, q);
      }
    }
    NewestFirstOver(e.above, e.out + e.below);
  }

  lemma IntoStore(st: Store, e: Step, st': Store, r: Record)
    requires e.StartsFrom(st) && e.Installed(st, st') && r in e.above + (e.out + e.below)
    ensures exists l, f :: st'.Holds(l, f, r)
  {
    if r in e.above {
      var l, f :| IsAbove(st.v, st.cs, e.c, l, f, r);
      assert e.Left(st, l, f) && st'.Holds(l, f, r);
    } else if r in e.below {
      var l, f :| IsBelow(st.v, st.cs, e.c, l, f, r);
      assert e.Left(st, l, f) && st'.Holds(l, f, r);
    } else {
      var f :| f in e.added && Has(st'.cs, f, r);
      assert st'.Holds(e.c.outputLevel, f, r);
    }
  }

  lemma ListsAfter(st: Store, e: Step, st': Store)
    requires st.Proper() && e.StartsFrom(st) && e.Ran() && e.Installed(st, st')
    ensures st'.Lists(e.above + (e.out + e.below))
  {
    var all := e.above + (e.out + e.below);
    OrderAfter(st, e);
    forall r ensures r in all <==> exists l, f :: st'.Holds(l, f, r) {
      if r in all {
        IntoStore(st, e, st', r);
      }
      if l, f :| st'.Holds(l, f, r) {
        HeldAfter(st, e, st', l, f, r);
        assert r in e.out || IsAbove(st.v, st.cs, e.c, l, f, r) || IsBelow(st.v, st.cs, e.c, l, f, r);
      }
    }
  }

  // ---- The keys whose reads are promised

  ghost predicate Descending(vs: seq<Record>) {
    forall i, j :: 0 <= i < j < |vs| ==> vs[i].seqno > vs[j].seqno
  }

  lemma {:induction false} VersionsDescend(rs: seq<Record>, k: UserKey)
    requires NewestFirst(rs)
    ensures Descending(Versions(rs, k))
  {
    if rs != [] {
      var rest := rs[1..];
      assert forall x :: 0 <= x < |rest| ==> rest[x] == rs[x + 1];
      VersionsDescend(rest, k);
      VersionsMember(rest, k);
      if rs[0].key == k {
        forall v | v in Versions(rest, k) ensures v.seqno < rs[0].seqno {
          var x :| 0 <= x < |rest| && rest[x] == v;
        }
      }
    }
  }

  lemma {:induction false} DescendingIsOne(a: seq<Record>, b: seq<Record>)
    requires Descending(a) && Descending(b) && forall v :: v in a <==> v in b
    ensures a == b
  {
    assert b != [] ==> b[0] in b;
    if a != [] {
      assert a[0] in b && b[0] in a;
      var i :| 0 <= i < |b| && b[i] == a[0];
      var j :| 0 <= j < |a| && a[j] == b[0];
      assert a[0] == b[0];
      forall v ensures v in a[1..] <==> v in b[1..] {
        TailMember(a, v);
        TailMember(b, v);
      }
      DescendingIsOne(a[1..], b[1..]);
      assert a == [a[0]] + a[1..] && b == [b[0]] + b[1..];
    }
  }

  lemma TailMember(a: seq<Record>, v: Record)
    requires a != [] && Descending(a)
    ensures v in a[1..] <==> v in a && v != a[0]
  {
    assert a == [a[0]] + a[1..];
    if v in a[1..] {
      var i :| 0 <= i < |a[1..]| && a[1..][i] == v;
      assert a[i + 1] == v;
    }
  }

  /** The history of a key is the same in every list of a store. */
  lemma OneHistory(st: Store, a: seq<Record>, b: seq<Record>, k: UserKey)
    requires st.Lists(a) && st.Lists(b)
    ensures Versions(a, k) == Versions(b, k) && (UsesSingleDelete(a, k) <==> UsesSingleDelete(b, k))
  {
    forall r ensures r in a <==> r in b {
    }
    VersionsDescend(a, k);
    VersionsDescend(b, k);
    VersionsMember(a, k);
    VersionsMember(b, k);
    DescendingIsOne(Versions(a, k), Versions(b, k));
    if UsesSingleDelete(a, k) {
      var i :| 0 <= i < |a| && a[i].key == k && a[i].kind == SingleDelete;
      assert a[i] in b;
    }
    if UsesSingleDelete(b, k) {
      var i :| 0 <= i < |b| && b[i].key == k && b[i].kind == SingleDelete;
      assert b[i] in a;
    }
  }

  /** A key whose reads are promised: it is never written with SingleDelete, or as SingleDelete demands. */
  ghost predicate Promises(all: seq<Record>, k: UserKey) {
    UsesSingleDelete(all, k) ==> SingleDeleteDiscipline(all, k)
  }

  lemma NoSingleDeleteAfter(e: Step, k: UserKey)
    requires Derived(e.Task(), e.out) && !UsesSingleDelete(e.above + (e.input + e.below), k)
    ensures !UsesSingleDelete(e.input, k) && !UsesSingleDelete(e.above + (e.out + e.below), k)
  {
    var all := e.above + (e.input + e.below);
    forall r | r in all && r.key == k ensures r.kind != SingleDelete {
      var i :| 0 <= i < |all| && all[i] == r;
    }
    forall r | r in e.out && r.key == k ensures r.kind != SingleDelete {
      var x :| x in e.input && DerivedFrom(e.Task(), x, r);
      assert x in all;
    }
    var all' := e.above + (e.out + e.below);
    forall i | 0 <= i < |all'| && all'[i].key == k ensures all'[i].kind != SingleDelete {
      assert all'[i] in e.above || all'[i] in e.out || all'[i] in e.below;
    }
    forall i | 0 <= i < |e.input| && e.input[i].key == k ensures e.input[i].kind != SingleDelete {
      assert e.input[i] in all;
    }
  }

  lemma PromiseKept(e: Step, k: UserKey)
    requires e.job.end.None? && e.Ran() && Promises(e.above + (e.input + e.below), k)
    ensures e.Task().Promised(k) && Promises(e.above + (e.out + e.below), k)
  {
    if UsesSingleDelete(e.above + (e.input + e.below), k) {
      UnderNewerVersions(e.Task(), e.out, e.above, k, 0);
    } else {
      NoSingleDeleteAfter(e, k);
    }
  }

  ghost predicate Promised(st: Store, k: UserKey) {
    exists all :: st.Lists(all) && Promises(all, k)
  }

  /** One compaction changes no promised read at any view. */
  lemma StepKeepsReads(st: Store, e: Step, st': Store, k: UserKey, s: nat)
    requires st.Proper() && e.StartsFrom(st) && e.Ran() && e.Installed(st, st')
    requires Promised(st, k) && IsView(e.job.snapshots, s)
    ensures st'.Proper() && Promised(st', k)
    ensures forall value :: st'.Reads(k, s, value) <==> st.Reads(k, s, value)
  {
    var all, all' := e.above + (e.input + e.below), e.above + (e.out + e.below);
    StepKeepsLayers(st, e, st');
    ListsBefore(st, e);
    ListsAfter(st, e, st');
    var one :| st.Lists(one) && Promises(one, k);
    OneHistory(st, one, all, k);
    PromiseKept(e, k);
    UnderNewerVersions(e.Task(), e.out, e.above, k, s);
    forall value ensures st'.Reads(k, s, value) <==> st.Reads(k, s, value) {
      ListReads(st, all, k, s, value);
      ListReads(st', all', k, s, value);
    }
  }

  // ---- Runs

  ghost predicate IsRun(stores: seq<Store>, steps: seq<Step>) {
    && |stores| == |steps| + 1 && stores[0].Proper()
    && forall i :: 0 <= i < |steps| ==>
         steps[i].StartsFrom(stores[i]) && steps[i].Ran() && steps[i].Installed(stores[i], stores[i + 1])
  }

  /** Over every run of compactions, a reader whose snapshot is kept alive reads what it read at first. */
  lemma {:induction false} RunsKeepReads(stores: seq<Store>, steps: seq<Step>, n: nat, k: UserKey, s: nat)
    requires IsRun(stores, steps) && n < |stores| && Promised(stores[0], k)
    requires forall i :: 0 <= i < n ==> IsView(steps[i].job.snapshots, s)
    ensures stores[n].Proper() && Promised(stores[n], k)
    ensures forall value :: stores[n].Reads(k, s, value) <==> stores[0].Reads(k, s, value)
  {
    if n > 0 {
      RunsKeepReads(stores, steps, n - 1, k, s);
      StepKeepsReads(stores[n - 1], steps[n - 1], stores[n], k, s);
    }
  }

  // ---- Running one

  /** The file that holds the whole output. */
  function OutputFile(out: seq<Record>, number: nat, size: nat): File
    requires out != []
  {
    File(number, out[0].key, out[|out| - 1].key, size, size)
  }

  lemma OutputInFile(out: seq<Record>, number: nat, size: nat)
    requires out != [] && Sorted(out)
    ensures var f := OutputFile(out, number, size);
            f.smallest <= f.largest && forall r :: r in out ==> f.Contains(r.key)
  {
    forall i | 0 <= i < |out| ensures out[0].key <= out[i].key <= out[|out| - 1].key {
      assert (0 < i ==> Before(out[0], out[i])) && (i < |out| - 1 ==> Before(out[i], out[|out| - 1]));
    }
  }

  /** The output lies in the range of the compaction. */
  lemma OutputInRange(st: Store, e: Step, r: Record)
    requires st.Proper() && e.StartsFrom(st) && e.Ran() && r in e.out
    ensures e.c.smallest <= r.key <= e.c.largest
  {
    var x :| x in e.input && DerivedFrom(e.Task(), x, r);
    var l, f :| IsInput(st.v, st.cs, e.c, l, f, x);
    assert Within(Input(l, f).file, e.c.smallest, e.c.largest) && f.Contains(x.key);
  }

  lemma OutputFits(st: Store, e: Step, number: nat, size: nat)
    requires st.Proper() && e.StartsFrom(st) && e.Ran() && e.out != []
    ensures var l, f := e.c.outputLevel, OutputFile(e.out, number, size);
            SortedLevel(WithFile(Remaining(st.v[l], l, e.c.inputs), f))
  {
    var l, f := e.c.outputLevel, OutputFile(e.out, number, size);
    var files := Remaining(st.v[l], l, e.c.inputs);
    OutputInFile(e.out, number, size);
    OutputInRange(st, e, e.out[0]);
    OutputInRange(st, e, e.out[|e.out| - 1]);
    RemainingSorted(st.v[l], l, e.c.inputs);
    forall g | g in files ensures !Overlaps(g, f.smallest, f.largest) {
      assert LeftOut(st.v, e.c, l, g);
    }
    WithFileSorted(files, f);
  }

  /** Takes the inputs out and puts one file with the output in. */
  function Replaced(v: seq<seq<File>>, c: LevelStores.Compaction, added: seq<File>): seq<seq<File>> {
    seq(|v|, l requires 0 <= l < |v| =>
      if l == c.outputLevel && added != [] then WithFile(Remaining(v[l], l, c.inputs), added[0])
      else Remaining(v[l], l, c.inputs))
  }

  lemma ReplacedValid(st: Store, e: Step, number: nat, size: nat)
    requires st.Proper() && e.StartsFrom(st) && e.Ran()
    requires e.added == if e.out == [] then [] else [OutputFile(e.out, number, size)]
    ensures ValidVersion(Replaced(st.v, e.c, e.added))
  {
    var v' := Replaced(st.v, e.c, e.added);
    if e.out != [] {
      OutputInFile(e.out, number, size);
      OutputFits(st, e, number, size);
    }
    forall l | 0 <= l < |v'| ensures ValidLevel(l, v'[l]) {
      assert ValidLevel(l, st.v[l]);
      if l > 0 {
        RemainingSorted(st.v[l], l, e.c.inputs);
      }
    }
  }

  lemma ReplacedInstalled(st: Store, e: Step, number: nat, size: nat)
    requires st.Proper() && e.StartsFrom(st) && e.Ran()
    requires forall l, f :: 0 <= l < |st.v| && f in st.v[l] ==> f.number != number
    requires e.added == if e.out == [] then [] else [OutputFile(e.out, number, size)]
    ensures e.Installed(st, Store(Replaced(st.v, e.c, e.added), if e.out == [] then st.cs else st.cs[number := e.out]))
  {
    var v' := Replaced(st.v, e.c, e.added);
    var cs' := if e.out == [] then st.cs else st.cs[number := e.out];
    ReplacedValid(st, e, number, size);
    forall l, f, r | e.Left(st, l, f) ensures f !in e.added && (Has(cs', f, r) <==> Has(st.cs, f, r)) {
      assert f.number != number;
    }
    forall f, r | f in e.added && Has(cs', f, r) ensures r in e.out && f.Contains(r.key) {
      OutputInFile(e.out, number, size);
    }
    forall r | r in e.out ensures exists f :: f in e.added && Has(cs', f, r) {
      assert e.added[0] in e.added && Has(cs', e.added[0], r);
    }
  }

  /** A compaction from the picker's choice to the new version of the store. */
  method CompactStore(st: Store, c: LevelStores.Compaction, job: Job, ingestBehind: bool, preserveDeletes: bool,
                      ghost above: seq<Record>, input: seq<Record>, ghost below: seq<Record>, number: nat, size: nat)
    returns (st': Store, ghost e: Step)
    requires st.Proper() && WellPicked(st.v, c) && NothingBetween(st.v, c) && job.end.None?
    requires job.compaction == Some(InfoOf(st.v, c, ingestBehind, preserveDeletes)) && SentinelFree(job, input)
    requires Ascending(job.snapshots) && IsView(job.snapshots, job.earliestWriteConflictSnapshot)
    requires Overhead(st.v, st.cs, c, above) && Merged(st.v, st.cs, c, input) && Beneath(st.v, st.cs, c, below)
    requires forall l, f :: 0 <= l < |st.v| && f in st.v[l] ==> f.number != number
    ensures e.job == job && e.StartsFrom(st) && e.Ran() && e.Installed(st, st') && st'.Proper()
  {
    var out := CompactPicked(st.v, st.cs, c, job, input, below, above, ingestBehind, preserveDeletes);
    var added := if out == [] then [] else [OutputFile(out, number, size)];
    e := Step(c, job, ingestBehind, preserveDeletes, above, input, below, out, added);
    ReplacedInstalled(st, e, number, size);
    st' := Store(Replaced(st.v, c, added), if out == [] then st.cs else st.cs[number := out]);
    StepKeepsLayers(st, e, st');
  }
}
