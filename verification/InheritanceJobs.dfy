/**
 * What a whole job writes as its inheritance tree: exactly when the one-pass purge is the pruning of every
 * input's forest, and why it is along every history of jobs.
 */
module InheritanceJobs {
  import opened Records
  import opened InheritanceTree

  // ---- The purge works on the pruned forest

  /** No number stands next to itself unless it is needed, so the purge has nothing more to drop. */
  predicate Reduced(needed: set<nat>, out: seq<nat>) {
    forall k :: 0 < k < |out| ==> out[k - 1] != out[k] || out[k] in needed
  }

  lemma ReducedPush(needed: set<nat>, out: seq<nat>, i: nat)
    ensures Reduced(needed, out + [i]) <==>
              Reduced(needed, out) && (out != [] && out[|out| - 1] == i ==> i in needed)
  {
    var all := out + [i];
    if Reduced(needed, all) {
      assert forall k :: 0 <= k < |out| ==> out[k] == all[k];
      assert out != [] ==> all[|out| - 1] == out[|out| - 1] && all[|out|] == i;
    }
  }

  lemma ReducedPrefix(needed: set<nat>, a: seq<nat>, b: seq<nat>)
    requires Reduced(needed, a + b)
    ensures Reduced(needed, a)
  {
    assert forall k :: 0 <= k < |a| ==> a[k] == (a + b)[k];
  }

  lemma {:induction false} PurgeSettles(needed: set<nat>, out: seq<nat>, walk: seq<nat>)
    requires Reduced(needed, out)
    ensures Reduced(needed, Purge(needed, out, walk).0)
    decreases |walk|
  {
    if walk != [] {
      if out != [] && out[|out| - 1] == walk[0] && walk[0] !in needed {
        PurgeSettles(needed, out[..|out| - 1], walk[1..]);
      } else {
        PurgeSettles(needed, out + [walk[0]], walk[1..]);
      }
    }
  }

  /** Whatever is dropped, a number leaves the output for each that is not appended. */
  lemma {:induction false} PurgeShortens(needed: set<nat>, out: seq<nat>, walk: seq<nat>)
    ensures |Purge(needed, out, walk).0| + 2 * Purge(needed, out, walk).1 == |out| + |walk|
    decreases |walk|
  {
    if walk != [] {
      if out != [] && out[|out| - 1] == walk[0] && walk[0] !in needed {
        PurgeShortens(needed, out[..|out| - 1], walk[1..]);
      } else {
        PurgeShortens(needed, out + [walk[0]], walk[1..]);
      }
    }
  }

  lemma {:induction false} PurgeAppend(needed: set<nat>, out: seq<nat>, a: seq<nat>, b: seq<nat>)
    ensures var (mid, m) := Purge(needed, out, a);
            var (end, n) := Purge(needed, mid, b);
            Purge(needed, out, a + b) == (end, m + n)
    decreases |a|
  {
    if a == [] {
      assert a + b == b;
    } else {
      assert (a + b)[1..] == a[1..] + b;
      if out != [] && out[|out| - 1] == a[0] && a[0] !in needed {
        PurgeAppend(needed, out[..|out| - 1], a[1..], b);
      } else {
        PurgeAppend(needed, out + [a[0]], a[1..], b);
      }
    }
  }

  lemma PurgeAround(needed: set<nat>, out: seq<nat>, i: nat, inside: seq<nat>, after: seq<nat>)
    ensures var (a, k) := Purge(needed, out, [i]);
            var (b, l) := Purge(needed, a, inside);
            var (c, m) := Purge(needed, b, [i]);
            var (d, n) := Purge(needed, c, after);
            Purge(needed, out, Around(i, inside, after)) == (d, k + l + m + n)
  {
    var a := Purge(needed, out, [i]).0;
    var b := Purge(needed, a, inside).0;
    PurgeAppend(needed, out, [i], inside + ([i] + after));
    PurgeAppend(needed, a, inside, [i] + after);
    PurgeAppend(needed, b, [i], after);
  }

  /** The purge undoes a number that nothing needs when it comes again: once out and once in, or in and out. */
  lemma PurgeTwice(needed: set<nat>, out: seq<nat>, i: nat)
    requires Reduced(needed, out) && i !in needed
    ensures var (once, m) := Purge(needed, out, [i]);
            var (twice, n) := Purge(needed, once, [i]);
            twice == out && m + n == 1
  {
    if out != [] && out[|out| - 1] == i {
      var once := out[..|out| - 1];
      PurgeStep(needed, out, i);
      assert once != [] ==> once[|once| - 1] != i;
      PurgeStep(needed, once, i);
      assert once + [i] == out;
    } else {
      PurgeStep(needed, out, i);
      PurgeStep(needed, out + [i], i);
      assert (out + [i])[..|out|] == out;
    }
  }

  lemma PurgeStep(needed: set<nat>, out: seq<nat>, i: nat)
    ensures Purge(needed, out, [i]) == if out != [] && out[|out| - 1] == i && i !in needed then (out[..|out| - 1], 1)
                                       else (out + [i], 0)
  {
  }

  /** Purging a forest's walk is purging the walk of the pruned forest, with the pruned nodes counted. */
  lemma {:induction false} PurgePruned(needed: set<nat>, out: seq<nat>, f: Forest)
    requires Reduced(needed, out)
    ensures var (end, n) := Purge(needed, out, Encode(Prune(needed, f)));
            Purge(needed, out, Encode(f)) == (end, n + Dropped(needed, f))
    decreases f
  {
    if f.Tree? {
      var c', s' := Prune(needed, f.children), Prune(needed, f.siblings);
      var a := Purge(needed, out, [f.id]).0;
      PurgeSettles(needed, out, [f.id]);
      PurgePruned(needed, a, f.children);
      var b := Purge(needed, a, Encode(c')).0;
      PurgeSettles(needed, a, Encode(c'));
      PurgeSettles(needed, b, [f.id]);
      PurgePruned(needed, Purge(needed, b, [f.id]).0, f.siblings);
      PurgeAround(needed, out, f.id, Encode(f.children), Encode(f.siblings));
      if c'.Nil? && f.id !in needed {
        PurgeTwice(needed, out, f.id);
      } else {
        PurgeAround(needed, out, f.id, Encode(c'), Encode(s'));
      }
    }
  }

  /** The purge drops nothing exactly when output and walk together are settled. */
  lemma {:induction false} QuietPurge(needed: set<nat>, out: seq<nat>, walk: seq<nat>)
    requires Reduced(needed, out)
    ensures Purge(needed, out, walk).1 == 0 <==> Reduced(needed, out + walk)
    ensures Purge(needed, out, walk).1 == 0 ==> Purge(needed, out, walk).0 == out + walk
    decreases |walk|
  {
    if walk == [] {
      assert out + walk == out;
    } else {
      assert out + [walk[0]] + walk[1..] == out + walk;
      ReducedPush(needed, out, walk[0]);
      if Reduced(needed, out + [walk[0]]) {
        QuietPurge(needed, out + [walk[0]], walk[1..]);
      } else {
        assert Purge(needed, out[..|out| - 1], walk[1..]).1 >= 0;
        if Reduced(needed, out + walk) {
          ReducedPrefix(needed, out + [walk[0]], walk[1..]);
        }
      }
    }
  }

  // ---- The condition on the pruned forest

  /** No two neighbouring siblings have one number, unless it is needed. */
  predicate NeighboursDiffer(needed: set<nat>, f: Forest) {
    f.Tree? ==> Apart(needed, f.id, f.siblings) && NeighboursDiffer(needed, f.children)
                && NeighboursDiffer(needed, f.siblings)
  }

  predicate Apart(needed: set<nat>, last: nat, f: Forest) {
    f.Tree? && f.id == last ==> last in needed
  }

  /** Every leaf is needed. */
  predicate Grown(needed: set<nat>, f: Forest) {
    f.Tree? ==> (f.children.Nil? ==> f.id in needed) && Grown(needed, f.children) && Grown(needed, f.siblings)
  }

  lemma {:induction false} PruneGrows(needed: set<nat>, f: Forest)
    ensures Grown(needed, Prune(needed, f))
  {
    if f.Tree? {
      PruneGrows(needed, f.children);
      PruneGrows(needed, f.siblings);
    }
  }

  /** Where a tree is left, the number before is that of a child, or its own when it is a needed leaf. */
  lemma LeavingSettles(needed: set<nat>, out: seq<nat>, i: nat, c: Forest)
    requires Proper(i, c) && (c.Nil? ==> i in needed)
    ensures Reduced(needed, out + [i] + Encode(c) + [i]) <==> Reduced(needed, out + [i] + Encode(c))
  {
    var inner := out + [i] + Encode(c);
    ReducedPush(needed, inner, i);
    if c.Tree? {
      LastIsRoot(c);
      ProperRoots(i, c);
      assert inner[|inner| - 1] == Encode(c)[|Encode(c)| - 1];
    }
  }

  lemma {:induction false} ReducedEncoded(needed: set<nat>, out: seq<nat>, parent: nat, f: Forest)
    requires out != [] && Reduced(needed, out) && Proper(parent, f) && Grown(needed, f)
    ensures Reduced(needed, out + Encode(f)) <==> Apart(needed, out[|out| - 1], f) && NeighboursDiffer(needed, f)
    decreases f
  {
    match f
    case Nil =>
      assert out + Encode(f) == out;
    case Tree(i, c, s) =>
      var entered := out + [i];
      var inner := entered + Encode(c);
      AroundFrom(out, i, Encode(c), Encode(s));
      AroundFrom(out, i, Encode(c), []);
      ReducedPush(needed, out, i);
      LeavingSettles(needed, out, i, c);
      if Reduced(needed, inner + [i] + Encode(s)) {
        ReducedPrefix(needed, inner + [i], Encode(s));
        ReducedPrefix(needed, entered, Encode(c));
      }
      if Reduced(needed, entered) {
        ReducedEncoded(needed, entered, i, c);
        if Reduced(needed, inner) {
          ReducedEncoded(needed, inner + [i], parent, s);
        }
      }
  }

  // ---- One file

  lemma {:induction false} PurgeAbove(needed: set<nat>, base: seq<nat>, out: seq<nat>, walk: seq<nat>)
    requires NeverEmpty(needed, out, walk)
    ensures Purge(needed, base + out, walk) == (base + Purge(needed, out, walk).0, Purge(needed, out, walk).1)
    decreases |walk|
  {
    if walk != [] {
      if out[|out| - 1] == walk[0] && walk[0] !in needed {
        PurgeAbove(needed, base, out[..|out| - 1], walk[1..]);
        assert (base + out)[..|base + out| - 1] == base + out[..|out| - 1];
      } else {
        PurgeAbove(needed, base, out + [walk[0]], walk[1..]);
        assert base + out + [walk[0]] == base + (out + [walk[0]]);
      }
    }
  }

  /**
   * The purge of a forest's walk above a file's number is the pruned forest's walk, and counts the pruned nodes,
   * if and only if no neighbouring siblings of the pruned forest share a number that nothing needs.
   */
  lemma PurgeExact(needed: set<nat>, own: nat, f: Forest)
    requires Proper(own, f)
    ensures var (end, n) := Purge(needed, [own], Encode(f));
            && (end == [own] + Encode(Prune(needed, f)) <==> NeighboursDiffer(needed, Prune(needed, f)))
            && n >= Dropped(needed, f) && (n == Dropped(needed, f) <==> NeighboursDiffer(needed, Prune(needed, f)))
  {
    var p := Prune(needed, f);
    PurgePruned(needed, [own], f);
    PruneProper(needed, own, f);
    PruneGrows(needed, f);
    ReducedEncoded(needed, [own], own, p);
    QuietPurge(needed, [own], Encode(p));
    PurgeShortens(needed, [own], Encode(p));
  }

  // ---- Whatever it drops, the purge leaves a walk that verification accepts

  lemma {:induction false} CheckAppend(own: nat, st: seq<nat>, a: seq<nat>, b: seq<nat>)
    ensures Check(own, st, a + b) == match Check(own, st, a) case None => None case Some(st') => Check(own, st', b)
    decreases |a|
  {
    if a == [] {
      assert a + b == b;
    } else {
      assert (a + b)[1..] == a[1..] + b;
      if st != [] && st[|st| - 1] == a[0] {
        CheckAppend(own, st[..|st| - 1], a[1..], b);
      } else if st != [] || a[0] != own {
        CheckAppend(own, st + [a[0]], a[1..], b);
      }
    }
  }

  /** The verifying pass never has a number next to itself on its stack. */
  predicate Tight(own: nat, st: seq<nat>) {
    Reduced({}, [own] + st)
  }

  lemma TightPush(own: nat, st: seq<nat>, i: nat)
    ensures Tight(own, st + [i]) <==> Tight(own, st) && i != Top(own, st)
  {
    assert [own] + (st + [i]) == [own] + st + [i];
    ReducedPush({}, [own] + st, i);
  }

  lemma {:induction false} CheckTight(own: nat, st: seq<nat>, walk: seq<nat>)
    requires Tight(own, st)
    ensures Check(own, st, walk).Some? ==> Tight(own, Check(own, st, walk).value)
    decreases |walk|
  {
    if walk != [] {
      TightPush(own, st, walk[0]);
      if st != [] && st[|st| - 1] == walk[0] {
        assert st == st[..|st| - 1] + [walk[0]];
        TightPush(own, st[..|st| - 1], walk[0]);
        CheckTight(own, st[..|st| - 1], walk[1..]);
      } else if st != [] || walk[0] != own {
        CheckTight(own, st + [walk[0]], walk[1..]);
      }
    }
  }

  lemma CheckStep(own: nat, st: seq<nat>, i: nat)
    ensures Check(own, st, [i]) == if st == [] && i == own then None
                                   else if st != [] && st[|st| - 1] == i then Some(st[..|st| - 1]) else Some(st + [i])
  {
  }

  lemma CheckTwice(own: nat, st: seq<nat>, i: nat, walk: seq<nat>)
    requires Tight(own, st) && Check(own, st, [i, i] + walk).Some?
    ensures Check(own, st, [i, i] + walk) == Check(own, st, walk)
  {
    assert [i, i] + walk == [i] + ([i] + walk);
    CheckAppend(own, st, [i], [i] + walk);
    CheckStep(own, st, i);
    var st' := Check(own, st, [i]).value;
    CheckAppend(own, st', [i], walk);
    CheckStep(own, st', i);
    if st != [] && st[|st| - 1] == i {
      assert st == st' + [i];
      TightPush(own, st', i);
    } else {
      assert st'[..|st|] == st;
    }
  }

  /** Dropping a number that stands next to itself leaves the verdict as it was. */
  lemma CheckWithout(own: nat, out: seq<nat>, i: nat, walk: seq<nat>)
    requires Check(own, [], out + [i] + ([i] + walk)).Some?
    ensures Check(own, [], out + [i] + ([i] + walk)) == Check(own, [], out + walk)
  {
    assert out + [i] + ([i] + walk) == out + ([i, i] + walk);
    CheckAppend(own, [], out, [i, i] + walk);
    CheckAppend(own, [], out, walk);
    CheckTight(own, [], out);
    CheckTwice(own, Check(own, [], out).value, i, walk);
  }

  lemma {:induction false} PurgeStaysAccepted(needed: set<nat>, own: nat, out: seq<nat>, walk: seq<nat>)
    requires Check(own, [], out + walk).Some?
    ensures var end := Purge(needed, [own] + out, walk).0;
            end != [] && end[0] == own && Check(own, [], end[1..]) == Check(own, [], out + walk)
    decreases |walk|
  {
    if walk == [] {
      assert out + walk == out && ([own] + out)[1..] == out;
    } else {
      var i, rest := walk[0], walk[1..];
      var whole := [own] + out;
      assert walk == [i] + rest && [] + walk == walk;
      if whole[|whole| - 1] == i && i !in needed {
        var out' := out[..|out| - 1];
        assert out == out' + [i] && whole[..|whole| - 1] == [own] + out';
        CheckWithout(own, out', i, rest);
        PurgeStaysAccepted(needed, own, out', rest);
      } else {
        assert out + walk == (out + [i]) + rest && whole + [i] == [own] + (out + [i]);
        PurgeStaysAccepted(needed, own, out + [i], rest);
      }
    }
  }

  /** The forest that a file's purged walk stands for. */
  function Kept(needed: set<nat>, own: nat, f: Forest): Forest {
    var end := Purge(needed, [own], Encode(f)).0;
    if end == [] || Decode(own, end[1..]).None? then Nil else Decode(own, end[1..]).value
  }

  lemma KeptIsWritten(needed: set<nat>, own: nat, f: Forest)
    requires Proper(own, f)
    ensures Purge(needed, [own], Encode(f)).0 == [own] + Encode(Kept(needed, own, f)) && Proper(own, Kept(needed, own, f))
  {
    var end := Purge(needed, [own], Encode(f)).0;
    DecodeEncode(own, f);
    VerifyDecodes(own, Encode(f));
    assert [] + Encode(f) == Encode(f) && [own] + [] == [own];
    PurgeStaysAccepted(needed, own, [], Encode(f));
    VerifyDecodes(own, end[1..]);
    assert end == [own] + end[1..];
  }

  lemma KeptIsPruned(needed: set<nat>, own: nat, f: Forest)
    requires Proper(own, f)
    ensures Kept(needed, own, f) == Prune(needed, f) <==> NeighboursDiffer(needed, Prune(needed, f))
  {
    var kept, pruned := Kept(needed, own, f), Prune(needed, f);
    KeptIsWritten(needed, own, f);
    PurgeExact(needed, own, f);
    if NeighboursDiffer(needed, pruned) {
      assert ([own] + Encode(kept))[1..] == Encode(kept) && ([own] + Encode(pruned))[1..] == Encode(pruned);
      PruneProper(needed, own, f);
      DecodeEncode(own, kept);
      DecodeEncode(own, pruned);
    }
  }

  /** What is needed is never dropped, not even where siblings share a number. */
  lemma {:induction false} PurgeKeepsNeeded(needed: set<nat>, out: seq<nat>, walk: seq<nat>, i: nat)
    requires i in needed
    ensures multiset(Purge(needed, out, walk).0)[i] == multiset(out)[i] + multiset(walk)[i]
    decreases |walk|
  {
    if walk != [] {
      assert walk == [walk[0]] + walk[1..];
      if out != [] && out[|out| - 1] == walk[0] && walk[0] !in needed {
        assert out == out[..|out| - 1] + [walk[0]];
        PurgeKeepsNeeded(needed, out[..|out| - 1], walk[1..], i);
      } else {
        PurgeKeepsNeeded(needed, out + [walk[0]], walk[1..], i);
      }
    }
  }

  // ---- A whole job

  predicate AllReadable(files: seq<InputFile>) {
    forall k :: 0 <= k < |files| ==> files[k].Readable()
  }

  /** In every input's pruned forest neighbouring siblings differ. */
  predicate AllNeighboursDiffer(needed: set<nat>, files: seq<InputFile>) {
    forall k :: 0 <= k < |files| ==> NeighboursDiffer(needed, Prune(needed, files[k].Ancestry()))
  }

  function AllDropped(needed: set<nat>, files: seq<InputFile>): nat {
    if files == [] then 0 else Dropped(needed, files[0].Ancestry()) + AllDropped(needed, files[1..])
  }

  /** Every input file over what the purge leaves of its forest, side by side. */
  function Written(needed: set<nat>, files: seq<InputFile>): Forest {
    if files == [] then Nil
    else Tree(files[0].number, Kept(needed, files[0].number, files[0].Ancestry()), Written(needed, files[1..]))
  }

  lemma BuildOne(needed: set<nat>, out: seq<nat>, purged: nat, files: seq<InputFile>) returns (n: nat)
    requires files != [] && files[0].Readable()
    ensures var i, f := files[0].number, files[0].Ancestry();
            && Build(needed, out, purged, files)
               == Build(needed, out + [i] + Encode(Kept(needed, i, f)) + [i], purged + n, files[1..])
            && Proper(i, f) && n == Purge(needed, [i], Encode(f)).1
  {
    var i, f, walk := files[0].number, files[0].Ancestry(), files[0].tree.value;
    VerifyDecodes(i, walk);
    n := Purge(needed, [i], walk).1;
    AcceptedNeverEmpty(needed, [], i, walk);
    assert [] + [i] == [i];
    PurgeAbove(needed, out, [i], walk);
    KeptIsWritten(needed, i, f);
    assert out + ([i] + Encode(Kept(needed, i, f))) == out + [i] + Encode(Kept(needed, i, f));
  }

  /** A job over readable files writes a walk, and its count makes up for what is missing from the unpruned one. */
  lemma {:induction false} BuildWrites(needed: set<nat>, out: seq<nat>, purged: nat, files: seq<InputFile>)
    requires AllReadable(files)
    ensures var r := Build(needed, out, purged, files);
            && r.Built? && r.tree == out + Encode(Written(needed, files))
            && |r.tree| + 2 * (r.purged - purged) == |out| + |Encode(Unpruned(files))|
            && r.purged - purged >= AllDropped(needed, files)
            && (r.purged - purged == AllDropped(needed, files) <==> AllNeighboursDiffer(needed, files))
            && (Written(needed, files) == Merged(needed, files) <==> AllNeighboursDiffer(needed, files))
    decreases files
  {
    if files == [] {
      assert out + Encode(Written(needed, files)) == out;
    } else {
      var i, f := files[0].number, files[0].Ancestry();
      var n := BuildOne(needed, out, purged, files);
      var kept := Encode(Kept(needed, i, f));
      BuildWrites(needed, out + [i] + kept + [i], purged + n, files[1..]);
      AroundFrom(out, i, kept, Encode(Written(needed, files[1..])));
      PurgeShortens(needed, [i], Encode(f));
      KeptIsWritten(needed, i, f);
      KeptIsPruned(needed, i, f);
      PurgeExact(needed, i, f);
      FirstAndRest(needed, files);
    }
  }

  lemma FirstAndRest(needed: set<nat>, files: seq<InputFile>)
    requires files != []
    ensures AllNeighboursDiffer(needed, files) <==>
              NeighboursDiffer(needed, Prune(needed, files[0].Ancestry())) && AllNeighboursDiffer(needed, files[1..])
  {
    assert files == [files[0]] + files[1..];
    if AllNeighboursDiffer(needed, files) {
      assert forall k :: 0 <= k < |files[1..]| ==> files[1..][k] == files[k + 1];
    }
  }

  lemma {:induction false} MergedShortens(needed: set<nat>, files: seq<InputFile>)
    ensures |Encode(Merged(needed, files))| + 2 * AllDropped(needed, files) == |Encode(Unpruned(files))|
  {
    if files != [] {
      MergedShortens(needed, files[1..]);
      PruneShortens(needed, files[0].Ancestry());
    }
  }

  /** The job writes the merged pruned forests if and only if neighbouring siblings differ in each of them. */
  lemma BuildMerges(needed: set<nat>, files: seq<InputFile>)
    requires AllReadable(files)
    ensures var r := Build(needed, [], 0, files);
            && r.Built? && |r.tree| + 2 * r.purged == |Encode(Unpruned(files))|
            && (r.tree == Encode(Merged(needed, files)) <==> AllNeighboursDiffer(needed, files))
            && (r.purged == AllDropped(needed, files) <==> AllNeighboursDiffer(needed, files))
  {
    BuildWrites(needed, [], 0, files);
    MergedShortens(needed, files);
    assert [] + Encode(Written(needed, files)) == Encode(Written(needed, files));
  }

  lemma {:induction false} WrittenProper(needed: set<nat>, own: nat, files: seq<InputFile>)
    requires AllReadable(files) && forall k :: 0 <= k < |files| ==> files[k].number != own
    ensures Proper(own, Written(needed, files))
    decreases files
  {
    if files != [] {
      VerifyDecodes(files[0].number, files[0].tree.value);
      KeptIsWritten(needed, files[0].number, files[0].Ancestry());
      WrittenProper(needed, own, files[1..]);
    }
  }

  /** What the job writes is accepted by a later one under any new number, whatever was dropped. */
  lemma ResultIsAccepted(needed: set<nat>, own: nat, files: seq<InputFile>)
    requires AllReadable(files) && forall k :: 0 <= k < |files| ==> files[k].number != own
    ensures var r := Build(needed, [], 0, files);
            && r.Built? && Check(own, [], r.tree) == Some([]) && Decode(own, r.tree) == Some(Written(needed, files))
            && (Decode(own, r.tree) == Some(Merged(needed, files)) <==> AllNeighboursDiffer(needed, files))
  {
    BuildWrites(needed, [], 0, files);
    var f := Written(needed, files);
    assert [] + Encode(f) == Encode(f);
    WrittenProper(needed, own, files);
    DecodeEncode(own, f);
    VerifyDecodes(own, Encode(f));
  }

  // ---- Histories of jobs

  lemma {:induction false} SiblingsAreApart(needed: set<nat>, f: Forest)
    requires SiblingsDiffer(f)
    ensures NeighboursDiffer(needed, f)
  {
    if f.Tree? {
      SiblingsAreApart(needed, f.children);
      SiblingsAreApart(needed, f.siblings);
    }
  }

  lemma {:induction false} PruneSiblings(needed: set<nat>, f: Forest)
    requires SiblingsDiffer(f)
    ensures SiblingsDiffer(Prune(needed, f))
  {
    if f.Tree? {
      PruneSiblings(needed, f.children);
      PruneSiblings(needed, f.siblings);
      PruneRoots(needed, f.siblings);
    }
  }

  predicate Distinguished(file: InputFile) {
    file.Readable() && SiblingsDiffer(file.Ancestry())
  }

  predicate DistinctNumbers(files: seq<InputFile>) {
    forall j, k :: 0 <= j < k < |files| ==> files[j].number != files[k].number
  }

  lemma {:induction false} MergedRoots(needed: set<nat>, files: seq<InputFile>, i: nat)
    requires i in Roots(Merged(needed, files))
    ensures exists k :: 0 <= k < |files| && files[k].number == i
    decreases files
  {
    if files[0].number != i {
      MergedRoots(needed, files[1..], i);
      var k :| 0 <= k < |files[1..]| && files[1..][k].number == i;
      assert files[k + 1].number == i;
    }
  }

  lemma {:induction false} MergedSiblings(needed: set<nat>, files: seq<InputFile>)
    requires DistinctNumbers(files) && forall k :: 0 <= k < |files| ==> Distinguished(files[k])
    ensures SiblingsDiffer(Merged(needed, files))
    decreases files
  {
    if files != [] {
      MergedSiblings(needed, files[1..]);
      PruneSiblings(needed, files[0].Ancestry());
      if files[0].number in Roots(Merged(needed, files[1..])) {
        MergedRoots(needed, files[1..], files[0].number);
      }
    }
  }

  /** A job over distinct files whose forests have distinct siblings is exact, and gives such a file again. */
  lemma ResultIsDistinguished(needed: set<nat>, own: nat, files: seq<InputFile>)
    requires DistinctNumbers(files) && forall k :: 0 <= k < |files| ==> Distinguished(files[k]) && files[k].number != own
    ensures Build(needed, [], 0, files) == Built(Encode(Merged(needed, files)), AllDropped(needed, files))
    ensures var file := InputFile(own, Some(Encode(Merged(needed, files))));
            Distinguished(file) && file.Ancestry() == Merged(needed, files)
  {
    forall k | 0 <= k < |files|
      ensures NeighboursDiffer(needed, Prune(needed, files[k].Ancestry()))
    {
      assert Distinguished(files[k]);
      PruneSiblings(needed, files[k].Ancestry());
      SiblingsAreApart(needed, Prune(needed, files[k].Ancestry()));
    }
    assert forall k :: 0 <= k < |files| ==> Distinguished(files[k]);
    BuildMerges(needed, files);
    ResultIsAccepted(needed, own, files);
    MergedSiblings(needed, files);
  }

  /** The live files, each with the walk in its properties. */
  type Store = map<nat, seq<nat>>

  datatype Event = Flush(number: nat) | Job(inputs: seq<nat>, needed: set<nat>, number: nat) | Delete(number: nat)

  function Files(store: Store, inputs: seq<nat>): seq<InputFile>
    requires forall k :: 0 <= k < |inputs| ==> inputs[k] in store
  {
    seq(|inputs|, k requires 0 <= k < |inputs| => InputFile(inputs[k], Some(store[inputs[k]])))
  }

  /** A new file gets a number that no live file has, and a job reads different live files. */
  predicate Enabled(store: Store, e: Event) {
    match e
    case Flush(number) => number !in store
    case Job(inputs, _, number) =>
      && number !in store && (forall k :: 0 <= k < |inputs| ==> inputs[k] in store)
      && (forall j, k :: 0 <= j < k < |inputs| ==> inputs[j] != inputs[k])
    case Delete(number) => number in store
  }

  function Apply(store: Store, e: Event): Store
    requires Enabled(store, e)
  {
    match e
    case Flush(number) => store[number := []]
    case Job(inputs, needed, number) =>
      var r := Build(needed, [], 0, Files(store, inputs));
      if r.Built? then store[number := r.tree] else store
    case Delete(number) => store - {number}
  }

  predicate AllDistinguished(store: Store) {
    forall i :: i in store ==> Distinguished(InputFile(i, Some(store[i])))
  }

  lemma JobIsExact(store: Store, e: Event)
    requires AllDistinguished(store) && Enabled(store, e) && e.Job?
    ensures var files := Files(store, e.inputs);
            && Build(e.needed, [], 0, files) == Built(Encode(Merged(e.needed, files)), AllDropped(e.needed, files))
            && AllDistinguished(Apply(store, e))
            && Decode(e.number, Apply(store, e)[e.number]) == Some(Merged(e.needed, files))
  {
    var files := Files(store, e.inputs);
    forall k | 0 <= k < |files|
      ensures Distinguished(files[k]) && files[k].number != e.number
    {
      assert e.inputs[k] in store;
    }
    ResultIsDistinguished(e.needed, e.number, files);
  }

  ghost predicate IsHistory(stores: seq<Store>, events: seq<Event>) {
    && |stores| == |events| + 1 && stores[0] == map[]
    && forall i :: 0 <= i < |events| ==> Enabled(stores[i], events[i]) && stores[i + 1] == Apply(stores[i], events[i])
  }

  lemma {:induction false} HistoryDistinguishes(stores: seq<Store>, events: seq<Event>, n: nat)
    requires IsHistory(stores, events) && n < |stores|
    ensures AllDistinguished(stores[n])
  {
    if n > 0 {
      HistoryDistinguishes(stores, events, n - 1);
      var e := events[n - 1];
      assert stores[n - 1 + 1] == Apply(stores[n - 1], e);
      if e.Job? {
        JobIsExact(stores[n - 1], e);
      }
    }
  }

  /** From the first file on, every job writes the merged pruned forests of its inputs and counts what it dropped. */
  lemma JobsAreExact(stores: seq<Store>, events: seq<Event>, n: nat)
    requires IsHistory(stores, events) && n < |events| && events[n].Job?
    ensures var Job(inputs, needed, number) := events[n];
            var files := Files(stores[n], inputs);
            && Build(needed, [], 0, files) == Built(Encode(Merged(needed, files)), AllDropped(needed, files))
            && Decode(number, stores[n + 1][number]) == Some(Merged(needed, files))
  {
    HistoryDistinguishes(stores, events, n);
    JobIsExact(stores[n], events[n]);
  }
}
