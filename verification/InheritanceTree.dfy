/**
 * The record of which files a file's values came from: a forest of file numbers, written as the walk
 * that enters and leaves every node, and the one-pass purge that garbage collection applies to it.
 */
module InheritanceTree {
  import opened Records

  /** First child and next sibling. */
  datatype Forest = Nil | Tree(id: nat, children: Forest, siblings: Forest)

  function Encode(f: Forest): seq<nat> {
    match f
    case Nil => []
    case Tree(i, c, s) => Around(i, Encode(c), Encode(s))
  }

  /** The walk of a first tree, its subtrees, its siblings and whatever follows. */
  function Around(i: nat, inside: seq<nat>, after: seq<nat>): seq<nat> {
    [i] + (inside + ([i] + after))
  }

  lemma AroundThen(i: nat, inside: seq<nat>, after: seq<nat>, rest: seq<nat>)
    ensures Around(i, inside, after) + rest == Around(i, inside, after + rest)
  {
  }

  lemma AroundParts(walk: seq<nat>, i: nat, inside: seq<nat>, rest: seq<nat>, after: seq<nat>, rest': seq<nat>)
    requires walk != [] && walk[0] == i && walk[1..] == inside + rest
    requires rest != [] && rest[0] == i && rest[1..] == after + rest'
    ensures walk == Around(i, inside, after) + rest'
  {
    assert rest == [i] + (after + rest');
    assert walk == Around(i, inside, after + rest');
    AroundThen(i, inside, after, rest');
  }

  lemma AroundSplit(i: nat, inside: seq<nat>, after: seq<nat>)
    ensures var walk := Around(i, inside, after);
            walk != [] && walk[0] == i && walk[1..] == inside + ([i] + after) && ([i] + after)[1..] == after
  {
  }

  function Roots(f: Forest): set<nat> {
    if f.Nil? then {} else {f.id} + Roots(f.siblings)
  }

  function Numbers(f: Forest): set<nat> {
    if f.Nil? then {} else {f.id} + Numbers(f.children) + Numbers(f.siblings)
  }

  /** No tree has its parent's number, so entering it cannot be mistaken for leaving the parent. */
  predicate Proper(parent: nat, f: Forest)
    decreases f
  {
    f.Tree? ==> f.id != parent && Proper(f.id, f.children) && Proper(parent, f.siblings)
  }

  predicate SiblingsDiffer(f: Forest) {
    f.Tree? ==> f.id !in Roots(f.siblings) && SiblingsDiffer(f.children) && SiblingsDiffer(f.siblings)
  }

  predicate NumbersDiffer(f: Forest) {
    f.Tree? ==>
      && f.id !in Numbers(f.children) + Numbers(f.siblings) && Numbers(f.children) !! Numbers(f.siblings)
      && NumbersDiffer(f.children) && NumbersDiffer(f.siblings)
  }

  lemma {:induction false} RootsAreNumbers(f: Forest)
    ensures Roots(f) <= Numbers(f)
  {
    if f.Tree? { RootsAreNumbers(f.siblings); }
  }

  lemma {:induction false} DistinctSiblings(f: Forest)
    requires NumbersDiffer(f)
    ensures SiblingsDiffer(f)
  {
    if f.Tree? {
      RootsAreNumbers(f.siblings);
      DistinctSiblings(f.children);
      DistinctSiblings(f.siblings);
    }
  }

  lemma ThreeParts(i: nat, a: set<nat>, b: set<nat>)
    requires i !in a && i !in b && a !! b
    ensures |{i} + a + b| == 1 + |a| + |b|
  {
    assert {i} + a + b == {i} + (a + b) && |a + b| == |a| + |b|;
  }

  /** With distinct numbers the walk names every node twice. */
  lemma {:induction false} NumberedTwice(f: Forest)
    requires NumbersDiffer(f)
    ensures |Encode(f)| == 2 * |Numbers(f)|
  {
    if f.Tree? {
      NumberedTwice(f.children);
      NumberedTwice(f.siblings);
      ThreeParts(f.id, Numbers(f.children), Numbers(f.siblings));
    }
  }

  // ---- The verifying pass

  /** The stack above the file's own number after the walk, or None once that number itself is popped. */
  function Check(own: nat, st: seq<nat>, walk: seq<nat>): Option<seq<nat>>
    decreases |walk|
  {
    if walk == [] then Some(st)
    else if st == [] && walk[0] == own then None
    else if st != [] && st[|st| - 1] == walk[0] then Check(own, st[..|st| - 1], walk[1..])
    else Check(own, st + [walk[0]], walk[1..])
  }

  function Top(own: nat, st: seq<nat>): nat {
    if st == [] then own else st[|st| - 1]
  }

  /** Reads a forest off the front of a walk, up to where its parent is left or the walk ends. */
  function Parse(parent: nat, walk: seq<nat>): (r: Option<(Forest, seq<nat>)>)
    ensures r.Some? ==> |r.value.1| <= |walk|
    decreases |walk|
  {
    if walk == [] || walk[0] == parent then Some((Nil, walk))
    else
      var i := walk[0];
      match Parse(i, walk[1..])
      case None => None
      case Some((c, rest)) =>
        if rest == [] then None
        else
          match Parse(parent, rest[1..])
          case None => None
          case Some((s, rest')) => Some((Tree(i, c, s), rest'))
  }

  function Decode(own: nat, walk: seq<nat>): Option<Forest> {
    match Parse(own, walk)
    case None => None
    case Some((f, rest)) => if rest == [] then Some(f) else None
  }

  lemma {:induction false} ParseInverts(parent: nat, walk: seq<nat>)
    requires Parse(parent, walk).Some?
    ensures var (f, rest) := Parse(parent, walk).value;
            walk == Encode(f) + rest && Proper(parent, f) && (rest == [] || rest[0] == parent)
    decreases |walk|
  {
    if walk != [] && walk[0] != parent {
      var i := walk[0];
      ParseInverts(i, walk[1..]);
      var (c, rest) := Parse(i, walk[1..]).value;
      ParseInverts(parent, rest[1..]);
      var (s, rest') := Parse(parent, rest[1..]).value;
      AroundParts(walk, i, Encode(c), rest, Encode(s), rest');
    }
  }

  lemma {:induction false} CheckEncoded(own: nat, st: seq<nat>, f: Forest, rest: seq<nat>)
    requires Proper(Top(own, st), f)
    ensures Check(own, st, Encode(f) + rest) == Check(own, st, rest)
    decreases f
  {
    match f
    case Nil =>
      assert Encode(f) + rest == rest;
    case Tree(i, c, s) =>
      var after := [i] + (Encode(s) + rest);
      AroundThen(i, Encode(c), Encode(s), rest);
      AroundSplit(i, Encode(c), Encode(s) + rest);
      CheckEncoded(own, st + [i], c, after);
      assert (st + [i])[..|st|] == st;
      CheckEncoded(own, st, s, rest);
  }

  /** A walk that breaks off inside a tree leaves that tree on the stack. */
  lemma {:induction false} CheckUnfinished(own: nat, st: seq<nat>, walk: seq<nat>)
    requires Parse(Top(own, st), walk).None?
    ensures var r := Check(own, st, walk); r.Some? && |r.value| > |st|
    decreases |walk|
  {
    var i := walk[0];
    if Parse(i, walk[1..]).None? {
      CheckUnfinished(own, st + [i], walk[1..]);
    } else {
      var (c, rest) := Parse(i, walk[1..]).value;
      ParseInverts(i, walk[1..]);
      CheckEncoded(own, st + [i], c, rest);
      if rest != [] {
        assert (st + [i])[..|st|] == st;
        CheckUnfinished(own, st, rest[1..]);
      }
    }
  }

  /** The verifying pass accepts exactly the walks of forests, and there is one forest for each. */
  lemma VerifyDecodes(own: nat, walk: seq<nat>)
    ensures Check(own, [], walk) == Some([]) <==> Decode(own, walk).Some?
    ensures Decode(own, walk).Some? ==> Encode(Decode(own, walk).value) == walk && Proper(own, Decode(own, walk).value)
  {
    if Parse(own, walk).None? {
      CheckUnfinished(own, [], walk);
    } else {
      var (f, rest) := Parse(own, walk).value;
      ParseInverts(own, walk);
      CheckEncoded(own, [], f, rest);
      assert rest == [] ==> Encode(f) + rest == Encode(f);
    }
  }

  lemma {:induction false} ParseEncoded(parent: nat, f: Forest, rest: seq<nat>)
    requires Proper(parent, f) && (rest == [] || rest[0] == parent)
    ensures Parse(parent, Encode(f) + rest) == Some((f, rest))
    decreases f
  {
    match f
    case Nil =>
      assert Encode(f) + rest == rest;
    case Tree(i, c, s) =>
      var after := [i] + (Encode(s) + rest);
      AroundThen(i, Encode(c), Encode(s), rest);
      AroundSplit(i, Encode(c), Encode(s) + rest);
      ParseEncoded(i, c, after);
      ParseEncoded(parent, s, rest);
  }

  lemma DecodeEncode(own: nat, f: Forest)
    requires Proper(own, f)
    ensures Decode(own, Encode(f)) == Some(f)
  {
    ParseEncoded(own, f, []);
    assert Encode(f) + [] == Encode(f);
  }

  // ---- The purging pass

  /** The output so far after a walk, and how many nodes were dropped. */
  function Purge(needed: set<nat>, out: seq<nat>, walk: seq<nat>): (seq<nat>, nat)
    decreases |walk|
  {
    if walk == [] then (out, 0)
    else if out != [] && out[|out| - 1] == walk[0] && walk[0] !in needed then
      var (out', n) := Purge(needed, out[..|out| - 1], walk[1..]);
      (out', n + 1)
    else Purge(needed, out + [walk[0]], walk[1..])
  }

  /** Drops the nodes that nothing needs and that nothing grows from any more, leaves first. */
  function Prune(needed: set<nat>, f: Forest): Forest {
    match f
    case Nil => Nil
    case Tree(i, c, s) =>
      if Prune(needed, c).Nil? && i !in needed then Prune(needed, s)
      else Tree(i, Prune(needed, c), Prune(needed, s))
  }

  function Dropped(needed: set<nat>, f: Forest): nat {
    match f
    case Nil => 0
    case Tree(i, c, s) =>
      Dropped(needed, c) + Dropped(needed, s) + (if Prune(needed, c).Nil? && i !in needed then 1 else 0)
  }

  lemma {:induction false} LastIsRoot(f: Forest)
    requires f.Tree?
    ensures |Encode(f)| > 0 && Encode(f)[|Encode(f)| - 1] in Roots(f)
  {
    if f.siblings.Tree? { LastIsRoot(f.siblings); }
  }

  lemma {:induction false} PruneRoots(needed: set<nat>, f: Forest)
    ensures Roots(Prune(needed, f)) <= Roots(f)
  {
    if f.Tree? { PruneRoots(needed, f.siblings); }
  }

  lemma {:induction false} ProperRoots(parent: nat, f: Forest)
    requires Proper(parent, f)
    ensures parent !in Roots(f)
  {
    if f.Tree? { ProperRoots(parent, f.siblings); }
  }

  lemma AroundFrom(out: seq<nat>, i: nat, inside: seq<nat>, after: seq<nat>)
    ensures out + Around(i, inside, after) == out + [i] + inside + [i] + after
  {
  }

  // ---- What pruning keeps

  /** The numbers from a root down to some node. */
  predicate IsPath(f: Forest, p: seq<nat>)
    decreases f
  {
    && f.Tree? && p != []
    && ((p[0] == f.id && (|p| == 1 || IsPath(f.children, p[1..]))) || IsPath(f.siblings, p))
  }

  ghost predicate LeadsToNeeded(needed: set<nat>, f: Forest, p: seq<nat>) {
    exists q :: IsPath(f, q) && p <= q && q[|q| - 1] in needed
  }

  lemma {:induction false} KeptLeadsToNeeded(needed: set<nat>, f: Forest, p: seq<nat>) returns (q: seq<nat>)
    requires IsPath(Prune(needed, f), p)
    ensures IsPath(f, p) && IsPath(f, q) && p <= q && q[|q| - 1] in needed
    decreases f
  {
    var c := Prune(needed, f.children);
    if p[0] == f.id && !(c.Nil? && f.id !in needed) && (|p| == 1 || IsPath(c, p[1..])) {
      if |p| > 1 {
        var q' := KeptLeadsToNeeded(needed, f.children, p[1..]);
        q := [f.id] + q';
        assert q[1..] == q' && p == [f.id] + p[1..];
      } else if f.id in needed {
        q := p;
      } else {
        assert IsPath(c, [c.id]);
        var q' := KeptLeadsToNeeded(needed, f.children, [c.id]);
        q := [f.id] + q';
        assert q[1..] == q';
      }
    } else {
      q := KeptLeadsToNeeded(needed, f.siblings, p);
    }
  }

  lemma {:induction false} NeededIsKept(needed: set<nat>, f: Forest, p: seq<nat>, q: seq<nat>)
    requires IsPath(f, q) && p != [] && p <= q && q[|q| - 1] in needed
    ensures IsPath(Prune(needed, f), p)
    decreases f
  {
    if q[0] == f.id && |q| > 1 && IsPath(f.children, q[1..]) {
      NeededIsKept(needed, f.children, q[1..], q[1..]);
      if |p| > 1 {
        NeededIsKept(needed, f.children, p[1..], q[1..]);
      }
    } else if q[0] != f.id || |q| > 1 {
      NeededIsKept(needed, f.siblings, p, q);
    }
  }

  /** Pruning keeps a node exactly when it, or something that grows from it, is needed. */
  lemma PruneKeepsNeeded(needed: set<nat>, f: Forest, p: seq<nat>)
    ensures IsPath(Prune(needed, f), p) <==> p != [] && IsPath(f, p) && LeadsToNeeded(needed, f, p)
  {
    if IsPath(Prune(needed, f), p) {
      var q := KeptLeadsToNeeded(needed, f, p);
    }
    if p != [] && LeadsToNeeded(needed, f, p) {
      var q :| IsPath(f, q) && p <= q && q[|q| - 1] in needed;
      NeededIsKept(needed, f, p, q);
    }
  }

  lemma {:induction false} PruneProper(needed: set<nat>, parent: nat, f: Forest)
    requires Proper(parent, f)
    ensures Proper(parent, Prune(needed, f))
    decreases f
  {
    if f.Tree? {
      PruneProper(needed, f.id, f.children);
      PruneProper(needed, parent, f.siblings);
    }
  }

  lemma {:induction false} PruneShortens(needed: set<nat>, f: Forest)
    ensures |Encode(Prune(needed, f))| + 2 * Dropped(needed, f) == |Encode(f)|
  {
    if f.Tree? {
      PruneShortens(needed, f.children);
      PruneShortens(needed, f.siblings);
    }
  }

  // ---- A whole job

  datatype InputFile = InputFile(number: nat, tree: Option<seq<nat>>)   // None: its properties cannot be read
  {
    predicate Readable() {
      tree.Some? && Decode(number, tree.value).Some?
    }

    function Ancestry(): Forest {
      if Readable() then Decode(number, tree.value).value else Nil
    }
  }

  datatype Result = Built(tree: seq<nat>, purged: nat) | Unreadable(number: nat) | Corruption(number: nat)

  function Build(needed: set<nat>, out: seq<nat>, purged: nat, files: seq<InputFile>): Result
    decreases |files|
  {
    if files == [] then Built(out, purged)
    else if files[0].tree.None? then Unreadable(files[0].number)
    else if Check(files[0].number, [], files[0].tree.value) != Some([]) then Corruption(files[0].number)
    else
      var (out', n) := Purge(needed, out + [files[0].number], files[0].tree.value);
      Build(needed, out' + [files[0].number], purged + n, files[1..])
  }

  /** Every input file over its own pruned forest, side by side. */
  function Merged(needed: set<nat>, files: seq<InputFile>): Forest {
    if files == [] then Nil
    else Tree(files[0].number, Prune(needed, files[0].Ancestry()), Merged(needed, files[1..]))
  }

  function Unpruned(files: seq<InputFile>): Forest {
    if files == [] then Nil else Tree(files[0].number, files[0].Ancestry(), Unpruned(files[1..]))
  }

  /** The job succeeds exactly when every input can be read and decoded; otherwise it names the first that cannot. */
  lemma {:induction false} BuildSucceeds(needed: set<nat>, out: seq<nat>, purged: nat, files: seq<InputFile>)
    ensures var r := Build(needed, out, purged, files);
            if r.Built? then forall k :: 0 <= k < |files| ==> files[k].Readable()
            else exists k :: 0 <= k < |files| && !files[k].Readable() && files[k].number == r.number
                   && (r.Unreadable? <==> files[k].tree.None?) && forall l :: 0 <= l < k ==> files[l].Readable()
    decreases files
  {
    if files != [] && files[0].tree.Some? {
      VerifyDecodes(files[0].number, files[0].tree.value);
      if files[0].Readable() {
        var (out', n) := Purge(needed, out + [files[0].number], files[0].tree.value);
        BuildSucceeds(needed, out' + [files[0].number], purged + n, files[1..]);
        assert forall k :: 0 < k < |files| ==> files[k] == files[1..][k - 1];
        var r := Build(needed, out, purged, files);
        if !r.Built? {
          var k :| 0 <= k < |files[1..]| && !files[1..][k].Readable() && files[1..][k].number == r.number
                   && (r.Unreadable? <==> files[1..][k].tree.None?) && forall l :: 0 <= l < k ==> files[1..][l].Readable();
          assert files[k + 1] == files[1..][k];
          assert forall l :: 0 <= l < k + 1 ==> files[l].Readable();
        }
      }
    }
  }

  const TWINS := Tree(1, Tree(5, Nil, Nil), Tree(1, Tree(5, Nil, Nil), Nil))

  lemma TwinsWalk()
    ensures Encode(TWINS) == [1, 5, 5, 1, 1, 5, 5, 1] && Prune({5}, TWINS) == TWINS && Proper(9, TWINS)
  {
    assert Encode(Tree(5, Nil, Nil)) == [5, 5];
    assert Encode(Tree(1, Tree(5, Nil, Nil), Nil)) == [1, 5, 5, 1];
  }

  lemma PurgeFirstTwin()
    ensures Purge({5}, [9], [1, 5, 5, 1, 1, 5, 5, 1]) == Purge({5}, [9, 1, 5, 5, 1], [1, 5, 5, 1])
  {
    PurgePush({5}, [9], [9, 1], [1, 5, 5, 1, 1, 5, 5, 1], [5, 5, 1, 1, 5, 5, 1]);
    PurgePush({5}, [9, 1], [9, 1, 5], [5, 5, 1, 1, 5, 5, 1], [5, 1, 1, 5, 5, 1]);
    PurgePush({5}, [9, 1, 5], [9, 1, 5, 5], [5, 1, 1, 5, 5, 1], [1, 1, 5, 5, 1]);
    PurgePush({5}, [9, 1, 5, 5], [9, 1, 5, 5, 1], [1, 1, 5, 5, 1], [1, 5, 5, 1]);
  }

  lemma PurgeSecondTwin()
    ensures Purge({5}, [9, 1, 5, 5, 1], [1, 5, 5, 1]).0 == [9, 1, 5, 5, 5, 5, 1]
  {
    assert [9, 1, 5, 5, 1][..4] == [9, 1, 5, 5] && [1, 5, 5, 1][1..] == [5, 5, 1];
    PurgePush({5}, [9, 1, 5, 5], [9, 1, 5, 5, 5], [5, 5, 1], [5, 1]);
    PurgePush({5}, [9, 1, 5, 5, 5], [9, 1, 5, 5, 5, 5], [5, 1], [1]);
    PurgePush({5}, [9, 1, 5, 5, 5, 5], [9, 1, 5, 5, 5, 5, 1], [1], []);
  }

  /** Two siblings with one number defeat the purge: it takes entering the second for leaving a leaf. */
  lemma RepeatedSiblings()
    ensures Check(9, [], Encode(TWINS)) == Some([])
    ensures Purge({5}, [9], Encode(TWINS)).0 != [9] + Encode(Prune({5}, TWINS))
  {
    TwinsWalk();
    PurgeFirstTwin();
    PurgeSecondTwin();
    DecodeEncode(9, TWINS);
    VerifyDecodes(9, Encode(TWINS));
    assert |Purge({5}, [9], Encode(TWINS)).0| == 7;
  }

  lemma PurgePush(needed: set<nat>, out: seq<nat>, out': seq<nat>, walk: seq<nat>, walk': seq<nat>)
    requires walk != [] && (out == [] || out[|out| - 1] != walk[0] || walk[0] in needed)
    requires out' == out + [walk[0]] && walk' == walk[1..]
    ensures Purge(needed, out, walk) == Purge(needed, out', walk')
  {
  }

  /** The purge always has a last number to look at. */
  predicate NeverEmpty(needed: set<nat>, out: seq<nat>, walk: seq<nat>)
    decreases |walk|
  {
    && out != []
    && (walk != [] ==>
          if out[|out| - 1] == walk[0] && walk[0] !in needed then NeverEmpty(needed, out[..|out| - 1], walk[1..])
          else NeverEmpty(needed, out + [walk[0]], walk[1..]))
  }

  lemma {:induction false} AnchoredNeverEmpty(needed: set<nat>, out: seq<nat>, k: nat, walk: seq<nat>)
    requires k < |out| && out[k] in needed
    ensures NeverEmpty(needed, out, walk)
    decreases |walk|
  {
    if walk != [] {
      if out[|out| - 1] == walk[0] && walk[0] !in needed {
        AnchoredNeverEmpty(needed, out[..|out| - 1], k, walk[1..]);
      } else {
        AnchoredNeverEmpty(needed, out + [walk[0]], k, walk[1..]);
      }
    }
  }

  /** A needed number is never popped, and until there is one the output is the way down to the current node. */
  lemma {:induction false} EncodedNeverEmpty(needed: set<nat>, out: seq<nat>, f: Forest, rest: seq<nat>)
    requires out != [] && Proper(out[|out| - 1], f) && NeverEmpty(needed, out, rest)
    ensures NeverEmpty(needed, out, Encode(f) + rest)
    decreases f
  {
    match f
    case Nil =>
      assert Encode(f) + rest == rest;
    case Tree(i, c, s) =>
      var after := [i] + (Encode(s) + rest);
      AroundThen(i, Encode(c), Encode(s), rest);
      AroundSplit(i, Encode(c), Encode(s) + rest);
      if i in needed {
        AnchoredNeverEmpty(needed, out + [i], |out|, Encode(c) + after);
      } else {
        EncodedNeverEmpty(needed, out, s, rest);
        assert (out + [i])[..|out|] == out;
        EncodedNeverEmpty(needed, out + [i], c, after);
      }
  }

  lemma AcceptedNeverEmpty(needed: set<nat>, out: seq<nat>, own: nat, walk: seq<nat>)
    requires Check(own, [], walk) == Some([])
    ensures NeverEmpty(needed, out + [own], walk)
  {
    VerifyDecodes(own, walk);
    var f := Decode(own, walk).value;
    EncodedNeverEmpty(needed, out + [own], f, []);
    assert Encode(f) + [] == Encode(f);
  }

  function Flatten(levels: seq<seq<InputFile>>): seq<InputFile> {
    if levels == [] then [] else levels[0] + Flatten(levels[1..])
  }

  /** BuildInheritanceTree: the output is used as the stack of both passes. */
  method BuildInheritanceTree(levels: seq<seq<InputFile>>, needed: set<nat>) returns (r: Result)
    ensures r == Build(needed, [], 0, Flatten(levels))
  {
    var tree: seq<nat>, purged := [], 0;
    for l := 0 to |levels|
      invariant Build(needed, tree, purged, Flatten(levels[l..])) == Build(needed, [], 0, Flatten(levels))
    {
      assert levels[l..][1..] == levels[l + 1..];
      for k := 0 to |levels[l]|
        invariant Build(needed, tree, purged, levels[l][k..] + Flatten(levels[l + 1..]))
               == Build(needed, [], 0, Flatten(levels))
      {
        var file := levels[l][k];
        ghost var files := levels[l][k..] + Flatten(levels[l + 1..]);
        assert files[0] == file && files[1..] == levels[l][k + 1..] + Flatten(levels[l + 1..]);
        if file.tree.None? {
          return Unreadable(file.number);
        }
        var ok := Verify(tree, file.number, file.tree.value);
        if !ok {
          return Corruption(file.number);
        }
        AcceptedNeverEmpty(needed, tree, file.number, file.tree.value);
        var n;
        tree, n := PurgeInto(tree + [file.number], file.tree.value, needed);
        tree, purged := tree + [file.number], purged + n;
      }
      assert levels[l][|levels[l]|..] + Flatten(levels[l + 1..]) == Flatten(levels[l + 1..]);
    }
    r := Built(tree, purged);
  }

  /** The first pass over one file, on top of the output so far. */
  method Verify(out: seq<nat>, own: nat, walk: seq<nat>) returns (ok: bool)
    ensures ok <==> Check(own, [], walk) == Some([])
  {
    var tree := out + [own];
    var size, k := |tree|, 0;
    while k < |walk|
      invariant k <= |walk| && size == |out| + 1 <= |tree| && tree[..size] == out + [own]
      invariant Check(own, tree[size..], walk[k..]) == Check(own, [], walk)
    {
      ghost var st := tree[size..];
      assert walk[k..][1..] == walk[k + 1..];
      assert tree[|tree| - 1] == Top(own, st);
      if tree[|tree| - 1] == walk[k] {
        tree := tree[..|tree| - 1];
        if |tree| < size {
          assert st == [];
          break;
        }
        assert tree[size..] == st[..|st| - 1];
      } else {
        tree := tree + [walk[k]];
        assert tree[size..] == st + [walk[k]];
      }
      k := k + 1;
    }
    assert k == |walk| ==> Check(own, tree[size..], walk[k..]) == Some(tree[size..]);
    ok := |tree| == size;
  }

  /** The second pass over one file. */
  method PurgeInto(out: seq<nat>, walk: seq<nat>, needed: set<nat>) returns (tree: seq<nat>, purged: nat)
    requires NeverEmpty(needed, out, walk)
    ensures (tree, purged) == Purge(needed, out, walk)
  {
    tree, purged := out, 0;
    for k := 0 to |walk|
      invariant var (out', n) := Purge(needed, tree, walk[k..]); Purge(needed, out, walk) == (out', n + purged)
      invariant NeverEmpty(needed, tree, walk[k..])
    {
      assert walk[k..][1..] == walk[k + 1..];
      if tree[|tree| - 1] == walk[k] && walk[k] !in needed {
        purged := purged + 1;
        tree := tree[..|tree| - 1];
      } else {
        tree := tree + [walk[k]];
      }
    }
  }
}
