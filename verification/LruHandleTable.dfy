/** The cache's hash table: an array of buckets, each the head of a singly linked chain of entries. */
module LruHandleTables {

  class Entry {
    const id: nat               // the number of the entry
    const key: string
    const hash: nat
    var nextHash: Entry?

    constructor (id: nat, key: string, hash: nat)
      ensures this.id == id && this.key == key && this.hash == hash && nextHash == null
    {
      this.id, this.key, this.hash := id, key, hash;
      nextHash := null;
    }

    function Id(): (string, nat) { (key, hash) }
  }

  // ---- Bucket numbers

  ghost predicate PowerOfTwo(n: nat) {
    n == 1 || (n > 1 && n % 2 == 0 && PowerOfTwo(n / 2))
  }

  /** The bitwise and of two numbers. */
  function And(a: nat, b: nat): nat {
    if a == 0 || b == 0 then 0
    else 2 * And(a / 2, b / 2) + (if a % 2 == 1 && b % 2 == 1 then 1 else 0)
  }

  /** Masking with a power of two less one is taking the remainder. */
  lemma {:induction false} MaskIsRemainder(hash: nat, length: nat)
    requires PowerOfTwo(length)
    ensures And(hash, length - 1) == hash % length
  {
    if length > 1 {
      MaskIsRemainder(hash / 2, length / 2);
      RemainderHalves(hash, length / 2);
    }
  }

  lemma RemainderHalves(a: nat, half: nat)
    requires half > 0
    ensures a % (2 * half) == 2 * (a / 2 % half) + a % 2
  {
    var q, r := a / 2 / half, a / 2 % half;
    assert a / 2 == half * q + r;
    assert a == (2 * half) * q + (2 * r + a % 2);
    RemainderIs(a, 2 * half, q, 2 * r + a % 2);
  }

  lemma RemainderIs(a: nat, n: nat, q: nat, r: nat)
    requires 0 <= r < n && a == n * q + r
    ensures a % n == r
  {
    var d := a / n - q;
    assert n * d == r - a % n;
  }

  /** The remainder, by repeated subtraction. */
  ghost function Home(hash: nat, length: nat): (b: nat)
    requires length > 0
    ensures b < length
  {
    if hash < length then hash else Home(hash - length, length)
  }

  lemma {:induction false} HomeIsRemainder(hash: nat, length: nat)
    requires length > 0
    ensures Home(hash, length) == hash % length
  {
    if hash >= length {
      HomeIsRemainder(hash - length, length);
      var q := (hash - length) / length;
      assert hash == length * (q + 1) + (hash - length) % length;
      RemainderIs(hash, length, q + 1, (hash - length) % length);
    }
  }

  method Bucket(hash: nat, length: nat) returns (b: nat)
    requires PowerOfTwo(length)
    ensures b == Home(hash, length)
  {
    MaskIsRemainder(hash, length);
    HomeIsRemainder(hash, length);
    b := And(hash, length - 1);
  }

  // ---- Chains

  ghost function At(c: seq<Entry>, j: int): Entry? {
    if 0 <= j < |c| then c[j] else null
  }

  /** Following the links from head visits exactly the entries of c, in order, and ends. */
  ghost predicate Chain(c: seq<Entry>, head: Entry?, next: map<Entry, Entry?>) {
    && head == At(c, 0)
    && (forall e :: e in c ==> e in next)
    && (forall j {:trigger next[c[j]]} :: 0 <= j < |c| ==> next[c[j]] == At(c, j + 1))
  }

  ghost predicate Heads(heads: seq<Entry?>, chains: seq<seq<Entry>>, next: map<Entry, Entry?>) {
    |heads| == |chains| && forall b :: 0 <= b < |chains| ==> HeadAt(heads, chains, next, b)
  }

  ghost predicate HeadAt(heads: seq<Entry?>, chains: seq<seq<Entry>>, next: map<Entry, Entry?>, b: nat)
    requires b < |chains| == |heads|
  {
    Chain(chains[b], heads[b], next)
  }

  ghost predicate NoRepeats(c: seq<Entry>) {
    forall i, j :: 0 <= i < j < |c| ==> c[i] != c[j]
  }

  ghost predicate BucketOk(chains: seq<seq<Entry>>, b: nat, entries: set<Entry>)
    requires b < |chains|
  {
    var c := chains[b];
    NoRepeats(c) && forall j :: 0 <= j < |c| ==> c[j] in entries && Home(c[j].hash, |chains|) == b
  }

  ghost predicate AtHome(chains: seq<seq<Entry>>, e: Entry)
    requires |chains| > 0
  {
    e in chains[Home(e.hash, |chains|)]
  }

  /** Every entry is in the bucket its hash names, once, and the buckets hold nothing else. */
  ghost predicate Laid(chains: seq<seq<Entry>>, entries: set<Entry>) {
    && |chains| > 0
    && (forall b :: 0 <= b < |chains| ==> BucketOk(chains, b, entries))
    && (forall e {:trigger AtHome(chains, e)} :: e in entries ==> AtHome(chains, e))
  }

  ghost predicate Named(contents: map<(string, nat), Entry>, entries: set<Entry>) {
    && (forall e {:trigger NamedIn(contents, e)} :: e in entries ==> NamedIn(contents, e))
    && (forall k {:trigger KeyOf(contents, entries, k)} :: k in contents ==> KeyOf(contents, entries, k))
  }

  ghost predicate NamedIn(contents: map<(string, nat), Entry>, e: Entry) {
    e.Id() in contents && contents[e.Id()] == e
  }

  ghost predicate KeyOf(contents: map<(string, nat), Entry>, entries: set<Entry>, k: (string, nat))
    requires k in contents
  {
    contents[k] in entries && contents[k].Id() == k
  }

  lemma {:induction false} SameSize(contents: map<(string, nat), Entry>, entries: set<Entry>)
    requires Named(contents, entries)
    ensures |contents| == |entries|
    decreases |entries|
  {
    if e :| e in entries {
      NamedLess(contents, entries, e);
      SameSize(contents - {e.Id()}, entries - {e});
      assert contents == (contents - {e.Id()})[e.Id() := e];
    } else {
      assert forall k :: k in contents ==> KeyOf(contents, entries, k);
      assert contents.Keys == {};
    }
  }

  lemma NamedLess(contents: map<(string, nat), Entry>, entries: set<Entry>, r: Entry)
    requires Named(contents, entries) && r in entries
    ensures r.Id() in contents && contents[r.Id()] == r && Named(contents - {r.Id()}, entries - {r})
  {
    var contents', entries' := contents - {r.Id()}, entries - {r};
    assert NamedIn(contents, r);
    forall e | e in entries' ensures NamedIn(contents', e) {
      assert NamedIn(contents, e);
    }
    forall k | k in contents' ensures KeyOf(contents', entries', k) {
      assert KeyOf(contents, entries, k);
    }
  }

  /** Replacing the entry at position j of its bucket, or adding one at the end. */
  lemma LaidWith(chains: seq<seq<Entry>>, entries: set<Entry>, h: Entry, b: nat, j: nat, rest: seq<Entry>)
    requires Laid(chains, entries) && h !in entries && b == Home(h.hash, |chains|) && j <= |chains[b]|
    requires rest == if j < |chains[b]| then chains[b][j + 1..] else []
    ensures var entries' := if j < |chains[b]| then entries - {chains[b][j]} + {h} else entries + {h};
            Laid(chains[b := chains[b][..j] + ([h] + rest)], entries')
  {
    var n, c := |chains|, chains[b];
    assert BucketOk(chains, b, entries);
    var c', entries' := c[..j] + ([h] + rest), if j < |c| then entries - {c[j]} + {h} else entries + {h};
    var chains' := chains[b := c'];
    assert BucketOk(chains', b, entries');
    forall i | 0 <= i < n && i != b ensures BucketOk(chains', i, entries') {
      assert BucketOk(chains, i, entries);
    }
    forall e | e in entries' ensures AtHome(chains', e) {
      assert e != h ==> AtHome(chains, e);
      if e == h {
        assert c'[j] == h;
      } else if Home(e.hash, n) == b {
        var i :| 0 <= i < |c| && c[i] == e;
        assert c'[i] == e;
      }
    }
  }

  lemma LaidWithout(chains: seq<seq<Entry>>, entries: set<Entry>, b: nat, j: nat)
    requires Laid(chains, entries) && b < |chains| && j < |chains[b]|
    ensures Laid(chains[b := chains[b][..j] + chains[b][j + 1..]], entries - {chains[b][j]})
  {
    var n, c := |chains|, chains[b];
    assert BucketOk(chains, b, entries);
    var c', entries' := c[..j] + c[j + 1..], entries - {c[j]};
    var chains' := chains[b := c'];
    assert BucketOk(chains', b, entries');
    forall i | 0 <= i < n && i != b ensures BucketOk(chains', i, entries') {
      assert BucketOk(chains, i, entries);
    }
    forall e | e in entries' ensures AtHome(chains', e) {
      assert AtHome(chains, e);
      if Home(e.hash, n) == b {
        var i :| 0 <= i < |c| && c[i] == e;
        assert c'[if i < j then i else i - 1] == e;
      }
    }
  }

  /** An entry put in front of its bucket. */
  lemma LaidInFront(chains: seq<seq<Entry>>, entries: set<Entry>, h: Entry)
    requires Laid(chains, entries) && h !in entries
    ensures var b := Home(h.hash, |chains|); Laid(chains[b := [h] + chains[b]], entries + {h})
  {
    var n, b := |chains|, Home(h.hash, |chains|);
    var c := chains[b];
    assert BucketOk(chains, b, entries);
    var chains', entries' := chains[b := [h] + c], entries + {h};
    assert BucketOk(chains', b, entries');
    forall i | 0 <= i < n && i != b ensures BucketOk(chains', i, entries') {
      assert BucketOk(chains, i, entries);
    }
    forall e | e in entries' ensures AtHome(chains', e) {
      assert e != h ==> AtHome(chains, e);
      if e == h {
        assert ([h] + c)[0] == h;
      } else if Home(e.hash, n) == b {
        var i :| 0 <= i < |c| && c[i] == e;
        assert ([h] + c)[i + 1] == e;
      }
    }
  }

  ghost predicate Stored(next: map<Entry, Entry?>, next': map<Entry, Entry?>, pred: Entry?, h: Entry?) {
    forall e :: e in next' ==> e in next && next'[e] == if e == pred then h else next[e]
  }

  /** Making the slot at position j of a bucket point to another rest of the chain. */
  lemma StoreKeeps(heads: seq<Entry?>, heads': seq<Entry?>, chains: seq<seq<Entry>>, chains': seq<seq<Entry>>,
                   next: map<Entry, Entry?>, next': map<Entry, Entry?>, entries': set<Entry>,
                   b: nat, j: nat, pred: Entry?, h: Entry?, rest: seq<Entry>)
    requires Heads(heads, chains, next) && b < |chains| && j <= |chains[b]|
    requires pred == At(chains[b], j - 1) && Chain(rest, h, next)
    requires chains' == chains[b := chains[b][..j] + rest]
    requires Laid(chains', entries') && next'.Keys == entries'
    requires heads' == (if pred == null then heads[b := h] else heads) && Stored(next, next', pred, h)
    ensures Heads(heads', chains', next')
  {
    var n, c := |chains|, chains[b];
    assert BucketOk(chains', b, entries');
    assert pred != null ==> pred == chains'[b][j - 1];
    forall i | 0 <= i < n ensures HeadAt(heads', chains', next', i) {
      assert BucketOk(chains', i, entries');
      assert HeadAt(heads, chains, next, i);
      if i == b {
        StoredChain(c, heads[b], j, rest, h, pred, next, next');
      }
    }
  }

  lemma StoredChain(c: seq<Entry>, head: Entry?, j: nat, rest: seq<Entry>, h: Entry?, pred: Entry?,
                    next: map<Entry, Entry?>, next': map<Entry, Entry?>)
    requires Chain(c, head, next) && Chain(rest, h, next) && j <= |c| && pred == At(c, j - 1)
    requires Stored(next, next', pred, h) && NoRepeats(c[..j] + rest)
    requires forall e :: e in c[..j] + rest ==> e in next'
    ensures Chain(c[..j] + rest, if pred == null then h else head, next')
  {
    var c' := c[..j] + rest;
    assert j > 0 ==> c'[j - 1] == pred;
    assert j < |c'| ==> c'[j] == rest[0];
    forall i | 0 <= i < |c'| ensures next'[c'[i]] == At(c', i + 1) {
      if i >= j {
        assert c'[i] == rest[i - j];
      }
    }
  }

  /** The table as a value: the buckets' heads, the links, the chains they form, and what they stand for. */
  datatype Table = Table(
    heads: seq<Entry?>, next: map<Entry, Entry?>, chains: seq<seq<Entry>>, contents: map<(string, nat), Entry>)
  {
    ghost predicate Formed() {
      Laid(chains, next.Keys) && Heads(heads, chains, next)
    }

    ghost predicate Valid() {
      Formed() && Named(contents, next.Keys)
    }

    ghost predicate Slot(b: nat, j: nat, pred: Entry?) {
      b < |chains| && j <= |chains[b]| && pred == At(chains[b], j - 1)
    }

    /** The entry r at a position of a bucket is unlinked. */
    ghost function Without(b: nat, j: nat, pred: Entry?, r: Entry): (t: Table)
      requires b < |chains| == |heads| && j < |chains[b]| && r in next
    {
      Table(if pred == null then heads[b := next[r]] else heads,
            (if pred == null then next else next[pred := next[r]]) - {r},
            chains[b := chains[b][..j] + chains[b][j + 1..]],
            contents - {r.Id()})
    }

    lemma WithoutValid(b: nat, j: nat, pred: Entry?, r: Entry)
      requires Valid() && Slot(b, j, pred) && At(chains[b], j) == r
      ensures r in next && b < |heads| && (pred != null ==> pred in next)
      ensures var t := Without(b, j, pred, r);
              && t.Valid() && t.next.Keys == next.Keys - {r} && Stored(next, t.next, pred, next[r])
              && r.Id() in contents && |t.contents| == |contents| - 1
    {
      var c := chains[b];
      assert BucketOk(chains, b, next.Keys);
      var t := Without(b, j, pred, r);
      assert pred != null ==> pred != r;
      LaidWithout(chains, next.Keys, b, j);
      NamedWithout(contents, next.Keys, r);
      assert HeadAt(heads, chains, next, b);
      ChainRest(c, heads[b], next, j);
      assert t.next.Keys == next.Keys - {r};
      StoreKeeps(heads, t.heads, chains, t.chains, next, t.next, t.next.Keys, b, j, pred, next[r], c[j + 1..]);
    }

    /** The entry h takes the place at a position of its bucket, with the link it already has. */
    ghost function With(b: nat, j: nat, pred: Entry?, h: Entry): (t: Table)
      requires b < |chains| == |heads| && j <= |chains[b]| && h in next
    {
      var c := chains[b];
      var links := if pred == null then next else next[pred := h];
      Table(if pred == null then heads[b := h] else heads,
            if j < |c| then links - {c[j]} else links,
            chains[b := c[..j] + ([h] + (if j < |c| then c[j + 1..] else []))],
            contents[h.Id() := h])
    }

    /** The entry h is linked to what follows a position, but nothing links to it yet. */
    ghost function Linking(h: Entry, after: Entry?): Table {
      this.(next := next[h := after])
    }

    /** What the entry at a position is linked to. */
    ghost function LinkOf(e: Entry?): Entry? {
      if e != null && e in next then next[e] else null
    }

    lemma WithFormed(b: nat, j: nat, pred: Entry?, h: Entry, r: Entry?)
      requires Valid() && Slot(b, j, pred) && b == Home(h.hash, |chains|) && h !in next && r == At(chains[b], j)
      ensures b < |heads| && (pred != null ==> pred in next) && (r != null ==> r in next)
      ensures var l := Linking(h, LinkOf(r)); var t := l.With(b, j, pred, h);
              && t.Formed() && Stored(l.next, t.next, pred, h)
              && t.next.Keys == next.Keys - (if r == null then {} else {r}) + {h}
    {
      var c, after := chains[b], LinkOf(r);
      var l := Linking(h, after);
      var t := l.With(b, j, pred, h);
      assert BucketOk(chains, b, next.Keys);
      assert HeadAt(heads, chains, next, b);
      assert after == At(c, j + 1);
      var rest := if j < |c| then c[j + 1..] else [];
      LaidWith(chains, next.Keys, h, b, j, rest);
      WithLinks(b, j, pred, h, r, after);
      HeadsLinking(h, after);
      ChainFrom(c, heads[b], next, j, h, after);
      StoreKeeps(heads, t.heads, chains, t.chains, l.next, t.next, t.next.Keys, b, j, pred, h, [h] + rest);
    }

    lemma WithLinks(b: nat, j: nat, pred: Entry?, h: Entry, r: Entry?, after: Entry?)
      requires b < |chains| == |heads| && Slot(b, j, pred) && h !in next && r == At(chains[b], j)
      requires (pred != null ==> pred in next && pred != r) && (r != null ==> r in next)
      ensures var l := Linking(h, after); var t := l.With(b, j, pred, h);
              && t.next.Keys == next.Keys - (if r == null then {} else {r}) + {h}
              && (t.next.Keys == if j < |chains[b]| then next.Keys - {chains[b][j]} + {h} else next.Keys + {h})
              && Stored(l.next, t.next, pred, h)
    {
    }

    lemma HeadsLinking(h: Entry, after: Entry?)
      requires Valid() && h !in next
      ensures Heads(heads, chains, Linking(h, after).next)
    {
      forall b | 0 <= b < |chains| ensures HeadAt(heads, chains, Linking(h, after).next, b) {
        assert HeadAt(heads, chains, next, b);
      }
    }

    /** The entry h goes in front of its bucket. */
    ghost function InFront(h: Entry): Table
      requires 0 < |chains| == |heads|
    {
      var b := Home(h.hash, |chains|);
      Table(heads[b := h], next[h := heads[b]], chains[b := [h] + chains[b]], contents)
    }

    lemma InFrontFormed(h: Entry)
      requires Formed() && h !in next
      ensures InFront(h).Formed() && InFront(h).next.Keys == next.Keys + {h}
    {
      var t, b := InFront(h), Home(h.hash, |chains|);
      LaidInFront(chains, next.Keys, h);
      assert t.next.Keys == next.Keys + {h};
      forall i | 0 <= i < |chains| ensures HeadAt(t.heads, t.chains, t.next, i) {
        assert HeadAt(heads, chains, next, i);
        if i == b {
          forall j | 0 <= j < |t.chains[b]| ensures t.next[t.chains[b][j]] == At(t.chains[b], j + 1) {
            if j > 0 {
              assert t.chains[b][j] == chains[b][j - 1];
            }
          }
        }
      }
    }
  }

  /** An entry is in the bucket numbered by its hash modulo the number of buckets, and in no other. */
  lemma InItsBucket(t: Table, e: Entry, b: nat)
    requires t.Valid() && e in t.next && b < |t.chains|
    ensures e in t.chains[b] <==> b == e.hash % |t.chains|
  {
    HomeIsRemainder(e.hash, |t.chains|);
    assert AtHome(t.chains, e);
    assert BucketOk(t.chains, b, t.next.Keys);
  }

  lemma ChainFrom(c: seq<Entry>, head: Entry?, next: map<Entry, Entry?>, j: nat, h: Entry, after: Entry?)
    requires Chain(c, head, next) && j <= |c| && h !in next && after == At(c, j + 1)
    ensures Chain([h] + (if j < |c| then c[j + 1..] else []), h, next[h := after])
  {
    var rest, next' := [h] + (if j < |c| then c[j + 1..] else []), next[h := after];
    forall i | 0 <= i < |rest| ensures next'[rest[i]] == At(rest, i + 1) {
      if i > 0 {
        assert rest[i] == c[j + i];
        assert next[c[j + i]] == At(c, j + i + 1);
      }
    }
  }

  lemma ChainRest(c: seq<Entry>, head: Entry?, next: map<Entry, Entry?>, j: nat)
    requires Chain(c, head, next) && j < |c|
    ensures Chain(c[j + 1..], next[c[j]], next)
  {
    var rest := c[j + 1..];
    forall i | 0 <= i < |rest| ensures next[rest[i]] == At(rest, i + 1) {
      assert next[c[j + 1 + i]] == At(c, j + 1 + i + 1);
    }
  }

  lemma NamedWithout(contents: map<(string, nat), Entry>, entries: set<Entry>, r: Entry)
    requires Named(contents, entries) && r in entries
    ensures r.Id() in contents && contents[r.Id()] == r
    ensures Named(contents - {r.Id()}, entries - {r}) && |contents - {r.Id()}| == |contents| - 1
  {
    NamedLess(contents, entries, r);
    SameSize(contents, entries);
    SameSize(contents - {r.Id()}, entries - {r});
  }

  lemma NamedWith(contents: map<(string, nat), Entry>, entries: set<Entry>, r: Entry?, h: Entry)
    requires Named(contents, entries) && h !in entries
    requires r == if h.Id() in contents then contents[h.Id()] else null
    ensures Named(contents[h.Id() := h], entries - (if r == null then {} else {r}) + {h})
    ensures |contents[h.Id() := h]| == |contents| + (if r == null then 1 else 0)
  {
    var contents', entries' := contents[h.Id() := h], entries - (if r == null then {} else {r}) + {h};
    forall e | e in entries' ensures NamedIn(contents', e) {
      assert e != h ==> NamedIn(contents, e);
    }
    forall k | k in contents' ensures KeyOf(contents', entries', k) {
      assert k in contents ==> KeyOf(contents, entries, k);
      assert r != null ==> KeyOf(contents, entries, h.Id());
    }
  }

  ghost function Empty(n: nat): Table {
    Table(seq(n, _ => null), map[], seq(n, _ => []), map[])
  }

  lemma EmptyFormed(n: nat)
    requires n > 0
    ensures Empty(n).Formed() && Empty(n).Valid()
  {
  }

  /** The smallest number of buckets from 16 up by doubling that is at least one and a half times the entries. */
  method NewLength(elems: nat) returns (n: nat)
    ensures PowerOfTwo(n) && n >= 16 && 3 * elems <= 2 * n && (n == 16 || n < 3 * elems)
  {
    n := 16;
    while 2 * n < 3 * elems
      invariant PowerOfTwo(n) && n >= 16 && (n == 16 || n < 3 * elems)
      decreases 3 * elems - 2 * n
    {
      n := n * 2;
    }
  }

  /** The entries of the buckets before i and the first j of bucket i. */
  ghost function Passed(t: Table, i: nat, j: nat): set<Entry>
    requires |t.chains| > 0
  {
    set e | e in t.next && Before(t, e, i, j)
  }

  ghost predicate Before(t: Table, e: Entry, i: nat, j: nat)
    requires |t.chains| > 0
  {
    var b := Home(e.hash, |t.chains|);
    b < i || (b == i && j <= |t.chains[i]| && e in t.chains[i][..j])
  }

  lemma PassedOne(t: Table, i: nat, j: nat)
    requires t.Formed() && i < |t.chains| && j < |t.chains[i]|
    ensures var e := t.chains[i][j]; e !in Passed(t, i, j) && Passed(t, i, j + 1) == Passed(t, i, j) + {e}
  {
    var c := t.chains[i];
    assert BucketOk(t.chains, i, t.next.Keys);
    assert c[..j + 1] == c[..j] + [c[j]];
  }

  lemma PassedBucket(t: Table, i: nat)
    requires t.Formed() && i < |t.chains|
    ensures Passed(t, i + 1, 0) == Passed(t, i, |t.chains[i]|)
  {
    forall e | e in t.next ensures Before(t, e, i + 1, 0) <==> Before(t, e, i, |t.chains[i]|) {
      assert AtHome(t.chains, e);
      assert t.chains[i][..|t.chains[i]|] == t.chains[i];
    }
  }

  class LruHandleTable {
    var list: array<Entry?>
    var length: nat
    var elems: nat

    ghost var t: Table

    constructor ()
      ensures Valid() && fresh(list) && t.contents == map[] && t.next == map[]
    {
      var n := NewLength(0);
      length, elems := n, 0;
      list := new Entry?[n](_ => null);
      t := Empty(n);
      EmptyFormed(n);
    }

    ghost predicate Stands()
      reads this, list, t.next.Keys
    {
      list[..] == t.heads && forall e :: e in t.next ==> e.nextHash == t.next[e]
    }

    /** All is well but perhaps for the load. */
    ghost predicate Sound()
      reads this, list, t.next.Keys
    {
      PowerOfTwo(length) && length == list.Length && elems == |t.contents| && t.Valid() && Stands()
    }

    ghost predicate Valid()
      reads this, list, t.next.Keys
    {
      Sound() && elems <= length
    }

    /** The slot that points to the entry with this key and hash, or else the last slot of its bucket. */
    method FindPointer(key: string, hash: nat) returns (b: nat, pred: Entry?, cur: Entry?, ghost j: nat)
      requires Valid()
      ensures t.Slot(b, j, pred) && b == Home(hash, length) && cur == At(t.chains[b], j)
      ensures if (key, hash) in t.contents then cur == t.contents[(key, hash)] else cur == null
      ensures cur != null ==> cur.Id() == (key, hash)
    {
      b := Bucket(hash, length);
      pred, j := null, 0;
      ghost var c := t.chains[b];
      assert BucketOk(t.chains, b, t.next.Keys) && HeadAt(t.heads, t.chains, t.next, b);
      cur := list[b];
      while cur != null && (cur.hash != hash || key != cur.key)
        invariant j <= |c| && pred == At(c, j - 1) && cur == At(c, j)
        invariant forall i :: 0 <= i < j ==> c[i].Id() != (key, hash)
        decreases |c| - j
      {
        assert t.next[c[j]] == At(c, j + 1);
        pred, cur, j := cur, cur.nextHash, j + 1;
      }
      if (key, hash) in t.contents {
        assert KeyOf(t.contents, t.next.Keys, (key, hash));
        assert AtHome(t.chains, t.contents[(key, hash)]);
      }
      assert cur != null ==> NamedIn(t.contents, cur);
    }

    method Lookup(key: string, hash: nat) returns (r: Entry?)
      requires Valid()
      ensures r == if (key, hash) in t.contents then t.contents[(key, hash)] else null
    {
      var _, _, cur, _ := FindPointer(key, hash);
      r := cur;
    }

    /** Writes through the slot: the bucket's head, or the link of the entry before it. */
    method Store(b: nat, pred: Entry?, h: Entry?, ghost t': Table)
      requires Stands() && b < list.Length
      requires t'.heads == (if pred == null then t.heads[b := h] else t.heads) && Stored(t.next, t'.next, pred, h)
      requires pred != null ==> pred in t.next
      modifies list, t.next.Keys, `t
      ensures Stands() && t == t'
    {
      if pred == null {
        list[b] := h;
      } else {
        pred.nextHash := h;
      }
      t := t';
    }

    /** Takes out the entry r that the slot points to. */
    method Detach(b: nat, pred: Entry?, r: Entry, ghost j: nat)
      requires Valid() && t.Slot(b, j, pred) && At(t.chains[b], j) == r
      modifies `t, `elems, list, t.next.Keys
      ensures Valid() && t.contents == old(t.contents) - {r.Id()} && t.next.Keys == old(t.next.Keys) - {r}
    {
      t.WithoutValid(b, j, pred, r);
      Store(b, pred, r.nextHash, t.Without(b, j, pred, r));
      elems := elems - 1;
    }

    method Remove(key: string, hash: nat) returns (r: Entry?)
      requires Valid()
      modifies `t, `elems, list, t.next.Keys
      ensures Valid()
      ensures r == if (key, hash) in old(t.contents) then old(t.contents)[(key, hash)] else null
      ensures t.contents == old(t.contents) - {(key, hash)}
      ensures t.next.Keys == if r == null then old(t.next.Keys) else old(t.next.Keys) - {r}
    {
      var b, pred, cur, j := FindPointer(key, hash);
      r := cur;
      if r != null {
        Detach(b, pred, r, j);
      }
    }

    /** Every entry that has moved is where u says, and every other where t says. */
    ghost predicate Split(newList: array<Entry?>, u: Table)
      reads this, list, newList, t.next.Keys
    {
      && list[..] == t.heads && newList[..] == u.heads
      && (forall e :: e in t.next ==> e.nextHash == if e in u.next then u.next[e] else t.next[e])
    }

    /** Moves the chain of bucket i over. */
    method MoveChain(i: nat, newList: array<Entry?>, count: nat, ghost u: Table) returns (count': nat, ghost u': Table)
      requires t.Formed() && i < |t.chains| && Split(newList, u) && newList != list
      requires u.Formed() && PowerOfTwo(newList.Length) && u.next.Keys == Passed(t, i, 0) && count == |u.next.Keys|
      modifies newList, t.next.Keys
      ensures Split(newList, u') && u'.Formed() && |u'.chains| == |u.chains|
      ensures u'.next.Keys == Passed(t, i + 1, 0) && count' == |u'.next.Keys|
    {
      ghost var w, c, j := t, t.chains[i], 0;
      u', count' := u, count;
      assert HeadAt(t.heads, t.chains, t.next, i);
      var h := list[i];
      while h != null
        invariant t == w && j <= |c| && h == At(c, j) && Split(newList, u') && u'.Formed() && |u'.chains| == |u.chains|
        invariant u'.next.Keys == Passed(w, i, j) && count' == |u'.next.Keys|
        decreases |c| - j
      {
        PassedOne(w, i, j);
        u'.InFrontFormed(h);
        assert w.next[c[j]] == At(c, j + 1);
        h := MoveEntry(h, newList, u');
        u' := u'.InFront(c[j]);
        count', j := count' + 1, j + 1;
      }
      PassedBucket(w, i);
    }

    /** Puts one entry in front of its new bucket. */
    method MoveEntry(h: Entry, newList: array<Entry?>, ghost u: Table) returns (next: Entry?)
      requires PowerOfTwo(newList.Length) && Split(newList, u) && newList != list
      requires |u.chains| == newList.Length && h in t.next && h !in u.next
      modifies newList, t.next.Keys
      ensures next == t.next[h] && Split(newList, u.InFront(h))
    {
      next := h.nextHash;
      var b := Bucket(h.hash, newList.Length);
      h.nextHash := newList[b];
      newList[b] := h;
    }

    /** Links h in the place of r and makes the slot point to it. */
    method Place(b: nat, pred: Entry?, h: Entry, r: Entry?, ghost t': Table)
      requires Stands() && b < list.Length && h !in t.next
      requires (pred != null ==> pred in t.next) && (r != null ==> r in t.next)
      requires t'.heads == if pred == null then t.heads[b := h] else t.heads
      requires Stored(t.Linking(h, t.LinkOf(r)).next, t'.next, pred, h)
      modifies list, t.next.Keys, h, `t
      ensures Stands() && t == t'
    {
      h.nextHash := if r == null then null else r.nextHash;
      t := t.Linking(h, h.nextHash);
      Store(b, pred, h, t');
    }

    /** Moves every entry to a longer list of buckets. */
    method Resize()
      requires Sound()
      modifies this, t.next.Keys
      ensures Valid() && fresh(list) && t.contents == old(t.contents) && t.next.Keys == old(t.next.Keys)
    {
      var newLength := NewLength(elems);
      var newList := new Entry?[newLength](_ => null);
      ghost var u;
      var count;
      count, u := MoveAll(newList);
      SameSize(t.contents, t.next.Keys);
      assert elems == count;
      Adopt(newList, u.(contents := t.contents));
    }

    /** Takes a new list of buckets for the one it had. */
    method Adopt(newList: array<Entry?>, ghost u: Table)
      requires PowerOfTwo(newList.Length) && elems == |u.contents| && elems <= newList.Length && u.Valid()
      requires newList[..] == u.heads && forall e :: e in u.next ==> e.nextHash == u.next[e]
      modifies this
      ensures Valid() && t == u && list == newList
    {
      t := u;
      list, length := newList, newList.Length;
    }

    method MoveAll(newList: array<Entry?>) returns (count: nat, ghost u: Table)
      requires t.Formed() && Stands() && length == list.Length && newList != list
      requires PowerOfTwo(newList.Length) && newList[..] == Empty(newList.Length).heads
      modifies newList, t.next.Keys
      ensures u.Formed() && u.next.Keys == t.next.Keys && |u.chains| == newList.Length
      ensures Split(newList, u) && count == |t.next.Keys|
    {
      u, count := Empty(newList.Length), 0;
      EmptyFormed(newList.Length);
      var i := 0;
      assert Passed(t, 0, 0) == {};
      while i < length
        invariant i <= length && unchanged(this) && unchanged(list)
        invariant Split(newList, u) && u.Formed() && |u.chains| == newList.Length
        invariant u.next.Keys == Passed(t, i, 0) && count == |u.next.Keys|
      {
        count, u := MoveChain(i, newList, count, u);
        i := i + 1;
      }
      assert Passed(t, length, 0) == t.next.Keys;
    }

    /** Puts an entry in, in place of the one with the same key and hash. */
    method Put(h: Entry) returns (r: Entry?)
      requires Valid() && h !in t.next
      modifies `t, `elems, list, t.next.Keys, h
      ensures Sound() && (r != null ==> Valid())
      ensures r == if h.Id() in old(t.contents) then old(t.contents)[h.Id()] else null
      ensures t.contents == old(t.contents)[h.Id() := h]
      ensures t.next.Keys == old(t.next.Keys) - (if r == null then {} else {r}) + {h}
    {
      var b, pred, cur, j := FindPointer(h.key, h.hash);
      r := cur;
      t.WithFormed(b, j, pred, h, r);
      NamedWith(t.contents, t.next.Keys, r, h);
      Place(b, pred, h, r, t.Linking(h, t.LinkOf(r)).With(b, j, pred, h));
      if r == null {
        elems := elems + 1;
      }
    }

    /** Puts an entry in and returns the one it takes the place of; the load stays at most one a bucket. */
    method Insert(h: Entry) returns (r: Entry?)
      requires Valid() && h !in t.next
      modifies this, list, t.next.Keys, h
      ensures Valid() && (list == old(list) || fresh(list))
      ensures r == if h.Id() in old(t.contents) then old(t.contents)[h.Id()] else null
      ensures t.contents == old(t.contents)[h.Id() := h]
      ensures t.next.Keys == old(t.next.Keys) - (if r == null then {} else {r}) + {h}
    {
      r := Put(h);
      if r == null && elems > length {
        Resize();
      }
    }
  }
}
