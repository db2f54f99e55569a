/** What every interleaving of the clock cache keeps, and what follows from it. */
module ClockCacheSafety {
  import opened Tally
  import opened ClockFlags
  import opened ClockCache

  ghost function ThreadUses(ts: seq<Pc>, h: HandleId): nat {
    Sum(seq(|ts|, i requires 0 <= i < |ts| => ts[i].Uses(h)))
  }

  ghost function ThreadOwes(ts: seq<Pc>, h: HandleId): nat {
    Sum(seq(|ts|, i requires 0 <= i < |ts| => ts[i].Owes(h)))
  }

  lemma GoThread(ts: seq<Pc>, i: nat, pc: Pc, h: HandleId)
    requires i < |ts|
    ensures ThreadUses(ts[i := pc], h) == ThreadUses(ts, h) - ts[i].Uses(h) + pc.Uses(h)
    ensures ThreadOwes(ts[i := pc], h) == ThreadOwes(ts, h) - ts[i].Owes(h) + pc.Owes(h)
    ensures ts[i].Uses(h) <= ThreadUses(ts, h) && ts[i].Owes(h) <= ThreadOwes(ts, h)
  {
    var uses := seq(|ts|, j requires 0 <= j < |ts| => ts[j].Uses(h));
    var owes := seq(|ts|, j requires 0 <= j < |ts| => ts[j].Owes(h));
    var ts' := ts[i := pc];
    assert uses[i := pc.Uses(h)] == seq(|ts'|, j requires 0 <= j < |ts'| => ts'[j].Uses(h));
    assert owes[i := pc.Owes(h)] == seq(|ts'|, j requires 0 <= j < |ts'| => ts'[j].Owes(h));
    SumUpdate(uses, i, pc.Uses(h));
    SumUpdate(owes, i, pc.Owes(h));
  }

  lemma AddIdle(ts: seq<Pc>, h: HandleId)
    ensures ThreadUses(ts + [Idle], h) == ThreadUses(ts, h)
    ensures ThreadOwes(ts + [Idle], h) == ThreadOwes(ts, h)
  {
    var uses := seq(|ts|, j requires 0 <= j < |ts| => ts[j].Uses(h));
    var owes := seq(|ts|, j requires 0 <= j < |ts| => ts[j].Owes(h));
    var ts' := ts + [Idle];
    assert uses + [0] == seq(|ts'|, j requires 0 <= j < |ts'| => ts'[j].Uses(h));
    assert owes + [0] == seq(|ts'|, j requires 0 <= j < |ts'| => ts'[j].Owes(h));
    SumAppend(uses, 0);
    SumAppend(owes, 0);
  }

  lemma NoUses(ts: seq<Pc>, h: HandleId)
    requires forall i :: 0 <= i < |ts| ==> ts[i].Uses(h) == 0 && ts[i].Owes(h) == 0
    ensures ThreadUses(ts, h) == 0 && ThreadOwes(ts, h) == 0
  {
    SumZeroes(seq(|ts|, i requires 0 <= i < |ts| => ts[i].Uses(h)));
    SumZeroes(seq(|ts|, i requires 0 <= i < |ts| => ts[i].Owes(h)));
  }

  /** The handle an Insert has filled but not yet linked. */
  predicate Inserting(sec: Section, h: HandleId) {
    (sec.Filled? || sec.Displacing? || sec.Linking?) && sec.h == h
  }

  function SectionUses(sec: Section, h: HandleId): nat {
    if Inserting(sec, h) && sec.ins.hold then 1 else 0
  }

  function SectionOwes(sec: Section, h: HandleId): nat {
    if sec.Evicted? && sec.victim == h then 1 else 0
  }

  ghost function InBin(s: State, h: HandleId): nat {
    multiset(s.recycle)[h]
  }

  /** In the cache but, while the mutex is held, not in the table. */
  predicate Unlinked(sec: Section, h: HandleId) {
    || Inserting(sec, h)
    || (sec.Displacing? && sec.existing == h)
    || (sec.Erasing? && sec.h == h)
    || (sec.Clearing? && sec.next <= h)
  }

  predicate Linked(s: State, h: HandleId) {
    h < |s.list| && s.list[h].key in s.table && s.table[s.list[h].key] == h
  }

  /**
   * References are counted; a handle that is neither in cache nor referenced is in the bin once or
   * owed to it by one thread; and of its occupancies all but the present one have been ended.
   */
  ghost predicate HandleOk(s: State, h: HandleId) {
    && h < |s.list|
    && (var e := s.list[h];
        && CountRefs(e.flags) == ThreadUses(s.threads, h) + s.held[h] + SectionUses(s.section, h)
        && InBin(s, h) + ThreadOwes(s.threads, h) + SectionOwes(s.section, h) == (if Live(e.flags) then 0 else 1)
        && e.fills + InBin(s, h) == e.recycles + 1
        && (InCache(e.flags) ==> Linked(s, h) || Unlinked(s.section, h)))
  }

  ghost predicate TableOk(s: State, k: Key) {
    k in s.table ==>
      var h := s.table[k];
      && h < |s.list| && s.list[h].key == k && !Unlinked(s.section, h)
      && (InCache(s.list[h].flags) || SectionOwes(s.section, h) == 1)
  }

  /** What a handle adds to the usage of the cache. */
  ghost function Weight(s: State, h: HandleId): nat
    requires h < |s.list|
  {
    if InBin(s, h) > 0 || Inserting(s.section, h) then 0 else s.list[h].charge
  }

  ghost function Weights(s: State): seq<nat> {
    seq(|s.list|, h requires 0 <= h < |s.list| => Weight(s, h))
  }

  ghost predicate UsageOk(s: State) {
    s.usage == Sum(Weights(s))
  }

  predicate PcOk(s: State, pc: Pc) {
    pc.Idle? || pc.h < |s.list|
  }

  predicate SectionOk(s: State) {
    var sec := s.section;
    match sec
    case Free => true
    case Evicting(_, newHead, _) => newHead < |s.list|
    case Passed(_, newHead, _) => newHead < |s.list|
    case Evicted(_, newHead, _, victim) => newHead == victim < |s.list| && Linked(s, victim)
    case Evaluated(purpose, success) => success ==> s.usage + purpose.Charge() <= s.capacity
    case Filled(ins, h, success) => InsertOk(s, ins, h, success)
    case Displacing(ins, h, success, existing) =>
      && InsertOk(s, ins, h, success) && ins.key !in s.table
      && existing < |s.list| && existing != h && InCache(s.list[existing].flags)
    case Linking(ins, h, success) => InsertOk(s, ins, h, success) && ins.key !in s.table
    case Erasing(h) => h < |s.list| && InCache(s.list[h].flags)
    case Clearing(next) => next <= |s.list| && s.table == map[]
  }

  predicate InsertOk(s: State, ins: Insertion, h: HandleId, success: bool) {
    && h < |s.list| && s.list[h].key == ins.key && s.list[h].charge == ins.charge && InCache(s.list[h].flags)
    && (success ==> s.usage + ins.charge <= s.capacity)
  }

  ghost predicate Shape(s: State) {
    && (if s.list == [] then s.head == 0 else s.head < |s.list|)
    && (forall h :: s.held[h] > 0 ==> h < |s.list|)
    && (forall j :: 0 <= j < |s.recycle| ==> s.recycle[j] < |s.list|)
    && (forall i :: 0 <= i < |s.threads| ==> PcOk(s, s.threads[i]))
    && SectionOk(s)
  }

  ghost predicate Inv(s: State) {
    && Shape(s) && UsageOk(s)
    && (forall h :: 0 <= h < |s.list| ==> HandleOk(s, h))
    && (forall k :: k in s.table ==> TableOk(s, k))
  }

  predicate KeepsEntry(e: Handle, e': Handle) {
    e' == e.(flags := e'.flags) && InCache(e'.flags) == InCache(e.flags)
  }

  predicate KeepsEntries(s: State, s': State) {
    |s'.list| == |s.list| && forall h :: 0 <= h < |s.list| ==> KeepsEntry(s.list[h], s'.list[h])
  }

  /** What a thread without the mutex can change: reference counts, usage bits, and itself. */
  ghost predicate LockFree(s: State, s': State) {
    && s' == s.(list := s'.list, threads := s'.threads, held := s'.held) && KeepsEntries(s, s')
    && (forall h :: s'.held[h] > 0 ==> h < |s.list|)
    && (forall i :: 0 <= i < |s'.threads| ==> PcOk(s', s'.threads[i]))
  }

  lemma LockFreeKeeps(s: State, s': State)
    requires Inv(s) && LockFree(s, s')
    requires forall h :: 0 <= h < |s'.list| ==> HandleOk(s', h)
    ensures Inv(s')
  {
    assert Weights(s') == Weights(s);
    forall k | k in s'.table ensures TableOk(s', k) {
      assert TableOk(s, k);
    }
  }

  predicate LockFreeActs(a: Action) {
    ThreadActs(a) && !a.RecycleLast?
  }

  lemma LockFreePc(s: State, a: Action)
    requires Shape(s) && Enabled(s, a) && LockFreeActs(a)
    requires forall k :: k in s.table ==> TableOk(s, k)
    ensures ThreadOf(a) < |s.threads| == |Apply(s, a).threads| && PcOk(s, Apply(s, a).threads[ThreadOf(a)])
  {
    assert PcOk(s, s.threads[ThreadOf(a)]);
    if a.Find? && a.key in s.table {
      assert TableOk(s, a.key);
    }
  }

  lemma LockFreeEntry(s: State, a: Action, h: HandleId)
    requires Enabled(s, a) && LockFreeActs(a) && h < |s.list|
    ensures |Apply(s, a).list| == |s.list| && KeepsEntry(s.list[h], Apply(s, a).list[h])
  {
  }

  lemma LockFreeEntries(s: State, a: Action)
    requires Enabled(s, a) && LockFreeActs(a)
    ensures KeepsEntries(s, Apply(s, a))
  {
    LockFreeLength(s, a);
    forall h | 0 <= h < |s.list| ensures KeepsEntry(s.list[h], Apply(s, a).list[h]) {
      LockFreeEntry(s, a, h);
    }
  }

  lemma LockFreeLength(s: State, a: Action)
    requires Enabled(s, a) && LockFreeActs(a)
    ensures |Apply(s, a).list| == |s.list|
  {
  }

  lemma LockFreeRest(s: State, a: Action)
    requires Enabled(s, a) && LockFreeActs(a)
    ensures var s' := Apply(s, a);
            s' == s.(list := s'.list, threads := s'.threads, held := s'.held) &&
            s'.threads == s.threads[ThreadOf(a) := s'.threads[ThreadOf(a)]]
  {
  }

  lemma LockFreeHeld(s: State, a: Action, h: HandleId)
    requires Shape(s) && Enabled(s, a) && LockFreeActs(a) && Apply(s, a).held[h] > 0
    ensures h < |s.list|
  {
    assert PcOk(s, s.threads[ThreadOf(a)]);
  }

  lemma LockFreeStep(s: State, a: Action)
    requires Shape(s) && Enabled(s, a) && LockFreeActs(a)
    requires forall k :: k in s.table ==> TableOk(s, k)
    ensures LockFree(s, Apply(s, a))
  {
    var s', i := Apply(s, a), ThreadOf(a);
    LockFreePc(s, a);
    LockFreeEntries(s, a);
    LockFreeRest(s, a);
    forall h | s'.held[h] > 0 ensures h < |s.list| {
      LockFreeHeld(s, a, h);
    }
    forall j | 0 <= j < |s'.threads| ensures PcOk(s', s'.threads[j]) {
      assert PcOk(s, s.threads[j]);
    }
  }

  function Dead(flags: Flags): nat {
    if Live(flags) then 0 else 1
  }

  /** Thread `i` gains what the handle counts more, and owes it to the bin if it let it die. */
  predicate Balanced(s: State, s': State, i: nat, h: HandleId) {
    && i < |s.threads| == |s'.threads| && h < |s.list| == |s'.list|
    && CountRefs(s'.list[h].flags) + s.threads[i].Uses(h) + s.held[h] ==
       CountRefs(s.list[h].flags) + s'.threads[i].Uses(h) + s'.held[h]
    && Dead(s'.list[h].flags) + s.threads[i].Owes(h) == Dead(s.list[h].flags) + s'.threads[i].Owes(h)
  }

  lemma BalancedHandle(s: State, s': State, i: nat, h: HandleId)
    requires Inv(s) && LockFree(s, s') && Balanced(s, s', i, h)
    requires s'.threads == s.threads[i := s'.threads[i]]
    ensures HandleOk(s', h)
  {
    assert HandleOk(s, h);
    GoThread(s.threads, i, s'.threads[i], h);
  }

  predicate LookupActs(a: Action) {
    a.Find? || a.RefFound? || a.CheckKey?
  }

  lemma LookupBalanced(s: State, a: Action, h: HandleId)
    requires Enabled(s, a) && LookupActs(a) && h < |s.list| && PcOk(s, s.threads[ThreadOf(a)])
    ensures Balanced(s, Apply(s, a), ThreadOf(a), h)
  {
  }

  lemma ReleaseBalanced(s: State, a: Action, h: HandleId)
    requires Enabled(s, a) && LockFreeActs(a) && !LookupActs(a) && AssertionsHold(s, a)
    requires h < |s.list| && PcOk(s, s.threads[ThreadOf(a)])
    ensures Balanced(s, Apply(s, a), ThreadOf(a), h)
  {
  }

  lemma LockFreeInv(s: State, a: Action)
    requires Inv(s) && Enabled(s, a) && LockFreeActs(a)
    ensures Inv(Apply(s, a))
  {
    var s' := Apply(s, a);
    LockFreeStep(s, a);
    ActionIsSafe(s, a);
    forall h | 0 <= h < |s'.list| ensures HandleOk(s', h) {
      if LookupActs(a) {
        LookupBalanced(s, a, h);
      } else {
        ReleaseBalanced(s, a, h);
      }
      BalancedHandle(s, s', ThreadOf(a), h);
    }
    LockFreeKeeps(s, s');
  }

  /** What a thread owns is part of the count. */
  lemma OwnerCounts(s: State, i: nat, h: HandleId)
    requires Inv(s) && i < |s.threads| && h < |s.list|
    ensures HandleOk(s, h)
    ensures s.threads[i].Uses(h) <= ThreadUses(s.threads, h) && s.threads[i].Owes(h) <= ThreadOwes(s.threads, h)
  {
    GoThread(s.threads, i, s.threads[i], h);
  }

  /** A handle outside the bin has its charge in the usage. */
  lemma ChargeInUse(s: State, h: HandleId)
    requires UsageOk(s) && h < |s.list| && InBin(s, h) == 0 && !Inserting(s.section, h)
    ensures s.list[h].charge <= s.usage
  {
    SumUpdate(Weights(s), h, 0);
  }

  lemma ActionIsSafe(s: State, a: Action)
    requires Inv(s) && Enabled(s, a)
    ensures AssertionsHold(s, a)
  {
    match a {
      case SubOne(i) =>
        assert PcOk(s, s.threads[i]);
        OwnerCounts(s, i, s.threads[i].h);
      case RecycleLast(i) =>
        assert PcOk(s, s.threads[i]);
        OwnerCounts(s, i, s.threads[i].h);
        ChargeInUse(s, s.threads[i].h);
      case RemoveVictim =>
        assert HandleOk(s, s.section.victim);
        ChargeInUse(s, s.section.victim);
      case UnsetExisting => assert HandleOk(s, s.section.existing);
      case UnsetErased => assert HandleOk(s, s.section.h);
      case _ =>
    }
  }

  /** Recycling a handle takes its charge out of the usage. */
  lemma RecycleUsage(s: State, h: HandleId)
    requires UsageOk(s) && h < |s.list| && InBin(s, h) == 0 && !Inserting(s.section, h)
    ensures UsageOk(s.Recycle(h))
  {
    var s' := s.Recycle(h);
    ChargeInUse(s, h);
    SumUpdate(Weights(s), h, 0);
    assert Weights(s') == Weights(s)[h := 0];
  }

  lemma RecycleLastHandle(s: State, i: nat, h: HandleId)
    requires Inv(s) && s.section.Free? && i < |s.threads| && s.threads[i].MustRecycle? && h < |s.list|
    requires Recyclable(s, s.threads[i].h)
    ensures HandleOk(s.Go(i, Idle).Recycle(s.threads[i].h), h)
  {
    assert HandleOk(s, h);
    GoThread(s.threads, i, Idle, h);
  }

  lemma RecycleLastInv(s: State, a: Action)
    requires Inv(s) && Enabled(s, a) && a.RecycleLast?
    ensures Inv(Apply(s, a))
  {
    var s', i := Apply(s, a), ThreadOf(a);
    var r := s.threads[i].h;
    ActionIsSafe(s, a);
    RecycleUsage(s, r);
    SameWeights(s.Recycle(r), s');
    forall h | 0 <= h < |s'.list| ensures HandleOk(s', h) {
      RecycleLastHandle(s, i, h);
    }
    forall k | k in s'.table ensures TableOk(s', k) {
      assert TableOk(s, k);
    }
    forall j | 0 <= j < |s'.threads| ensures PcOk(s', s'.threads[j]) {
      assert PcOk(s, s.threads[j]);
    }
  }

  /** A section that goes on after dealing with handle `h`. */
  predicate SectionMoves(sec: Section, sec': Section, h: HandleId) {
    && Unlinked(sec, h) && !Inserting(sec, h) && !Unlinked(sec', h)
    && match sec
       case Displacing(ins, i, success, _) => sec' == Linking(ins, i, success)
       case Erasing(_) => sec' == Free
       case Clearing(next) => next == h && sec' == Clearing(next + 1)
       case _ => false
  }

  /** The usage depends on the bin, the charges, and what is being inserted. */
  lemma SameWeights(s: State, s': State)
    requires |s'.list| == |s.list| && s'.recycle == s.recycle
    requires forall h :: 0 <= h < |s.list| ==>
               s'.list[h].charge == s.list[h].charge && Inserting(s'.section, h) == Inserting(s.section, h)
    ensures Weights(s') == Weights(s)
  {
  }

  lemma UnsetLeaves(s: State, h: HandleId, g: HandleId)
    requires h < |s.list| && g < |s.list| && g != h
    ensures var s' := s.UnsetInCache(h);
            && |s'.list| == |s.list| && s'.list[g] == s.list[g] && InBin(s', g) == InBin(s, g)
            && s'.threads == s.threads && s'.held == s.held && s'.table == s.table
  {
  }

  lemma UnsetOther(s: State, s1: State, sec': Section, h: HandleId, g: HandleId)
    requires HandleOk(s, g) && g != h && SectionMoves(s.section, sec', h)
    requires && |s1.list| == |s.list| && s1.list[g] == s.list[g] && InBin(s1, g) == InBin(s, g)
             && s1.threads == s.threads && s1.held == s.held && s1.table == s.table
    ensures HandleOk(s1.(section := sec'), g)
  {
  }

  lemma UnsetHandle(s: State, sec': Section, h: HandleId, g: HandleId)
    requires Inv(s) && h < |s.list| && g < |s.list| && SectionMoves(s.section, sec', h)
    ensures HandleOk(s.UnsetInCache(h).(section := sec'), g)
  {
    if g == h {
      UnsetItself(s, sec', h);
    } else {
      assert HandleOk(s, g);
      UnsetLeaves(s, h, g);
      UnsetOther(s, s.UnsetInCache(h), sec', h, g);
    }
  }

  lemma UnsetItself(s: State, sec': Section, h: HandleId)
    requires Inv(s) && h < |s.list| && SectionMoves(s.section, sec', h)
    ensures HandleOk(s.UnsetInCache(h).(section := sec'), h)
  {
    assert HandleOk(s, h);
    var s', flags := s.UnsetInCache(h).(section := sec'), s.list[h].flags;
    assert s'.list[h].flags == ClearInCache(flags);
    assert InBin(s', h) == InBin(s, h) + if InCache(flags) && CountRefs(flags) == 0 then 1 else 0;
  }

  lemma UnsetUsage(s: State, sec': Section, h: HandleId)
    requires Inv(s) && h < |s.list| && SectionMoves(s.section, sec', h)
    ensures UsageOk(s.UnsetInCache(h).(section := sec'))
    ensures s.UnsetInCache(h).usage <= s.usage
  {
    var s1 := s.WithFlags(h, ClearInCache(s.FlagsOf(h)));
    var s2 := s.UnsetInCache(h);
    assert HandleOk(s, h);
    SameWeights(s, s1);
    if s2 != s1 {
      RecycleUsage(s1, h);
    }
    SameWeights(s2, s2.(section := sec'));
  }

  lemma UnsetTable(s: State, sec': Section, h: HandleId, k: Key)
    requires Inv(s) && h < |s.list| && SectionMoves(s.section, sec', h) && k in s.table
    ensures TableOk(s.UnsetInCache(h).(section := sec'), k)
  {
    assert TableOk(s, k);
    assert s.UnsetInCache(h).list[s.table[k]] == s.list[s.table[k]];
  }

  lemma UnsetInv(s: State, sec': Section, h: HandleId)
    requires Inv(s) && h < |s.list| && SectionMoves(s.section, sec', h)
    ensures Inv(s.UnsetInCache(h).(section := sec'))
  {
    var s' := s.UnsetInCache(h).(section := sec');
    UnsetUsage(s, sec', h);
    forall g | 0 <= g < |s'.list| ensures HandleOk(s', g) {
      UnsetHandle(s, sec', h, g);
    }
    forall k | k in s'.table ensures TableOk(s', k) {
      UnsetTable(s, sec', h, k);
    }
    UnsetShape(s, sec', h);
  }

  lemma UnsetShape(s: State, sec': Section, h: HandleId)
    requires Shape(s) && h < |s.list| && SectionMoves(s.section, sec', h)
    ensures Shape(s.UnsetInCache(h).(section := sec'))
  {
    var s' := s.UnsetInCache(h).(section := sec');
    forall j | 0 <= j < |s'.threads| ensures PcOk(s', s'.threads[j]) {
      assert PcOk(s, s.threads[j]);
    }
  }

  /** Sections that have no handle in hand. */
  predicate HandsFree(sec: Section) {
    sec.Free? || sec.Evicting? || sec.Passed? || sec.Evaluated?
  }

  /** The mutex holder moves on without touching a handle. */
  lemma MoveOnInv(s: State, s': State)
    requires Inv(s) && HandsFree(s.section) && HandsFree(s'.section) && Shape(s')
    requires s' == s.(section := s'.section, head := s'.head, capacity := s'.capacity)
    ensures Inv(s')
  {
    assert Weights(s') == Weights(s);
    forall h | 0 <= h < |s'.list| ensures HandleOk(s', h) {
      assert HandleOk(s, h);
    }
    forall k | k in s'.table ensures TableOk(s', k) {
      assert TableOk(s, k);
    }
  }

  lemma BeginEvictionInv(s: State, a: Action)
    requires Inv(s) && Enabled(s, a) && (a.BeginInsert? || a.BeginSetCapacity?)
    ensures Inv(Apply(s, a))
  {
    assert s.usage != 0 ==> s.list != [];
    MoveOnInv(s, Apply(s, a));
  }

  /** A handle leaves the cache, and its entry is still to be taken out of the table. */
  lemma EvictInv(s: State, s': State)
    requires Inv(s) && s.section.Evicting? && s.FlagsOf(s.section.newHead) == IN_CACHE
    requires var n := s.section.newHead;
             s' == s.WithFlags(n, NONE).(section := Evicted(s.section.purpose, n, s.section.second, n))
    ensures Inv(s')
  {
    SameWeights(s, s');
    assert HandleOk(s, s.section.newHead);
    forall h | 0 <= h < |s'.list| ensures HandleOk(s', h) {
      assert HandleOk(s, h);
    }
    forall k | k in s'.table ensures TableOk(s', k) {
      assert TableOk(s, k);
    }
    forall j | 0 <= j < |s'.threads| ensures PcOk(s', s'.threads[j]) {
      assert PcOk(s, s.threads[j]);
    }
  }

  lemma TryEvictInv(s: State)
    requires Inv(s) && Enabled(s, TryEvict)
    ensures Inv(Apply(s, TryEvict))
  {
    var s' := Apply(s, TryEvict);
    if s'.section.Evicted? {
      EvictInv(s, s');
    } else {
      MoveOnInv(s, s');
    }
  }

  lemma RemoveVictimInv(s: State)
    requires Inv(s) && Enabled(s, RemoveVictim)
    ensures Inv(Apply(s, RemoveVictim))
  {
    ActionIsSafe(s, RemoveVictim);
    var s' := Apply(s, RemoveVictim);
    var victim := s.section.victim;
    assert HandleOk(s, victim);
    RecycleUsage(s, victim);
    assert Weights(s') == Weights(s.Recycle(victim));
    forall h | 0 <= h < |s'.list| ensures HandleOk(s', h) {
      RemoveVictimHandle(s, h);
    }
    forall k | k in s'.table ensures TableOk(s', k) {
      assert TableOk(s, k);
    }
  }

  lemma RemoveVictimHandle(s: State, h: HandleId)
    requires Inv(s) && Enabled(s, RemoveVictim) && AssertionsHold(s, RemoveVictim) && h < |s.list|
    ensures h < |Apply(s, RemoveVictim).list| && HandleOk(Apply(s, RemoveVictim), h)
  {
    var v := s.section.victim;
    assert HandleOk(s, h) && HandleOk(s, v);
    VictimRemoved(s, h);
    if h != v && InCache(s.list[h].flags) {
      OtherStaysLinked(s, v, h);
    }
  }

  /** What removing the victim does to a handle. */
  lemma VictimRemoved(s: State, h: HandleId)
    requires Enabled(s, RemoveVictim) && AssertionsHold(s, RemoveVictim) && h < |s.list|
    ensures var s', v := Apply(s, RemoveVictim), s.section.victim;
            && |s'.list| == |s.list| && s'.threads == s.threads && s'.held == s.held && s'.table == s.table - {s.list[v].key}
            && (if h == v then s'.list[h] == s.list[h].(key := "", recycles := s.list[h].recycles + 1) else s'.list[h] == s.list[h])
            && InBin(s', h) == InBin(s, h) + (if h == v then 1 else 0)
            && (s'.section.Evaluated? || s'.section.Evicting?)
  {
  }

  lemma OtherStaysLinked(s: State, v: HandleId, h: HandleId)
    requires Linked(s, v) && Linked(s, h) && h != v
    ensures s.list[h].key in s.table - {s.list[v].key} && s.list[h].key != s.list[v].key
  {
  }

  /** Clearing a usage bit changes nothing that is counted. */
  lemma ClearUsageInv(s: State, n: HandleId)
    requires Inv(s)
    ensures Inv(s.WithFlags(n, ClearUsage(s.FlagsOf(n))))
  {
    var s' := s.WithFlags(n, ClearUsage(s.FlagsOf(n)));
    assert LockFree(s, s');
    forall h | 0 <= h < |s'.list| ensures HandleOk(s', h) {
      assert HandleOk(s, h);
    }
    LockFreeKeeps(s, s');
  }

  lemma SparePassedInv(s: State)
    requires Inv(s) && Enabled(s, SparePassed)
    ensures Inv(Apply(s, SparePassed))
  {
    var n := s.section.newHead;
    ClearUsageInv(s, n);
    MoveOnInv(s.WithFlags(n, ClearUsage(s.FlagsOf(n))), Apply(s, SparePassed));
  }

  /** Filling the handle last put into the bin. */
  lemma FillRecycled(s: State, ins: Insertion, success: bool)
    requires Inv(s) && s.section == Evaluated(ForInsert(ins), success) && s.recycle != []
    ensures Inv(s.Fill(ins, success))
  {
    var s' := s.Fill(ins, success);
    FillRecycledUsage(s, ins, success);
    forall g | 0 <= g < |s'.list| ensures HandleOk(s', g) {
      FillRecycledHandle(s, ins, success, g);
    }
    forall k | k in s'.table ensures TableOk(s', k) {
      assert TableOk(s, k) && HandleOk(s, s.table[k]);
      assert s.recycle[|s.recycle| - 1] in multiset(s.recycle);
    }
    forall j | 0 <= j < |s'.threads| ensures PcOk(s', s'.threads[j]) {
      assert PcOk(s, s.threads[j]);
    }
  }

  lemma FillRecycledUsage(s: State, ins: Insertion, success: bool)
    requires Inv(s) && s.section == Evaluated(ForInsert(ins), success) && s.recycle != []
    ensures UsageOk(s.Fill(ins, success))
  {
    var n, h := |s.recycle| - 1, s.recycle[|s.recycle| - 1];
    assert s.recycle == s.recycle[..n] + [h];
    assert Weights(s.Fill(ins, success)) == Weights(s);
  }

  lemma FillRecycledHandle(s: State, ins: Insertion, success: bool, g: HandleId)
    requires Inv(s) && s.section == Evaluated(ForInsert(ins), success) && s.recycle != [] && g < |s.list|
    ensures HandleOk(s.Fill(ins, success), g)
  {
    var n, h := |s.recycle| - 1, s.recycle[|s.recycle| - 1];
    assert s.recycle == s.recycle[..n] + [h];
    assert HandleOk(s, g) && HandleOk(s, h);
  }

  lemma FillNewUsage(s: State, ins: Insertion, success: bool)
    requires UsageOk(s) && s.section == Evaluated(ForInsert(ins), success) && s.recycle == []
    ensures UsageOk(s.Fill(ins, success))
  {
    SumAppend(Weights(s), 0);
    assert Weights(s.Fill(ins, success)) == Weights(s) + [0];
  }

  /** A handle past the end of the list is nobody's. */
  lemma NobodyUses(s: State, h: HandleId)
    requires (forall j :: 0 <= j < |s.threads| ==> PcOk(s, s.threads[j])) && h >= |s.list|
    ensures ThreadUses(s.threads, h) == 0 && ThreadOwes(s.threads, h) == 0
  {
    forall j | 0 <= j < |s.threads| ensures s.threads[j].Uses(h) == 0 == s.threads[j].Owes(h) {
      assert PcOk(s, s.threads[j]);
    }
    NoUses(s.threads, h);
  }

  lemma FillNewHandle(s: State, ins: Insertion, success: bool, g: HandleId)
    requires Inv(s) && s.section == Evaluated(ForInsert(ins), success) && s.recycle == [] && g <= |s.list|
    ensures HandleOk(s.Fill(ins, success), g)
  {
    if g < |s.list| {
      assert HandleOk(s, g);
    } else {
      NobodyUses(s, g);
    }
  }

  /** Filling a handle added to the end of the list. */
  lemma FillNew(s: State, ins: Insertion, success: bool)
    requires Inv(s) && s.section == Evaluated(ForInsert(ins), success) && s.recycle == []
    ensures Inv(s.Fill(ins, success))
  {
    var s' := s.Fill(ins, success);
    FillNewUsage(s, ins, success);
    forall j | 0 <= j < |s.threads| ensures PcOk(s', s'.threads[j]) {
      assert PcOk(s, s.threads[j]);
    }
    forall g | 0 <= g < |s'.list| ensures HandleOk(s', g) {
      FillNewHandle(s, ins, success, g);
    }
    forall k | k in s'.table ensures TableOk(s', k) {
      assert TableOk(s, k);
    }
  }

  lemma ConcludeInv(s: State)
    requires Inv(s) && Enabled(s, Conclude)
    ensures Inv(Apply(s, Conclude))
  {
    var s' := Apply(s, Conclude);
    if s'.section.Free? {
      MoveOnInv(s, s');
    } else if s.recycle != [] {
      FillRecycled(s, s.section.purpose.ins, s.section.success);
    } else {
      FillNew(s, s.section.purpose.ins, s.section.success);
    }
  }

  lemma FindExistingHandle(s: State, h: HandleId)
    requires Inv(s) && Enabled(s, FindExisting) && h < |s.list|
    ensures HandleOk(Apply(s, FindExisting), h)
  {
    assert TableOk(s, s.section.ins.key) && HandleOk(s, h);
  }

  lemma FindExistingInv(s: State)
    requires Inv(s) && Enabled(s, FindExisting)
    ensures Inv(Apply(s, FindExisting))
  {
    var s' := Apply(s, FindExisting);
    SameWeights(s, s');
    assert TableOk(s, s.section.ins.key);
    forall h | 0 <= h < |s'.list| ensures HandleOk(s', h) {
      FindExistingHandle(s, h);
    }
    forall k | k in s'.table ensures TableOk(s', k) {
      assert TableOk(s, k);
    }
  }

  lemma LinkWeight(s: State, g: HandleId)
    requires Enabled(s, Link) && g < |s.list|
    ensures Weight(Apply(s, Link), g) == if g == s.section.h && InBin(s, g) == 0 then s.list[g].charge else Weight(s, g)
  {
  }

  lemma LinkUsage(s: State)
    requires Inv(s) && Enabled(s, Link)
    ensures UsageOk(Apply(s, Link))
  {
    var s', h := Apply(s, Link), s.section.h;
    assert HandleOk(s, h);
    SumUpdate(Weights(s), h, s.list[h].charge);
    forall g | 0 <= g < |s.list| ensures Weights(s')[g] == Weights(s)[h := s.list[h].charge][g] {
      LinkWeight(s, g);
    }
    assert Weights(s') == Weights(s)[h := s.list[h].charge];
  }

  lemma LinkHandle(s: State, g: HandleId)
    requires Inv(s) && Enabled(s, Link) && g < |s.list|
    ensures HandleOk(Apply(s, Link), g)
  {
    assert HandleOk(s, g);
  }

  lemma LinkInv(s: State)
    requires Inv(s) && Enabled(s, Link)
    ensures Inv(Apply(s, Link))
  {
    var s' := Apply(s, Link);
    LinkUsage(s);
    forall g | 0 <= g < |s'.list| ensures HandleOk(s', g) {
      LinkHandle(s, g);
    }
    forall k | k in s'.table ensures TableOk(s', k) {
      assert k in s.table ==> TableOk(s, k);
    }
  }

  /** Taking entries out of the table before their handles are unset. */
  lemma BeginUnlinkHandle(s: State, a: Action, h: HandleId)
    requires Inv(s) && Enabled(s, a) && (a.BeginErase? || a.BeginClear?) && h < |s.list|
    ensures HandleOk(Apply(s, a), h)
  {
    assert (a.BeginErase? ==> TableOk(s, a.key)) && HandleOk(s, h);
  }

  lemma BeginUnlinkInv(s: State, a: Action)
    requires Inv(s) && Enabled(s, a) && (a.BeginErase? || a.BeginClear?)
    ensures Inv(Apply(s, a))
  {
    var s' := Apply(s, a);
    SameWeights(s, s');
    assert a.BeginErase? ==> TableOk(s, a.key);
    forall h | 0 <= h < |s'.list| ensures HandleOk(s', h) {
      BeginUnlinkHandle(s, a, h);
    }
    forall k | k in s'.table ensures TableOk(s', k) {
      assert TableOk(s, k);
    }
  }

  lemma ClearEndInv(s: State)
    requires Inv(s) && s.section == Clearing(|s.list|)
    ensures Inv(s.(section := Free))
  {
    var s' := s.(section := Free);
    assert Weights(s') == Weights(s);
    forall h | 0 <= h < |s'.list| ensures HandleOk(s', h) {
      assert HandleOk(s, h);
    }
  }

  lemma SpawnHandle(s: State, a: Action, h: HandleId)
    requires HandleOk(s, h) && Enabled(s, a) && (a.Spawn? || a.SetStrict?)
    ensures HandleOk(Apply(s, a), h)
  {
    AddIdle(s.threads, h);
  }

  lemma SpawnInv(s: State, a: Action)
    requires Inv(s) && Enabled(s, a) && (a.Spawn? || a.SetStrict?)
    ensures Inv(Apply(s, a))
  {
    var s' := Apply(s, a);
    SameWeights(s, s');
    forall h | 0 <= h < |s'.list| ensures HandleOk(s', h) {
      SpawnHandle(s, a, h);
    }
    forall k | k in s'.table ensures TableOk(s', k) {
      assert TableOk(s, k);
    }
  }

  predicate UnsetActs(a: Action) {
    a.UnsetExisting? || a.UnsetErased? || a.ClearNext?
  }

  lemma UnsetStepInv(s: State, a: Action)
    requires Inv(s) && Enabled(s, a) && UnsetActs(a)
    ensures Inv(Apply(s, a))
  {
    if a.UnsetExisting? {
      UnsetInv(s, Apply(s, a).section, s.section.existing);
    } else if a.UnsetErased? {
      UnsetInv(s, Free, s.section.h);
    } else if s.section.next < |s.list| {
      UnsetInv(s, Clearing(s.section.next + 1), s.section.next);
    } else {
      ClearEndInv(s);
    }
  }

  /** Every action that can be taken keeps the invariant. */
  lemma StepInv(s: State, a: Action)
    requires Inv(s) && Enabled(s, a)
    ensures Inv(Apply(s, a))
  {
    match a {
      case Spawn => SpawnInv(s, a);
      case SetStrict(_) => SpawnInv(s, a);
      case RecycleLast(_) => RecycleLastInv(s, a);
      case BeginInsert(_) => BeginEvictionInv(s, a);
      case BeginSetCapacity(_) => BeginEvictionInv(s, a);
      case TryEvict => TryEvictInv(s);
      case RemoveVictim => RemoveVictimInv(s);
      case SparePassed => SparePassedInv(s);
      case Conclude => ConcludeInv(s);
      case FindExisting => FindExistingInv(s);
      case UnsetExisting => UnsetStepInv(s, a);
      case Link => LinkInv(s);
      case BeginErase(_) => BeginUnlinkInv(s, a);
      case UnsetErased => UnsetStepInv(s, a);
      case BeginClear => BeginUnlinkInv(s, a);
      case ClearNext => UnsetStepInv(s, a);
      case _ => LockFreeInv(s, a);
    }
  }

  /** An empty shard. */
  predicate Initial(s: State) {
    && s.list == [] && s.head == 0 && s.recycle == [] && s.table == map[] && s.usage == 0
    && s.threads == [] && s.held == multiset{} && s.section.Free?
  }

  /** A run: states reached from an empty shard, one action at a time. */
  ghost predicate IsRun(states: seq<State>, actions: seq<Action>) {
    && |states| == |actions| + 1 && Initial(states[0])
    && forall i :: 0 <= i < |actions| ==>
         Enabled(states[i], actions[i]) && states[i + 1] == Apply(states[i], actions[i])
  }

  lemma {:induction false} RunInv(states: seq<State>, actions: seq<Action>, n: nat)
    requires IsRun(states, actions) && n < |states|
    ensures Inv(states[n])
  {
    if n == 0 {
      SumZeroes(Weights(states[0]));
    } else {
      RunInv(states, actions, n - 1);
      StepInv(states[n - 1], actions[n - 1]);
      assert states[n - 1 + 1] == states[n];
    }
  }

  /** In every interleaving a handle is recycled only when out of cache, unreferenced and not yet in the bin. */
  lemma RunsAreSafe(states: seq<State>, actions: seq<Action>)
    requires IsRun(states, actions)
    ensures forall i :: 0 <= i < |actions| ==> AssertionsHold(states[i], actions[i])
  {
    forall i | 0 <= i < |actions| ensures AssertionsHold(states[i], actions[i]) {
      RunInv(states, actions, i);
      ActionIsSafe(states[i], actions[i]);
    }
  }

  /** Each occupancy of a handle has been ended just once, but for the present one if it is not in the bin. */
  lemma RecycledOnce(states: seq<State>, actions: seq<Action>, n: nat, h: HandleId)
    requires IsRun(states, actions) && n < |states| && h < |states[n].list|
    ensures var s := states[n];
            && InBin(s, h) <= 1
            && s.list[h].fills == s.list[h].recycles + 1 - InBin(s, h)
            && (Live(s.list[h].flags) ==> InBin(s, h) == 0)
  {
    RunInv(states, actions, n);
    assert HandleOk(states[n], h);
  }

  /** The charges of all handles outside the bin. */
  ghost function ChargesInUse(s: State): nat {
    Sum(seq(|s.list|, h requires 0 <= h < |s.list| => if h in s.recycle then 0 else s.list[h].charge))
  }

  /** Whenever the mutex is free, usage and hash table agree with the handles. */
  lemma ConsistentWhenFree(states: seq<State>, actions: seq<Action>, n: nat)
    requires IsRun(states, actions) && n < |states| && states[n].section.Free?
    ensures states[n].usage == ChargesInUse(states[n])
    ensures forall h :: 0 <= h < |states[n].list| ==>
              (InCache(states[n].list[h].flags) <==> Linked(states[n], h))
    ensures forall k :: k in states[n].table ==>
              Linked(states[n], states[n].table[k]) && states[n].list[states[n].table[k]].key == k
  {
    var s := states[n];
    RunInv(states, actions, n);
    assert Weights(s) == seq(|s.list|, h requires 0 <= h < |s.list| => if h in s.recycle then 0 else s.list[h].charge);
    forall h | 0 <= h < |s.list| ensures InCache(s.list[h].flags) <==> Linked(s, h) {
      assert HandleOk(s, h);
      assert Linked(s, h) ==> TableOk(s, s.list[h].key);
    }
    forall k | k in s.table ensures Linked(s, s.table[k]) && s.list[s.table[k]].key == k {
      assert TableOk(s, k);
    }
  }

  predicate SameEntry(s: State, s': State, h: HandleId) {
    h < |s.list| && h < |s'.list| && s'.list[h].key == s.list[h].key && s'.list[h].charge == s.list[h].charge
  }

  lemma ThreadKeepsPinned(s: State, a: Action, h: HandleId)
    requires Enabled(s, a) && AssertionsHold(s, a) && ThreadActs(a)
    requires h < |s.list| && CountRefs(s.list[h].flags) > 0
    ensures SameEntry(s, Apply(s, a), h)
  {
  }

  lemma UnsetKeepsEntry(s: State, g: HandleId, sec: Section, h: HandleId)
    requires h < |s.list| && CountRefs(s.list[h].flags) > 0
    ensures SameEntry(s, s.UnsetInCache(g).(section := sec), h)
  {
  }

  lemma UnsetActKeepsEntry(s: State, a: Action, h: HandleId)
    requires Enabled(s, a) && UnsetActs(a) && h < |s.list| && CountRefs(s.list[h].flags) > 0
    ensures SameEntry(s, Apply(s, a), h)
  {
    var g := if a.UnsetExisting? then s.section.existing else if a.UnsetErased? then s.section.h else s.section.next;
    UnsetKeepsEntry(s, g, Apply(s, a).section, h);
  }

  lemma SweepKeepsEntry(s: State, a: Action, h: HandleId)
    requires Enabled(s, a) && AssertionsHold(s, a) && SweepActs(a) && h < |s.list| && CountRefs(s.list[h].flags) > 0
    ensures SameEntry(s, Apply(s, a), h)
  {
  }

  lemma SectionKeepsPinned(s: State, a: Action, h: HandleId)
    requires Enabled(s, a) && AssertionsHold(s, a) && !ThreadActs(a)
    requires h < |s.list| && CountRefs(s.list[h].flags) > 0 && h !in s.recycle
    ensures SameEntry(s, Apply(s, a), h)
  {
    if SweepActs(a) {
      SweepKeepsEntry(s, a, h);
    } else if UnsetActs(a) {
      UnsetActKeepsEntry(s, a, h);
    } else if a.Conclude? && s.recycle != [] {
      assert s.recycle[|s.recycle| - 1] in s.recycle;
    }
  }

  /** While a user holds a handle, no action changes the entry behind it. */
  lemma HeldIsStable(states: seq<State>, actions: seq<Action>, n: nat, h: HandleId)
    requires IsRun(states, actions) && n < |actions| && h < |states[n].list| && states[n].held[h] > 0
    ensures h < |states[n + 1].list|
    ensures states[n + 1].list[h].key == states[n].list[h].key
    ensures states[n + 1].list[h].charge == states[n].list[h].charge
  {
    RunInv(states, actions, n);
    ActionIsSafe(states[n], actions[n]);
    assert HandleOk(states[n], h);
    if ThreadActs(actions[n]) {
      ThreadKeepsPinned(states[n], actions[n], h);
    } else {
      SectionKeepsPinned(states[n], actions[n], h);
    }
  }

  /** The strict limit is on and the capacity is not lowered. */
  predicate KeepsLimit(s: State, a: Action) {
    (a.SetStrict? ==> a.strict) && (a.BeginSetCapacity? ==> s.capacity <= a.capacity)
  }

  predicate WithinLimit(s: State) {
    && s.strict && s.usage <= s.capacity
    && (s.section.Filled? || s.section.Displacing? || s.section.Linking? ==> s.section.success)
  }

  lemma StepWithinLimit(s: State, a: Action)
    requires Inv(s) && Enabled(s, a) && WithinLimit(s) && KeepsLimit(s, a)
    ensures WithinLimit(Apply(s, a))
  {
    if LockFreeActs(a) {
      LockFreeStep(s, a);
    }
  }

  /** Under the strict limit the usage never exceeds the capacity, between actions or within them. */
  lemma {:induction false} StrictLimitHolds(states: seq<State>, actions: seq<Action>, n: nat)
    requires IsRun(states, actions) && n < |states| && states[0].strict
    requires forall i :: 0 <= i < |actions| ==> KeepsLimit(states[i], actions[i])
    ensures WithinLimit(states[n])
  {
    if n > 0 {
      StrictLimitHolds(states, actions, n - 1);
      RunInv(states, actions, n - 1);
      StepWithinLimit(states[n - 1], actions[n - 1]);
      assert states[n - 1 + 1] == states[n];
    }
  }
}
