/**
 * The counter of pinned charge, which moves in an atomic operation of its own after the flag word has
 * changed, with the charge as it is read then.
 */
module ClockCachePinned {
  import opened ClockFlags
  import opened Tally
  import opened ClockCache
  import opened ClockCacheSafety

  // ---- What the flag words say is pinned

  /** What a referenced handle adds to the pinned usage. */
  ghost function PinnedWeights(s: State): seq<nat> {
    seq(|s.list|, h requires 0 <= h < |s.list| => if CountRefs(s.list[h].flags) > 0 then s.list[h].charge else 0)
  }

  /** What a counter would be after an action if it moved together with the flag words. */
  function PinnedNext(s: State, pinned: int, a: Action): int
    requires Enabled(s, a)
  {
    match a
    case RefFound(i) => if s.threads[i].h < |s.list| then Gained(s.list[s.threads[i].h], pinned) else pinned
    case RefHeld(_, h) => if h < |s.list| then Gained(s.list[h], pinned) else pinned
    case SubOne(i) =>
      if s.threads[i].h < |s.list| && CountRefs(s.list[s.threads[i].h].flags) == 1
      then pinned - s.list[s.threads[i].h].charge else pinned
    case Link => if s.section.ins.hold then pinned + s.section.ins.charge else pinned
    case _ => pinned
  }

  function Gained(e: Handle, pinned: int): int {
    if InCache(e.flags) && CountRefs(e.flags) == 0 then pinned + e.charge else pinned
  }

  /** The reference an Insert hands out is counted when the entry is linked. */
  function NotYetPinned(sec: Section): nat {
    if (sec.Filled? || sec.Displacing? || sec.Linking?) && sec.ins.hold then sec.ins.charge else 0
  }

  ghost predicate PinnedOk(s: State, pinned: int) {
    pinned + NotYetPinned(s.section) == Sum(PinnedWeights(s))
  }

  /** An action that writes at most handle `h` changes the sum by what that handle adds. */
  lemma PinnedAt(s: State, s': State, h: nat)
    requires h < |s.list| == |s'.list|
    requires forall g :: 0 <= g < |s.list| && g != h ==>
               s'.list[g].charge == s.list[g].charge && CountRefs(s'.list[g].flags) == CountRefs(s.list[g].flags)
    ensures Sum(PinnedWeights(s')) == Sum(PinnedWeights(s)) - PinnedWeights(s)[h] + PinnedWeights(s')[h]
  {
    SumUpdate(PinnedWeights(s), h, PinnedWeights(s')[h]);
    assert PinnedWeights(s') == PinnedWeights(s)[h := PinnedWeights(s')[h]];
  }

  lemma PinnedThread(s: State, pinned: int, a: Action)
    requires Enabled(s, a) && AssertionsHold(s, a) && ThreadActs(a) && PinnedOk(s, pinned)
    requires PcOk(s, s.threads[ThreadOf(a)])
    requires a.RefHeld? ==> a.h < |s.list|
    ensures PinnedOk(Apply(s, a), PinnedNext(s, pinned, a))
  {
    var pc := s.threads[ThreadOf(a)];
    if a.RefHeld? {
      PinnedAt(s, Apply(s, a), a.h);
    } else if !pc.Idle? {
      PinnedAt(s, Apply(s, a), pc.h);
    }
  }

  /** The handle that the mutex holder's next action writes to, if any. */
  function HandleInHand(sec: Section): nat {
    match sec
    case Evicting(_, newHead, _) => newHead
    case Passed(_, newHead, _) => newHead
    case Evicted(_, _, _, victim) => victim
    case Displacing(_, _, _, existing) => existing
    case Erasing(h) => h
    case Clearing(next) => next
    case _ => 0
  }

  /** Only handle `h` is written to, and its charge and reference count stay. */
  predicate WritesFlagsAt(s: State, s': State, h: nat) {
    && |s'.list| == |s.list| && (h >= |s.list| ==> s'.list == s.list)
    && (forall g :: 0 <= g < |s.list| && g != h ==> s'.list[g] == s.list[g])
    && (h < |s.list| ==> s'.list[h].charge == s.list[h].charge &&
                         CountRefs(s'.list[h].flags) == CountRefs(s.list[h].flags))
  }

  lemma SweepWrites(s: State, a: Action)
    requires Enabled(s, a) && AssertionsHold(s, a) && SweepActs(a)
    ensures WritesFlagsAt(s, Apply(s, a), HandleInHand(s.section))
  {
  }

  lemma UnsetWritesAt(s: State, h: nat, sec: Section)
    ensures WritesFlagsAt(s, s.UnsetInCache(h).(section := sec), h)
  {
  }

  lemma WritesInHand(s: State, a: Action)
    requires Enabled(s, a) && AssertionsHold(s, a) && !ThreadActs(a) && !a.Conclude?
    ensures WritesFlagsAt(s, Apply(s, a), HandleInHand(s.section))
  {
    if SweepActs(a) {
      SweepWrites(s, a);
    } else if UnsetActs(a) {
      UnsetWritesAt(s, HandleInHand(s.section), Apply(s, a).section);
    }
  }

  lemma FlagsDoNotPin(s: State, s': State, h: nat)
    requires WritesFlagsAt(s, s', h)
    ensures Sum(PinnedWeights(s')) == Sum(PinnedWeights(s))
  {
    assert PinnedWeights(s') == PinnedWeights(s);
  }

  /** What the mutex holder adds to the counter is what it was inserting. */
  lemma SectionPins(s: State, pinned: int, a: Action)
    requires Enabled(s, a) && !ThreadActs(a) && !a.Conclude?
    ensures PinnedNext(s, pinned, a) + NotYetPinned(Apply(s, a).section) == pinned + NotYetPinned(s.section)
  {
  }

  lemma PinnedSection(s: State, pinned: int, a: Action)
    requires Enabled(s, a) && AssertionsHold(s, a) && !ThreadActs(a) && !a.Conclude? && PinnedOk(s, pinned)
    ensures PinnedOk(Apply(s, a), PinnedNext(s, pinned, a))
  {
    WritesInHand(s, a);
    FlagsDoNotPin(s, Apply(s, a), HandleInHand(s.section));
    SectionPins(s, pinned, a);
  }

  /** A handle in the bin has no references. */
  lemma BinUnreferenced(s: State)
    requires Inv(s) && s.recycle != []
    ensures var h := s.recycle[|s.recycle| - 1]; h < |s.list| && CountRefs(s.list[h].flags) == 0
  {
    var h := s.recycle[|s.recycle| - 1];
    assert h in multiset(s.recycle);
    assert HandleOk(s, h);
  }

  lemma PinnedRefill(s: State, pinned: int, h: nat)
    requires Enabled(s, Conclude) && PinnedOk(s, pinned) && !Apply(s, Conclude).section.Free? && s.recycle != []
    requires h == s.recycle[|s.recycle| - 1] < |s.list| && CountRefs(s.list[h].flags) == 0
    ensures PinnedOk(Apply(s, Conclude), pinned)
  {
    PinnedAt(s, Apply(s, Conclude), h);
  }

  lemma PinnedNewHandle(s: State, pinned: int)
    requires Enabled(s, Conclude) && PinnedOk(s, pinned) && !Apply(s, Conclude).section.Free? && s.recycle == []
    ensures PinnedOk(Apply(s, Conclude), pinned)
  {
    var w := if s.section.purpose.ins.hold then s.section.purpose.ins.charge else 0;
    SumAppend(PinnedWeights(s), w);
    assert PinnedWeights(Apply(s, Conclude)) == PinnedWeights(s) + [w];
  }

  lemma PinnedFill(s: State, pinned: int)
    requires Inv(s) && Enabled(s, Conclude) && PinnedOk(s, pinned)
    ensures PinnedOk(Apply(s, Conclude), pinned)
  {
    if Apply(s, Conclude).section.Free? {
      assert PinnedWeights(Apply(s, Conclude)) == PinnedWeights(s);
    } else if s.recycle != [] {
      BinUnreferenced(s);
      PinnedRefill(s, pinned, s.recycle[|s.recycle| - 1]);
    } else {
      PinnedNewHandle(s, pinned);
    }
  }

  /** The charge of all referenced handles, without one that is being inserted. */
  ghost function Balance(s: State): int {
    Sum(PinnedWeights(s)) - NotYetPinned(s.section)
  }

  lemma BalanceMoves(s: State, a: Action)
    requires Inv(s) && Enabled(s, a)
    ensures Balance(Apply(s, a)) == PinnedNext(s, Balance(s), a)
  {
    ActionIsSafe(s, a);
    if a.Conclude? {
      PinnedFill(s, Balance(s));
    } else if ThreadActs(a) {
      PinnedThread(s, Balance(s), a);
    } else {
      PinnedSection(s, Balance(s), a);
    }
  }

  // ---- The counter

  /** What a thread has still to add or to take off after its operation on the flags. */
  datatype Due = NoDue | Adding(h: HandleId) | Taking(h: HandleId, charge: nat)

  /** `drift` sums up what late subtractions took off too little or too much. */
  datatype Pinning = Pinning(pinned: int, due: seq<Due>, drift: int)

  datatype Move = Act(a: Action) | Settle(i: nat)

  predicate CanMove(s: State, p: Pinning, m: Move) {
    match m
    case Act(a) => Enabled(s, a) && |p.due| == |s.threads| && (ThreadActs(a) ==> p.due[ThreadOf(a)].NoDue?)
    case Settle(i) => i < |p.due| && !p.due[i].NoDue?
  }

  function ChargeAt(s: State, h: HandleId): nat {
    if h < |s.list| then s.list[h].charge else 0
  }

  /** The first reference to a handle is to be added, the last one taken off. */
  function DueOf(s: State, a: Action): Due
    requires Enabled(s, a)
  {
    match a
    case RefFound(i) =>
      var flags := s.FlagsOf(s.threads[i].h);
      if InCache(flags) && CountRefs(flags) == 0 then Adding(s.threads[i].h) else NoDue
    case RefHeld(_, h) => if InCache(s.FlagsOf(h)) && CountRefs(s.FlagsOf(h)) == 0 then Adding(h) else NoDue
    case SubOne(i) =>
      var h := s.threads[i].h;
      if CountRefs(s.FlagsOf(h)) == 1 then Taking(h, ChargeAt(s, h)) else NoDue
    case _ => NoDue
  }

  function NextDues(s: State, due: seq<Due>, a: Action): seq<Due>
    requires Enabled(s, a) && |due| == |s.threads|
  {
    if a.Spawn? then due + [NoDue]
    else if ThreadActs(a) then due[ThreadOf(a) := DueOf(s, a)]
    else due
  }

  function NextState(s: State, p: Pinning, m: Move): State
    requires CanMove(s, p, m)
  {
    if m.Act? then Apply(s, m.a) else s
  }

  function NextPinning(s: State, p: Pinning, m: Move): Pinning
    requires CanMove(s, p, m)
  {
    match m
    case Act(a) =>
      Pinning(p.pinned + (if a.Link? && s.section.ins.hold then s.section.ins.charge else 0), NextDues(s, p.due, a), p.drift)
    case Settle(i) =>
      match p.due[i]
      case Adding(h) => p.(pinned := p.pinned + ChargeAt(s, h), due := p.due[i := NoDue])
      case Taking(h, charge) =>
        Pinning(p.pinned - ChargeAt(s, h), p.due[i := NoDue], p.drift + charge - ChargeAt(s, h))
  }

  ghost function Adds(s: State, due: seq<Due>): seq<nat> {
    seq(|due|, i requires 0 <= i < |due| => if due[i].Adding? then ChargeAt(s, due[i].h) else 0)
  }

  ghost function Takes(due: seq<Due>): seq<nat> {
    seq(|due|, i requires 0 <= i < |due| => if due[i].Taking? then due[i].charge else 0)
  }

  /** Who has still to add holds the reference meanwhile. */
  predicate DuesOk(s: State, due: seq<Due>) {
    && |due| == |s.threads|
    && forall i :: 0 <= i < |due| && due[i].Adding? ==> s.threads[i].Pinned? && s.threads[i].h == due[i].h
  }

  ghost predicate Accounted(s: State, p: Pinning) {
    DuesOk(s, p.due) && p.pinned + Sum(Adds(s, p.due)) == Balance(s) + Sum(Takes(p.due)) + p.drift
  }

  /** A handle that a thread has referenced stays what it is, whoever acts. */
  lemma UsedIsStable(s: State, a: Action, i: nat)
    requires Inv(s) && Enabled(s, a) && i < |s.threads| && s.threads[i].Pinned?
    ensures SameEntry(s, Apply(s, a), s.threads[i].h)
  {
    var h := s.threads[i].h;
    assert PcOk(s, s.threads[i]);
    GoThread(s.threads, i, s.threads[i], h);
    assert HandleOk(s, h);
    ActionIsSafe(s, a);
    if ThreadActs(a) {
      ThreadKeepsPinned(s, a, h);
    } else {
      assert h !in multiset(s.recycle);
      SectionKeepsPinned(s, a, h);
    }
  }

  /** Other threads stay where they are. */
  lemma OthersStay(s: State, a: Action, i: nat)
    requires Enabled(s, a) && i < |s.threads| && (ThreadActs(a) ==> ThreadOf(a) != i)
    ensures i < |Apply(s, a).threads| && Apply(s, a).threads[i] == s.threads[i]
  {
    if ThreadActs(a) {
      assert Apply(s, a) == ApplyThread(s, ThreadOf(a), a);
    } else {
      SectionLeavesThreads(s, a);
    }
  }

  lemma SectionLeavesThreads(s: State, a: Action)
    requires Enabled(s, a) && !ThreadActs(a)
    ensures Apply(s, a).threads == if a.Spawn? then s.threads + [Idle] else s.threads
  {
  }

  lemma ThreadsStayInNumber(s: State, a: Action)
    requires Enabled(s, a) && ThreadActs(a)
    ensures |Apply(s, a).threads| == |s.threads|
  {
  }

  /** Dues that the action does not touch remain in order and are worth the same. */
  lemma DuesStable(s: State, due: seq<Due>, a: Action, i: nat)
    requires Inv(s) && Enabled(s, a) && DuesOk(s, due) && i < |due| && (ThreadActs(a) ==> ThreadOf(a) != i)
    ensures due[i].Adding? ==>
              var s' := Apply(s, a);
              && i < |s'.threads| && s'.threads[i].Pinned? && s'.threads[i].h == due[i].h
              && ChargeAt(s', due[i].h) == ChargeAt(s, due[i].h)
  {
    if due[i].Adding? {
      UsedIsStable(s, a, i);
      OthersStay(s, a, i);
    }
  }

  /** A first reference comes from a lookup, which then stands on the handle. */
  lemma NewDue(s: State, a: Action)
    requires Inv(s) && Enabled(s, a) && ThreadActs(a) && DueOf(s, a).Adding?
    ensures a.RefFound?
    ensures var s', i := Apply(s, a), ThreadOf(a);
            && |s'.threads| == |s.threads| && s'.threads[i].Pinned? && s'.threads[i].h == DueOf(s, a).h
            && DueOf(s, a).h < |s.list| && ChargeAt(s', DueOf(s, a).h) == ChargeAt(s, DueOf(s, a).h)
  {
    assert PcOk(s, s.threads[ThreadOf(a)]);
    if a.RefHeld? {
      HeldIsReferenced(s, a.h);
    }
  }

  lemma HeldIsReferenced(s: State, h: HandleId)
    requires Inv(s) && s.held[h] > 0
    ensures CountRefs(s.FlagsOf(h)) > 0
  {
    assert HandleOk(s, h);
  }

  predicate SameWorth(s: State, s': State, d: Due) {
    d.Adding? ==> ChargeAt(s', d.h) == ChargeAt(s, d.h)
  }

  function AddOf(s: State, d: Due): nat {
    if d.Adding? then ChargeAt(s, d.h) else 0
  }

  function TakeOf(d: Due): nat {
    if d.Taking? then d.charge else 0
  }

  /** One thread's due changes, and the others are worth the same. */
  lemma DuesPut(s: State, s': State, due: seq<Due>, i: nat, d: Due)
    requires i < |due| && SameWorth(s, s', d)
    requires forall j :: 0 <= j < |due| && j != i ==> SameWorth(s, s', due[j])
    ensures Sum(Adds(s', due[i := d])) == Sum(Adds(s, due)) - AddOf(s, due[i]) + AddOf(s, d)
    ensures Sum(Takes(due[i := d])) == Sum(Takes(due)) - TakeOf(due[i]) + TakeOf(d)
  {
    SumUpdate(Adds(s, due), i, AddOf(s, d));
    SumUpdate(Takes(due), i, TakeOf(d));
    assert Adds(s', due[i := d]) == Adds(s, due)[i := AddOf(s, d)];
    assert Takes(due[i := d]) == Takes(due)[i := TakeOf(d)];
  }

  lemma ThreadDuesMove(s: State, due: seq<Due>, a: Action)
    requires Inv(s) && Enabled(s, a) && ThreadActs(a) && DuesOk(s, due) && due[ThreadOf(a)].NoDue?
    ensures var s', due', d := Apply(s, a), NextDues(s, due, a), DueOf(s, a);
            DuesOk(s', due') && Sum(Adds(s', due')) == Sum(Adds(s, due)) + AddOf(s, d)
            && Sum(Takes(due')) == Sum(Takes(due)) + TakeOf(d)
  {
    var s', i, d := Apply(s, a), ThreadOf(a), DueOf(s, a);
    ThreadsStayInNumber(s, a);
    forall j | 0 <= j < |due| && j != i
      ensures SameWorth(s, s', due[j])
      ensures due[j].Adding? ==> s'.threads[j].Pinned? && s'.threads[j].h == due[j].h
    {
      DuesStable(s, due, a, j);
    }
    if d.Adding? {
      NewDue(s, a);
    }
    DuesPut(s, s', due, i, d);
  }

  lemma SectionDuesMove(s: State, due: seq<Due>, a: Action)
    requires Inv(s) && Enabled(s, a) && !ThreadActs(a) && DuesOk(s, due)
    ensures var s', due' := Apply(s, a), NextDues(s, due, a);
            DuesOk(s', due') && Sum(Adds(s', due')) == Sum(Adds(s, due)) && Sum(Takes(due')) == Sum(Takes(due))
  {
    var s', due' := Apply(s, a), NextDues(s, due, a);
    SectionLeavesThreads(s, a);
    forall j | 0 <= j < |due|
      ensures SameWorth(s, s', due[j])
      ensures due[j].Adding? ==> s'.threads[j].Pinned? && s'.threads[j].h == due[j].h
    {
      DuesStable(s, due, a, j);
    }
    if a.Spawn? {
      SumAppend(Adds(s, due), 0);
      SumAppend(Takes(due), 0);
      assert Adds(s', due') == Adds(s, due) + [0] && Takes(due') == Takes(due) + [0];
    } else {
      assert Adds(s', due') == Adds(s, due);
    }
  }

  /** What the action itself does to the balance is added to the counter or falls due. */
  lemma PinnedDelta(s: State, a: Action)
    requires Inv(s) && Enabled(s, a)
    ensures PinnedNext(s, Balance(s), a) == Balance(s) + AddOf(s, DueOf(s, a)) - TakeOf(DueOf(s, a))
                                            + (if a.Link? && s.section.ins.hold then s.section.ins.charge else 0)
  {
    if ThreadActs(a) {
      assert PcOk(s, s.threads[ThreadOf(a)]);
      if a.RefHeld? {
        assert a.h < |s.list|;
      }
    }
  }

  lemma ActAccounted(s: State, p: Pinning, a: Action)
    requires Inv(s) && Accounted(s, p) && CanMove(s, p, Act(a))
    ensures Accounted(Apply(s, a), NextPinning(s, p, Act(a)))
  {
    BalanceMoves(s, a);
    PinnedDelta(s, a);
    if ThreadActs(a) {
      ThreadDuesMove(s, p.due, a);
    } else {
      SectionDuesMove(s, p.due, a);
    }
  }

  lemma SettleAccounted(s: State, p: Pinning, i: nat)
    requires Accounted(s, p) && CanMove(s, p, Settle(i))
    ensures Accounted(s, NextPinning(s, p, Settle(i)))
  {
    DuesPut(s, s, p.due, i, NoDue);
  }

  lemma MoveAccounted(s: State, p: Pinning, m: Move)
    requires Inv(s) && Accounted(s, p) && CanMove(s, p, m)
    ensures Inv(NextState(s, p, m)) && Accounted(NextState(s, p, m), NextPinning(s, p, m))
  {
    match m {
      case Act(a) =>
        StepInv(s, a);
        ActAccounted(s, p, a);
      case Settle(i) =>
        SettleAccounted(s, p, i);
    }
  }

  // ---- Runs

  /** From one state and counter to another by these moves. */
  ghost predicate Leads(s: State, p: Pinning, moves: seq<Move>, s': State, p': Pinning)
    decreases |moves|
  {
    if moves == [] then s' == s && p' == p
    else CanMove(s, p, moves[0]) && Leads(NextState(s, p, moves[0]), NextPinning(s, p, moves[0]), moves[1..], s', p')
  }

  const START := Pinning(0, [], 0)

  lemma {:induction false} LeadsAccounted(s: State, p: Pinning, moves: seq<Move>, s': State, p': Pinning)
    requires Inv(s) && Accounted(s, p) && Leads(s, p, moves, s', p')
    ensures Inv(s') && Accounted(s', p')
    decreases |moves|
  {
    if moves != [] {
      MoveAccounted(s, p, moves[0]);
      LeadsAccounted(NextState(s, p, moves[0]), NextPinning(s, p, moves[0]), moves[1..], s', p');
    }
  }

  lemma StartAccounted(s0: State)
    requires Initial(s0)
    ensures Inv(s0) && Accounted(s0, START)
  {
    SumZeroes(PinnedWeights(s0));
    SumZeroes(Weights(s0));
  }

  predicate AtRest(s: State, p: Pinning) {
    s.section.Free? && forall i :: 0 <= i < |p.due| ==> p.due[i].NoDue?
  }

  /** In every interleaving the counter is exact but for what is due and what late subtractions misread. */
  lemma PinnedUsageIs(s0: State, moves: seq<Move>, s: State, p: Pinning)
    requires Initial(s0) && Leads(s0, START, moves, s, p)
    ensures Accounted(s, p)
    ensures AtRest(s, p) ==> p.pinned == Sum(PinnedWeights(s)) + p.drift
  {
    StartAccounted(s0);
    LeadsAccounted(s0, START, moves, s, p);
    if AtRest(s, p) {
      SumZeroes(Adds(s, p.due));
      SumZeroes(Takes(p.due));
    }
  }

  // ---- A late subtraction that misreads

  lemma {:induction false} LeadsOn(s0: State, p0: Pinning, moves: seq<Move>, s: State, p: Pinning, m: Move)
    requires Leads(s0, p0, moves, s, p) && CanMove(s, p, m)
    ensures Leads(s0, p0, moves + [m], NextState(s, p, m), NextPinning(s, p, m))
    decreases |moves|
  {
    var more := moves + [m];
    if moves == [] {
      assert more[0] == m && more[1..] == [];
    } else {
      LeadsOn(NextState(s0, p0, moves[0]), NextPinning(s0, p0, moves[0]), moves[1..], s, p, m);
      assert more[0] == moves[0] && more[1..] == moves[1..] + [m];
    }
  }

  lemma LeadsOnAct(s0: State, p0: Pinning, moves: seq<Move>, s: State, p: Pinning, a: Action) returns (s': State, p': Pinning)
    requires Leads(s0, p0, moves, s, p) && CanMove(s, p, Act(a))
    ensures Leads(s0, p0, moves + [Act(a)], s', p') && s' == Apply(s, a) && p' == NextPinning(s, p, Act(a))
  {
    LeadsOn(s0, p0, moves, s, p, Act(a));
    s', p' := Apply(s, a), NextPinning(s, p, Act(a));
  }

  /** The first half of an insert into a shard in which nothing is in use. */
  lemma FillHeld(s0: State, p0: Pinning, moves: seq<Move>, s: State, p: Pinning, ins: Insertion)
    returns (moves': seq<Move>, s': State)
    requires Leads(s0, p0, moves, s, p) && s.section.Free? && s.usage == 0 && |p.due| == |s.threads|
    requires ins.hold && ins.charge <= s.capacity
    ensures Leads(s0, p0, moves', s', p) && s' == s.Fill(ins, true)
  {
    var s1, p1 := LeadsOnAct(s0, p0, moves, s, p, BeginInsert(ins));
    var m1 := moves + [Act(BeginInsert(ins))];
    var p2;
    s', p2 := LeadsOnAct(s0, p0, m1, s1, p1, Conclude);
    moves' := m1 + [Act(Conclude)];
  }

  /** The second half, under a key that is not in the table. */
  lemma LinkHeld(s0: State, p0: Pinning, moves: seq<Move>, s: State, p: Pinning)
    returns (moves': seq<Move>, s': State, p': Pinning)
    requires Leads(s0, p0, moves, s, p) && s.section.Filled? && |p.due| == |s.threads|
    requires s.section.ins.hold && s.section.ins.key !in s.table
    ensures Leads(s0, p0, moves', s', p') && p' == p.(pinned := p.pinned + s.section.ins.charge)
    ensures var ins, h := s.section.ins, s.section.h;
            s' == s.(table := s.table[ins.key := h], usage := s.usage + ins.charge,
                     held := s.held + multiset{h}, section := Free)
  {
    var s1, p1 := LeadsOnAct(s0, p0, moves, s, p, FindExisting);
    var m1 := moves + [Act(FindExisting)];
    s', p' := LeadsOnAct(s0, p0, m1, s1, p1, Link);
    moves' := m1 + [Act(Link)];
  }

  /** The release of the one reference to handle 0, up to the flag word; the subtraction falls due. */
  lemma ReleaseFirst(s0: State, p0: Pinning, moves: seq<Move>, s: State, p: Pinning)
    returns (moves': seq<Move>, s': State, p': Pinning)
    requires Leads(s0, p0, moves, s, p) && |s.threads| == 1 && s.threads[0].Idle? && p.due == [NoDue]
    requires |s.list| == 1 && s.list[0].flags == IN_CACHE_AND_HELD && s.held == multiset{0}
    ensures Leads(s0, p0, moves', s', p') && p' == p.(due := [Taking(0, s.list[0].charge)])
    ensures s' == s.(list := s'.list, held := multiset{})
    ensures |s'.list| == 1 && s'.list[0] == s.list[0].(flags := s'.list[0].flags)
    ensures InCache(s'.list[0].flags) && CountRefs(s'.list[0].flags) == 0
  {
    var s1, p1 := LeadsOnAct(s0, p0, moves, s, p, StartRelease(0, 0));
    assert p1.due == [NoDue];
    var m1 := moves + [Act(StartRelease(0, 0))];
    var s2, p2 := LeadsOnAct(s0, p0, m1, s1, p1, MarkUsed(0));
    assert p2.due == [NoDue];
    var m2 := m1 + [Act(MarkUsed(0))];
    s', p' := LeadsOnAct(s0, p0, m2, s2, p2, SubOne(0));
    moves' := m2 + [Act(SubOne(0))];
    assert s'.threads == [Idle] == s.threads;
  }

  /** Erasing the entry behind handle 0, which nobody references, puts the handle in the bin. */
  lemma EraseFirst(s0: State, p0: Pinning, moves: seq<Move>, s: State, p: Pinning, key: Key)
    returns (moves': seq<Move>, s': State)
    requires Leads(s0, p0, moves, s, p) && s.section.Free? && |p.due| == |s.threads| && s.table == map[key := 0]
    requires |s.list| == 1 && s.recycle == [] && s.usage == s.list[0].charge
    requires InCache(s.list[0].flags) && CountRefs(s.list[0].flags) == 0
    ensures Leads(s0, p0, moves', s', p)
    ensures s' == s.(list := s'.list, table := map[], recycle := [0], usage := 0) && |s'.list| == 1
  {
    var s1, p1 := LeadsOnAct(s0, p0, moves, s, p, BeginErase(key));
    assert s1.table == map[];
    var m1 := moves + [Act(BeginErase(key))];
    var p2;
    s', p2 := LeadsOnAct(s0, p0, m1, s1, p1, UnsetErased);
    moves' := m1 + [Act(UnsetErased)];
  }

  /** The first entry is inserted and released, all but the subtraction. */
  lemma DriftFirst(s0: State) returns (moves: seq<Move>, s: State, p: Pinning)
    requires Initial(s0) && s0.capacity == 5
    ensures Leads(s0, START, moves, s, p) && p == Pinning(3, [Taking(0, 3)], 0)
    ensures s.section.Free? && s.usage == 0 && s.table == map[] && s.recycle == [0] && |s.list| == 1 && |s.threads| == 1
    ensures s.capacity == 5 && s.held == multiset{}
  {
    var s1, p1 := LeadsOnAct(s0, START, [], s0, START, Spawn);
    var m1 := [] + [Act(Spawn)];
    var m2, s2 := FillHeld(s0, START, m1, s1, p1, Insertion("a", 3, true));
    var m3, s3, p3 := LinkHeld(s0, START, m2, s2, p1);
    assert s3.table == map["a" := 0] && s3.held == multiset{0};
    var m4, s4, p4 := ReleaseFirst(s0, START, m3, s3, p3);
    moves, s := EraseFirst(s0, START, m4, s4, p4, "a");
    p := p4;
  }

  /** The handle is filled again before the subtraction, which then takes off the new charge: at rest, the counter is wrong. */
  lemma PinnedUsageDrifts(s0: State) returns (moves: seq<Move>, s: State, p: Pinning)
    requires Initial(s0) && s0.capacity == 5
    ensures Leads(s0, START, moves, s, p) && s.section.Free? && p.due == [NoDue]
    ensures p.pinned == 3 && Sum(PinnedWeights(s)) == 5
  {
    var m1, s1, p1 := DriftFirst(s0);
    var m2, s2 := FillHeld(s0, START, m1, s1, p1, Insertion("b", 5, true));
    var m3, p3;
    m3, s, p3 := LinkHeld(s0, START, m2, s2, p1);
    LeadsOn(s0, START, m3, s, p3, Settle(0));
    moves, p := m3 + [Settle(0)], NextPinning(s, p3, Settle(0));
    assert PinnedWeights(s) == [5];
    assert Sum([5]) == 5;
  }
}
