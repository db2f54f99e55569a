/**
 * When the counter of pinned charge is exact: which late subtractions misread, and which step of the mutex
 * holder makes them.
 */
module ClockCacheTimely {
  import opened Tally
  import opened ClockCache
  import opened ClockCacheSafety
  import opened ClockCachePinned

  /** The counter is the charge of the referenced handles, but for what threads have still to add and to take off. */
  ghost predicate Exact(s: State, p: Pinning) {
    DuesOk(s, p.due) && p.pinned + Sum(Adds(s, p.due)) == Balance(s) + Sum(Takes(p.due))
  }

  /** Exact in every state that the moves go through. */
  ghost predicate ExactThroughout(s: State, p: Pinning, moves: seq<Move>)
    decreases |moves|
  {
    && Exact(s, p)
    && (moves != [] && CanMove(s, p, moves[0]) ==>
          ExactThroughout(NextState(s, p, moves[0]), NextPinning(s, p, moves[0]), moves[1..]))
  }

  // ---- What the subtractions read

  predicate ReadsWhatWasGivenUp(s: State, p: Pinning, m: Move)
    requires CanMove(s, p, m)
  {
    m.Settle? && p.due[m.i].Taking? ==> ChargeAt(s, p.due[m.i].h) == p.due[m.i].charge
  }

  /** Every late subtraction reads the charge that was given up. */
  ghost predicate Timely(s: State, p: Pinning, moves: seq<Move>)
    decreases |moves|
  {
    moves != [] && CanMove(s, p, moves[0]) ==>
      && ReadsWhatWasGivenUp(s, p, moves[0])
      && Timely(NextState(s, p, moves[0]), NextPinning(s, p, moves[0]), moves[1..])
  }

  lemma {:induction false} TimelyIsExact(s: State, p: Pinning, moves: seq<Move>)
    requires Inv(s) && Accounted(s, p) && p.drift == 0
    ensures Timely(s, p, moves) <==> ExactThroughout(s, p, moves)
    decreases |moves|
  {
    if moves != [] && CanMove(s, p, moves[0]) {
      var s', p' := NextState(s, p, moves[0]), NextPinning(s, p, moves[0]);
      MoveAccounted(s, p, moves[0]);
      if p'.drift == 0 {
        TimelyIsExact(s', p', moves[1..]);
      } else {
        assert !Exact(s', p');
      }
    }
  }

  /** Of every run: the counter is exact all along if and only if no subtraction misreads. */
  lemma PinnedUsageIsExactIff(s0: State, moves: seq<Move>, s: State, p: Pinning)
    requires Initial(s0) && Leads(s0, START, moves, s, p)
    ensures ExactThroughout(s0, START, moves) <==> Timely(s0, START, moves)
  {
    StartAccounted(s0);
    TimelyIsExact(s0, START, moves);
  }

  // ---- The step that makes them misread

  /** The move takes from the bin, for another entry, the handle from which thread `i` has still to take off. */
  predicate Refills(s: State, p: Pinning, m: Move, i: nat)
    requires CanMove(s, p, m)
  {
    && m == Act(Conclude) && !Apply(s, Conclude).section.Free? && s.recycle != []
    && i < |p.due| && p.due[i].Taking? && p.due[i].h == s.recycle[|s.recycle| - 1]
  }

  predicate RefillsAlike(s: State, p: Pinning, m: Move)
    requires CanMove(s, p, m)
  {
    forall i :: 0 <= i < |p.due| && Refills(s, p, m, i) ==> s.section.purpose.ins.charge == p.due[i].charge
  }

  /** Whenever a handle is filled again too early, its new charge is the one it had. */
  ghost predicate OnlyRefillsAlike(s: State, p: Pinning, moves: seq<Move>)
    decreases |moves|
  {
    moves != [] && CanMove(s, p, moves[0]) ==>
      && RefillsAlike(s, p, moves[0])
      && OnlyRefillsAlike(NextState(s, p, moves[0]), NextPinning(s, p, moves[0]), moves[1..])
  }

  /** Exact, and exact still if any one of the threads settled now. */
  ghost predicate ExactHoweverSettled(s: State, p: Pinning) {
    && Exact(s, p)
    && forall i :: 0 <= i < |p.due| && CanMove(s, p, Settle(i)) ==> Exact(s, NextPinning(s, p, Settle(i)))
  }

  ghost predicate ExactWhenever(s: State, p: Pinning, moves: seq<Move>)
    decreases |moves|
  {
    && ExactHoweverSettled(s, p)
    && (moves != [] && CanMove(s, p, moves[0]) ==>
          ExactWhenever(NextState(s, p, moves[0]), NextPinning(s, p, moves[0]), moves[1..]))
  }

  /** What a thread has to take off is still the charge of the handle. */
  predicate StillWorth(s: State, d: Due) {
    d.Taking? ==> d.h < |s.list| && s.list[d.h].charge == d.charge
  }

  predicate AllWorth(s: State, p: Pinning) {
    forall i :: 0 <= i < |p.due| ==> StillWorth(s, p.due[i])
  }

  predicate KeepsCharges(s: State, s': State) {
    |s.list| <= |s'.list| && forall h :: 0 <= h < |s.list| ==> s'.list[h].charge == s.list[h].charge
  }

  lemma WorthKept(s: State, s': State, d: Due)
    requires KeepsCharges(s, s') && StillWorth(s, d)
    ensures StillWorth(s', d)
  {
  }

  lemma ThreadKeepsCharges(s: State, a: Action)
    requires Enabled(s, a) && ThreadActs(a)
    ensures KeepsCharges(s, Apply(s, a))
  {
  }

  /** Only filling a handle again changes a charge. */
  lemma ChargesKept(s: State, a: Action)
    requires Inv(s) && Enabled(s, a)
    requires a.Conclude? ==> Apply(s, a).section.Free? || s.recycle == []
    ensures KeepsCharges(s, Apply(s, a))
  {
    if ThreadActs(a) {
      ThreadKeepsCharges(s, a);
    } else if !a.Conclude? {
      ActionIsSafe(s, a);
      WritesInHand(s, a);
    }
  }

  lemma NewDueIsWorth(s: State, a: Action)
    requires Inv(s) && Enabled(s, a) && ThreadActs(a)
    ensures StillWorth(s, DueOf(s, a))
  {
    assert PcOk(s, s.threads[ThreadOf(a)]);
  }

  /** A step that fills no handle again leaves every due worth what it was. */
  lemma QuietStep(s: State, p: Pinning, a: Action)
    requires Inv(s) && CanMove(s, p, Act(a)) && AllWorth(s, p)
    requires a.Conclude? ==> Apply(s, a).section.Free? || s.recycle == []
    ensures AllWorth(Apply(s, a), NextPinning(s, p, Act(a)))
  {
    ChargesKept(s, a);
    if ThreadActs(a) {
      NewDueIsWorth(s, a);
    }
    var due' := NextDues(s, p.due, a);
    forall i | 0 <= i < |due'| ensures StillWorth(Apply(s, a), due'[i]) {
      WorthKept(s, Apply(s, a), due'[i]);
    }
  }

  /** Filling a handle again spoils exactly the dues on it, unless the charge is the same. */
  lemma RefillStep(s: State, p: Pinning)
    requires Inv(s) && CanMove(s, p, Act(Conclude)) && AllWorth(s, p)
    requires !Apply(s, Conclude).section.Free? && s.recycle != []
    ensures AllWorth(Apply(s, Conclude), p) <==> RefillsAlike(s, p, Act(Conclude))
    ensures forall i :: 0 <= i < |p.due| && p.due[i].Taking? ==> p.due[i].h < |Apply(s, Conclude).list|
  {
    var s', h, ins := Apply(s, Conclude), s.recycle[|s.recycle| - 1], s.section.purpose.ins;
    BinUnreferenced(s);
    forall i | 0 <= i < |p.due|
      ensures StillWorth(s', p.due[i]) <==> (Refills(s, p, Act(Conclude), i) ==> ins.charge == p.due[i].charge)
      ensures p.due[i].Taking? ==> p.due[i].h < |s'.list|
    {
      assert StillWorth(s, p.due[i]);
    }
  }

  /** A due can be settled without error exactly when it is still worth its charge. */
  lemma SettledExactly(s: State, p: Pinning)
    requires Accounted(s, p) && p.drift == 0
    requires forall i :: 0 <= i < |p.due| && p.due[i].Taking? ==> p.due[i].h < |s.list|
    ensures ExactHoweverSettled(s, p) <==> AllWorth(s, p)
  {
    forall i | 0 <= i < |p.due| && CanMove(s, p, Settle(i))
      ensures Exact(s, NextPinning(s, p, Settle(i))) <==> StillWorth(s, p.due[i])
    {
      SettleAccounted(s, p, i);
    }
    if ExactHoweverSettled(s, p) {
      forall i | 0 <= i < |p.due| ensures StillWorth(s, p.due[i]) {
        if !p.due[i].NoDue? {
          assert CanMove(s, p, Settle(i));
        }
      }
    }
  }

  lemma SettleStep(s: State, p: Pinning, i: nat)
    requires CanMove(s, p, Settle(i)) && AllWorth(s, p)
    ensures var p' := NextPinning(s, p, Settle(i)); AllWorth(s, p') && p'.drift == p.drift
  {
    assert StillWorth(s, p.due[i]);
  }

  /** One move from a state in which every due is worth its charge. */
  lemma WorthStep(s: State, p: Pinning, m: Move)
    requires Inv(s) && CanMove(s, p, m) && AllWorth(s, p)
    ensures var s', p' := NextState(s, p, m), NextPinning(s, p, m);
            && (AllWorth(s', p') <==> RefillsAlike(s, p, m)) && p'.drift == p.drift
            && forall i :: 0 <= i < |p'.due| && p'.due[i].Taking? ==> p'.due[i].h < |s'.list|
  {
    if m.Settle? {
      SettleStep(s, p, m.i);
    } else if m.a.Conclude? && !Apply(s, m.a).section.Free? && s.recycle != [] {
      RefillStep(s, p);
    } else {
      QuietStep(s, p, m.a);
    }
  }

  lemma {:induction false} ExactWheneverIff(s: State, p: Pinning, moves: seq<Move>)
    requires Inv(s) && Accounted(s, p) && p.drift == 0 && AllWorth(s, p)
    ensures ExactWhenever(s, p, moves) <==> OnlyRefillsAlike(s, p, moves)
    decreases |moves|
  {
    SettledExactly(s, p);
    if moves != [] && CanMove(s, p, moves[0]) {
      var s', p' := NextState(s, p, moves[0]), NextPinning(s, p, moves[0]);
      MoveAccounted(s, p, moves[0]);
      WorthStep(s, p, moves[0]);
      if AllWorth(s', p') {
        ExactWheneverIff(s', p', moves[1..]);
      } else {
        SettledExactly(s', p');
      }
    }
  }

  /**
   * Of every run: the counter is exact whenever the threads choose to settle if and only if a handle with a
   * subtraction pending is filled again with the charge it had, or not at all.
   */
  lemma PinnedUsageIsExactWhenever(s0: State, moves: seq<Move>, s: State, p: Pinning)
    requires Initial(s0) && Leads(s0, START, moves, s, p)
    ensures ExactWhenever(s0, START, moves) <==> OnlyRefillsAlike(s0, START, moves)
  {
    StartAccounted(s0);
    ExactWheneverIff(s0, START, moves);
  }

  lemma {:induction false} AlikeIsTimely(s: State, p: Pinning, moves: seq<Move>)
    requires Inv(s) && Accounted(s, p) && AllWorth(s, p) && OnlyRefillsAlike(s, p, moves)
    ensures Timely(s, p, moves)
    decreases |moves|
  {
    if moves != [] && CanMove(s, p, moves[0]) {
      MoveAccounted(s, p, moves[0]);
      WorthStep(s, p, moves[0]);
      if moves[0].Settle? {
        assert StillWorth(s, p.due[moves[0].i]);
      }
      AlikeIsTimely(NextState(s, p, moves[0]), NextPinning(s, p, moves[0]), moves[1..]);
    }
  }

  /** No handle is filled again while a thread has still to take off its charge. */
  ghost predicate NeverRefills(s: State, p: Pinning, moves: seq<Move>)
    decreases |moves|
  {
    moves != [] && CanMove(s, p, moves[0]) ==>
      && (forall i :: 0 <= i < |p.due| ==> !Refills(s, p, moves[0], i))
      && NeverRefills(NextState(s, p, moves[0]), NextPinning(s, p, moves[0]), moves[1..])
  }

  lemma {:induction false} NeverIsAlike(s: State, p: Pinning, moves: seq<Move>)
    requires NeverRefills(s, p, moves)
    ensures OnlyRefillsAlike(s, p, moves)
    decreases |moves|
  {
    if moves != [] && CanMove(s, p, moves[0]) {
      NeverIsAlike(NextState(s, p, moves[0]), NextPinning(s, p, moves[0]), moves[1..]);
    }
  }

  lemma {:induction false} EndIsExact(s: State, p: Pinning, moves: seq<Move>, s': State, p': Pinning)
    requires Leads(s, p, moves, s', p') && ExactThroughout(s, p, moves)
    ensures Exact(s', p')
    decreases |moves|
  {
    if moves != [] {
      EndIsExact(NextState(s, p, moves[0]), NextPinning(s, p, moves[0]), moves[1..], s', p');
    }
  }

  /** With nothing pending the counter is the balance. */
  lemma NothingDue(s: State, p: Pinning)
    requires Exact(s, p) && forall i :: 0 <= i < |p.due| ==> p.due[i].NoDue?
    ensures p.pinned == Balance(s)
  {
    SumZeroes(Adds(s, p.due));
    SumZeroes(Takes(p.due));
  }

  /** A run that never fills a handle again too early is exact all along, and at rest the counter is what is pinned. */
  lemma PinnedUsageIsExact(s0: State, moves: seq<Move>, s: State, p: Pinning)
    requires Initial(s0) && Leads(s0, START, moves, s, p) && NeverRefills(s0, START, moves)
    ensures Timely(s0, START, moves) && ExactThroughout(s0, START, moves) && Exact(s, p)
    ensures AtRest(s, p) ==> p.pinned == Sum(PinnedWeights(s))
  {
    StartAccounted(s0);
    NeverIsAlike(s0, START, moves);
    AlikeIsTimely(s0, START, moves);
    TimelyIsExact(s0, START, moves);
    EndIsExact(s0, START, moves, s, p);
    if AtRest(s, p) {
      NothingDue(s, p);
    }
  }

  // ---- Settling at once

  /** Nobody acts while a subtraction is pending. */
  ghost predicate SettlesAtOnce(s: State, p: Pinning, moves: seq<Move>)
    decreases |moves|
  {
    moves != [] && CanMove(s, p, moves[0]) ==>
      && (moves[0].Act? ==> forall i :: 0 <= i < |p.due| ==> !p.due[i].Taking?)
      && SettlesAtOnce(NextState(s, p, moves[0]), NextPinning(s, p, moves[0]), moves[1..])
  }

  lemma {:induction false} AtOnceNeverRefills(s: State, p: Pinning, moves: seq<Move>)
    requires SettlesAtOnce(s, p, moves)
    ensures NeverRefills(s, p, moves)
    decreases |moves|
  {
    if moves != [] && CanMove(s, p, moves[0]) {
      AtOnceNeverRefills(NextState(s, p, moves[0]), NextPinning(s, p, moves[0]), moves[1..]);
    }
  }
  lemma {:induction false} AtOnceOn(s0: State, p0: Pinning, moves: seq<Move>, s: State, p: Pinning, m: Move)
    requires Leads(s0, p0, moves, s, p) && CanMove(s, p, m) && SettlesAtOnce(s0, p0, moves)
    requires m.Act? ==> forall i :: 0 <= i < |p.due| ==> !p.due[i].Taking?
    ensures SettlesAtOnce(s0, p0, moves + [m])
    decreases |moves|
  {
    var more := moves + [m];
    if moves == [] {
      assert more[0] == m && more[1..] == [];
    } else {
      AtOnceOn(NextState(s0, p0, moves[0]), NextPinning(s0, p0, moves[0]), moves[1..], s, p, m);
      assert more[0] == moves[0] && more[1..] == moves[1..] + [m];
    }
  }

  /** One action, and what falls due at once. */
  lemma SettledAction(s0: State, moves: seq<Move>, s: State, p: Pinning, a: Action) returns (moves': seq<Move>, p': Pinning)
    requires Leads(s0, START, moves, s, p) && SettlesAtOnce(s0, START, moves) && Enabled(s, a)
    requires |p.due| == |s.threads| && forall i :: 0 <= i < |p.due| ==> p.due[i].NoDue?
    ensures Leads(s0, START, moves', Apply(s, a), p') && SettlesAtOnce(s0, START, moves')
    ensures forall i :: 0 <= i < |p'.due| ==> p'.due[i].NoDue?
  {
    LeadsOn(s0, START, moves, s, p, Act(a));
    AtOnceOn(s0, START, moves, s, p, Act(a));
    moves', p' := moves + [Act(a)], NextPinning(s, p, Act(a));
    var i := ThreadOf(a);
    if ThreadActs(a) && !p'.due[i].NoDue? {
      LeadsOn(s0, START, moves', Apply(s, a), p', Settle(i));
      AtOnceOn(s0, START, moves', Apply(s, a), p', Settle(i));
      moves', p' := moves' + [Settle(i)], NextPinning(Apply(s, a), p', Settle(i));
    }
  }

  lemma {:induction false} SettledRun(states: seq<State>, actions: seq<Action>, n: nat) returns (moves: seq<Move>, p: Pinning)
    requires IsRun(states, actions) && n < |states|
    ensures Leads(states[0], START, moves, states[n], p) && SettlesAtOnce(states[0], START, moves)
    ensures forall i :: 0 <= i < |p.due| ==> p.due[i].NoDue?
  {
    if n == 0 {
      moves, p := [], START;
    } else {
      var before, q := SettledRun(states, actions, n - 1);
      StartAccounted(states[0]);
      LeadsAccounted(states[0], START, before, states[n - 1], q);
      moves, p := SettledAction(states[0], before, states[n - 1], q, actions[n - 1]);
    }
  }

  /** Every run of the cache, with each counter operation right after the one on the flags: the counter is exact. */
  lemma SettledRunIsExact(states: seq<State>, actions: seq<Action>, n: nat) returns (moves: seq<Move>, p: Pinning)
    requires IsRun(states, actions) && n < |states|
    ensures Leads(states[0], START, moves, states[n], p) && SettlesAtOnce(states[0], START, moves)
    ensures p.pinned == Balance(states[n]) && (states[n].section.Free? ==> p.pinned == Sum(PinnedWeights(states[n])))
  {
    moves, p := SettledRun(states, actions, n);
    AtOnceNeverRefills(states[0], START, moves);
    PinnedUsageIsExact(states[0], moves, states[n], p);
    NothingDue(states[n], p);
  }
}
