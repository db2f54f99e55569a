/** The eviction loop of the clock cache, run without interruption. */
module ClockCacheSequential {
  import opened ClockFlags
  import opened ClockCache
  import opened ClockCacheSafety

  /** One turn of the eviction loop: try the handle under the hand, then move on. */
  function Turn(s: State): State
    requires s.section.Evicting? && s.usage + s.section.purpose.Charge() > s.capacity
  {
    var t := Apply(s, TryEvict);
    if t.section.Evicted? then Apply(t, RemoveVictim) else Apply(t, SparePassed)
  }

  /** The handle was in the cache, unreferenced and unused since last examined. */
  predicate Evicts(e: Handle) {
    InCache(e.flags) && !e.flags.usage && CountRefs(e.flags) == 0
  }

  lemma TurnInv(s: State)
    requires Inv(s) && s.section.Evicting? && s.usage + s.section.purpose.Charge() > s.capacity
    ensures Inv(Turn(s))
  {
    StepInv(s, TryEvict);
    var t := Apply(s, TryEvict);
    StepInv(t, if t.section.Evicted? then RemoveVictim else SparePassed);
  }

  /** What a turn does to the handle under the hand and to nothing else. */
  predicate Turned(s: State, s': State, n: nat)
    requires s.section.Evicting? && n < |s.list|
  {
    && |s.list| == |s'.list| && s'.head == s.head && s'.capacity == s.capacity
    && s'.section == s.Advance(s.section.purpose, n, s.section.second).section
    && (forall h :: 0 <= h < |s.list| && h != n ==> s'.list[h] == s.list[h])
    && !s'.list[n].flags.usage && CountRefs(s'.list[n].flags) == CountRefs(s.list[n].flags)
    && InCache(s'.list[n].flags) == (InCache(s.list[n].flags) && !Evicts(s.list[n]))
  }

  lemma TurnEvicts(s: State)
    requires s.section.Evicting? && s.usage + s.section.purpose.Charge() > s.capacity
    requires s.section.newHead < |s.list| && s.list[s.section.newHead].flags == IN_CACHE
    ensures Turned(s, Turn(s), s.section.newHead)
  {
  }

  lemma TurnSpares(s: State)
    requires s.section.Evicting? && s.usage + s.section.purpose.Charge() > s.capacity
    requires s.section.newHead < |s.list| && s.list[s.section.newHead].flags != IN_CACHE
    ensures Turned(s, Turn(s), s.section.newHead)
  {
  }

  lemma TurnEffect(s: State)
    requires s.section.Evicting? && s.usage + s.section.purpose.Charge() > s.capacity
    requires s.section.newHead < |s.list|
    ensures Turned(s, Turn(s), s.section.newHead)
  {
    if s.list[s.section.newHead].flags == IN_CACHE {
      TurnEvicts(s);
    } else {
      TurnSpares(s);
    }
  }

  /** How far behind `head` the position `h` comes up, going round a list of `n`. */
  function Offset(h: nat, head: nat, n: nat): nat
    requires h < n && head < n
  {
    if head <= h then h - head else h + n - head
  }

  function Position(turns: nat, head: nat, n: nat): nat
    requires head < n && turns < 2 * n
  {
    var t := if turns < n then turns else turns - n;
    if head + t < n then head + t else head + t - n
  }

  /** Handles the hand has passed once have no usage bit; those passed twice are referenced or gone. */
  predicate Swept(s: State, turns: nat) {
    forall h :: 0 <= h < |s.list| && s.head < |s.list| ==>
      && (Offset(h, s.head, |s.list|) < turns ==> !s.list[h].flags.usage)
      && (Offset(h, s.head, |s.list|) + |s.list| < turns ==>
            (InCache(s.list[h].flags) ==> CountRefs(s.list[h].flags) > 0))
  }

  /** The eviction loop after so many turns; `started` when the cache was not empty. */
  ghost predicate Sweeping(s: State, purpose: Purpose, turns: nat, started: bool) {
    && Inv(s) && turns <= 2 * |s.list|
    && (s.section.Evicting? || s.section.Evaluated?) && s.section.purpose == purpose
    && (s.section.Evicting? ==>
          && started && s.head < |s.list| && turns < 2 * |s.list| && Swept(s, turns)
          && s.section.newHead == Position(turns, s.head, |s.list|)
          && (s.section.second <==> turns >= |s.list|))
    && (s.section.Evaluated? && s.section.success ==> s.usage + purpose.Charge() <= s.capacity)
    && (s.section.Evaluated? && !s.section.success && started ==> s.head < |s.list| && Swept(s, 2 * |s.list|))
  }

  lemma SweepOn(s: State, purpose: Purpose, turns: nat, started: bool)
    requires Sweeping(s, purpose, turns, started) && s.section.Evicting?
    requires s.usage + purpose.Charge() > s.capacity
    ensures Sweeping(Turn(s), purpose, turns + 1, started)
  {
    TurnInv(s);
    TurnEffect(s);
    SweptOn(s, turns);
  }

  lemma SweptOn(s: State, turns: nat)
    requires s.section.Evicting? && s.usage + s.section.purpose.Charge() > s.capacity
    requires s.head < |s.list| && turns < 2 * |s.list|
    requires s.section.newHead == Position(turns, s.head, |s.list|) && Swept(s, turns)
    ensures Swept(Turn(s), turns + 1)
  {
    TurnEffect(s);
  }

  /** Nothing in the cache is free to be evicted. */
  predicate AllReferenced(s: State) {
    forall h :: 0 <= h < |s.list| && InCache(s.list[h].flags) ==> CountRefs(s.list[h].flags) > 0
  }

  /**
   * Runs the eviction loop to its end. It takes at most two turns per handle. When it gives up, every
   * entry still in the cache is referenced, except where it never began because the usage was 0: then
   * all is as it was.
   */
  method EvictFromCache(s0: State, purpose: Purpose) returns (s: State, turns: nat)
    requires Inv(s0) && s0.section.Free?
    ensures Inv(s) && s.section.Evaluated? && s.section.purpose == purpose
    ensures s.section.success ==> s.usage + purpose.Charge() <= s.capacity
    ensures !s.section.success ==> (AllReferenced(s) <==> s0.usage != 0 || AllReferenced(s0))
    ensures s0.usage == 0 ==> s.list == s0.list && (s.section.success <==> purpose.Charge() <= s.capacity)
    ensures |s.list| == |s0.list| && s.capacity == s0.capacity && turns <= 2 * |s.list|
  {
    s, turns := s0.StartEviction(purpose), 0;
    assert s0.usage != 0 ==> s0.list != [];
    MoveOnInv(s0, s);
    while s.section.Evicting?
      invariant Sweeping(s, purpose, turns, s0.usage != 0)
      invariant |s.list| == |s0.list| && s.capacity == s0.capacity
      invariant s0.usage == 0 ==> s.section == Evaluated(purpose, purpose.Charge() <= s.capacity) && s.list == s0.list
      decreases 2 * |s.list| - turns, s.section.Evicting?
    {
      if s.usage + purpose.Charge() <= s.capacity {
        StepInv(s, TryEvict);
        s := Apply(s, TryEvict);
      } else {
        SweepOn(s, purpose, turns, s0.usage != 0);
        TurnEffect(s);
        s := Turn(s);
        turns := turns + 1;
      }
    }
  }

  /** The actions of an insert into an empty shard. */
  lemma FirstInsert(s0: State, ins: Insertion) returns (s1: State, s2: State, s3: State, s4: State)
    requires Initial(s0) && ins.charge <= s0.capacity && !ins.hold
    ensures Enabled(s0, BeginInsert(ins)) && s1 == Apply(s0, BeginInsert(ins))
    ensures Enabled(s1, Conclude) && s2 == Apply(s1, Conclude)
    ensures Enabled(s2, FindExisting) && s3 == Apply(s2, FindExisting)
    ensures Enabled(s3, Link) && s4 == Apply(s3, Link)
    ensures s4.list == [Handle(ins.key, ins.charge, IN_CACHE, 1, 0)] && s4.section.Free?
    ensures s4.usage == ins.charge && s4.capacity == s0.capacity
  {
    s1 := Apply(s0, BeginInsert(ins));
    s2 := Apply(s1, Conclude);
    s3 := Apply(s2, FindExisting);
    s4 := Apply(s3, Link);
  }

  /** An unreferenced entry of charge 0 survives a failed eviction: with usage 0 the sweep never begins. */
  lemma ZeroChargeSurvives(s0: State) returns (states: seq<State>, actions: seq<Action>)
    requires Initial(s0) && s0.capacity == 5
    ensures IsRun(states, actions) && states[0] == s0 && |actions| == 5
    ensures actions[4] == BeginInsert(Insertion("large", 6, false))
    ensures states[5].section == Evaluated(ForInsert(actions[4].ins), false) && !AllReferenced(states[5])
  {
    var free, large := Insertion("free", 0, false), Insertion("large", 6, false);
    var s1, s2, s3, s4 := FirstInsert(s0, free);
    var s5 := Apply(s4, BeginInsert(large));
    assert InCache(s5.list[0].flags) && CountRefs(s5.list[0].flags) == 0;
    actions := [BeginInsert(free), Conclude, FindExisting, Link, BeginInsert(large)];
    states := [s0, s1, s2, s3, s4, s5];
  }
}
