/** The clock hand's sweep while other threads go on: where it stands, and that it ends. */
module ClockCacheSweep {
  import opened ClockCache
  import opened ClockCacheSafety
  import opened ClockCacheSequential

  predicate Sweeps(sec: Section) {
    sec.Evicting? || sec.Evicted? || sec.Passed?
  }

  predicate FindsNoRoom(s: State, a: Action) {
    a.TryEvict? && s.section.Evicting? && s.usage + s.section.purpose.Charge() > s.capacity
  }

  /** How many of the actions from b up to e try a handle because there is no room. */
  ghost function Tries(states: seq<State>, actions: seq<Action>, b: nat, e: nat): nat
    requires b <= e <= |actions| < |states|
  {
    if b == e then 0
    else Tries(states, actions, b, e - 1) + if FindsNoRoom(states[e - 1], actions[e - 1]) then 1 else 0
  }

  /** Where the hand stands after so many tries from its first position. */
  predicate SweepAt(sec: Section, now: nat, head: nat, n: nat, tries: nat) {
    && (Sweeps(sec) ==>
          && now == head < n
          && (var t := if sec.Evicting? then tries else tries - 1;
              && 0 <= t < 2 * n && sec.newHead == Position(t, head, n) && (sec.second <==> t >= n)))
    && (sec.Evaluated? ==> tries <= 2 * n)
  }

  /** Other actions that are possible during a sweep leave the hand and the length of the list alone. */
  lemma OthersStandAside(s: State, a: Action)
    requires Enabled(s, a) && Sweeps(s.section) && !SweepActs(a)
    ensures var s' := Apply(s, a); s'.section == s.section && s'.head == s.head && |s'.list| == |s.list|
  {
  }

  lemma SweepKeepsList(s: State, a: Action)
    requires Enabled(s, a) && Sweeps(s.section) && SweepActs(a)
    ensures |Apply(s, a).list| == |s.list|
  {
  }

  lemma HandMoves(s: State, a: Action, n: nat)
    requires Enabled(s, a) && SweepActs(a) && |s.list| == n && !FindsNoRoom(s, a)
    ensures var sec, s' := s.section, Apply(s, a);
            if a.TryEvict? then s'.section == Evaluated(sec.purpose, true)
            else s'.head == s.head && s'.section == s.Advance(sec.purpose, sec.newHead, sec.second).section
  {
  }

  /** A state of the sweep, or its end, after so many tries. */
  predicate OnSweep(s: State, head: nat, n: nat, tries: nat) {
    && |s.list| == n && (Sweeps(s.section) || s.section.Evaluated?)
    && SweepAt(s.section, s.head, head, n, tries)
  }

  lemma SweepStep(s: State, a: Action, head: nat, n: nat, tries: nat)
    requires Enabled(s, a) && Sweeps(s.section) && OnSweep(s, head, n, tries)
    ensures OnSweep(Apply(s, a), head, n, tries + if FindsNoRoom(s, a) then 1 else 0)
  {
    if !SweepActs(a) {
      OthersStandAside(s, a);
    } else {
      SweepKeepsList(s, a);
      if !FindsNoRoom(s, a) {
        HandMoves(s, a, n);
      }
    }
  }

  predicate Begins(a: Action) {
    a.BeginInsert? || a.BeginSetCapacity?
  }

  /** The sweep that the action b began, or its end, just before the action e. */
  ghost predicate SweepSince(states: seq<State>, actions: seq<Action>, b: nat, e: nat) {
    b < e <= |actions| < |states| && OnSweep(states[e], states[b].head, |states[b].list|, Tries(states, actions, b, e))
  }

  lemma SweepBegins(states: seq<State>, actions: seq<Action>, b: nat)
    requires IsRun(states, actions) && b < |actions| && Begins(actions[b])
    ensures SweepSince(states, actions, b, b + 1)
  {
    RunInv(states, actions, b);
    assert states[b].usage != 0 ==> states[b].list != [];
  }

  lemma SweepAdvances(states: seq<State>, actions: seq<Action>, b: nat, e: nat)
    requires IsRun(states, actions) && 0 < e <= |actions|
    requires Sweeps(states[e - 1].section) && SweepSince(states, actions, b, e - 1)
    ensures SweepSince(states, actions, b, e)
  {
    SweepStep(states[e - 1], actions[e - 1], states[b].head, |states[b].list|, Tries(states, actions, b, e - 1));
    assert states[e - 1 + 1] == states[e];
  }

  lemma {:induction false} SweepGoesOn(states: seq<State>, actions: seq<Action>, b: nat, e: nat)
    requires IsRun(states, actions) && b < e <= |actions| && SweepSince(states, actions, b, b + 1)
    requires forall i :: b < i < e ==> Sweeps(states[i].section)
    ensures SweepSince(states, actions, b, e)
  {
    if b + 1 < e {
      SweepGoesOn(states, actions, b, e - 1);
      SweepAdvances(states, actions, b, e);
    }
  }

  /** From the action that begins it, the sweep tries at most two handles for each there is, whatever threads do. */
  lemma SweepEnds(states: seq<State>, actions: seq<Action>, b: nat, e: nat)
    requires IsRun(states, actions) && b < e <= |actions| && Begins(actions[b])
    requires forall i :: b < i < e ==> Sweeps(states[i].section)
    ensures Sweeps(states[e].section) || states[e].section.Evaluated?
    ensures |states[e].list| == |states[b].list| && Tries(states, actions, b, e) <= 2 * |states[b].list|
  {
    SweepBegins(states, actions, b);
    SweepGoesOn(states, actions, b, e);
  }
}
