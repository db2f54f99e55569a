/** What a lookup in the clock cache gives out, and when it finds what the table has. */
module ClockCacheLookups {
  import opened ClockFlags
  import opened ClockCache
  import opened ClockCacheSafety

  lemma RunStep(states: seq<State>, actions: seq<Action>, n: nat)
    requires IsRun(states, actions) && n < |actions|
    ensures Enabled(states[n], actions[n]) && states[n + 1] == Apply(states[n], actions[n])
  {
  }

  predicate Finds(a: Action, i: nat) {
    a.Find? && a.i == i
  }

  predicate Looking(pc: Pc) {
    pc.Found? || pc.Pinned?
  }

  // ---- The key

  /** If the thread is in a lookup, it is one for `key`. */
  predicate Asks(s: State, i: nat, key: Key) {
    i < |s.threads| && (Looking(s.threads[i]) ==> s.threads[i].key == key)
  }

  lemma OthersLeave(s: State, a: Action, i: nat)
    requires Enabled(s, a) && i < |s.threads| && !(ThreadActs(a) && ThreadOf(a) == i)
    ensures i < |Apply(s, a).threads| && Apply(s, a).threads[i] == s.threads[i]
  {
    if !ThreadActs(a) {
      SectionLeaves(s, a);
    }
  }

  lemma SectionLeaves(s: State, a: Action)
    requires Enabled(s, a) && !ThreadActs(a)
    ensures s.threads <= Apply(s, a).threads
  {
  }

  lemma OwnLookup(s: State, a: Action, i: nat)
    requires Enabled(s, a) && i < |s.threads| && ThreadActs(a) && ThreadOf(a) == i && !Finds(a, i)
    ensures var s' := Apply(s, a);
            && |s'.threads| == |s.threads|
            && (Looking(s'.threads[i]) ==> Looking(s.threads[i]) && s'.threads[i].key == s.threads[i].key
                                           && s'.threads[i].h == s.threads[i].h)
  {
  }

  lemma FindStep(s: State, i: nat, key: Key)
    requires Enabled(s, Find(i, key))
    ensures var s' := Apply(s, Find(i, key));
            && i < |s'.threads| && s' == s.(threads := s'.threads)
            && s'.threads[i] == if key in s.table then Found(key, s.table[key]) else Idle
  {
  }

  lemma AsksStep(s: State, a: Action, i: nat, key: Key)
    requires Enabled(s, a) && Asks(s, i, key) && !Finds(a, i)
    ensures Asks(Apply(s, a), i, key)
  {
    if ThreadActs(a) && ThreadOf(a) == i {
      OwnLookup(s, a, i);
    } else {
      OthersLeave(s, a, i);
    }
  }

  lemma AsksBegins(states: seq<State>, actions: seq<Action>, n: nat, i: nat, key: Key)
    requires IsRun(states, actions) && n < |actions| && actions[n] == Find(i, key)
    ensures Asks(states[n + 1], i, key)
  {
    RunStep(states, actions, n);
    FindStep(states[n], i, key);
  }

  lemma AsksGoesOn(states: seq<State>, actions: seq<Action>, n: nat, i: nat, key: Key)
    requires IsRun(states, actions) && n < |actions| && Asks(states[n], i, key) && !Finds(actions[n], i)
    ensures Asks(states[n + 1], i, key)
  {
    RunStep(states, actions, n);
    AsksStep(states[n], actions[n], i, key);
  }

  lemma {:induction false} AsksSince(states: seq<State>, actions: seq<Action>, m: nat, n: nat, i: nat, key: Key)
    requires IsRun(states, actions) && m <= n < |actions| && actions[m] == Find(i, key)
    requires forall k :: m < k <= n ==> !Finds(actions[k], i)
    ensures Asks(states[n + 1], i, key)
    decreases n
  {
    if n == m {
      AsksBegins(states, actions, m, i, key);
    } else {
      AsksSince(states, actions, m, n - 1, i, key);
      AsksGoesOn(states, actions, n, i, key);
    }
  }

  /** The last step of a lookup, by the key of the entry behind the handle. */
  lemma CheckStep(s: State, i: nat)
    requires Inv(s) && Enabled(s, CheckKey(i))
    ensures var s', pc := Apply(s, CheckKey(i)), s.threads[i];
            && pc.h < |s.list| && s'.list == s.list && |s'.threads| == |s.threads|
            && (if s.list[pc.h].key == pc.key then s'.held == s.held + multiset{pc.h} && s'.threads[i] == Idle
                else s'.held == s.held && s'.threads[i] == Unpinning(pc.h))
  {
    assert PcOk(s, s.threads[i]);
  }

  /**
   * In every run: the last step of a lookup for `key` gives out the handle it has pinned if the entry behind
   * it has that key, and nothing otherwise.
   */
  lemma LookupAnswers(states: seq<State>, actions: seq<Action>, m: nat, n: nat, i: nat, key: Key)
    requires IsRun(states, actions) && m < n < |actions| && actions[m] == Find(i, key) && actions[n] == CheckKey(i)
    requires forall k :: m < k < n ==> !Finds(actions[k], i)
    ensures i < |states[n].threads| && states[n].threads[i].Pinned? && states[n].threads[i].h < |states[n].list|
    ensures i < |states[n + 1].threads| && states[n + 1].list == states[n].list
    ensures var h := states[n].threads[i].h;
            if states[n].list[h].key == key
            then states[n + 1].held == states[n].held + multiset{h} && states[n + 1].threads[i] == Idle
            else states[n + 1].held == states[n].held && states[n + 1].threads[i] == Unpinning(h)
  {
    AsksSince(states, actions, m, n - 1, i, key);
    RunStep(states, actions, n);
    RunInv(states, actions, n);
    CheckStep(states[n], i);
  }

  /** By a lookup with the key it was for, and by Ref to somebody who has the handle already. */
  predicate GivesOut(s: State, a: Action, h: HandleId)
    requires Enabled(s, a)
  {
    match a
    case CheckKey(i) => s.threads[i].h == h < |s.list| && s.list[h].key == s.threads[i].key
    case RefHeld(_, g) => g == h && s.held[h] > 0 && InCache(s.FlagsOf(h))
    case Link => s.section.h == h && s.section.ins.hold
    case _ => false
  }

  lemma ThreadGivesOut(s: State, a: Action, h: HandleId)
    requires Enabled(s, a) && ThreadActs(a)
    ensures Apply(s, a).held[h] > s.held[h] <==> GivesOut(s, a, h)
    ensures GivesOut(s, a, h) ==> Apply(s, a).held == s.held + multiset{h}
  {
  }

  lemma SectionGivesOut(s: State, a: Action, h: HandleId)
    requires Enabled(s, a) && !ThreadActs(a)
    ensures Apply(s, a).held[h] > s.held[h] <==> GivesOut(s, a, h)
    ensures GivesOut(s, a, h) ==> Apply(s, a).held == s.held + multiset{h}
  {
  }

  /** In every run, a handle is given out by the last step of a lookup, by Ref, by an insert, and in no other way. */
  lemma HandlesGivenOut(states: seq<State>, actions: seq<Action>, n: nat, h: HandleId)
    requires IsRun(states, actions) && n < |actions|
    ensures Enabled(states[n], actions[n])
    ensures states[n + 1].held[h] > states[n].held[h] <==> GivesOut(states[n], actions[n], h)
    ensures GivesOut(states[n], actions[n], h) ==> states[n + 1].held == states[n].held + multiset{h}
  {
    RunStep(states, actions, n);
    if ThreadActs(actions[n]) {
      ThreadGivesOut(states[n], actions[n], h);
    } else {
      SectionGivesOut(states[n], actions[n], h);
    }
  }

  // ---- Finding

  /** The table has the key, and the entry is what the table says. */
  predicate Has(s: State, key: Key, h: HandleId) {
    && s.section.Free? && key in s.table && s.table[key] == h < |s.list|
    && s.list[h].key == key && InCache(s.list[h].flags)
  }

  /** What other threads may do meanwhile: anything without entering a section under the mutex. */
  predicate KeepsOut(a: Action) {
    ThreadActs(a) || a.Spawn? || a.SetStrict?
  }

  lemma HasStep(s: State, a: Action, key: Key, h: HandleId)
    requires Inv(s) && Enabled(s, a) && KeepsOut(a) && Has(s, key, h)
    ensures Has(Apply(s, a), key, h)
  {
    ActionIsSafe(s, a);
    if LockFreeActs(a) {
      LockFreeRest(s, a);
      LockFreeEntry(s, a, h);
    }
  }

  /** If the thread is in a lookup, it has the handle of the table. */
  predicate OnTrack(s: State, i: nat, key: Key, h: HandleId) {
    Has(s, key, h) && i < |s.threads| && (Looking(s.threads[i]) ==> s.threads[i].key == key && s.threads[i].h == h)
  }

  lemma OnTrackStep(s: State, a: Action, i: nat, key: Key, h: HandleId)
    requires Inv(s) && Enabled(s, a) && KeepsOut(a) && !Finds(a, i) && OnTrack(s, i, key, h)
    ensures OnTrack(Apply(s, a), i, key, h)
  {
    HasStep(s, a, key, h);
    if ThreadActs(a) && ThreadOf(a) == i {
      OwnLookup(s, a, i);
    } else {
      OthersLeave(s, a, i);
    }
  }

  lemma TableHas(s: State, key: Key)
    requires Inv(s) && s.section.Free? && key in s.table
    ensures Has(s, key, s.table[key])
  {
    assert TableOk(s, key);
  }

  lemma OnTrackBegins(states: seq<State>, actions: seq<Action>, n: nat, i: nat, key: Key)
    requires IsRun(states, actions) && n < |actions| && actions[n] == Find(i, key)
    requires states[n].section.Free? && key in states[n].table
    ensures OnTrack(states[n + 1], i, key, states[n].table[key])
  {
    RunStep(states, actions, n);
    RunInv(states, actions, n);
    TableHas(states[n], key);
    FindStep(states[n], i, key);
  }

  lemma OnTrackGoesOn(states: seq<State>, actions: seq<Action>, n: nat, i: nat, key: Key, h: HandleId)
    requires IsRun(states, actions) && n < |actions| && KeepsOut(actions[n]) && !Finds(actions[n], i)
    requires OnTrack(states[n], i, key, h)
    ensures OnTrack(states[n + 1], i, key, h)
  {
    RunStep(states, actions, n);
    RunInv(states, actions, n);
    OnTrackStep(states[n], actions[n], i, key, h);
  }

  lemma {:induction false} OnTrackSince(states: seq<State>, actions: seq<Action>, m: nat, n: nat, i: nat, key: Key)
    requires IsRun(states, actions) && m <= n < |actions| && actions[m] == Find(i, key)
    requires states[m].section.Free? && key in states[m].table
    requires forall k :: m < k <= n ==> KeepsOut(actions[k]) && !Finds(actions[k], i)
    ensures OnTrack(states[n + 1], i, key, states[m].table[key])
    decreases n
  {
    if n == m {
      OnTrackBegins(states, actions, m, i, key);
    } else {
      OnTrackSince(states, actions, m, n - 1, i, key);
      OnTrackGoesOn(states, actions, n, i, key, states[m].table[key]);
    }
  }

  predicate NotLooking(s: State, i: nat) {
    i < |s.threads| && !Looking(s.threads[i])
  }

  lemma NotLookingGoesOn(states: seq<State>, actions: seq<Action>, n: nat, i: nat)
    requires IsRun(states, actions) && n < |actions| && NotLooking(states[n], i) && !Finds(actions[n], i)
    ensures NotLooking(states[n + 1], i)
  {
    RunStep(states, actions, n);
    if ThreadActs(actions[n]) && ThreadOf(actions[n]) == i {
      OwnLookup(states[n], actions[n], i);
    } else {
      OthersLeave(states[n], actions[n], i);
    }
  }

  lemma {:induction false} NotLookingSince(states: seq<State>, actions: seq<Action>, m: nat, n: nat, i: nat, key: Key)
    requires IsRun(states, actions) && m <= n < |actions| && actions[m] == Find(i, key) && key !in states[m].table
    requires forall k :: m < k <= n ==> !Finds(actions[k], i)
    ensures NotLooking(states[n + 1], i)
    decreases n
  {
    if n == m {
      RunStep(states, actions, n);
      FindStep(states[m], i, key);
    } else {
      NotLookingSince(states, actions, m, n - 1, i, key);
      NotLookingGoesOn(states, actions, n, i);
    }
  }

  /**
   * In every run: a lookup during which nobody enters a section under the mutex, whatever other threads look
   * up and release, gets to its last step only if the table has the key, and then gives out the handle
   * that the table has.
   */
  lemma LookupFinds(states: seq<State>, actions: seq<Action>, m: nat, n: nat, i: nat, key: Key)
    requires IsRun(states, actions) && m < n < |actions| && actions[m] == Find(i, key) && actions[n] == CheckKey(i)
    requires states[m].section.Free?
    requires forall k :: m < k < n ==> KeepsOut(actions[k]) && !Finds(actions[k], i)
    ensures key in states[m].table && key in states[n].table && states[n].table[key] == states[m].table[key]
    ensures states[n + 1].held == states[n].held + multiset{states[m].table[key]}
  {
    RunStep(states, actions, n);
    if key !in states[m].table {
      NotLookingSince(states, actions, m, n - 1, i, key);
    }
    OnTrackSince(states, actions, m, n - 1, i, key);
    RunInv(states, actions, n);
    CheckStep(states[n], i);
  }

  /** And if the table has the key, the reference in between succeeds. */
  lemma ReferenceSucceeds(states: seq<State>, actions: seq<Action>, m: nat, n: nat, i: nat, key: Key)
    requires IsRun(states, actions) && m < n < |actions| && actions[m] == Find(i, key) && actions[n] == RefFound(i)
    requires states[m].section.Free? && key in states[m].table
    requires forall k :: m < k < n ==> KeepsOut(actions[k]) && !Finds(actions[k], i)
    ensures i < |states[n + 1].threads| && states[n + 1].threads[i] == Pinned(key, states[m].table[key])
  {
    RunStep(states, actions, n);
    OnTrackSince(states, actions, m, n - 1, i, key);
  }

  /** A lookup with nobody else about: it gives out what the table has under the key, and nothing if there is none. */
  lemma LookupAlone(states: seq<State>, actions: seq<Action>, n: nat, i: nat, key: Key)
    requires IsRun(states, actions) && n < |actions| && actions[n] == Find(i, key) && states[n].section.Free?
    ensures key !in states[n].table ==> states[n + 1] == states[n]
    ensures key in states[n].table && n + 2 < |actions| && actions[n + 1] == RefFound(i) && actions[n + 2] == CheckKey(i) ==>
              states[n + 3].held == states[n].held + multiset{states[n].table[key]} && i < |states[n + 3].threads|
              && states[n + 3].threads[i] == Idle
  {
    RunStep(states, actions, n);
    if key in states[n].table && n + 2 < |actions| && actions[n + 1] == RefFound(i) && actions[n + 2] == CheckKey(i) {
      RunStep(states, actions, n + 1);
      RunStep(states, actions, n + 2);
      RunInv(states, actions, n);
      TableHas(states[n], key);
    }
  }
}
