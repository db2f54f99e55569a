/** What an insert, an erase and a clearing of the clock cache leave in the table, whatever goes on beside them. */
module ClockCacheUpdates {
  import opened ClockFlags
  import opened ClockCache
  import opened ClockCacheSafety
  import opened ClockCacheLookups

  /** The mutex is held all the time from state `m` to state `n`. */
  predicate InSection(states: seq<State>, m: nat, n: nat)
    requires n < |states|
  {
    forall k :: m <= k <= n ==> !states[k].section.Free?
  }

  /** Threads without the mutex leave the section, the table, the usage and the capacity alone. */
  lemma ThreadsLeaveSection(s: State, a: Action)
    requires Enabled(s, a) && (ThreadActs(a) || a.Spawn? || a.SetStrict?) && !s.section.Free?
    ensures var s' := Apply(s, a);
            s'.section == s.section && s'.table == s.table && s'.usage == s.usage && s'.capacity == s.capacity
  {
    if ThreadActs(a) {
      LockFreeRest(s, a);
    }
  }

  // ---- Insert

  /** The section is an insert of `ins`. */
  predicate Inserts(sec: Section, ins: Insertion) {
    match sec
    case Evicting(purpose, _, _) => purpose == ForInsert(ins)
    case Evicted(purpose, _, _, _) => purpose == ForInsert(ins)
    case Passed(purpose, _, _) => purpose == ForInsert(ins)
    case Evaluated(purpose, _) => purpose == ForInsert(ins)
    case Filled(i, _, _) => i == ins
    case Displacing(i, _, _, _) => i == ins
    case Linking(i, _, _) => i == ins
    case _ => false
  }

  /** It is an insert of something that fits without evicting anything. */
  predicate FitsAtOnce(s: State, ins: Insertion) {
    && Inserts(s.section, ins) && !s.section.Evicted? && !s.section.Passed?
    && (s.section.Evicting? ==> s.usage + ins.charge <= s.capacity) && (s.section.Evaluated? ==> s.section.success)
  }

  /** The entry is in the cache under its key, and in the hands of the caller if that was asked for. */
  predicate Entered(s: State, s': State, ins: Insertion) {
    && ins.key in s'.table
    && (var h := s'.table[ins.key];
        && h < |s'.list| && s'.list[h].key == ins.key && s'.list[h].charge == ins.charge && InCache(s'.list[h].flags)
        && s'.table == s.table[ins.key := h] && s'.usage == s.usage + ins.charge
        && s'.held == if ins.hold then s.held + multiset{h} else s.held)
  }

  lemma LinkEnters(s: State)
    requires Inv(s) && Enabled(s, Link)
    ensures Entered(s, Apply(s, Link), s.section.ins)
  {
  }

  /** The section is an insert of `ins`, and with `fits` one that evicts nothing. */
  predicate UnderWay(s: State, ins: Insertion, fits: bool) {
    Inserts(s.section, ins) && (fits ==> FitsAtOnce(s, ins))
  }

  lemma InsertGoesOn(s: State, a: Action, ins: Insertion, fits: bool)
    requires Enabled(s, a) && UnderWay(s, ins, fits) && !Apply(s, a).section.Free?
    ensures UnderWay(Apply(s, a), ins, fits)
  {
    if ThreadActs(a) || a.Spawn? || a.SetStrict? {
      ThreadsLeaveSection(s, a);
    }
  }

  lemma InsertStops(s: State, a: Action, ins: Insertion)
    requires Enabled(s, a) && Inserts(s.section, ins) && Apply(s, a).section.Free?
    ensures s.section == (if a.Link? then Linking(ins, s.section.h, s.section.success) else Evaluated(ForInsert(ins), false))
    ensures a.Link? || (a.Conclude? && (s.strict || !ins.hold) && Apply(s, a) == s.(section := Free))
  {
    if ThreadActs(a) || a.Spawn? || a.SetStrict? {
      ThreadsLeaveSection(s, a);
    }
  }

  lemma InsertBegins(states: seq<State>, actions: seq<Action>, n: nat, ins: Insertion, fits: bool)
    requires IsRun(states, actions) && n < |actions| && actions[n] == BeginInsert(ins)
    requires fits ==> states[n].usage + ins.charge <= states[n].capacity
    ensures UnderWay(states[n + 1], ins, fits)
  {
    RunStep(states, actions, n);
  }

  lemma InsertOneMore(states: seq<State>, actions: seq<Action>, n: nat, ins: Insertion, fits: bool)
    requires IsRun(states, actions) && n < |actions| && UnderWay(states[n], ins, fits) && !states[n + 1].section.Free?
    ensures UnderWay(states[n + 1], ins, fits)
  {
    RunStep(states, actions, n);
    InsertGoesOn(states[n], actions[n], ins, fits);
  }

  lemma {:induction false} InsertSince(states: seq<State>, actions: seq<Action>, m: nat, n: nat, ins: Insertion, fits: bool)
    requires IsRun(states, actions) && m <= n < |actions| && actions[m] == BeginInsert(ins)
    requires InSection(states, m + 1, n + 1)
    requires fits ==> states[m].usage + ins.charge <= states[m].capacity
    ensures UnderWay(states[n + 1], ins, fits)
    decreases n
  {
    if n == m {
      InsertBegins(states, actions, m, ins, fits);
    } else {
      InsertSince(states, actions, m, n - 1, ins, fits);
      InsertOneMore(states, actions, n, ins, fits);
    }
  }

  /**
   * In every run: an insert ends with its entry in the table, or is turned down for want of room and changes
   * nothing. What fits when the insert begins is not turned down.
   */
  lemma InsertEnds(states: seq<State>, actions: seq<Action>, m: nat, n: nat, ins: Insertion)
    requires IsRun(states, actions) && m < n < |actions| && actions[m] == BeginInsert(ins)
    requires InSection(states, m + 1, n) && states[n + 1].section.Free?
    ensures if actions[n].Link? then Entered(states[n], states[n + 1], ins)
            else && states[n].section == Evaluated(ForInsert(ins), false) && (states[n].strict || !ins.hold)
                 && states[n + 1] == states[n].(section := Free)
    ensures states[m].usage + ins.charge <= states[m].capacity ==> actions[n].Link?
  {
    InsertSince(states, actions, m, n - 1, ins, states[m].usage + ins.charge <= states[m].capacity);
    RunStep(states, actions, n);
    InsertStops(states[n], actions[n], ins);
    if actions[n].Link? {
      RunInv(states, actions, n);
      LinkEnters(states[n]);
    }
  }

  // ---- Erase

  /** The section is the erasing of the entry `h`, of a key that is out of the table. */
  predicate Erases(s: State, key: Key, h: HandleId) {
    s.section == Erasing(h) && key !in s.table
  }

  lemma EraseGoesOn(s: State, a: Action, key: Key, h: HandleId)
    requires Enabled(s, a) && Erases(s, key, h)
    ensures if a.UnsetErased? then Apply(s, a).section.Free? else Erases(Apply(s, a), key, h)
  {
    if ThreadActs(a) || a.Spawn? || a.SetStrict? {
      ThreadsLeaveSection(s, a);
    }
  }

  lemma EraseOneMore(states: seq<State>, actions: seq<Action>, n: nat, key: Key, h: HandleId)
    requires IsRun(states, actions) && n < |actions| && Erases(states[n], key, h) && !states[n + 1].section.Free?
    ensures Erases(states[n + 1], key, h)
  {
    RunStep(states, actions, n);
    EraseGoesOn(states[n], actions[n], key, h);
  }

  lemma {:induction false} EraseSince(states: seq<State>, actions: seq<Action>, m: nat, n: nat, key: Key)
    requires IsRun(states, actions) && m <= n < |actions| && actions[m] == BeginErase(key)
    requires key in states[m].table && InSection(states, m + 1, n + 1)
    ensures Erases(states[n + 1], key, states[m].table[key])
    decreases n
  {
    if n == m {
      RunStep(states, actions, n);
    } else {
      EraseSince(states, actions, m, n - 1, key);
      EraseOneMore(states, actions, n, key, states[m].table[key]);
    }
  }

  lemma UnsetTakesOut(s: State, h: HandleId)
    requires Enabled(s, UnsetErased) && s.section == Erasing(h) && h < |s.list|
    ensures var s' := Apply(s, UnsetErased);
            && s'.table == s.table && |s'.list| == |s.list| && !InCache(s'.list[h].flags)
            && forall g :: 0 <= g < |s.list| && g != h ==> s'.list[g] == s.list[g]
  {
  }

  /** In every run: an erase leaves the table without the key and the entry out of the cache, and no other. */
  lemma EraseEnds(states: seq<State>, actions: seq<Action>, m: nat, n: nat, key: Key)
    requires IsRun(states, actions) && m < n < |actions| && actions[m] == BeginErase(key)
    requires InSection(states, m + 1, n) && states[n + 1].section.Free?
    ensures key in states[m].table && states[m + 1].table == states[m].table - {key}
    ensures var h, s, s' := states[m].table[key], states[n], states[n + 1];
            && key !in s'.table && s'.table == s.table && h < |s.list| == |s'.list| && !InCache(s'.list[h].flags)
            && forall g :: 0 <= g < |s.list| && g != h ==> s'.list[g] == s.list[g]
  {
    RunStep(states, actions, m);
    EraseSince(states, actions, m, n - 1, key);
    RunStep(states, actions, n);
    RunInv(states, actions, n);
    EraseGoesOn(states[n], actions[n], key, states[m].table[key]);
    UnsetTakesOut(states[n], states[m].table[key]);
  }

  /** An erase of a key that the table does not have does nothing. */
  lemma EraseMisses(states: seq<State>, actions: seq<Action>, n: nat, key: Key)
    requires IsRun(states, actions) && n < |actions| && actions[n] == BeginErase(key) && key !in states[n].table
    ensures states[n + 1] == states[n]
  {
    RunStep(states, actions, n);
  }

  // ---- Clear

  lemma ClearGoesOn(s: State, a: Action)
    requires Enabled(s, a) && s.section.Clearing? && s.table == map[]
    ensures Apply(s, a).table == map[] && (Apply(s, a).section.Clearing? || Apply(s, a).section.Free?)
  {
    if ThreadActs(a) || a.Spawn? || a.SetStrict? {
      ThreadsLeaveSection(s, a);
    }
  }

  lemma {:induction false} ClearSince(states: seq<State>, actions: seq<Action>, m: nat, n: nat)
    requires IsRun(states, actions) && m <= n < |actions| && actions[m] == BeginClear
    requires InSection(states, m + 1, n)
    ensures states[n + 1].table == map[] && (states[n + 1].section.Clearing? || states[n + 1].section.Free?)
    decreases n
  {
    RunStep(states, actions, n);
    if n > m {
      ClearSince(states, actions, m, n - 1);
      ClearGoesOn(states[n], actions[n]);
    }
  }

  /** In every run: a clearing leaves nothing in the table and nothing in the cache. */
  lemma ClearEnds(states: seq<State>, actions: seq<Action>, m: nat, n: nat)
    requires IsRun(states, actions) && m < n < |actions| && actions[m] == BeginClear
    requires InSection(states, m + 1, n) && states[n + 1].section.Free?
    ensures states[n + 1].table == map[]
    ensures var s := states[n + 1]; forall h :: 0 <= h < |s.list| ==> !InCache(s.list[h].flags)
  {
    ClearSince(states, actions, m, n);
    RunInv(states, actions, n + 1);
    var s := states[n + 1];
    forall h | 0 <= h < |s.list| ensures !InCache(s.list[h].flags) {
      assert HandleOk(s, h);
    }
  }

  // ---- The limits

  lemma LimitStep(s: State, a: Action)
    requires Enabled(s, a)
    ensures Apply(s, a).capacity == if a.BeginSetCapacity? then a.capacity else s.capacity
    ensures Apply(s, a).strict == if a.SetStrict? then a.strict else s.strict
  {
    if LockFreeActs(a) {
      LockFreeRest(s, a);
    }
  }

  /** Between state `m + 1` and state `n` nobody sets a limit. */
  predicate NoneSet(actions: seq<Action>, m: nat, n: nat)
    requires n <= |actions|
  {
    forall k :: m < k < n ==> !actions[k].BeginSetCapacity? && !actions[k].SetStrict?
  }

  lemma LimitsOneMore(states: seq<State>, actions: seq<Action>, n: nat)
    requires IsRun(states, actions) && n < |actions|
    ensures states[n + 1].capacity == if actions[n].BeginSetCapacity? then actions[n].capacity else states[n].capacity
    ensures states[n + 1].strict == if actions[n].SetStrict? then actions[n].strict else states[n].strict
  {
    RunStep(states, actions, n);
    LimitStep(states[n], actions[n]);
  }

  /** In every run: the capacity and the strictness of the limit are those last set. */
  lemma {:induction false} LimitsAreThoseSet(states: seq<State>, actions: seq<Action>, m: nat, n: nat)
    requires IsRun(states, actions) && m < n <= |actions| && NoneSet(actions, m, n)
    ensures states[n].capacity == if actions[m].BeginSetCapacity? then actions[m].capacity else states[m].capacity
    ensures states[n].strict == if actions[m].SetStrict? then actions[m].strict else states[m].strict
    decreases n
  {
    LimitsOneMore(states, actions, n - 1);
    if n > m + 1 {
      LimitsAreThoseSet(states, actions, m, n - 1);
    }
  }
}
