/** What a Get returns, and when a return puts it back: the cache does cache. */
module SuperVersionReturns {
  import opened SuperVersions
  import opened SuperVersionSafety

  /** Between the Swap of a Get and the return of what it got. */
  predicate InGet(pc: Pc) {
    pc.Swapped? || pc.Stale? || pc.Locking? || pc.Locked? || pc.Holding? || pc.Referenced?
  }

  predicate ScrapesAt(s: State, a: Action, i: nat) {
    a.ScrapeSlot? && s.install.Install? && s.install.phase.Scraping? && s.install.phase.next == i
  }

  ghost predicate ScrapedSince(states: seq<State>, actions: seq<Action>, m: nat, n: nat, i: nat)
    requires |states| == |actions| + 1 && n <= |actions|
  {
    exists k :: m < k < n && ScrapesAt(states[k], actions[k], i)
  }

  /** A thread is left alone by the others, but for its slot, which a scrape takes. */
  lemma OthersLeave(s: State, a: Action, i: nat)
    requires Enabled(s, a) && i < |s.threads| && (a.Spawn? || InstallerActs(a) || ThreadOf(a) != i)
    ensures var s' := Apply(s, a);
            && i < |s'.threads|
            && s'.threads[i] == if ScrapesAt(s, a, i) then s.threads[i].(slot := Obsolete) else s.threads[i]
  {
  }

  lemma OwnSlot(s: State, a: Action, i: nat)
    requires Enabled(s, a) && i < |s.threads| && !a.Spawn? && !InstallerActs(a) && ThreadOf(a) == i && a != Swap(i)
    ensures var s' := Apply(s, a);
            && |s'.threads| == |s.threads|
            && (InGet(s'.threads[i].pc) ==> InGet(s.threads[i].pc) && s'.threads[i].slot == s.threads[i].slot)
  {
  }

  /** One action, seen from the slot of a thread that is in a Get or after one. */
  lemma SlotStep(s: State, a: Action, i: nat)
    requires Enabled(s, a) && i < |s.threads| && a != Swap(i)
    ensures var s' := Apply(s, a);
            && i < |s'.threads|
            && (InGet(s'.threads[i].pc) ==>
                  InGet(s.threads[i].pc) && s'.threads[i].slot == if ScrapesAt(s, a, i) then Obsolete else s.threads[i].slot)
  {
    if a.Spawn? || InstallerActs(a) || ThreadOf(a) != i {
      OthersLeave(s, a, i);
    } else {
      OwnSlot(s, a, i);
    }
  }

  lemma SwapStep(s: State, i: nat)
    requires Enabled(s, Swap(i))
    ensures var s' := Apply(s, Swap(i));
            && i < |s'.threads| && s'.threads[i].slot == InUse && s'.current == s.current
            && s'.threads[i].pc == match s.threads[i].slot
                                   case Cached(v) => Swapped(v, s.number)
                                   case _ => Locking([], s.number)
  {
  }

  lemma RunStep(states: seq<State>, actions: seq<Action>, n: nat)
    requires IsRun(states, actions) && n < |actions|
    ensures Enabled(states[n], actions[n]) && states[n + 1] == Apply(states[n], actions[n])
  {
  }

  lemma ScrapedMore(states: seq<State>, actions: seq<Action>, m: nat, n: nat, i: nat)
    requires |states| == |actions| + 1 && m < n < |actions|
    ensures ScrapedSince(states, actions, m, n + 1, i)
            <==> ScrapedSince(states, actions, m, n, i) || ScrapesAt(states[n], actions[n], i)
  {
  }

  /** The slot of a thread in a Get is in use, but for a scrape. */
  predicate SlotIs(s: State, i: nat, scraped: bool) {
    i < |s.threads| && (InGet(s.threads[i].pc) ==> s.threads[i].slot == if scraped then Obsolete else InUse)
  }

  /** While a thread is in a Get its slot is in use, until a scrape gets to it. */
  lemma {:induction false} SlotSince(states: seq<State>, actions: seq<Action>, m: nat, n: nat, i: nat)
    requires IsRun(states, actions) && m <= n < |actions| && actions[m] == Swap(i)
    requires forall k :: m < k <= n ==> actions[k] != Swap(i)
    ensures SlotIs(states[n + 1], i, ScrapedSince(states, actions, m, n + 1, i))
    decreases n
  {
    RunStep(states, actions, n);
    if n == m {
      SwapStep(states[m], i);
    } else {
      SlotSince(states, actions, m, n - 1, i);
      SlotStep(states[n], actions[n], i);
      ScrapedMore(states, actions, m, n, i);
    }
  }

  /** The thread after its compare-and-swap, by what is in the slot. */
  lemma ReturnStep(s: State, i: nat)
    requires Enabled(s, Return(i))
    ensures var s', sv := Apply(s, Return(i)), s.threads[i].pc.sv;
            && s'.svs == s.svs && |s'.threads| == |s.threads|
            && s'.threads[i] == if s.threads[i].slot == InUse then Thread(Cached(sv), Idle)
                                else Thread(s.threads[i].slot, ReturnFailed(sv, s.threads[i].pc.Referenced?))
  {
  }

  /**
   * In every run: a return fails if and only if a scrape has got to the slot since the Get began. If it does
   * not, the slot has what the Get returned, and no reference is dropped.
   */
  lemma ReturnPutsBack(states: seq<State>, actions: seq<Action>, m: nat, n: nat, i: nat)
    requires IsRun(states, actions) && m < n < |actions| && actions[m] == Swap(i) && actions[n] == Return(i)
    requires forall k :: m < k < n ==> actions[k] != Swap(i)
    ensures i < |states[n].threads| && i < |states[n + 1].threads| && states[n + 1].svs == states[n].svs
    ensures var t, t' := states[n].threads[i], states[n + 1].threads[i];
            && (t.pc.Holding? || t.pc.Referenced?)
            && t' == if ScrapedSince(states, actions, m, n, i) then Thread(Obsolete, ReturnFailed(t.pc.sv, t.pc.Referenced?))
                     else Thread(Cached(t.pc.sv), Idle)
  {
    SlotSince(states, actions, m, n - 1, i);
    RunStep(states, actions, n);
    ReturnStep(states[n], i);
  }

  /** In every run: what a Get ends with is the current SuperVersion of that moment. */
  lemma GetReturnsCurrent(states: seq<State>, actions: seq<Action>, n: nat, i: nat)
    requires IsRun(states, actions) && n < |actions| && i < |states[n].threads| && i < |states[n + 1].threads|
    requires !states[n].threads[i].pc.Holding? && states[n + 1].threads[i].pc.Holding?
    ensures states[n + 1].threads[i].pc.sv == states[n].current == states[n + 1].current
    ensures actions[n] == Compare(i) || actions[n] == RefCurrent(i)
  {
    RunInv(states, actions, n);
    RunStep(states, actions, n);
    HoldingStep(states[n], actions[n], i);
  }

  lemma HoldingStep(s: State, a: Action, i: nat)
    requires Inv(s) && Enabled(s, a) && i < |s.threads| && !s.threads[i].pc.Holding?
    requires i < |Apply(s, a).threads| && Apply(s, a).threads[i].pc.Holding?
    ensures Apply(s, a).threads[i].pc.sv == s.current == Apply(s, a).current && (a == Compare(i) || a == RefCurrent(i))
  {
    if a.Spawn? || InstallerActs(a) || ThreadOf(a) != i {
      OthersLeave(s, a, i);
    } else {
      OwnHolding(s, a, i);
    }
  }

  lemma OwnHolding(s: State, a: Action, i: nat)
    requires Shape(s) && Enabled(s, a) && i < |s.threads| && !a.Spawn? && !InstallerActs(a) && ThreadOf(a) == i
    requires !s.threads[i].pc.Holding? && i < |Apply(s, a).threads| && Apply(s, a).threads[i].pc.Holding?
    ensures Apply(s, a).threads[i].pc.sv == s.current == Apply(s, a).current && (a == Compare(i) || a == RefCurrent(i))
  {
  }

  ghost predicate ComparedSince(actions: seq<Action>, m: nat, n: nat, i: nat)
    requires n <= |actions|
  {
    exists k :: m < k < n && actions[k] == Compare(i)
  }

  lemma ComparedMore(actions: seq<Action>, m: nat, n: nat, i: nat)
    requires m < n < |actions|
    ensures ComparedSince(actions, m, n + 1, i) <==> ComparedSince(actions, m, n, i) || actions[n] == Compare(i)
  {
  }

  /** A thread that has the current pointer in hand, taken out of its slot or held. */
  predicate HasCurrent(s: State, i: nat, sv: Sv, start: nat, compared: bool) {
    && s.current == sv && i < |s.threads|
    && s.threads[i].pc == if compared then Holding(sv, start) else Swapped(sv, start)
  }

  lemma CurrentStays(s: State, a: Action)
    requires Enabled(s, a) && !a.Publish?
    ensures Apply(s, a).current == s.current
  {
  }

  lemma CompareCurrent(s: State, i: nat)
    requires Shape(s) && Enabled(s, Compare(i)) && s.threads[i].pc.sv == s.current
    ensures var s', pc := Apply(s, Compare(i)), s.threads[i].pc;
            i < |s'.threads| && s'.threads[i].pc == Holding(pc.sv, pc.start)
  {
  }

  lemma OnlyCompares(s: State, a: Action, i: nat, sv: Sv, start: nat, compared: bool)
    requires HasCurrent(s, i, sv, start, compared) && Enabled(s, a) && ThreadOf(a) == i && !a.Spawn? && !InstallerActs(a)
    requires a != RefHeld(i) && a != Return(i)
    ensures a == Compare(i) && !compared
  {
  }

  lemma CachedStep(s: State, a: Action, i: nat, sv: Sv, start: nat, compared: bool)
    requires Shape(s) && HasCurrent(s, i, sv, start, compared) && Enabled(s, a)
    requires !a.Publish? && a != RefHeld(i) && a != Return(i)
    ensures HasCurrent(Apply(s, a), i, sv, start, compared || a == Compare(i))
  {
    CurrentStays(s, a);
    if a.Spawn? || InstallerActs(a) || ThreadOf(a) != i {
      OthersLeave(s, a, i);
    } else {
      OnlyCompares(s, a, i, sv, start, compared);
      CompareCurrent(s, i);
    }
  }

  /** In every run: a Get that finds the current SuperVersion in its slot, with no install meanwhile, takes no lock. */
  lemma {:induction false} CachedGet(states: seq<State>, actions: seq<Action>, m: nat, n: nat, i: nat)
    requires IsRun(states, actions) && m <= n < |actions| && actions[m] == Swap(i) && i < |states[m].threads|
    requires states[m].threads[i].slot == Cached(states[m].current)
    requires forall k :: m < k <= n ==> !actions[k].Publish? && actions[k] != RefHeld(i) && actions[k] != Return(i)
    ensures HasCurrent(states[n + 1], i, states[m].current, states[m].number, ComparedSince(actions, m, n + 1, i))
    decreases n
  {
    RunStep(states, actions, n);
    if n == m {
      SwapStep(states[m], i);
    } else {
      CachedGet(states, actions, m, n - 1, i);
      RunInv(states, actions, n);
      CachedStep(states[n], actions[n], i, states[m].current, states[m].number, ComparedSince(actions, m, n, i));
      ComparedMore(actions, m, n, i);
    }
  }
}
