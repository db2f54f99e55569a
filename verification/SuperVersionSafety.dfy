/** What every interleaving of the SuperVersion protocol keeps, and what follows from it. */
module SuperVersionSafety {
  import opened Tally
  import opened SuperVersions

  ghost function ThreadUses(ts: seq<Thread>, v: Sv): nat {
    Sum(seq(|ts|, i requires 0 <= i < |ts| => ts[i].Uses(v)))
  }

  ghost function ThreadOwes(ts: seq<Thread>, v: Sv): nat {
    Sum(seq(|ts|, i requires 0 <= i < |ts| => ts[i].Owes(v)))
  }

  lemma PutThread(ts: seq<Thread>, i: nat, t: Thread, v: Sv)
    requires i < |ts|
    ensures ThreadUses(ts[i := t], v) == ThreadUses(ts, v) - ts[i].Uses(v) + t.Uses(v)
    ensures ThreadOwes(ts[i := t], v) == ThreadOwes(ts, v) - ts[i].Owes(v) + t.Owes(v)
    ensures ts[i].Uses(v) <= ThreadUses(ts, v) && ts[i].Owes(v) <= ThreadOwes(ts, v)
  {
    var uses := seq(|ts|, j requires 0 <= j < |ts| => ts[j].Uses(v));
    var owes := seq(|ts|, j requires 0 <= j < |ts| => ts[j].Owes(v));
    var ts' := ts[i := t];
    assert uses[i := t.Uses(v)] == seq(|ts'|, j requires 0 <= j < |ts'| => ts'[j].Uses(v));
    assert owes[i := t.Owes(v)] == seq(|ts'|, j requires 0 <= j < |ts'| => ts'[j].Owes(v));
    SumUpdate(uses, i, t.Uses(v));
    SumUpdate(owes, i, t.Owes(v));
  }

  lemma AddThread(ts: seq<Thread>, t: Thread, v: Sv)
    ensures ThreadUses(ts + [t], v) == ThreadUses(ts, v) + t.Uses(v)
    ensures ThreadOwes(ts + [t], v) == ThreadOwes(ts, v) + t.Owes(v)
  {
    var uses := seq(|ts|, j requires 0 <= j < |ts| => ts[j].Uses(v));
    var owes := seq(|ts|, j requires 0 <= j < |ts| => ts[j].Owes(v));
    var ts' := ts + [t];
    assert uses + [t.Uses(v)] == seq(|ts'|, j requires 0 <= j < |ts'| => ts'[j].Uses(v));
    assert owes + [t.Owes(v)] == seq(|ts'|, j requires 0 <= j < |ts'| => ts'[j].Owes(v));
    SumAppend(uses, t.Uses(v));
    SumAppend(owes, t.Owes(v));
  }

  /** The install in progress owns a reference to the SuperVersion it replaces. */
  function InstallUses(install: Install, v: Sv): nat {
    if install.Install? && !install.phase.CleaningOld? && install.replaced == v then 1 else 0
  }

  function InstallOwes(install: Install, v: Sv): nat {
    if install.Install? && install.phase.CleaningOld? && install.replaced == v then 1 else 0
  }

  function Scraped(install: Install, v: Sv): nat {
    if install.Install? then multiset(install.scraped)[v] else 0
  }

  /** All references there are to `v`. */
  ghost function Uses(s: State, v: Sv): nat {
    (if s.current == v then 1 else 0) + InstallUses(s.install, v) + Scraped(s.install, v) +
    ThreadUses(s.threads, v) + s.Extra(v)
  }

  ghost function Owes(s: State, v: Sv): nat {
    ThreadOwes(s.threads, v) + InstallOwes(s.install, v)
  }

  /** The reference count of `v` counts the references, and once dead it is cleaned up just once. */
  ghost predicate CountedAt(s: State, v: Sv) {
    && v < |s.svs| && s.svs[v].refs == Uses(s, v)
    && s.svs[v].cleanups + Owes(s, v) == if s.svs[v].refs == 0 then 1 else 0
  }

  ghost predicate Counted(s: State) {
    forall v :: 0 <= v < |s.svs| ==> CountedAt(s, v)
  }

  predicate Shape(s: State) {
    && |s.svs| == s.current + 1 == s.number == |s.extra|
    && (forall v :: 0 <= v < |s.svs| ==> s.svs[v].versionNumber == v + 1)
    && (s.install.Install? ==>
          && s.install.replaced < s.current
          && (s.install.phase.Scraping? ==> s.install.phase.next <= |s.threads|)
          && (s.install.phase.CleaningOld? ==> s.install.scraped == [])
          && forall j :: 0 <= j < |s.install.scraped| ==>
               s.install.scraped[j] == s.current || s.install.scraped[j] == s.install.replaced)
  }

  /** A pointer a slot holds, or may yet take back: the current one, or one still to be scraped. */
  predicate Cacheable(s: State, i: nat, v: Sv) {
    v == s.current ||
    (s.install.Install? && v == s.install.replaced && s.install.phase.Scraping? && s.install.phase.next <= i)
  }

  predicate OneToClean(s: State, toClean: seq<Sv>) {
    toClean == [] || (|toClean| == 1 && toClean[0] < |s.svs|)
  }

  predicate ThreadOk(s: State, i: nat)
    requires i < |s.threads|
  {
    var t := s.threads[i];
    && (match t.slot
        case Cached(v) => Cacheable(s, i, v) && (t.pc.Idle? || t.pc.MustClean? || t.pc.Cleaning?)
        case InUse => t.pc.Swapped? || t.pc.Stale? || t.pc.Locking? || t.pc.Locked? ||
                      ((t.pc.Holding? || t.pc.Referenced?) && Cacheable(s, i, t.pc.sv))
        case Obsolete => true)
    && (match t.pc
        case Swapped(v, start) => v < |s.svs| && start <= s.number
        case Stale(v, start) => v < |s.svs| && start <= s.number
        case Locking(toClean, start) => start <= s.number && OneToClean(s, toClean)
        case Locked(toClean, start) => start <= s.number && OneToClean(s, toClean)
        case Holding(v, start) => v < |s.svs| && start <= s.svs[v].versionNumber
        case Referenced(v, start) => v < |s.svs| && start <= s.svs[v].versionNumber
        case ReturnFailed(v, _) => v < |s.svs|
        case MustClean(v) => v < |s.svs|
        case Cleaning(v) => v < |s.svs|
        case Idle => true)
  }

  predicate MutexExclusive(s: State) {
    && (forall i, j :: 0 <= i < j < |s.threads| ==> !(s.threads[i].HasMutex() && s.threads[j].HasMutex()))
    && (s.install.Install? ==> forall i :: 0 <= i < |s.threads| ==> !s.threads[i].HasMutex())
  }

  ghost predicate Inv(s: State) {
    && Shape(s) && Counted(s) && MutexExclusive(s)
    && forall i :: 0 <= i < |s.threads| ==> ThreadOk(s, i)
  }

  /** The first SuperVersion has been installed and no thread has asked for it. */
  predicate Initial(s: State) {
    && s.svs == [SuperVersion(1, 1, 0)] && s.current == 0 && s.number == 1
    && s.threads == [] && s.extra == [0] && s.install.NoInstall?
  }

  lemma InitInv(s: State)
    requires Initial(s)
    ensures Inv(s)
  {
    SumZeroes(seq(|s.threads|, i requires 0 <= i < |s.threads| => s.threads[i].Uses(0)));
    SumZeroes(seq(|s.threads|, i requires 0 <= i < |s.threads| => s.threads[i].Owes(0)));
    assert CountedAt(s, 0);
  }

  /** The references that an enabled action relies on are there. */
  lemma ActionIsSafe(s: State, a: Action)
    requires Inv(s) && Enabled(s, a)
    ensures AssertionsHold(s, a)
  {
    if InstallerActs(a) {
      if s.install.Install? {
        assert CountedAt(s, s.install.replaced) && CountedAt(s, s.current);
      }
    } else if !a.Spawn? {
      var i := ThreadOf(a);
      var t := s.threads[i];
      assert ThreadOk(s, i);
      if a.Exit? && t.slot.Cached? {
        OwnerCounts(s, i, t.slot.sv);
      } else if t.pc.Stale? || t.pc.ReturnFailed? || t.pc.Cleaning? {
        OwnerCounts(s, i, t.pc.sv);
      } else if a.CleanStale? {
        OwnerCounts(s, i, t.pc.toClean[0]);
        assert t.pc.toClean == [t.pc.toClean[0]];
      } else if a.UnrefExtra? {
        assert CountedAt(s, a.v);
      }
    }
  }

  /** What a thread owns is part of the count. */
  lemma OwnerCounts(s: State, i: nat, v: Sv)
    requires Counted(s) && i < |s.threads| && v < |s.svs|
    ensures CountedAt(s, v)
    ensures s.threads[i].Uses(v) <= ThreadUses(s.threads, v) && s.threads[i].Owes(v) <= ThreadOwes(s.threads, v)
  {
    PutThread(s.threads, i, s.threads[i], v);
  }

  predicate GetActs(a: Action) {
    a.Swap? || a.Compare? || a.UnrefStale? || a.Lock? || a.CleanStale? || a.RefCurrent?
  }

  predicate ReturnActs(a: Action) {
    a.RefHeld? || a.Return?
  }

  predicate UnrefActs(a: Action) {
    a.UnrefReturned?
  }

  /** What a thread's action changes of the count: the thread's own uses and debts. */
  lemma ThreadMoves(s: State, a: Action, v: Sv)
    requires Inv(s) && Enabled(s, a) && !a.Spawn? && !InstallerActs(a) && v < |s.svs|
    ensures AssertionsHold(s, a) && CountedAt(s, v)
    ensures ThreadOf(a) < |s.threads| && ThreadOk(s, ThreadOf(a))
    ensures var i := ThreadOf(a);
            var ts, t := ApplyThread(s, i, a).threads, ApplyThread(s, i, a).threads[i];
            && ts == s.threads[i := t]
            && ThreadUses(ts, v) == ThreadUses(s.threads, v) - s.threads[i].Uses(v) + t.Uses(v)
            && ThreadOwes(ts, v) == ThreadOwes(s.threads, v) - s.threads[i].Owes(v) + t.Owes(v)
            && s.threads[i].Uses(v) <= ThreadUses(s.threads, v) && s.threads[i].Owes(v) <= ThreadOwes(s.threads, v)
  {
    var i := ThreadOf(a);
    var s' := ApplyThread(s, i, a);
    assert ThreadOk(s, i);
    assert s'.threads == s.threads[i := s'.threads[i]];
    PutThread(s.threads, i, s'.threads[i], v);
    ActionIsSafe(s, a);
  }

  lemma GetRefCounts(s: State, a: Action, v: Sv)
    requires Inv(s) && Enabled(s, a) && (a.UnrefStale? || a.RefCurrent?) && v < |s.svs|
    ensures CountedAt(Apply(s, a), v)
  {
    ThreadMoves(s, a, v);
  }

  lemma GetCounts(s: State, a: Action, v: Sv)
    requires Inv(s) && Enabled(s, a) && GetActs(a) && v < |s.svs|
    ensures CountedAt(Apply(s, a), v)
  {
    if a.UnrefStale? || a.RefCurrent? {
      GetRefCounts(s, a, v);
    } else {
      ThreadMoves(s, a, v);
    }
  }

  lemma ReturnCounts(s: State, a: Action, v: Sv)
    requires Inv(s) && Enabled(s, a) && ReturnActs(a) && v < |s.svs|
    ensures CountedAt(Apply(s, a), v)
  {
    ThreadMoves(s, a, v);
  }

  lemma UnrefCounts(s: State, a: Action, v: Sv)
    requires Inv(s) && Enabled(s, a) && UnrefActs(a) && v < |s.svs|
    ensures CountedAt(Apply(s, a), v)
  {
    ThreadMoves(s, a, v);
  }

  lemma ReleaseCounts(s: State, a: Action, v: Sv)
    requires Inv(s) && Enabled(s, a) && !a.Spawn? && !InstallerActs(a) && v < |s.svs|
    requires !GetActs(a) && !ReturnActs(a) && !UnrefActs(a)
    ensures CountedAt(Apply(s, a), v)
  {
    ThreadMoves(s, a, v);
  }

  /** What an action of thread `i` leaves alone. */
  predicate SameAround(s: State, s': State, i: nat) {
    && |s'.svs| == |s.svs| && s'.current == s.current && s'.number == s.number && s'.install == s.install
    && |s'.extra| == |s.extra|
    && (forall v :: 0 <= v < |s.svs| ==> s'.svs[v].versionNumber == s.svs[v].versionNumber)
    && i < |s.threads| == |s'.threads| && s'.threads == s.threads[i := s'.threads[i]]
    && (s'.threads[i].HasMutex() ==> s.threads[i].HasMutex() || s.MutexFree())
  }

  lemma ThreadStepAround(s: State, a: Action)
    requires Inv(s) && Enabled(s, a) && !a.Spawn? && !InstallerActs(a)
    ensures SameAround(s, Apply(s, a), ThreadOf(a)) && ThreadOk(Apply(s, a), ThreadOf(a))
  {
    assert ThreadOk(s, ThreadOf(a));
    ActionIsSafe(s, a);
    StepAround(s, a);
    StepThreadOk(s, a);
  }

  lemma StepAround(s: State, a: Action)
    requires Enabled(s, a) && AssertionsHold(s, a) && !a.Spawn? && !InstallerActs(a)
    ensures SameAround(s, Apply(s, a), ThreadOf(a))
  {
  }

  lemma StepThreadOk(s: State, a: Action)
    requires Shape(s) && MutexExclusive(s) && Enabled(s, a) && AssertionsHold(s, a) && !a.Spawn? && !InstallerActs(a)
    requires ThreadOk(s, ThreadOf(a))
    ensures ThreadOk(Apply(s, a), ThreadOf(a))
  {
  }

  lemma AroundInv(s: State, s': State, i: nat)
    requires Inv(s) && SameAround(s, s', i) && ThreadOk(s', i) && Counted(s')
    ensures Inv(s')
  {
    forall j | 0 <= j < |s'.threads| ensures ThreadOk(s', j) {
      assert j != i ==> s'.threads[j] == s.threads[j] && ThreadOk(s, j);
    }
  }

  lemma ThreadStepInv(s: State, a: Action)
    requires Inv(s) && Enabled(s, a) && !a.Spawn? && !InstallerActs(a)
    ensures Inv(Apply(s, a))
  {
    var s' := Apply(s, a);
    ThreadStepAround(s, a);
    forall v | 0 <= v < |s'.svs| ensures CountedAt(s', v) {
      if GetActs(a) {
        GetCounts(s, a, v);
      } else if ReturnActs(a) {
        ReturnCounts(s, a, v);
      } else if UnrefActs(a) {
        UnrefCounts(s, a, v);
      } else {
        ReleaseCounts(s, a, v);
      }
    }
    AroundInv(s, s', ThreadOf(a));
  }

  lemma SpawnInv(s: State)
    requires Inv(s)
    ensures Inv(Apply(s, Spawn))
  {
    var s' := Apply(s, Spawn);
    forall v | 0 <= v < |s'.svs| ensures CountedAt(s', v) {
      assert CountedAt(s, v);
      AddThread(s.threads, Thread(Obsolete, Idle), v);
    }
    forall j | 0 <= j < |s'.threads| ensures ThreadOk(s', j) {
      assert j < |s.threads| ==> ThreadOk(s, j);
    }
  }

  lemma PublishInv(s: State)
    requires Inv(s) && InstallEnabled(s, Publish)
    ensures Inv(Apply(s, Publish))
  {
    var s' := Apply(s, Publish);
    forall v | 0 <= v < |s'.svs| ensures CountedAt(s', v) {
      if v < |s.svs| {
        assert CountedAt(s, v);
      } else {
        NewIsUnused(s, v);
      }
    }
    forall j | 0 <= j < |s'.threads| ensures ThreadOk(s', j) {
      assert ThreadOk(s, j);
    }
  }

  lemma NewIsUnused(s: State, v: Sv)
    requires Inv(s) && v >= |s.svs|
    ensures ThreadUses(s.threads, v) == 0 && ThreadOwes(s.threads, v) == 0
  {
    var ts := s.threads;
    forall i | 0 <= i < |ts| ensures ts[i].Uses(v) == 0 && ts[i].Owes(v) == 0 {
      assert ThreadOk(s, i);
    }
    SumZeroes(seq(|ts|, i requires 0 <= i < |ts| => ts[i].Uses(v)));
    SumZeroes(seq(|ts|, i requires 0 <= i < |ts| => ts[i].Owes(v)));
  }

  /** What a slot gives up is owed until the scraped pointer is released. */
  lemma ScrapeSlotCounts(s: State, v: Sv)
    requires InstallEnabled(s, ScrapeSlot) && Shape(s) && v < |s.svs| && CountedAt(s, v)
    requires s.install.phase.next < |s.threads| && ThreadOk(s, s.install.phase.next)
    ensures v < |Apply(s, ScrapeSlot).svs| && CountedAt(Apply(s, ScrapeSlot), v)
  {
    var i := s.install.phase.next;
    PutThread(s.threads, i, s.threads[i].(slot := Obsolete), v);
  }

  lemma ScrapeSlotInv(s: State)
    requires Inv(s) && InstallEnabled(s, ScrapeSlot)
    ensures Inv(Apply(s, ScrapeSlot))
  {
    var i := s.install.phase.next;
    var s' := Apply(s, ScrapeSlot);
    assert ThreadOk(s, i);
    forall v | 0 <= v < |s'.svs| ensures CountedAt(s', v) {
      ScrapeSlotCounts(s, v);
    }
    forall j | 0 <= j < |s'.threads| ensures ThreadOk(s', j) {
      assert ThreadOk(s, j);
    }
  }

  lemma EndScrapeInv(s: State)
    requires Inv(s) && InstallEnabled(s, EndScrape)
    ensures Inv(Apply(s, EndScrape))
  {
    var s' := Apply(s, EndScrape);
    forall v | 0 <= v < |s'.svs| ensures CountedAt(s', v) {
      assert CountedAt(s, v);
    }
    forall j | 0 <= j < |s'.threads| ensures ThreadOk(s', j) {
      assert ThreadOk(s, j);
    }
  }

  lemma UnrefScrapedInv(s: State)
    requires Inv(s) && InstallEnabled(s, UnrefScraped)
    ensures Inv(Apply(s, UnrefScraped))
  {
    ActionIsSafe(s, UnrefScraped);
    var s' := Apply(s, UnrefScraped);
    var xs, n := s.install.scraped, |s.install.scraped| - 1;
    assert xs == xs[..n] + [xs[n]];
    forall v | 0 <= v < |s'.svs| ensures CountedAt(s', v) {
      assert CountedAt(s, v);
    }
    forall j | 0 <= j < |s'.threads| ensures ThreadOk(s', j) {
      assert ThreadOk(s, j);
    }
  }

  lemma EndInstallInv(s: State, a: Action)
    requires Inv(s) && InstallEnabled(s, a) && (a.UnrefReplaced? || a.CleanReplaced?)
    ensures Inv(Apply(s, a))
  {
    ActionIsSafe(s, a);
    var s' := Apply(s, a);
    forall v | 0 <= v < |s'.svs| ensures CountedAt(s', v) {
      assert CountedAt(s, v);
    }
    forall j | 0 <= j < |s'.threads| ensures ThreadOk(s', j) {
      assert ThreadOk(s, j);
    }
  }

  /** Every action that can be taken keeps the invariant. */
  lemma StepInv(s: State, a: Action)
    requires Inv(s) && Enabled(s, a)
    ensures Inv(Apply(s, a))
  {
    match a {
      case Spawn => SpawnInv(s);
      case Publish => PublishInv(s);
      case ScrapeSlot => ScrapeSlotInv(s);
      case EndScrape => EndScrapeInv(s);
      case UnrefScraped => UnrefScrapedInv(s);
      case UnrefReplaced => EndInstallInv(s, a);
      case CleanReplaced => EndInstallInv(s, a);
      case _ => ThreadStepInv(s, a);
    }
  }

  /** A run: states reached from the first install, one action at a time. */
  ghost predicate IsRun(states: seq<State>, actions: seq<Action>) {
    && |states| == |actions| + 1 && Initial(states[0])
    && forall i :: 0 <= i < |actions| ==>
         Enabled(states[i], actions[i]) && states[i + 1] == Apply(states[i], actions[i])
  }

  lemma {:induction false} RunInv(states: seq<State>, actions: seq<Action>, n: nat)
    requires IsRun(states, actions) && n < |states|
    ensures Inv(states[n])
  {
    if n == 0 {
      InitInv(states[0]);
    } else {
      RunInv(states, actions, n - 1);
      StepInv(states[n - 1], actions[n - 1]);
      assert states[n - 1 + 1] == states[n];
    }
  }

  /** In every interleaving, every assertion of the protocol's code holds. */
  lemma RunsAreSafe(states: seq<State>, actions: seq<Action>)
    requires IsRun(states, actions)
    ensures forall i :: 0 <= i < |actions| ==> AssertionsHold(states[i], actions[i])
  {
    forall i | 0 <= i < |actions| ensures AssertionsHold(states[i], actions[i]) {
      RunInv(states, actions, i);
      ActionIsSafe(states[i], actions[i]);
    }
  }

  /** In every reachable state the count is exact, and Cleanup has run at most once, on the dead. */
  lemma RunsCount(states: seq<State>, actions: seq<Action>, n: nat, v: Sv)
    requires IsRun(states, actions) && n < |states| && v < |states[n].svs|
    ensures var s := states[n];
            && s.svs[v].refs == Uses(s, v)
            && s.svs[v].cleanups <= 1
            && (s.svs[v].cleanups == 1 ==> Uses(s, v) == 0 && Owes(s, v) == 0)
  {
    RunInv(states, actions, n);
    assert CountedAt(states[n], v);
  }

  /** A thread between Get and Return has a live SuperVersion, no older than its call. */
  lemma HeldIsLiveAndFresh(states: seq<State>, actions: seq<Action>, n: nat, i: nat)
    requires IsRun(states, actions) && n < |states| && i < |states[n].threads|
    requires states[n].threads[i].pc.Holding? || states[n].threads[i].pc.Referenced?
    ensures var s, pc := states[n], states[n].threads[i].pc;
            pc.sv < |s.svs| && s.svs[pc.sv].refs > 0 && s.svs[pc.sv].cleanups == 0 &&
            s.svs[pc.sv].versionNumber >= pc.start
  {
    RunInv(states, actions, n);
    assert ThreadOk(states[n], i);
    OwnerCounts(states[n], i, states[n].threads[i].pc.sv);
  }

  /** Outside an install every cached pointer is the current SuperVersion. */
  lemma SlotsHoldCurrent(states: seq<State>, actions: seq<Action>, n: nat, i: nat)
    requires IsRun(states, actions) && n < |states| && i < |states[n].threads|
    requires states[n].install.NoInstall? && states[n].threads[i].slot.Cached?
    ensures states[n].threads[i].slot.sv == states[n].current
  {
    RunInv(states, actions, n);
    assert ThreadOk(states[n], i);
  }

  /** With nothing under way and nothing handed out, no old SuperVersion has leaked. */
  lemma NothingLeaks(states: seq<State>, actions: seq<Action>, n: nat, v: Sv)
    requires IsRun(states, actions) && n < |states| && v < |states[n].svs|
    requires states[n].install.NoInstall? && states[n].Extra(v) == 0
    requires forall i :: 0 <= i < |states[n].threads| ==> states[n].threads[i].pc.Idle?
    ensures v != states[n].current ==> states[n].svs[v].refs == 0 && states[n].svs[v].cleanups == 1
    ensures v == states[n].current ==> states[n].svs[v].refs == 1 + ThreadUses(states[n].threads, v)
  {
    RunInv(states, actions, n);
    var s := states[n];
    assert CountedAt(s, v);
    var ts := s.threads;
    SumZeroes(seq(|ts|, i requires 0 <= i < |ts| => ts[i].Owes(v)));
    if v != s.current {
      forall i | 0 <= i < |ts| ensures ts[i].Uses(v) == 0 {
        assert ThreadOk(s, i);
      }
      SumZeroes(seq(|ts|, i requires 0 <= i < |ts| => ts[i].Uses(v)));
    }
  }
}
