/**
 * The thread-local cache of SuperVersions: any number of threads take, return and reference
 * SuperVersions without the DB mutex, while new ones are installed under it. Every atomic
 * operation on shared memory is one action, and actions of different threads interleave freely.
 */
module SuperVersions {

  type Sv = nat  // SuperVersions in the order they were installed

  datatype SuperVersion = SuperVersion(refs: nat, versionNumber: nat, cleanups: nat)

  /** A thread-local slot: kSVObsolete, kSVInUse, or a pointer. */
  datatype Slot = Obsolete | InUse | Cached(sv: Sv)

  /** Where a thread stands in the code; `start` is the version number when its Get was called. */
  datatype Pc =
    | Idle
    | Swapped(sv: Sv, start: nat)                  // took a pointer out of its slot
    | Stale(sv: Sv, start: nat)                    // found that pointer out of date
    | Locking(toClean: seq<Sv>, start: nat)        // about to lock the DB mutex
    | Locked(toClean: seq<Sv>, start: nat)
    | Holding(sv: Sv, start: nat)                  // Get has returned
    | Referenced(sv: Sv, start: nat)               // GetReferenced has taken its own reference
    | ReturnFailed(sv: Sv, referenced: bool)       // the slot was scraped meanwhile
    | MustClean(sv: Sv)                            // dropped the last reference
    | Cleaning(sv: Sv)

  datatype Thread = Thread(slot: Slot, pc: Pc) {
    function SlotUses(v: Sv): nat {
      if slot == Cached(v) then 1 else 0
    }

    function PcUses(v: Sv): nat {
      match pc
      case Swapped(sv, _) => if sv == v then 1 else 0
      case Stale(sv, _) => if sv == v then 1 else 0
      case Holding(sv, _) => if sv == v then 1 else 0
      case Referenced(sv, _) => if sv == v then 2 else 0
      case ReturnFailed(sv, referenced) => if sv != v then 0 else if referenced then 2 else 1
      case _ => 0
    }

    /** References this thread and its slot own. */
    function Uses(v: Sv): nat {
      SlotUses(v) + PcUses(v)
    }

    /** Cleanups this thread has still to do. */
    function Owes(v: Sv): nat {
      match pc
      case Locking(toClean, _) => if toClean == [v] then 1 else 0
      case Locked(toClean, _) => if toClean == [v] then 1 else 0
      case MustClean(sv) => if sv == v then 1 else 0
      case Cleaning(sv) => if sv == v then 1 else 0
      case _ => 0
    }

    predicate HasMutex() {
      pc.Locked? || pc.Cleaning?
    }
  }

  datatype Phase = Scraping(next: nat) | Dropping | CleaningOld

  /** An InstallSuperVersion under way: the replaced SuperVersion and the pointers scraped so far. */
  datatype Install = NoInstall | Install(replaced: Sv, phase: Phase, scraped: seq<Sv>)

  datatype State = State(
    svs: seq<SuperVersion>,
    current: Sv,               // super_version_
    number: nat,               // super_version_number_
    threads: seq<Thread>,
    extra: seq<nat>,           // references handed out by GetReferencedSuperVersion
    install: Install)
  {
    predicate MutexFree() {
      install.NoInstall? && forall i :: 0 <= i < |threads| ==> !threads[i].HasMutex()
    }

    function Put(i: nat, t: Thread): State
      requires i < |threads|
    {
      this.(threads := threads[i := t])
    }

    function Ref(v: Sv): State {
      if v < |svs| then this.(svs := svs[v := svs[v].(refs := svs[v].refs + 1)]) else this
    }

    function Unref(v: Sv): State {
      if v < |svs| && svs[v].refs > 0 then this.(svs := svs[v := svs[v].(refs := svs[v].refs - 1)]) else this
    }

    function Cleanup(v: Sv): State {
      if v < |svs| then this.(svs := svs[v := svs[v].(cleanups := svs[v].cleanups + 1)]) else this
    }

    /** What Unref returns. */
    predicate IsLast(v: Sv) {
      v < |svs| && svs[v].refs == 1
    }

    /** GetReferencedSuperVersion returns: its reference now belongs to the caller. */
    function HandOut(v: Sv): State {
      if v < |extra| then this.(extra := extra[v := extra[v] + 1]) else this
    }

    function Extra(v: Sv): nat {
      if v < |extra| then extra[v] else 0
    }
  }

  datatype Action =
    | Spawn
    | Exit(i: nat)
    | Swap(i: nat)               // local_sv_->Swap(kSVInUse)
    | Compare(i: nat)            // version_number against super_version_number_
    | UnrefStale(i: nat)
    | Lock(i: nat)
    | CleanStale(i: nat)
    | RefCurrent(i: nat)         // super_version_->Ref(), then unlock
    | RefHeld(i: nat)            // the Ref of GetReferencedSuperVersion
    | Return(i: nat)             // local_sv_->CompareAndSwap
    | UnrefReturned(i: nat)      // after a failed return
    | UnrefExtra(i: nat, v: Sv)  // CleanupSuperVersion on a reference handed out
    | LockToClean(i: nat)
    | Clean(i: nat)              // Cleanup, then unlock
    | Publish                    // the new SuperVersion becomes current
    | ScrapeSlot
    | EndScrape
    | UnrefScraped
    | UnrefReplaced
    | CleanReplaced

  function ThreadOf(a: Action): nat {
    match a
    case Exit(i) => i
    case Swap(i) => i
    case Compare(i) => i
    case UnrefStale(i) => i
    case Lock(i) => i
    case CleanStale(i) => i
    case RefCurrent(i) => i
    case RefHeld(i) => i
    case Return(i) => i
    case UnrefReturned(i) => i
    case UnrefExtra(i, _) => i
    case LockToClean(i) => i
    case Clean(i) => i
    case _ => 0
  }

  predicate InstallerActs(a: Action) {
    a.Publish? || a.ScrapeSlot? || a.EndScrape? || a.UnrefScraped? || a.UnrefReplaced? || a.CleanReplaced?
  }

  predicate Enabled(s: State, a: Action) {
    if a.Spawn? then true
    else if InstallerActs(a) then InstallEnabled(s, a)
    else ThreadOf(a) < |s.threads| && ThreadEnabled(s, s.threads[ThreadOf(a)], a)
  }

  predicate ThreadEnabled(s: State, t: Thread, a: Action) {
    match a
    case Exit(_) => t.pc.Idle?
    case Swap(_) => t.pc.Idle?
    case Compare(_) => t.pc.Swapped?
    case UnrefStale(_) => t.pc.Stale?
    case Lock(_) => t.pc.Locking? && s.MutexFree()
    case CleanStale(_) => t.pc.Locked? && t.pc.toClean != []
    case RefCurrent(_) => t.pc.Locked? && t.pc.toClean == []
    case RefHeld(_) => t.pc.Holding?
    case Return(_) => t.pc.Holding? || t.pc.Referenced?
    case UnrefReturned(_) => t.pc.ReturnFailed?
    case UnrefExtra(_, v) => t.pc.Idle? && s.Extra(v) > 0
    case LockToClean(_) => t.pc.MustClean? && s.MutexFree()
    case Clean(_) => t.pc.Cleaning?
    case _ => false
  }

  predicate InstallEnabled(s: State, a: Action) {
    match a
    case Publish => s.MutexFree()
    case ScrapeSlot => s.install.Install? && s.install.phase.Scraping? && s.install.phase.next < |s.threads|
    case EndScrape => s.install.Install? && s.install.phase.Scraping? && s.install.phase.next == |s.threads|
    case UnrefScraped => s.install.Install? && s.install.phase.Dropping? && s.install.scraped != []
    case UnrefReplaced => s.install.Install? && s.install.phase.Dropping? && s.install.scraped == []
    case CleanReplaced => s.install.Install? && s.install.phase.CleaningOld?
    case _ => false
  }

  function Apply(s: State, a: Action): State
    requires Enabled(s, a)
  {
    if a.Spawn? then s.(threads := s.threads + [Thread(Obsolete, Idle)])
    else if InstallerActs(a) then ApplyInstall(s, a)
    else ApplyThread(s, ThreadOf(a), a)
  }

  function ApplyThread(s: State, i: nat, a: Action): State
    requires i < |s.threads| && ThreadEnabled(s, s.threads[i], a)
  {
    var t := s.threads[i];
    match a
    case Exit(_) =>
      var gone := s.Put(i, t.(slot := Obsolete));
      if t.slot.Cached? then gone.Unref(t.slot.sv) else gone
    case Swap(_) =>
      var pc := match t.slot
                case Cached(v) => Swapped(v, s.number)
                case _ => Locking([], s.number);
      s.Put(i, Thread(InUse, pc))
    case Compare(_) =>
      var upToDate := t.pc.sv < |s.svs| && s.svs[t.pc.sv].versionNumber == s.number;
      s.Put(i, t.(pc := if upToDate then Holding(t.pc.sv, t.pc.start) else Stale(t.pc.sv, t.pc.start)))
    case UnrefStale(_) =>
      var toClean := if s.IsLast(t.pc.sv) then [t.pc.sv] else [];
      s.Put(i, t.(pc := Locking(toClean, t.pc.start))).Unref(t.pc.sv)
    case Lock(_) =>
      s.Put(i, t.(pc := Locked(t.pc.toClean, t.pc.start)))
    case CleanStale(_) =>
      s.Put(i, t.(pc := Locked([], t.pc.start))).Cleanup(t.pc.toClean[0])
    case RefCurrent(_) =>
      s.Put(i, t.(pc := Holding(s.current, t.pc.start))).Ref(s.current)
    case RefHeld(_) =>
      s.Put(i, t.(pc := Referenced(t.pc.sv, t.pc.start))).Ref(t.pc.sv)
    case Return(_) =>
      if t.slot == InUse then
        var returned := s.Put(i, Thread(Cached(t.pc.sv), Idle));
        if t.pc.Referenced? then returned.HandOut(t.pc.sv) else returned
      else s.Put(i, t.(pc := ReturnFailed(t.pc.sv, t.pc.Referenced?)))
    case UnrefReturned(_) =>
      if t.pc.referenced then s.Put(i, t.(pc := Idle)).Unref(t.pc.sv).HandOut(t.pc.sv)
      else s.Put(i, t.(pc := if s.IsLast(t.pc.sv) then MustClean(t.pc.sv) else Idle)).Unref(t.pc.sv)
    case UnrefExtra(_, v) =>
      var pc := if s.IsLast(v) then MustClean(v) else Idle;
      s.Put(i, t.(pc := pc)).Unref(v).(extra := s.extra[v := s.extra[v] - 1])
    case LockToClean(_) =>
      s.Put(i, t.(pc := Cleaning(t.pc.sv)))
    case Clean(_) =>
      s.Put(i, t.(pc := Idle)).Cleanup(t.pc.sv)
  }

  function ApplyInstall(s: State, a: Action): State
    requires InstallEnabled(s, a)
  {
    match a
    case Publish =>
      s.(svs := s.svs + [SuperVersion(1, s.number + 1, 0)],
         extra := s.extra + [0],
         current := |s.svs|,
         number := s.number + 1,
         install := Install(s.current, Scraping(0), []))
    case ScrapeSlot =>
      var i := s.install.phase.next;
      var t := s.threads[i];
      var scraped := if t.slot.Cached? then s.install.scraped + [t.slot.sv] else s.install.scraped;
      s.Put(i, t.(slot := Obsolete)).(install := s.install.(phase := Scraping(i + 1), scraped := scraped))
    case EndScrape =>
      s.(install := s.install.(phase := Dropping))
    case UnrefScraped =>
      var n := |s.install.scraped| - 1;
      s.Unref(s.install.scraped[n]).(install := s.install.(scraped := s.install.scraped[..n]))
    case UnrefReplaced =>
      var v := s.install.replaced;
      s.Unref(v).(install := if s.IsLast(v) then s.install.(phase := CleaningOld) else NoInstall)
    case CleanReplaced =>
      s.Cleanup(s.install.replaced).(install := NoInstall)
  }

  /** The assertions in the code that the action passes. */
  predicate AssertionsHold(s: State, a: Action)
    requires Enabled(s, a)
  {
    match a
    case Exit(i) => s.threads[i].slot.Cached? ==> Unrefable(s, s.threads[i].slot.sv) && !s.IsLast(s.threads[i].slot.sv)
    case Swap(i) => s.threads[i].slot != InUse
    case UnrefStale(i) => Unrefable(s, s.threads[i].pc.sv)
    case CleanStale(i) => Cleanable(s, s.threads[i].pc.toClean[0])
    case Return(i) => ApplyThread(s, i, a).threads[i].pc.ReturnFailed? ==> s.threads[i].slot == Obsolete
    case UnrefReturned(i) =>
      Unrefable(s, s.threads[i].pc.sv) && (s.threads[i].pc.referenced ==> !s.IsLast(s.threads[i].pc.sv))
    case UnrefExtra(_, v) => Unrefable(s, v)
    case Clean(i) => Cleanable(s, s.threads[i].pc.sv)
    case UnrefScraped =>
      var v := s.install.scraped[|s.install.scraped| - 1];
      Unrefable(s, v) && !s.IsLast(v)
    case UnrefReplaced => Unrefable(s, s.install.replaced)
    case CleanReplaced => Cleanable(s, s.install.replaced)
    case _ => true
  }

  predicate Unrefable(s: State, v: Sv) {
    v < |s.svs| && s.svs[v].refs > 0
  }

  predicate Cleanable(s: State, v: Sv) {
    v < |s.svs| && s.svs[v].refs == 0 && s.svs[v].cleanups == 0
  }
}
