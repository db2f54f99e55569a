/**
 * A clock cache shard used by any number of threads. Lookup and Release work on the flag words
 * without the mutex; everything else holds it. Every atomic operation on a flag word or on the
 * hash table is one action, and actions interleave freely.
 */
module ClockCache {
  import opened ClockFlags

  type Key = string
  type HandleId = nat   // index into the circular list

  /** `fills` and `recycles` count the occupancies begun and ended. */
  datatype Handle = Handle(key: Key, charge: nat, flags: Flags, fills: nat, recycles: nat)

  datatype Insertion = Insertion(key: Key, charge: nat, hold: bool)

  /** What the eviction loop works for. */
  datatype Purpose = ForInsert(ins: Insertion) | ForCapacity {
    function Charge(): nat { if ForInsert? then ins.charge else 0 }
  }

  /** The code that holds the mutex, between two of its atomic operations. */
  datatype Section =
    | Free
    | Evicting(purpose: Purpose, newHead: nat, second: bool)
    | Evicted(purpose: Purpose, newHead: nat, second: bool, victim: HandleId)
    | Passed(purpose: Purpose, newHead: nat, second: bool)      // the handle is spared
    | Evaluated(purpose: Purpose, success: bool)
    | Filled(ins: Insertion, h: HandleId, success: bool)
    | Displacing(ins: Insertion, h: HandleId, success: bool, existing: HandleId)
    | Linking(ins: Insertion, h: HandleId, success: bool)
    | Erasing(h: HandleId)
    | Clearing(next: HandleId)

  /** Where a thread without the mutex stands. */
  datatype Pc =
    | Idle
    | Found(key: Key, h: HandleId)       // the hash table gave a handle
    | Pinned(key: Key, h: HandleId)      // referenced; the key is still to be checked
    | Releasing(h: HandleId)
    | Unpinning(h: HandleId)
    | MustRecycle(h: HandleId)           // gave up the last reference to an erased entry
  {
    function Uses(v: HandleId): nat {
      if (Pinned? || Releasing? || Unpinning?) && h == v then 1 else 0
    }

    function Owes(v: HandleId): nat {
      if MustRecycle? && h == v then 1 else 0
    }
  }

  datatype State = State(
    list: seq<Handle>,
    head: nat,
    recycle: seq<HandleId>,
    table: map<Key, HandleId>,
    usage: nat,
    capacity: nat,
    strict: bool,
    threads: seq<Pc>,
    held: multiset<HandleId>,     // references users hold
    section: Section)
  {
    function Go(i: nat, pc: Pc): State
      requires i < |threads|
    {
      this.(threads := threads[i := pc])
    }

    function WithFlags(h: HandleId, flags: Flags): State {
      if h < |list| then this.(list := list[h := list[h].(flags := flags)]) else this
    }

    function FlagsOf(h: HandleId): Flags {
      if h < |list| then list[h].flags else NONE
    }

    function Minus(charge: nat): nat {
      if charge <= usage then usage - charge else 0
    }

    /** RecycleHandle */
    function Recycle(h: HandleId): State {
      if h < |list| then
        var e := list[h];
        this.(list := list[h := e.(key := "", recycles := e.recycles + 1)],
              recycle := recycle + [h],
              usage := Minus(e.charge))
      else this
    }

    /** UnsetInCache, with the recycling it may entail. */
    function UnsetInCache(h: HandleId): State {
      var flags := FlagsOf(h);
      var s := WithFlags(h, ClearInCache(flags));
      if InCache(flags) && CountRefs(flags) == 0 then s.Recycle(h) else s
    }

    /** The next position of the clock hand, or the end of the second revolution. */
    function Advance(purpose: Purpose, newHead: nat, second: bool): State {
      var next := if newHead + 1 >= |list| then 0 else newHead + 1;
      this.(section := if next == head && second then Evaluated(purpose, false)
                       else Evicting(purpose, next, second || next == head))
    }

    function StartEviction(purpose: Purpose): State {
      this.(section := if usage == 0 then Evaluated(purpose, purpose.Charge() <= capacity)
                       else Evicting(purpose, head, false))
    }

    /** Takes a handle from the recycle bin, or a new one at the end of the list, and fills it. */
    function Fill(ins: Insertion, success: bool): State {
      var flags := if ins.hold then IN_CACHE_AND_HELD else IN_CACHE;
      if recycle != [] && recycle[|recycle| - 1] < |list| then
        var h := recycle[|recycle| - 1];
        this.(recycle := recycle[..|recycle| - 1],
              list := list[h := Handle(ins.key, ins.charge, flags, list[h].fills + 1, list[h].recycles)],
              section := Filled(ins, h, success))
      else
        this.(list := list + [Handle(ins.key, ins.charge, flags, 1, 0)], section := Filled(ins, |list|, success))
    }
  }

  datatype Action =
    | Spawn
    | Find(i: nat, key: Key)             // the table part of Lookup
    | RefFound(i: nat)
    | CheckKey(i: nat)
    | RefHeld(i: nat, h: HandleId)       // Ref on a handle the user has
    | StartRelease(i: nat, h: HandleId)
    | MarkUsed(i: nat)
    | SubOne(i: nat)
    | RecycleLast(i: nat)
    | SetStrict(strict: bool)
    | BeginInsert(ins: Insertion)
    | BeginSetCapacity(capacity: nat)
    | TryEvict
    | RemoveVictim
    | SparePassed
    | Conclude
    | FindExisting
    | UnsetExisting
    | Link
    | BeginErase(key: Key)
    | UnsetErased
    | BeginClear
    | ClearNext

  function ThreadOf(a: Action): nat {
    match a
    case Find(i, _) => i
    case RefFound(i) => i
    case CheckKey(i) => i
    case RefHeld(i, _) => i
    case StartRelease(i, _) => i
    case MarkUsed(i) => i
    case SubOne(i) => i
    case RecycleLast(i) => i
    case _ => 0
  }

  predicate ThreadActs(a: Action) {
    a.Find? || a.RefFound? || a.CheckKey? || a.RefHeld? || a.StartRelease? || a.MarkUsed? || a.SubOne? || a.RecycleLast?
  }

  predicate SweepActs(a: Action) {
    a.TryEvict? || a.RemoveVictim? || a.SparePassed?
  }

  predicate Enabled(s: State, a: Action) {
    if ThreadActs(a) then ThreadOf(a) < |s.threads| && ThreadEnabled(s, s.threads[ThreadOf(a)], a)
    else SectionEnabled(s, a)
  }

  predicate ThreadEnabled(s: State, pc: Pc, a: Action) {
    match a
    case Find(_, _) => pc.Idle?
    case RefFound(_) => pc.Found?
    case CheckKey(_) => pc.Pinned?
    case RefHeld(_, h) => pc.Idle? && s.held[h] > 0
    case StartRelease(_, h) => pc.Idle? && s.held[h] > 0
    case MarkUsed(_) => pc.Releasing?
    case SubOne(_) => pc.Unpinning?
    case RecycleLast(_) => pc.MustRecycle? && s.section.Free?
    case _ => false
  }

  predicate SectionEnabled(s: State, a: Action) {
    match a
    case Spawn => true
    case SetStrict(_) => true
    case BeginInsert(_) => s.section.Free?
    case BeginSetCapacity(_) => s.section.Free?
    case TryEvict => s.section.Evicting?
    case RemoveVictim => s.section.Evicted?
    case SparePassed => s.section.Passed?
    case Conclude => s.section.Evaluated?
    case FindExisting => s.section.Filled?
    case UnsetExisting => s.section.Displacing?
    case Link => s.section.Linking?
    case BeginErase(_) => s.section.Free?
    case UnsetErased => s.section.Erasing?
    case BeginClear => s.section.Free?
    case ClearNext => s.section.Clearing?
    case _ => false
  }

  function Apply(s: State, a: Action): State
    requires Enabled(s, a)
  {
    if ThreadActs(a) then ApplyThread(s, ThreadOf(a), a) else ApplySection(s, a)
  }

  function ApplyThread(s: State, i: nat, a: Action): State
    requires i < |s.threads| && ThreadEnabled(s, s.threads[i], a)
  {
    var pc := s.threads[i];
    match a
    case Find(_, key) =>
      if key in s.table then s.Go(i, Found(key, s.table[key])) else s
    case RefFound(_) =>
      var flags := s.FlagsOf(pc.h);
      if InCache(flags) then s.Go(i, Pinned(pc.key, pc.h)).WithFlags(pc.h, AddRef(flags)) else s.Go(i, Idle)
    case CheckKey(_) =>
      if pc.h < |s.list| && s.list[pc.h].key == pc.key then s.Go(i, Idle).(held := s.held + multiset{pc.h})
      else s.Go(i, Unpinning(pc.h))
    case RefHeld(_, h) =>
      var flags := s.FlagsOf(h);
      if InCache(flags) then s.WithFlags(h, AddRef(flags)).(held := s.held + multiset{h}) else s
    case StartRelease(_, h) =>
      s.Go(i, Releasing(h)).(held := s.held - multiset{h})
    case MarkUsed(_) =>
      s.Go(i, Unpinning(pc.h)).WithFlags(pc.h, SetUsage(s.FlagsOf(pc.h)))
    case SubOne(_) =>
      var flags := s.FlagsOf(pc.h);
      var last := CountRefs(flags) == 1 && !InCache(flags);
      s.Go(i, if last then MustRecycle(pc.h) else Idle).WithFlags(pc.h, SubRef(flags))
    case RecycleLast(_) =>
      s.Go(i, Idle).Recycle(pc.h)
  }

  function ApplySection(s: State, a: Action): State
    requires SectionEnabled(s, a)
  {
    var sec := s.section;
    match a
    case Spawn => s.(threads := s.threads + [Idle])
    case SetStrict(strict) => s.(strict := strict)
    case BeginInsert(ins) => s.StartEviction(ForInsert(ins))
    case BeginSetCapacity(capacity) => s.(capacity := capacity).StartEviction(ForCapacity)
    case TryEvict =>
      if s.usage + sec.purpose.Charge() <= s.capacity then
        s.(head := sec.newHead, section := Evaluated(sec.purpose, true))
      else if s.FlagsOf(sec.newHead) == IN_CACHE then
        s.WithFlags(sec.newHead, NONE).(section := Evicted(sec.purpose, sec.newHead, sec.second, sec.newHead))
      else
        s.(section := Passed(sec.purpose, sec.newHead, sec.second))
    case RemoveVictim =>
      var key := if sec.victim < |s.list| then s.list[sec.victim].key else "";
      s.(table := s.table - {key}).Recycle(sec.victim).Advance(sec.purpose, sec.newHead, sec.second)
    case SparePassed =>
      s.WithFlags(sec.newHead, ClearUsage(s.FlagsOf(sec.newHead))).Advance(sec.purpose, sec.newHead, sec.second)
    case Conclude =>
      if sec.purpose.ForCapacity? || (!sec.success && (s.strict || !sec.purpose.ins.hold)) then s.(section := Free)
      else s.Fill(sec.purpose.ins, sec.success)
    case FindExisting =>
      if sec.ins.key in s.table then
        s.(table := s.table - {sec.ins.key}, section := Displacing(sec.ins, sec.h, sec.success, s.table[sec.ins.key]))
      else s.(section := Linking(sec.ins, sec.h, sec.success))
    case UnsetExisting =>
      s.UnsetInCache(sec.existing).(section := Linking(sec.ins, sec.h, sec.success))
    case Link =>
      s.(table := s.table[sec.ins.key := sec.h],
         usage := s.usage + sec.ins.charge,
         held := if sec.ins.hold then s.held + multiset{sec.h} else s.held,
         section := Free)
    case BeginErase(key) =>
      if key in s.table then s.(table := s.table - {key}, section := Erasing(s.table[key])) else s
    case UnsetErased =>
      s.UnsetInCache(sec.h).(section := Free)
    case BeginClear => s.(table := map[], section := Clearing(0))
    case ClearNext =>
      if sec.next < |s.list| then s.UnsetInCache(sec.next).(section := Clearing(sec.next + 1))
      else s.(section := Free)
  }

  /** The assertions in the code that the action passes. */
  predicate AssertionsHold(s: State, a: Action)
    requires Enabled(s, a)
  {
    match a
    case SubOne(i) => CountRefs(s.FlagsOf(s.threads[i].h)) > 0
    case RecycleLast(i) => Recyclable(s, s.threads[i].h)
    case TryEvict => s.usage + s.section.purpose.Charge() > s.capacity ==> s.section.newHead < |s.list|
    case RemoveVictim =>
      && Recyclable(s, s.section.victim)
      && s.list[s.section.victim].key in s.table
      && s.table[s.list[s.section.victim].key] == s.section.victim
    case UnsetExisting => s.section.existing < |s.list| && s.section.existing !in s.recycle
    case UnsetErased => s.section.h < |s.list| && s.section.h !in s.recycle
    case _ => true
  }

  /** Out of the cache, with no references, and not yet in the recycle bin; its charge is in use. */
  predicate Recyclable(s: State, h: HandleId) {
    h < |s.list| && !Live(s.list[h].flags) && h !in s.recycle && s.list[h].charge <= s.usage
  }
}
