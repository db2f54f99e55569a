/** The actions of the clock cache as the source performs them: one atomic operation on one flag word. */
module ClockCacheWords {
  import opened ClockFlags
  import opened ClockCache
  import opened ClockCacheSafety
  import opened ClockCachePinned

  function WordAt(s: State, h: HandleId): nat {
    Word(s.FlagsOf(h))
  }

  /** The handle whose word an action works on. */
  function Target(s: State, a: Action): nat
    requires Enabled(s, a)
  {
    if a.RefHeld? then a.h
    else if ThreadActs(a) && !s.threads[ThreadOf(a)].Idle? then s.threads[ThreadOf(a)].h
    else HandleInHand(s.section)
  }

  /** Compare-and-exchange, fetch-or, fetch-and, fetch-sub, as the case may be. */
  function WordAfter(s: State, a: Action, w: nat): int
    requires Enabled(s, a)
  {
    match a
    case RefFound(_) => if w % 2 == 1 then w + ONE_REF else w
    case RefHeld(_, _) => if w % 2 == 1 then w + ONE_REF else w
    case MarkUsed(_) => if w / 2 % 2 == 1 then w else w + USAGE_BIT
    case SubOne(_) => w - ONE_REF
    case TryEvict => if s.usage + s.section.purpose.Charge() > s.capacity && w == IN_CACHE_BIT then 0 else w
    case SparePassed => if w / 2 % 2 == 1 then w - USAGE_BIT else w
    case UnsetExisting => if w % 2 == 1 then w - IN_CACHE_BIT else w
    case UnsetErased => if w % 2 == 1 then w - IN_CACHE_BIT else w
    case ClearNext => if w % 2 == 1 then w - IN_CACHE_BIT else w
    case _ => w
  }

  lemma WordLow(f: Flags)
    ensures Word(f) % 2 == 1 <==> f.inCache
    ensures Word(f) / 2 % 2 == 1 <==> f.usage
    ensures f.refs > 0 <==> Word(f) >= ONE_REF
  {
    WordDecodes(f, 0);
  }

  /** What a thread does to a flag word. */
  function ThreadFlags(a: Action, f: Flags): Flags {
    if a.RefFound? || a.RefHeld? then if InCache(f) then AddRef(f) else f
    else if a.MarkUsed? then SetUsage(f)
    else if a.SubOne? then SubRef(f)
    else f
  }

  lemma ThreadOnFlags(s: State, a: Action, h: HandleId)
    requires Enabled(s, a) && ThreadActs(a) && h < |s.list|
    ensures |Apply(s, a).list| == |s.list|
    ensures Apply(s, a).FlagsOf(h) == if h == Target(s, a) then ThreadFlags(a, s.FlagsOf(h)) else s.FlagsOf(h)
  {
  }

  lemma ThreadWord(s: State, a: Action, f: Flags)
    requires Enabled(s, a) && ThreadActs(a) && (a.SubOne? ==> CountRefs(f) > 0)
    ensures Word(ThreadFlags(a, f)) == WordAfter(s, a, Word(f))
  {
    OperationsOnWords(f);
    WordLow(f);
  }

  lemma ThreadOnWords(s: State, a: Action, h: HandleId)
    requires Enabled(s, a) && AssertionsHold(s, a) && ThreadActs(a) && h < |s.list|
    ensures |Apply(s, a).list| == |s.list|
    ensures WordAt(Apply(s, a), h) == if h == Target(s, a) then WordAfter(s, a, WordAt(s, h)) else WordAt(s, h)
  {
    ThreadOnFlags(s, a, h);
    if h == Target(s, a) {
      ThreadWord(s, a, s.FlagsOf(h));
    }
  }

  lemma UnsetOnWords(s: State, g: HandleId, h: HandleId)
    requires h < |s.list|
    ensures |s.UnsetInCache(g).list| == |s.list|
    ensures var w := WordAt(s, h);
            WordAt(s.UnsetInCache(g), h) == if h == g && w % 2 == 1 then w - IN_CACHE_BIT else w
  {
    OperationsOnWords(s.list[h].flags);
    WordLow(s.list[h].flags);
  }

  /** What the sweep does to a flag word. */
  function SweptFlags(s: State, a: Action, f: Flags): Flags
    requires Enabled(s, a) && SweepActs(a)
  {
    if a.TryEvict? && s.usage + s.section.purpose.Charge() > s.capacity && f == IN_CACHE then NONE
    else if a.SparePassed? then ClearUsage(f)
    else f
  }

  lemma SweepOnFlags(s: State, a: Action, h: HandleId)
    requires Enabled(s, a) && AssertionsHold(s, a) && SweepActs(a) && h < |s.list|
    ensures |Apply(s, a).list| == |s.list|
    ensures Apply(s, a).FlagsOf(h) == if h == Target(s, a) then SweptFlags(s, a, s.FlagsOf(h)) else s.FlagsOf(h)
  {
  }

  lemma SweptWord(s: State, a: Action, f: Flags)
    requires Enabled(s, a) && SweepActs(a)
    ensures Word(SweptFlags(s, a, f)) == WordAfter(s, a, Word(f))
  {
    OperationsOnWords(f);
    StoredWords(f);
  }

  lemma SweepOnWords(s: State, a: Action, h: HandleId)
    requires Enabled(s, a) && AssertionsHold(s, a) && SweepActs(a) && h < |s.list|
    ensures |Apply(s, a).list| == |s.list|
    ensures WordAt(Apply(s, a), h) == if h == Target(s, a) then WordAfter(s, a, WordAt(s, h)) else WordAt(s, h)
  {
    SweepOnFlags(s, a, h);
    SweptWord(s, a, s.FlagsOf(h));
  }

  /** In every reachable state, an action is the source's atomic operation on one word, and writes no other. */
  lemma ActionsOnWords(s: State, a: Action, h: HandleId)
    requires Inv(s) && Enabled(s, a) && !a.Conclude? && h < |s.list|
    ensures |Apply(s, a).list| == |s.list|
    ensures WordAt(Apply(s, a), h) == if h == Target(s, a) then WordAfter(s, a, WordAt(s, h)) else WordAt(s, h)
  {
    ActionIsSafe(s, a);
    if ThreadActs(a) {
      ThreadOnWords(s, a, h);
    } else if SweepActs(a) {
      SweepOnWords(s, a, h);
    } else if UnsetActs(a) {
      UnsetOnWords(s, Target(s, a), h);
    }
  }

  /** Filling a handle stores its word: in cache, with one reference if the caller keeps one. */
  lemma FillOnWords(s: State, h: HandleId)
    requires Inv(s) && Enabled(s, Conclude) && h < |Apply(s, Conclude).list|
    ensures var s' := Apply(s, Conclude);
            if s'.section.Filled? && s'.section.h == h
            then WordAt(s', h) == IN_CACHE_BIT + if s'.section.ins.hold then ONE_REF else 0
            else h < |s.list| && WordAt(s', h) == WordAt(s, h)
  {
    if s.recycle != [] {
      BinUnreferenced(s);
    }
  }
}
