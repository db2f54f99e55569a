/** The flag word of a clock cache handle: in-cache bit, usage bit, and the reference count above. */
module ClockFlags {

  const IN_CACHE_BIT: nat := 1
  const USAGE_BIT: nat := 2
  const ONE_REF: nat := 4

  datatype Flags = Flags(inCache: bool, usage: bool, refs: nat)

  function Word(f: Flags): nat {
    (if f.inCache then IN_CACHE_BIT else 0) + (if f.usage then USAGE_BIT else 0) + f.refs * ONE_REF
  }

  function Decode(w: nat): Flags {
    Flags(w % 2 == 1, w / 2 % 2 == 1, w / 4)
  }

  /** Fields and words stand for each other. */
  lemma WordDecodes(f: Flags, w: nat)
    ensures Decode(Word(f)) == f && Word(Decode(w)) == w
  {
    assert f.refs * ONE_REF == 4 * f.refs;
    assert Word(f) / 4 == f.refs;
  }

  const NONE := Flags(false, false, 0)
  const IN_CACHE := Flags(true, false, 0)
  const IN_CACHE_AND_HELD := Flags(true, false, 1)

  predicate InCache(f: Flags) { f.inCache }

  function CountRefs(f: Flags): nat { f.refs }

  /** Referenced by the cache or by a user. */
  predicate Live(f: Flags) { f.inCache || f.refs > 0 }

  function SetUsage(f: Flags): Flags { f.(usage := true) }

  function ClearUsage(f: Flags): Flags { f.(usage := false) }

  function ClearInCache(f: Flags): Flags { f.(inCache := false) }

  function AddRef(f: Flags): Flags { f.(refs := f.refs + 1) }

  function SubRef(f: Flags): Flags { if f.refs > 0 then f.(refs := f.refs - 1) else f }

  /** What the atomic operations do to the word: the bits are set and cleared, the reference unit added and taken. */
  lemma OperationsOnWords(f: Flags)
    ensures Word(SetUsage(f)) == if Word(f) / 2 % 2 == 1 then Word(f) else Word(f) + USAGE_BIT
    ensures Word(ClearUsage(f)) == if Word(f) / 2 % 2 == 1 then Word(f) - USAGE_BIT else Word(f)
    ensures Word(ClearInCache(f)) == if Word(f) % 2 == 1 then Word(f) - IN_CACHE_BIT else Word(f)
    ensures Word(AddRef(f)) == Word(f) + ONE_REF
    ensures Word(f) >= ONE_REF ==> Word(SubRef(f)) == Word(f) - ONE_REF
  {
    WordDecodes(f, 0);
  }

  /** The words that the code stores or compares with. */
  lemma StoredWords(f: Flags)
    ensures Word(f) == 0 <==> f == NONE
    ensures Word(f) == IN_CACHE_BIT <==> f == IN_CACHE
    ensures Word(f) == IN_CACHE_BIT + ONE_REF <==> f == IN_CACHE_AND_HELD
  {
    WordDecodes(f, 0);
  }
}
