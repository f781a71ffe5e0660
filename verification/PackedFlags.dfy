/** The packed word of a cache handle (clock_cache.cc:182-188, 271-279): bit 0 says that the entry is in
    cache, bit 1 that it was used, and the other bits count references. The state machine works on
    records; here every atomic operation on the word is shown to be one on its parts. */
module PackedFlags {
  const IN_CACHE_BIT: bv32 := 1
  const USAGE_BIT: bv32 := 2
  const ONE_REF: bv32 := 4
  const MAX_REFS: bv32 := 0x3FFF_FFFF

  predicate InCache(w: bv32) {
    w & IN_CACHE_BIT != 0
  }

  predicate HasUsage(w: bv32) {
    w & USAGE_BIT != 0
  }

  function CountRefs(w: bv32): bv32 {
    w >> 2
  }

  predicate Packs(w: bv32, inCache: bool, usage: bool, refs: bv32) {
    InCache(w) == inCache && HasUsage(w) == usage && CountRefs(w) == refs
  }

  /** The parts determine the word. */
  lemma PartsAreWord(v: bv32, w: bv32)
    requires Packs(v, InCache(w), HasUsage(w), CountRefs(w))
    ensures v == w
  {
  }

  /** Ref: `flags + kOneRef`, as long as the count does not overflow into nothing. */
  lemma AddReference(w: bv32)
    requires CountRefs(w) != MAX_REFS
    ensures Packs(w + ONE_REF, InCache(w), HasUsage(w), CountRefs(w) + 1)
  {
  }

  /** Unref: `fetch_sub(kOneRef)`. */
  lemma SubtractReference(w: bv32)
    requires CountRefs(w) != 0
    ensures Packs(w - ONE_REF, InCache(w), HasUsage(w), CountRefs(w) - 1)
  {
  }

  /** `fetch_or(kUsageBit)`. */
  lemma SetUsageBit(w: bv32)
    ensures Packs(w | USAGE_BIT, InCache(w), true, CountRefs(w))
  {
  }

  /** `fetch_and(~kUsageBit)`. */
  lemma ClearUsageBit(w: bv32)
    ensures Packs(w & !USAGE_BIT, InCache(w), false, CountRefs(w))
  {
  }

  /** `fetch_and(~kInCacheBit)`. */
  lemma UnsetInCacheBit(w: bv32)
    ensures Packs(w & !IN_CACHE_BIT, false, HasUsage(w), CountRefs(w))
  {
  }

  /** TryEvict exchanges exactly the word of an unused, unreferenced entry in cache, and the words that
      Insert stores are those of a new entry. */
  lemma SpecialWords(w: bv32)
    ensures w == IN_CACHE_BIT <==> Packs(w, true, false, 0)
    ensures w == 0 <==> Packs(w, false, false, 0)
    ensures Packs(IN_CACHE_BIT + ONE_REF, true, false, 1)
  {
  }

  /** The largest count: one more reference and the word forgets all of them. */
  lemma CountOverflows(w: bv32)
    requires CountRefs(w) == MAX_REFS
    ensures Packs(w + ONE_REF, InCache(w), HasUsage(w), 0)
  {
  }
}
