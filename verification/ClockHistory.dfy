/** What holds of the CLOCK cache shard in every history of calls that do not overlap: it agrees with a
    plain map from keys to the values stored last, its counters are exact, and eviction spares what is
    referenced and nothing else. */
module ClockHistory {
  import opened Strings
  import opened ClockHandle
  import opened ClockShard

  // ----- the invariant, and what an operation under way leaves open -----

  /** A handle is in the recycle bin exactly when it is neither in cache nor referenced; `due` is about
      to be recycled. */
  ghost predicate Life(handles: seq<Handle>, recycle: seq<nat>, due: Option<nat>) {
    && (forall h | 0 <= h < |handles| ::
          (h in recycle || due == Some(h)) <==> !handles[h].flags.inCache && handles[h].flags.refs == 0)
    && (forall h | h in recycle :: h < |handles| && due != Some(h))
    && (forall i, j | 0 <= i < j < |recycle| :: recycle[i] != recycle[j])
  }

  /** The table lists the handles in cache, apart from the `loose` ones. */
  ghost predicate Listed(handles: seq<Handle>, table: map<string, nat>, loose: set<nat>) {
    && (forall k | k in table :: table[k] < |handles| && handles[table[k]].key == k)
    && (forall h | 0 <= h < |handles| :: InTable(handles[h], table, h) <==> handles[h].flags.inCache && h !in loose)
  }

  /** The charges of the first `n` handles that are referenced. */
  function Pinned(handles: seq<Handle>, n: nat): nat
    requires n <= |handles|
  {
    if n == 0 then 0 else Pinned(handles, n - 1) + if handles[n - 1].flags.refs > 0 then handles[n - 1].charge else 0
  }

  function TotalPinned(handles: seq<Handle>): nat {
    Pinned(handles, |handles|)
  }

  ghost predicate Counted(s: Shard, charge: nat, pinned: nat) {
    && s.usage == (TotalCharge(s.handles, s.recycle) - charge) % SIZE
    && s.pinned == (TotalPinned(s.handles) - pinned) % SIZE
    && (s.head == 0 || s.head < |s.handles|)
  }

  ghost predicate Ok(s: Shard) {
    Life(s.handles, s.recycle, None) && Listed(s.handles, s.table, {}) && Counted(s, 0, 0)
  }

  lemma EmptyOk(capacity: nat, strict: bool)
    ensures Ok(Shard([], [], map[], 0, 0, 0, capacity, strict, []))
  {
  }

  lemma OkIsSane(s: Shard)
    requires Ok(s)
    ensures Sane(s)
  {
    if s.recycle != [] {
      assert s.recycle[|s.recycle| - 1] in s.recycle;
    }
  }

  // ----- counters -----

  lemma {:induction false} PinnedSame(a: seq<Handle>, b: seq<Handle>, n: nat)
    requires n <= |a| && n <= |b|
    requires forall h | 0 <= h < n :: a[h].charge == b[h].charge && (a[h].flags.refs > 0 <==> b[h].flags.refs > 0)
    ensures Pinned(a, n) == Pinned(b, n)
  {
    if n > 0 {
      PinnedSame(a, b, n - 1);
    }
  }

  function PinnedBy(x: Handle): nat {
    if x.flags.refs > 0 then x.charge else 0
  }

  lemma {:induction false} PinnedChanges(a: seq<Handle>, h: nat, x: Handle, n: nat)
    requires n <= |a| && h < |a|
    ensures Pinned(a[h := x], n) == Pinned(a, n) + if h < n then PinnedBy(x) - PinnedBy(a[h]) else 0
  {
    if n > 0 {
      PinnedChanges(a, h, x, n - 1);
    }
  }

  lemma TotalFlags(handles: seq<Handle>, recycle: seq<nat>, h: nat, f: Flags)
    requires h < |handles|
    ensures TotalCharge(WithFlags(handles, h, f), recycle) == TotalCharge(handles, recycle)
  {
    hide Total;
    TotalSame(handles, WithFlags(handles, h, f), recycle, |handles|);
  }

  // ----- RecycleHandle and UnsetInCache -----

  lemma RecycledOk(s: Shard, h: nat, loose: set<nat>, charge: nat, pinned: nat)
    requires Life(s.handles, s.recycle, Some(h)) && h < |s.handles| && Listed(s.handles, s.table, loose)
             && Counted(s, charge, pinned)
    ensures var r := Recycled(s, h);
            Life(r.handles, r.recycle, None) && Listed(r.handles, r.table, loose) && Counted(r, charge, pinned)
  {
    hide Total, Pinned;
    var x := s.handles[h].(key := "", value := None);
    var r := Recycled(s, h);
    TotalRecycled(s.handles, s.recycle, h);
    ModuloSubtract(TotalCharge(s.handles, s.recycle) - charge, s.handles[h].charge);
    PinnedChanges(s.handles, h, x, |s.handles|);
    assert !InTable(s.handles[h], s.table, h);
    assert Listed(r.handles, r.table, loose) by {
      ListedElsewhere(s.handles, s.table, loose, loose, h, x);
    }
  }

  /** A handle outside the table changes. */
  lemma ListedElsewhere(handles: seq<Handle>, table: map<string, nat>, loose: set<nat>, loose': set<nat>, h: nat,
      x: Handle)
    requires Listed(handles, table, loose) && h < |handles| && !InTable(handles[h], table, h)
    requires (forall y | y != h :: y in loose <==> y in loose') && (x.flags.inCache ==> h in loose')
    requires x.key == handles[h].key || !x.flags.inCache
    ensures Listed(handles[h := x], table, loose')
  {
    var hs := handles[h := x];
    forall y | 0 <= y < |hs| ensures InTable(hs[y], table, y) <==> hs[y].flags.inCache && y !in loose' {
      assert InTable(handles[y], table, y) <==> handles[y].flags.inCache && y !in loose;
    }
  }

  /** The new contents list no key that the old ones did not, and have the same values for the others. */
  ghost predicate Shrinks(s: Shard, s': Shard) {
    && |s.handles| <= |s'.handles|
    && forall k | k in s'.table ::
         && k in s.table && s'.table[k] == s.table[k] && s.table[k] < |s.handles|
         && s'.handles[s.table[k]].value == s.handles[s.table[k]].value
  }

  lemma ShrinksTwice(s: Shard, s': Shard, s'': Shard)
    requires Shrinks(s, s') && Shrinks(s', s'')
    ensures Shrinks(s, s'')
  {
  }

  lemma UnsetOk(s: Shard, h: nat, loose: set<nat>, charge: nat, pinned: nat)
    requires Life(s.handles, s.recycle, None) && h < |s.handles| && Listed(s.handles, s.table, loose)
             && Counted(s, charge, pinned)
    requires !InTable(s.handles[h], s.table, h)
    ensures var r := Unset(s, h).0;
            && Life(r.handles, r.recycle, None) && Listed(r.handles, r.table, loose - {h}) && Counted(r, charge, pinned)
            && r.table == s.table && r.head == s.head && r.capacity == s.capacity && r.strict == s.strict
               && Shrinks(s, r)
            && (forall x | 0 <= x < |s.handles| && x != h :: r.handles[x] == s.handles[x])
            && |r.handles| == |s.handles|
  {
    hide TotalCharge, TotalPinned;
    var f := s.handles[h].flags;
    var x := s.handles[h].(flags := f.(inCache := false));
    var s' := WithFlag(s, h, f.(inCache := false));
    TotalFlags(s.handles, s.recycle, h, x.flags);
    PinnedFlags(s.handles, h, x.flags);
    ListedElsewhere(s.handles, s.table, loose, loose - {h}, h, x);
    if f.inCache && f.refs == 0 {
      assert Life(s'.handles, s'.recycle, Some(h));
      RecycledOk(s', h, loose - {h}, charge, pinned);
    }
  }

  lemma PinnedFlags(handles: seq<Handle>, h: nat, f: Flags)
    requires h < |handles| && (f.refs > 0 <==> handles[h].flags.refs > 0)
    ensures TotalPinned(WithFlags(handles, h, f)) == TotalPinned(handles)
  {
    hide Pinned;
    PinnedSame(handles, WithFlags(handles, h, f), |handles|);
  }

  // ----- Erase -----

  lemma ErasedOk(s: Shard, key: string, loose: set<nat>, charge: nat, pinned: nat)
    requires Life(s.handles, s.recycle, None) && Listed(s.handles, s.table, loose) && Counted(s, charge, pinned)
    ensures key in s.table ==> s.table[key] < |s.handles|
    ensures var r := Erased(s, key).0;
            && Life(r.handles, r.recycle, None) && Listed(r.handles, r.table, loose) && Counted(r, charge, pinned)
            && r.table == s.table - {key} && Shrinks(s, r) && |r.handles| == |s.handles|
            && r.head == s.head && r.capacity == s.capacity && r.strict == s.strict
            && (forall h | h in loose && h < |s.handles| :: r.handles[h] == s.handles[h])
  {
    hide Life, Counted;
    if key in s.table {
      var h := s.table[key];
      var s' := s.(table := s.table - {key});
      assert InTable(s.handles[h], s.table, h);
      ListedWithout(s.handles, s.table, loose, key);
      assert Counted(s', charge, pinned) by { CountedSame(s, s', charge, pinned); }
      UnsetOk(s', h, loose + {h}, charge, pinned);
      assert loose + {h} - {h} == loose;
      assert Shrinks(s, s');
      ShrinksTwice(s, s', Unset(s', h).0);
    } else {
      assert s.table - {key} == s.table;
    }
  }

  lemma CountedSame(s: Shard, s': Shard, charge: nat, pinned: nat)
    requires Counted(s, charge, pinned) && s'.handles == s.handles && s'.recycle == s.recycle
    requires s'.usage == s.usage && s'.pinned == s.pinned && s'.head == s.head
    ensures Counted(s', charge, pinned)
  {
    hide TotalCharge, TotalPinned;
  }

  lemma ListedWithout(handles: seq<Handle>, table: map<string, nat>, loose: set<nat>, key: string)
    requires Listed(handles, table, loose) && key in table
    ensures Listed(handles, table - {key}, loose + {table[key]})
    ensures table[key] !in loose && !InTable(handles[table[key]], table - {key}, table[key])
  {
    var h := table[key];
    assert InTable(handles[h], table, h);
    forall y | 0 <= y < |handles|
      ensures InTable(handles[y], table - {key}, y) <==> handles[y].flags.inCache && y !in loose + {h}
    {
      assert InTable(handles[y], table, y) <==> handles[y].flags.inCache && y !in loose;
    }
  }

  // ----- references -----

  /** The count of a handle changes, and the pinned usage with it. */
  lemma RefsChanged(s: Shard, h: nat, f: Flags)
    requires Ok(s) && h < |s.handles| && f.inCache == s.handles[h].flags.inCache && h !in s.recycle
    ensures var x := s.handles[h].(flags := f);
            var s' := WithFlag(s, h, f).(pinned := (s.pinned + PinnedBy(x) - PinnedBy(s.handles[h])) % SIZE);
            && Life(s'.handles, s'.recycle, if !f.inCache && f.refs == 0 then Some(h) else None)
            && Listed(s'.handles, s'.table, {}) && Counted(s', 0, 0) && Shrinks(s, s')
  {
    hide TotalCharge, Total, Pinned, PinnedBy;
    var x := s.handles[h].(flags := f);
    TotalFlags(s.handles, s.recycle, h, f);
    PinnedChanges(s.handles, h, x, |s.handles|);
    ModuloSubtract(TotalPinned(s.handles), PinnedBy(s.handles[h]) - PinnedBy(x));
    ListedSameBits(s.handles, s.table, {}, h, f);
  }

  lemma PinnedModulo(s: Shard)
    requires Ok(s)
    ensures s.pinned % SIZE == s.pinned
  {
    hide TotalCharge, TotalPinned, Life, Listed;
  }

  lemma InUse(s: Shard, h: nat)
    requires Ok(s) && h < |s.handles| && (s.handles[h].flags.inCache || s.handles[h].flags.refs > 0)
    ensures h !in s.recycle
  {
    hide Listed, Counted;
  }

  lemma ReffedOk(s: Shard, h: nat)
    requires Ok(s) && h < |s.handles|
    ensures var (r, ok) := Reffed(s, h);
            && Ok(r) && ok == s.handles[h].flags.inCache && r.table == s.table && Shrinks(s, r)
            && |r.handles| == |s.handles| && r.handles[h].key == s.handles[h].key
               && r.handles[h].value == s.handles[h].value
  {
    hide Life, Listed, Counted, Shrinks;
    var f := s.handles[h].flags;
    if f.inCache {
      InUse(s, h);
      PinnedModulo(s);
      RefsChanged(s, h, f.(refs := f.refs + 1));
    } else {
      SaneTable(s);
      ShrinksSelf(s);
    }
  }

  lemma SaneTable(s: Shard)
    requires Ok(s)
    ensures forall k | k in s.table :: s.table[k] < |s.handles|
  {
    hide Life, Counted;
  }

  lemma ListedSameBits(handles: seq<Handle>, table: map<string, nat>, loose: set<nat>, h: nat, f: Flags)
    requires Listed(handles, table, loose) && h < |handles| && f.inCache == handles[h].flags.inCache
    ensures Listed(WithFlags(handles, h, f), table, loose)
  {
    var hs := WithFlags(handles, h, f);
    forall y | 0 <= y < |hs| ensures InTable(hs[y], table, y) <==> hs[y].flags.inCache && y !in loose {
      assert InTable(handles[y], table, y) <==> handles[y].flags.inCache && y !in loose;
    }
  }

  lemma UnreffedOk(s: Shard, h: nat, setUsage: bool)
    requires Ok(s) && h < |s.handles| && s.handles[h].flags.refs > 0
    ensures var (r, erased) := Unreffed(s, h, setUsage);
            && Ok(r) && r.table == s.table && Shrinks(s, r) && |r.handles| == |s.handles|
            && (!erased ==> r.handles[h].key == s.handles[h].key)
  {
    hide Life, Listed, Counted, Shrinks;
    var f := s.handles[h].flags;
    var f' := f.(usage := f.usage || setUsage, refs := f.refs - 1);
    InUse(s, h);
    PinnedModulo(s);
    RefsChanged(s, h, f');
    if f.refs == 1 && !f.inCache {
      var s' := WithFlag(s, h, f').(pinned := (s.pinned - s.handles[h].charge) % SIZE);
      RecycledOk(s', h, {}, 0, 0);
      RecycledShrinks(s', h);
      ShrinksTwice(s, s', Recycled(s', h));
    }
  }

  lemma RecycledShrinks(s: Shard, h: nat)
    requires h < |s.handles| && !s.handles[h].flags.inCache && Listed(s.handles, s.table, {})
    ensures Shrinks(s, Recycled(s, h))
  {
    assert !InTable(s.handles[h], s.table, h);
  }

  /** The entry is in the cache, and there is no other reference to it: the case in which a forced Release
      is documented to erase it (rocksdb/cache.h:140-149). */
  predicate Unshared(s: Shard, h: nat)
    requires h < |s.handles|
  {
    s.handles[h].flags.inCache && s.handles[h].flags.refs == 1
  }

  /** There is no other reference, or nothing is cached under the key. */
  predicate Sole(s: Shard, h: nat)
    requires h < |s.handles|
  {
    s.handles[h].flags.refs == 1 || s.handles[h].key !in s.table
  }

  /** What Release does to the table: a forced one takes out the key, unless its reference was the last one
      to an entry that had left the cache. */
  lemma ReleasedOk(s: Shard, h: nat, force: bool)
    requires Ok(s) && h < |s.handles| && s.handles[h].flags.refs > 0
    ensures forall k | k in s.table :: s.table[k] < |s.handles|
    ensures var r := Released(s, h, force).0; var f := s.handles[h].flags;
            && Ok(r) && Shrinks(s, r)
            && r.table == if force && (f.inCache || f.refs > 1) then s.table - {s.handles[h].key} else s.table
  {
    hide Counted, Life;
    var (s', erased) := Unreffed(s, h, true);
    UnreffedOk(s, h, true);
    if force && !erased {
      ErasedOk(s', s'.handles[h].key, {}, 0, 0);
      ShrinksTwice(s, s', Erased(s', s'.handles[h].key).0);
    }
  }

  /** An entry in the cache is the one that the table has for its key. */
  lemma CachedIsListed(s: Shard, h: nat)
    requires Ok(s) && h < |s.handles|
    ensures s.handles[h].flags.inCache <==> InTable(s.handles[h], s.table, h)
  {
    hide Life, Counted;
  }

  lemma KeyInTable(s: Shard, key: string)
    requires Ok(s) && key in s.table
    ensures s.table[key] < |s.handles| && s.handles[s.table[key]].key == key
  {
    hide Life, Counted;
  }

  /** A forced Release does to the table what is documented, erasing at most its own entry and only when
      there is no other reference to it, exactly when there is no other reference or nothing is cached
      under the key. Otherwise it takes out an entry that is still referenced, or a newer one. */
  lemma ForcedReleaseIff(s: Shard, h: nat)
    requires Ok(s) && h < |s.handles| && s.handles[h].flags.refs > 0
    ensures forall k | k in s.table :: s.table[k] < |s.handles|
    ensures var r := Released(s, h, true).0; var key := s.handles[h].key;
            && (r.table == (if Unshared(s, h) then s.table - {key} else s.table) <==> Sole(s, h))
            && (key in s.table && key !in r.table ==> (s.table[key] == h <==> s.handles[h].flags.inCache))
  {
    hide Ok, Shrinks, Released;
    ReleasedOk(s, h, true);
    CachedIsListed(s, h);
  }

  /** In a history without overlaps Lookup finds exactly the keys in the table, with their handles. */
  lemma LookedUpOk(s: Shard, key: string)
    requires Ok(s)
    ensures key in s.table ==> s.table[key] < |s.handles|
    ensures var (r, found) := LookedUp(s, key);
            && Ok(r) && r.table == s.table && Shrinks(s, r)
            && (found.Some? <==> key in s.table)
            && (found.Some? ==>
                  && found.value == s.table[key] && found.value < |r.handles|
                  && r.handles[found.value].flags.refs > 0
                  && r.handles[found.value].value == s.handles[found.value].value)
  {
    hide Counted, Life;
    if key in s.table {
      var h := s.table[key];
      assert InTable(s.handles[h], s.table, h);
      ReffedOk(s, h);
    } else {
      ShrinksSelf(s);
    }
  }

  lemma ShrinksSelf(s: Shard)
    requires forall k | k in s.table :: s.table[k] < |s.handles|
    ensures Shrinks(s, s)
  {
  }

  // ----- eviction -----

  /** TryEvict leaves every handle but the one it looks at, and that one too if it is referenced. */
  lemma TriedOk(s: Shard, h: nat)
    requires Ok(s) && h < |s.handles|
    ensures var (r, evicted) := Tried(s, h);
            && Ok(r) && Shrinks(s, r) && |r.handles| == |s.handles| && r.head == s.head && r.capacity == s.capacity
               && r.strict == s.strict
            && (forall x | 0 <= x < |s.handles| && x != h :: r.handles[x] == s.handles[x])
            && r.handles[h].flags.refs == s.handles[h].flags.refs
            && (forall k | k in s.table && s.handles[s.table[k]].flags.refs > 0 :: k in r.table)
            && (s.handles[h].flags.inCache && s.handles[h].flags.refs == 0 ==>
                  if s.handles[h].flags.usage then r.handles[h].flags == Flags(true, false, 0)
                      else !r.handles[h].flags.inCache)
            && (!s.handles[h].flags.inCache ==> !r.handles[h].flags.inCache)
  {
    hide TotalCharge, TotalPinned;
    var x := s.handles[h];
    SaneTable(s);
    if x.flags == Flags(true, false, 0) {
      EvictOne(s, h);
    } else {
      var f := x.flags.(usage := false);
      TotalFlags(s.handles, s.recycle, h, f);
      PinnedFlags(s.handles, h, f);
      ListedSameBits(s.handles, s.table, {}, h, f);
      FlagShrinks(s, h, f);
    }
  }

  lemma FlagShrinks(s: Shard, h: nat, f: Flags)
    requires h < |s.handles| && forall k | k in s.table :: s.table[k] < |s.handles|
    ensures Shrinks(s, WithFlag(s, h, f))
  {
  }

  lemma EvictOne(s: Shard, h: nat)
    requires Ok(s) && h < |s.handles| && s.handles[h].flags == Flags(true, false, 0)
    ensures var r := Tried(s, h).0;
            && Ok(r) && Shrinks(s, r) && (forall k | k in s.table && s.handles[s.table[k]].flags.refs > 0 ::
               k in r.table)
  {
    hide TotalCharge, TotalPinned;
    var x := s.handles[h];
    assert InTable(x, s.table, h);
    var s1 := s.(table := s.table - {x.key});
    ListedWithout(s.handles, s.table, {}, x.key);
    var s2 := WithFlag(s1, h, Flags(false, false, 0));
    TotalFlags(s.handles, s.recycle, h, Flags(false, false, 0));
    PinnedFlags(s.handles, h, Flags(false, false, 0));
    ListedElsewhere(s1.handles, s1.table, {} + {h}, {}, h, x.(flags := Flags(false, false, 0)));
    assert Life(s2.handles, s2.recycle, Some(h));
    RecycledOk(s2, h, {}, 0, 0);
    RecycledShrinks(s2, h);
    assert Shrinks(s, s2);
    ShrinksTwice(s, s2, Recycled(s2, h));
  }

  /** How often the loop of EvictFromCache calls TryEvict. */
  function Tries(s: Shard, charge: nat, newHead: nat, second: bool): nat
    requires s.head < |s.handles| && newHead < |s.handles|
    decreases Left(|s.handles|, s.head, newHead, second)
  {
    if Fits(s, charge) then 0
    else
      var s' := Tried(s, newHead).0;
      var next := NextHead(s', newHead);
      if next == s.head && second then 1 else 1 + Tries(s', charge, next, second || next == s.head)
  }

  /** It makes at most two sweeps. */
  lemma {:induction false} TwoSweeps(s: Shard, charge: nat, newHead: nat, second: bool)
    requires s.head < |s.handles| && newHead < |s.handles|
    ensures Tries(s, charge, newHead, second) <= Left(|s.handles|, s.head, newHead, second) <= 2 * |s.handles|
    decreases Left(|s.handles|, s.head, newHead, second)
  {
    hide Tried;
    if !Fits(s, charge) {
      TriedKeeps(s, newHead);
      var s' := Tried(s, newHead).0;
      var next := NextHead(s', newHead);
      if !(next == s.head && second) {
        TwoSweeps(s', charge, next, second || next == s.head);
      }
    }
  }

  /** What the sweeps have found: behind the head, in the first sweep, no entry is unreferenced and
      used; behind it, in the second, none is unreferenced. */
  predicate Behind(n: nat, head: nat, newHead: nat, h: nat) {
    if head <= newHead then head <= h < newHead else h < newHead || head <= h < n
  }

  predicate Spent(x: Handle) {
    x.flags.inCache && x.flags.refs == 0 ==> !x.flags.usage
  }

  predicate Kept(x: Handle) {
    x.flags.inCache ==> x.flags.refs > 0
  }

  ghost predicate Progress(s: Shard, newHead: nat, second: bool) {
    forall h | 0 <= h < |s.handles| ::
      && (second || Behind(|s.handles|, s.head, newHead, h) ==> Spent(s.handles[h]))
      && (second && Behind(|s.handles|, s.head, newHead, h) ==> Kept(s.handles[h]))
  }

  lemma {:induction false} SweptOk(s: Shard, charge: nat, newHead: nat, second: bool)
    requires Ok(s) && s.head < |s.handles| && newHead < |s.handles| && Progress(s, newHead, second)
    ensures var (r, ok) := Swept(s, charge, newHead, second);
            && Ok(r) && Shrinks(s, r) && r.capacity == s.capacity && r.strict == s.strict
            && (ok ==> Fits(r, charge))
            && (!ok ==> forall h | 0 <= h < |r.handles| :: Kept(r.handles[h]))
            && (forall k | k in s.table && s.handles[s.table[k]].flags.refs > 0 :: k in r.table)
    decreases Left(|s.handles|, s.head, newHead, second)
  {
    hide Tried, Life, Listed, Counted, Shrinks, Progress, Fits;
    SaneTable(s);
    if Fits(s, charge) {
      HeadMoves(s, newHead);
      ShrinksSelf(s);
    } else {
      TriedOk(s, newHead);
      var s' := Tried(s, newHead).0;
      var next := NextHead(s', newHead);
      if next == s.head && second {
        SweepEnds(s, newHead);
      } else {
        SweepAdvances(s, newHead, second);
        SweptOk(s', charge, next, second || next == s.head);
        ShrinksTwice(s, s', Swept(s', charge, next, second || next == s.head).0);
        ReferencedStay(s, s');
      }
    }
  }

  lemma HeadMoves(s: Shard, newHead: nat)
    requires Ok(s) && newHead < |s.handles|
    ensures Ok(s.(head := newHead)) && (forall charge: nat :: Fits(s, charge) ==> Fits(s.(head := newHead), charge))
    ensures Shrinks(s, s.(head := newHead))
  {
    hide TotalCharge, TotalPinned, Life;
  }

  lemma SweepAdvances(s: Shard, newHead: nat, second: bool)
    requires Ok(s) && s.head < |s.handles| && newHead < |s.handles| && Progress(s, newHead, second)
    ensures var s' := Tried(s, newHead).0; var next := NextHead(s', newHead);
            |s'.handles| == |s.handles| && s'.head == s.head &&
            (!(next == s.head && second) ==> Progress(s', next, second || next == s.head))
  {
    hide Tried, Life, Listed, Counted, Shrinks;
    TriedOk(s, newHead);
    var s' := Tried(s, newHead).0;
    var next := NextHead(s', newHead);
    forall h | 0 <= h < |s.handles| && h != newHead && Behind(|s.handles|, s.head, next, h)
      ensures Behind(|s.handles|, s.head, newHead, h)
    {
    }
  }

  /** At the end of the second sweep all entries have been looked at twice. */
  lemma SweepEnds(s: Shard, newHead: nat)
    requires Ok(s) && s.head < |s.handles| && newHead < |s.handles| && Progress(s, newHead, true)
    requires NextHead(Tried(s, newHead).0, newHead) == s.head
    ensures var s' := Tried(s, newHead).0; forall h | 0 <= h < |s'.handles| :: Kept(s'.handles[h])
  {
    hide Tried, Life, Listed, Counted, Shrinks;
    TriedOk(s, newHead);
    var s' := Tried(s, newHead).0;
    forall h | 0 <= h < |s'.handles| ensures Kept(s'.handles[h]) {
      if h != newHead {
        assert Behind(|s.handles|, s.head, newHead, h);
      } else {
        assert Spent(s.handles[h]);
      }
    }
  }

  lemma ReferencedStay(s: Shard, s': Shard)
    requires Ok(s) && Shrinks(s, s') && |s'.handles| == |s.handles|
    requires forall x | 0 <= x < |s.handles| :: s'.handles[x].flags.refs == s.handles[x].flags.refs
    ensures forall k | k in s.table && k in s'.table && s.handles[s.table[k]].flags.refs > 0 ::
            s'.handles[s'.table[k]].flags.refs > 0
  {
    hide Life, Listed, Counted;
  }

  /** EvictFromCache: success means that the charge fits; failure of a cache that is not empty means that
      whatever is still in cache is referenced; referenced entries survive in any case. */
  lemma EvictedOk(s: Shard, charge: nat)
    requires Ok(s)
    ensures s.usage != 0 ==> s.head < |s.handles|
    ensures var (r, ok) := Evicted(s, charge);
            && Ok(r) && Shrinks(s, r) && r.capacity == s.capacity && r.strict == s.strict
            && (ok && charge < SIZE ==> Fits(r, charge))
            && (!ok && s.usage != 0 ==> forall h | 0 <= h < |r.handles| :: Kept(r.handles[h]))
            && (forall k | k in s.table && s.table[k] < |s.handles| && s.handles[s.table[k]].flags.refs > 0 ::
               k in r.table)
            && (charge < SIZE && Fits(s, charge) ==> ok && r == s)
  {
    hide Life, Listed, Shrinks, TotalPinned;
    SaneTable(s);
    ShrinksSelf(s);
    if s.usage != 0 {
      EmptyTotal(s);
      SweptOk(s, charge, s.head, false);
    }
  }

  lemma EmptyTotal(s: Shard)
    requires Counted(s, 0, 0) && s.usage != 0
    ensures s.head < |s.handles|
  {
    hide TotalPinned;
  }

  // ----- Insert -----

  lemma TakenOk(s: Shard, x: Handle)
    requires Ok(s) && x.flags.inCache && (x.flags.refs == 0 || x.flags.refs == 1)
    ensures s.recycle != [] ==> s.recycle[|s.recycle| - 1] < |s.handles|
    ensures var (r, h) := Taken(s, x);
            && h < |r.handles| && r.handles[h] == x && |s.handles| <= |r.handles| && r.table == s.table
            && Life(r.handles, r.recycle, None) && Listed(r.handles, r.table, {h}) && Counted(r, x.charge, PinnedBy(x))
            && (forall y | 0 <= y < |s.handles| && y != h :: r.handles[y] == s.handles[y])
            && (h < |s.handles| ==> !s.handles[h].flags.inCache)
            && r.head == s.head && r.capacity == s.capacity && r.strict == s.strict
  {
    hide TotalCharge, Pinned;
    OkIsSane(s);
    if s.recycle == [] {
      TotalAppended(s.handles, s.recycle, x);
      PinnedAppended(s.handles, x);
      ListedLonger(s.handles, s.table, x);
    } else {
      var n := |s.recycle| - 1;
      var h := s.recycle[n];
      assert h in s.recycle;
      TotalTaken(s.handles, s.recycle, x);
      PinnedChanges(s.handles, h, x, |s.handles|);
      assert !InTable(s.handles[h], s.table, h);
      ListedTaken(s.handles, s.table, h, x);
      LifeTaken(s.handles, s.recycle, x);
    }
  }

  lemma PinnedAppended(handles: seq<Handle>, x: Handle)
    ensures TotalPinned(handles + [x]) == TotalPinned(handles) + PinnedBy(x)
  {
    PinnedSame(handles, handles + [x], |handles|);
  }

  lemma ListedLonger(handles: seq<Handle>, table: map<string, nat>, x: Handle)
    requires Listed(handles, table, {}) && x.flags.inCache
    ensures Listed(handles + [x], table, {|handles|})
  {
    var hs := handles + [x];
    forall y | 0 <= y < |hs| ensures InTable(hs[y], table, y) <==> hs[y].flags.inCache && y !in {|handles|} {
      if y < |handles| {
        assert InTable(handles[y], table, y) <==> handles[y].flags.inCache;
      }
    }
  }

  lemma ListedTaken(handles: seq<Handle>, table: map<string, nat>, h: nat, x: Handle)
    requires Listed(handles, table, {}) && h < |handles| && !handles[h].flags.inCache
    ensures Listed(handles[h := x], table, {h})
  {
    var hs := handles[h := x];
    assert !InTable(handles[h], table, h);
    forall y | 0 <= y < |hs| ensures InTable(hs[y], table, y) <==> hs[y].flags.inCache && y !in {h} {
      assert InTable(handles[y], table, y) <==> handles[y].flags.inCache;
    }
  }

  lemma LifeTaken(handles: seq<Handle>, recycle: seq<nat>, x: Handle)
    requires Life(handles, recycle, None) && recycle != [] && x.flags.inCache
    ensures var n := |recycle| - 1; recycle[n] < |handles| && Life(handles[recycle[n] := x], recycle[..n], None)
  {
    var n := |recycle| - 1;
    var h := recycle[n];
    assert recycle == recycle[..n] + [h];
    assert h in recycle;
    assert forall y :: y in recycle[..n] <==> y in recycle && y != h;
  }

  /** Storing replaces the entry of the key and leaves the others. */
  lemma StoredOk(s: Shard, key: string, value: nat, charge: nat, hold: bool)
    requires Ok(s)
    ensures Sane(s)
    ensures var (r, h) := Stored(s, key, value, charge, hold);
            && Ok(r) && r.table == s.table[key := h] && StoredOver(s, r, key, value, h)
            && r.capacity == s.capacity && r.strict == s.strict
  {
    hide Life, Listed, Counted, Shrinks, StoredOver, Taken, Erased;
    OkIsSane(s);
    var x := NewHandle(key, value, charge, hold);
    TakenOk(s, x);
    var (s1, h) := Taken(s, x);
    ErasedOk(s1, key, {h}, charge, PinnedBy(x));
    var s2 := Erased(s1, key).0;
    assert s2.handles[h] == x;
    ListedNow(s2.handles, s2.table, h);
    assert s.table[key := h] == (s.table - {key})[key := h];
    var r := Stored(s, key, value, charge, hold).0;
    PinnedNow(s2, r, charge, x);
    ValuesStored(s, s1, s2, r, key, value, h);
  }

  /** The counters catch up with the new handle. */
  lemma PinnedNow(s: Shard, r: Shard, charge: nat, x: Handle)
    requires Counted(s, charge, PinnedBy(x)) && x.charge == charge && x.flags.refs <= 1
    requires r == s.(table := r.table, usage := (s.usage + charge) % SIZE,
                     pinned := if x.flags.refs > 0 then (s.pinned + charge) % SIZE else s.pinned)
    ensures Counted(r, 0, 0)
  {
    hide TotalCharge, TotalPinned;
    ModuloSubtract(TotalCharge(s.handles, s.recycle) - charge, charge);
    ModuloSubtract(TotalPinned(s.handles) - PinnedBy(x), PinnedBy(x));
  }

  lemma ValuesStored(s: Shard, s1: Shard, s2: Shard, r: Shard, key: string, value: nat, h: nat)
    requires Listed(s.handles, s.table, {}) && s1.table == s.table && Shrinks(s1, s2) && s2.table == s.table - {key}
    requires |s.handles| <= |s1.handles| && r.handles == s2.handles && h < |s2.handles|
             && s2.handles[h].value == Some(value)
    requires forall y | 0 <= y < |s.handles| && y != h :: s1.handles[y] == s.handles[y]
    requires h < |s.handles| ==> !s.handles[h].flags.inCache
    ensures StoredOver(s, r, key, value, h)
  {
    forall k | k in s.table && k != key
      ensures s.table[k] < |s.handles| && s.table[k] < |r.handles|
              && r.handles[s.table[k]].value == s.handles[s.table[k]].value
    {
      assert InTable(s.handles[s.table[k]], s.table, s.table[k]);
      assert k in s2.table;
    }
  }

  lemma ListedNow(handles: seq<Handle>, table: map<string, nat>, h: nat)
    requires Listed(handles, table, {h}) && h < |handles| && handles[h].flags.inCache && handles[h].key !in table
    ensures Listed(handles, table[handles[h].key := h], {})
  {
    var table' := table[handles[h].key := h];
    forall y | 0 <= y < |handles| ensures InTable(handles[y], table', y) <==> handles[y].flags.inCache && y !in {} {
      assert InTable(handles[y], table, y) <==> handles[y].flags.inCache && y !in {h};
    }
  }

  /** Insert stores the entry, or only evicts; it stores whenever the charge fits. */
  lemma InsertedOk(s: Shard, key: string, value: nat, charge: nat, hold: bool)
    requires Ok(s) && charge < SIZE
    ensures Sane(s) && Sane(Evicted(s, charge).0)
    ensures var e := Evicted(s, charge).0; var (r, h) := Inserted(s, key, value, charge, hold);
            && Ok(r) && Shrinks(s, e)
            && (h == None ==> r.table == e.table && Shrinks(s, r))
            && (h.Some? ==> r.table == e.table[key := h.value] && StoredOver(e, r, key, value, h.value))
            && (Fits(s, charge) ==> h.Some? && e == s)
            && r.capacity == s.capacity
  {
    hide Life, Listed, Counted, Fits, Shrinks;
    OkIsSane(s);
    EvictedOk(s, charge);
    var e := Evicted(s, charge).0;
    StoredOk(e, key, value, charge, hold);
    var r := Inserted(s, key, value, charge, hold).0;
    if Inserted(s, key, value, charge, hold).1 == None {
      OkButDeleted(e, r);
      ShrinksDeleted(s, e, r);
    }
  }

  ghost predicate StoredOver(e: Shard, r: Shard, key: string, value: nat, h: nat) {
    && h < |r.handles| && r.handles[h].value == Some(value)
    && forall k | k in e.table && k != key ::
         e.table[k] < |e.handles| && e.table[k] < |r.handles|
             && r.handles[e.table[k]].value == e.handles[e.table[k]].value
  }

  lemma OkButDeleted(s: Shard, s': Shard)
    requires Ok(s) && s' == s.(deleted := s'.deleted)
    ensures Ok(s')
  {
    hide Life, Listed, TotalCharge, TotalPinned;
  }

  lemma ShrinksDeleted(s: Shard, e: Shard, r: Shard)
    requires Shrinks(s, e) && r == e.(deleted := r.deleted)
    ensures Shrinks(s, r)
  {
  }

  // ----- EraseUnRefEntries -----

  function From(i: nat, n: nat): (r: set<nat>)
    ensures forall h :: h in r <==> i <= h < n
    decreases n - i
  {
    if i >= n then {} else {i} + From(i + 1, n)
  }

  lemma {:induction false} ClearedOk(s: Shard, i: nat)
    requires Life(s.handles, s.recycle, None) && s.table == map[] && Counted(s, 0, 0)
    requires Listed(s.handles, map[], From(i, |s.handles|))
    ensures var r := ClearedFrom(s, i); Ok(r) && r.table == map[] && r.capacity == s.capacity && r.strict == s.strict
    decreases |s.handles| - i
  {
    hide Life, Counted, Unset;
    if i < |s.handles| {
      UnsetOk(s, i, From(i, |s.handles|), 0, 0);
      assert From(i, |s.handles|) - {i} == From(i + 1, |s.handles|);
      ClearedOk(Unset(s, i).0, i + 1);
    } else {
      assert From(i, |s.handles|) == {};
    }
  }

  lemma ListedCleared(handles: seq<Handle>)
    ensures Listed(handles, map[], From(0, |handles|))
  {
  }

  lemma ClearOk(s: Shard)
    requires Ok(s)
    ensures Ok(Cleared(s)) && Cleared(s).table == map[] && Cleared(s).capacity == s.capacity
  {
    hide Life, Counted, Listed;
    var s' := s.(table := map[]);
    assert Counted(s', 0, 0) by { CountedSame(s, s', 0, 0); }
    ListedCleared(s.handles);
    ClearedOk(s', 0);
  }

  // ----- histories -----

  datatype Call =
    | InsertCall(key: string, value: nat, charge: nat, hold: bool)
    | LookupCall(key: string)
    | ReleaseCall(h: nat, force: bool)
    | RefCall(h: nat)
    | EraseCall(key: string)
    | ClearCall
    | ResizeCall(capacity: nat)
    | StrictCall(strict: bool)

  /** Release is for clients that hold a reference. */
  predicate Allowed(s: Shard, c: Call) {
    match c
    case InsertCall(_, _, charge, _) => charge < SIZE
    case ReleaseCall(h, _) => h < |s.handles| && s.handles[h].flags.refs > 0
    case RefCall(h) => h < |s.handles| && s.handles[h].flags.refs > 0
    case _ => true
  }

  ghost function Done(s: Shard, c: Call): Shard
    requires Ok(s)
  {
    if !Allowed(s, c) then s
    else
      (OkIsSane(s);
       match c
       case InsertCall(key, value, charge, hold) =>
         (InsertedOk(s, key, value, charge, hold); Inserted(s, key, value, charge, hold).0)
       case LookupCall(key) => LookedUp(s, key).0
       case ReleaseCall(h, force) => Released(s, h, force).0
       case RefCall(h) => Reffed(s, h).0
       case EraseCall(key) => Erased(s, key).0
       case ClearCall => Cleared(s)
       case ResizeCall(capacity) => Resized(s, capacity)
       case StrictCall(strict) => s.(strict := strict))
  }

  /** The reference map: what each key would be bound to in a cache without limits, by the documentation of
      the interface. */
  ghost function PlainAfter(plain: map<string, nat>, s: Shard, c: Call): map<string, nat>
    requires Ok(s)
  {
    if !Allowed(s, c) then plain
    else match c
      case InsertCall(key, value, charge, hold) =>
        (InsertedOk(s, key, value, charge, hold);
         if Inserted(s, key, value, charge, hold).1.Some? then plain[key := value] else plain)
      case EraseCall(key) => plain - {key}
      case ReleaseCall(h, force) => if force && Unshared(s, h) then plain - {s.handles[h].key} else plain
      case ClearCall => map[]
      case _ => plain
  }

  /** Every key in the table is bound to its value in the reference map. */
  ghost predicate Agrees(s: Shard, plain: map<string, nat>) {
    forall k | k in s.table ::
      s.table[k] < |s.handles| && k in plain && s.handles[s.table[k]].value == Some(plain[k])
  }

  lemma ShrinkAgrees(s: Shard, s': Shard, plain: map<string, nat>, plain': map<string, nat>)
    requires Agrees(s, plain) && Shrinks(s, s')
    requires forall k | k in s'.table && k in plain :: k in plain' && plain'[k] == plain[k]
    ensures Agrees(s', plain')
  {
  }

  lemma StoreAgrees(s: Shard, e: Shard, r: Shard, key: string, value: nat, h: nat, plain: map<string, nat>)
    requires Agrees(s, plain) && Shrinks(s, e) && r.table == e.table[key := h] && StoredOver(e, r, key, value, h)
    ensures Agrees(r, plain[key := value])
  {
    ShrinkAgrees(s, e, plain, plain);
  }

  lemma ResizedOk(s: Shard, capacity: nat)
    requires Ok(s)
    ensures Sane(s) && Ok(Resized(s, capacity)) && Shrinks(s, Resized(s, capacity))
  {
    hide Life, Listed, Counted, Evicted, Shrinks;
    OkIsSane(s);
    var s' := s.(capacity := capacity);
    assert Ok(s') by { OkButCapacity(s, s'); }
    EvictedOk(s', 0);
    ShrinksFrom(s, s', Evicted(s', 0).0);
  }

  lemma OkButCapacity(s: Shard, s': Shard)
    requires Ok(s) && s' == s.(capacity := s'.capacity, strict := s'.strict)
    ensures Ok(s')
  {
    hide Life, Listed, TotalCharge, TotalPinned;
  }

  lemma ShrinksFrom(s: Shard, s': Shard, r: Shard)
    requires s'.handles == s.handles && s'.table == s.table && Shrinks(s', r)
    ensures Shrinks(s, r)
  {
  }

  lemma DoneOk(s: Shard, c: Call)
    requires Ok(s)
    ensures Ok(Done(s, c))
  {
    hide Ok, Shrinks, Inserted, LookedUp, Released, Reffed, Erased, Cleared, Resized, Unreffed, StoredOver, Evicted;
    if Allowed(s, c) {
      OkIsSane(s);
      match c
      case InsertCall(key, value, charge, hold) => InsertedOk(s, key, value, charge, hold);
      case LookupCall(key) => LookedUpOk(s, key);
      case ReleaseCall(h, force) => ReleasedOk(s, h, force);
      case RefCall(h) => ReffedOk(s, h);
      case EraseCall(key) => EraseCallOk(s, key);
      case ClearCall => ClearOk(s);
      case ResizeCall(capacity) => ResizedOk(s, capacity);
      case StrictCall(strict) => OkButCapacity(s, Done(s, c));
    }
  }

  lemma DoneAgrees(s: Shard, c: Call, plain: map<string, nat>)
    requires Ok(s) && Agrees(s, plain)
    ensures Agrees(Done(s, c), PlainAfter(plain, s, c))
  {
    hide Ok, Agrees, Shrinks, Inserted, LookedUp, Released, Reffed, Erased, Cleared, Resized, Unreffed, StoredOver,
         Evicted;
    if Allowed(s, c) {
      OkIsSane(s);
      var s', plain' := Done(s, c), PlainAfter(plain, s, c);
      match c
      case InsertCall(key, value, charge, hold) =>
        InsertedOk(s, key, value, charge, hold);
        var h := Inserted(s, key, value, charge, hold).1;
        if h.Some? {
          StoreAgrees(s, Evicted(s, charge).0, s', key, value, h.value, plain);
        } else {
          ShrinkAgrees(s, s', plain, plain);
        }
      case LookupCall(key) => LookedUpOk(s, key); ShrinkAgrees(s, s', plain, plain);
      case ReleaseCall(h, force) => ReleasedOk(s, h, force); ShrinkAgrees(s, s', plain, plain');
      case RefCall(h) => ReffedOk(s, h); ShrinkAgrees(s, s', plain, plain);
      case EraseCall(key) => EraseCallOk(s, key); ShrinkAgrees(s, s', plain, plain');
      case ClearCall => ClearOk(s); EmptyAgrees(s');
      case ResizeCall(capacity) => ResizedOk(s, capacity); ShrinkAgrees(s, s', plain, plain);
      case StrictCall(strict) => ShrinkStrict(s, s'); ShrinkAgrees(s, s', plain, plain);
    }
  }

  lemma EraseCallOk(s: Shard, key: string)
    requires Ok(s)
    ensures key in s.table ==> s.table[key] < |s.handles|
    ensures var r := Erased(s, key).0; Ok(r) && r.table == s.table - {key} && Shrinks(s, r) && r.capacity == s.capacity
  {
    hide Life, Counted, Shrinks, Erased;
    ErasedOk(s, key, {}, 0, 0);
  }

  lemma EmptyAgrees(s: Shard)
    requires s.table == map[]
    ensures Agrees(s, map[])
  {
  }

  lemma ShrinkStrict(s: Shard, s': Shard)
    requires Ok(s) && s' == s.(strict := s'.strict)
    ensures Shrinks(s, s')
  {
    hide Life, Counted;
  }

  ghost function Run(s: Shard, calls: seq<Call>): Shard
    requires Ok(s)
    decreases |calls|
  {
    if calls == [] then s else (DoneOk(s, calls[0]); Run(Done(s, calls[0]), calls[1..]))
  }

  /** The reference map of a history. */
  ghost function Plain(plain: map<string, nat>, s: Shard, calls: seq<Call>): map<string, nat>
    requires Ok(s)
    decreases |calls|
  {
    if calls == [] then plain
    else (DoneOk(s, calls[0]); Plain(PlainAfter(plain, s, calls[0]), Done(s, calls[0]), calls[1..]))
  }

  lemma {:induction false} RunAgrees(s: Shard, calls: seq<Call>, plain: map<string, nat>)
    requires Ok(s) && Agrees(s, plain)
    ensures Ok(Run(s, calls)) && Agrees(Run(s, calls), Plain(plain, s, calls))
    decreases |calls|
  {
    hide Ok, Agrees, Done, PlainAfter;
    if calls != [] {
      DoneOk(s, calls[0]);
      DoneAgrees(s, calls[0], plain);
      RunAgrees(Done(s, calls[0]), calls[1..], PlainAfter(plain, s, calls[0]));
    }
  }

  function Empty(capacity: nat, strict: bool): Shard {
    Shard([], [], map[], 0, 0, 0, capacity, strict, [])
  }

  /** After every history Lookup returns nothing, or the value of the last Insert of the key that stored
      an entry, if the key has not been erased since. */
  lemma LookupAgreesWithMap(capacity: nat, strict: bool, calls: seq<Call>, key: string)
    ensures Ok(Empty(capacity, strict)) && Sane(Run(Empty(capacity, strict), calls))
    ensures var s, plain := Run(Empty(capacity, strict), calls), Plain(map[], Empty(capacity, strict), calls);
            var (s', found) := LookedUp(s, key);
            found.Some? ==>
              key in plain && found.value < |s'.handles| && s'.handles[found.value].value == Some(plain[key])
  {
    hide Ok, Plain, Run, LookedUp, Shrinks;
    EmptyOk(capacity, strict);
    EmptyAgrees(Empty(capacity, strict));
    RunAgrees(Empty(capacity, strict), calls, map[]);
    var s := Run(Empty(capacity, strict), calls);
    OkIsSane(s);
    LookedUpOk(s, key);
  }

  /** A history without SetCapacity in which the charge of every inserted entry fits on arrival, and no
      Release is forced on an entry that others hold while its key is cached. */
  ghost predicate AllFit(s: Shard, calls: seq<Call>)
    requires Ok(s)
    decreases |calls|
  {
    calls != [] ==>
      && !calls[0].ResizeCall?
      && (calls[0].InsertCall? ==> calls[0].charge < SIZE && Fits(s, calls[0].charge))
      && (calls[0].ReleaseCall? && calls[0].force && Allowed(s, calls[0]) ==> Sole(s, calls[0].h))
      && (DoneOk(s, calls[0]); AllFit(Done(s, calls[0]), calls[1..]))
  }

  lemma ReleaseIsExactIff(s: Shard, h: nat, plain: map<string, nat>)
    requires Ok(s) && s.table.Keys == plain.Keys && h < |s.handles| && s.handles[h].flags.refs > 0
    ensures forall k | k in s.table :: s.table[k] < |s.handles|
    ensures var plain' := if Unshared(s, h) then plain - {s.handles[h].key} else plain;
            Released(s, h, true).0.table.Keys == plain'.Keys <==> Sole(s, h)
  {
    hide Ok, Shrinks, Released;
    ReleasedOk(s, h, true);
    CachedIsListed(s, h);
    var key := s.handles[h].key;
    assert key in s.table.Keys <==> key in s.table;
    assert key !in (s.table - {key}).Keys;
  }

  /** With everything fitting, a call keeps the cache equal to the map exactly if it is not a forced Release
      of an entry that others hold while its key is cached. */
  lemma DoneIsExact(s: Shard, c: Call, plain: map<string, nat>)
    requires Ok(s) && s.table.Keys == plain.Keys && !c.ResizeCall?
    requires c.InsertCall? ==> c.charge < SIZE && Fits(s, c.charge)
    ensures Done(s, c).table.Keys == PlainAfter(plain, s, c).Keys
            <==> (c.ReleaseCall? && c.force && Allowed(s, c) ==> Sole(s, c.h))
  {
    hide Ok, Shrinks, Inserted, LookedUp, Released, Reffed, Erased, Cleared, Unreffed, StoredOver, Evicted, Fits;
    if Allowed(s, c) {
      OkIsSane(s);
      match c
      case InsertCall(key, value, charge, hold) => InsertedOk(s, key, value, charge, hold);
      case LookupCall(key) => LookedUpOk(s, key);
      case ReleaseCall(h, force) =>
        ReleasedOk(s, h, force);
        if force {
          ReleaseIsExactIff(s, h, plain);
        }
      case RefCall(h) => ReffedOk(s, h);
      case EraseCall(key) => EraseCallOk(s, key);
      case ClearCall => ClearOk(s);
      case StrictCall(strict) =>
    }
  }

  lemma {:induction false} RunIsExact(s: Shard, calls: seq<Call>, plain: map<string, nat>)
    requires Ok(s) && s.table.Keys == plain.Keys && AllFit(s, calls)
    ensures Run(s, calls).table.Keys == Plain(plain, s, calls).Keys
    decreases |calls|
  {
    hide Ok, Done, PlainAfter, Fits;
    if calls != [] {
      DoneOk(s, calls[0]);
      DoneIsExact(s, calls[0], plain);
      RunIsExact(Done(s, calls[0]), calls[1..], PlainAfter(plain, s, calls[0]));
    }
  }

  /** When everything fits, the cache is the map: Lookup finds a key exactly when the map binds it. */
  lemma ExactWhenAllFit(capacity: nat, strict: bool, calls: seq<Call>, key: string)
    requires Ok(Empty(capacity, strict)) && AllFit(Empty(capacity, strict), calls)
    ensures var s, plain := Run(Empty(capacity, strict), calls), Plain(map[], Empty(capacity, strict), calls);
            Sane(s) && (LookedUp(s, key).1.Some? <==> key in plain)
  {
    hide Ok, Plain, Run, LookedUp, Shrinks, AllFit;
    LookupAgreesWithMap(capacity, strict, calls, key);
    EmptyAgrees(Empty(capacity, strict));
    RunAgrees(Empty(capacity, strict), calls, map[]);
    RunIsExact(Empty(capacity, strict), calls, map[]);
    LookedUpOk(Run(Empty(capacity, strict), calls), key);
    assert key in Run(Empty(capacity, strict), calls).table.Keys
           <==> key in Plain(map[], Empty(capacity, strict), calls).Keys;
  }

  // ----- a forced Release that goes too far -----

  function Held(k: string, v: nat, refs: nat, inCache: bool): Handle {
    Handle(Flags(inCache, false, refs), k, Some(v), 1)
  }

  /** One client has inserted and looked up an entry, another has replaced it. */
  function Replaced(k: string, v1: nat, v2: nat): Shard {
    Shard([Held(k, v1, 2, false), Held(k, v2, 0, true)], [], map[k := 1], 0, 2, 1, 10, false, [])
  }

  lemma InsertsHeld(k: string, v1: nat)
    ensures Inserted(Empty(10, false), k, v1, 1, true) ==
            (Shard([Held(k, v1, 1, true)], [], map[k := 0], 0, 1, 1, 10, false, []), Some(0))
  {
    assert [] + [Held(k, v1, 1, true)] == [Held(k, v1, 1, true)];
    var s1 := Taken(Empty(10, false), NewHandle(k, v1, 1, true)).0;
    assert s1.handles == [Held(k, v1, 1, true)] && Erased(s1, k).0 == s1;
    assert map[][k := 0] == map[k := 0];
  }

  lemma LooksUp(k: string, v1: nat)
    ensures LookedUp(Shard([Held(k, v1, 1, true)], [], map[k := 0], 0, 1, 1, 10, false, []), k).0 ==
            Shard([Held(k, v1, 2, true)], [], map[k := 0], 0, 1, 1, 10, false, [])
  {
  }

  lemma InsertsAgain(k: string, v1: nat, v2: nat)
    ensures var s := Shard([Held(k, v1, 2, true)], [], map[k := 0], 0, 1, 1, 10, false, []);
            Sane(s) && Sane(Evicted(s, 1).0) && Inserted(s, k, v2, 1, false) == (Replaced(k, v1, v2), Some(1))
  {
    var s := Shard([Held(k, v1, 2, true)], [], map[k := 0], 0, 1, 1, 10, false, []);
    assert Swept(s, 1, 0, false) == (s, true);
    var s1 := Taken(s, NewHandle(k, v2, 1, false)).0;
    assert s1.handles == [Held(k, v1, 2, true), Held(k, v2, 0, true)];
    var s2 := Erased(s1, k).0;
    assert s2.handles == [Held(k, v1, 2, false), Held(k, v2, 0, true)] && s2.table == map[];
    assert map[][k := 1] == map[k := 1];
  }

  /** Insert(k, v1), held; Lookup(k); Insert(k, v2); forced Release of the first entry: the cache has lost
      the second entry, which the documentation does not let go. */
  lemma ForcedReleaseRemovesNewer(k: string, v1: nat, v2: nat)
    ensures Ok(Empty(10, false))
    ensures var calls := [InsertCall(k, v1, 1, true), LookupCall(k), InsertCall(k, v2, 1, false), ReleaseCall(0, true)];
            Run(Empty(10, false), calls).table == map[] && Plain(map[], Empty(10, false), calls) == map[k := v2]
  {
    hide Ok, Inserted, LookedUp, Released, Evicted, Sane;
    EmptyOk(10, false);
    var s0 := Empty(10, false);
    var s1 := Shard([Held(k, v1, 1, true)], [], map[k := 0], 0, 1, 1, 10, false, []);
    var s2 := Shard([Held(k, v1, 2, true)], [], map[k := 0], 0, 1, 1, 10, false, []);
    var s3 := Replaced(k, v1, v2);
    var c0, c1, c2, c3 := InsertCall(k, v1, 1, true), LookupCall(k), InsertCall(k, v2, 1, false), ReleaseCall(0, true);
    InsertsHeld(k, v1);
    assert Done(s0, c0) == s1 && PlainAfter(map[], s0, c0) == map[k := v1];
    DoneOk(s0, c0);
    LooksUp(k, v1);
    assert Done(s1, c1) == s2 && PlainAfter(map[k := v1], s1, c1) == map[k := v1];
    DoneOk(s1, c1);
    InsertsAgain(k, v1, v2);
    assert Done(s2, c2) == s3 && PlainAfter(map[k := v1], s2, c2) == map[k := v2];
    DoneOk(s2, c2);
    ReleasedOk(s3, 0, true);
    assert Done(s3, c3).table == map[] && PlainAfter(map[k := v2], s3, c3) == map[k := v2];
    DoneOk(s3, c3);
    RunOne(Done(s3, c3), map[k := v2]);
    RunCons(s3, c3, [], map[k := v2]);
    RunCons(s2, c2, [c3], map[k := v1]);
    RunCons(s1, c1, [c2, c3], map[k := v1]);
    RunCons(s0, c0, [c1, c2, c3], map[]);
  }

  lemma RunOne(s: Shard, plain: map<string, nat>)
    requires Ok(s)
    ensures Run(s, []) == s && Plain(plain, s, []) == plain
  {
  }

  lemma RunCons(s: Shard, c: Call, calls: seq<Call>, plain: map<string, nat>)
    requires Ok(s) && Ok(Done(s, c))
    ensures Run(s, [c] + calls) == Run(Done(s, c), calls)
    ensures Plain(plain, s, [c] + calls) == Plain(PlainAfter(plain, s, c), Done(s, c), calls)
  {
    hide Ok, Done, PlainAfter;
    assert ([c] + calls)[1..] == calls;
  }
}
