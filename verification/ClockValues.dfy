/** The values of the CLOCK cache when calls do not overlap: each one that is handed over is deleted
    once, or still in a handle that is cached or referenced (external/rocksdb/cache/clock_cache.cc:402-607). */
module ClockValues {
  import opened Strings
  import opened ClockHandle
  import opened ClockShard
  import opened ClockHistory

  function Of(x: Handle): multiset<nat> {
    if x.value.Some? then multiset{x.value.value} else multiset{}
  }

  /** The values in the first `n` handles. */
  function Values(handles: seq<Handle>, n: nat): multiset<nat>
    requires n <= |handles|
  {
    if n == 0 then multiset{} else Values(handles, n - 1) + Of(handles[n - 1])
  }

  /** The values the shard has taken over: those in handles, and those it has deleted. */
  function Owned(s: Shard): multiset<nat> {
    Values(s.handles, |s.handles|) + multiset(s.deleted)
  }

  /** A handle has a value exactly while it is cached or referenced. */
  ghost predicate Whole(s: Shard) {
    forall h | 0 <= h < |s.handles| ::
      s.handles[h].value.Some? <==> s.handles[h].flags.inCache || s.handles[h].flags.refs > 0
  }

  ghost predicate WholeBut(s: Shard, due: nat) {
    forall h | 0 <= h < |s.handles| && h != due ::
      s.handles[h].value.Some? <==> s.handles[h].flags.inCache || s.handles[h].flags.refs > 0
  }

  lemma {:induction false} ValuesSame(a: seq<Handle>, b: seq<Handle>, n: nat)
    requires n <= |a| && n <= |b| && forall h | 0 <= h < n :: a[h].value == b[h].value
    ensures Values(a, n) == Values(b, n)
  {
    if n > 0 {
      ValuesSame(a, b, n - 1);
    }
  }

  lemma {:induction false} ValuesChange(a: seq<Handle>, h: nat, x: Handle, n: nat)
    requires h < n <= |a|
    ensures Values(a[h := x], n) + Of(a[h]) == Values(a, n) + Of(x)
  {
    hide Values, Of;
    var b := a[h := x];
    ValuesLast(a, n);
    ValuesLast(b, n);
    if h == n - 1 {
      ValuesSame(a, b, n - 1);
      Swap(Values(a, n - 1), Of(a[h]), Of(x));
    } else {
      ValuesChange(a, h, x, n - 1);
      var y := Of(a[n - 1]);
      Swap(Values(b, n - 1), y, Of(a[h]));
      Swap(Values(a, n - 1), y, Of(x));
    }
  }

  lemma ValuesLast(a: seq<Handle>, n: nat)
    requires 0 < n <= |a|
    ensures Values(a, n) == Values(a, n - 1) + Of(a[n - 1])
  {
  }

  lemma Swap<T>(a: multiset<T>, b: multiset<T>, c: multiset<T>)
    ensures a + b + c == a + c + b
  {
  }

  lemma SameOwned(s: Shard, s': Shard)
    ensures s'.handles == s.handles && s'.deleted == s.deleted ==> Owned(s') == Owned(s) && (Whole(s) ==> Whole(s'))
  {
  }

  lemma FlagOwned(s: Shard, h: nat, f: Flags)
    requires h < |s.handles| && Whole(s)
    ensures Owned(WithFlag(s, h, f)) == Owned(s) && WholeBut(WithFlag(s, h, f), h)
    ensures (f.inCache || f.refs > 0 <==> s.handles[h].flags.inCache || s.handles[h].flags.refs > 0)
            ==> Whole(WithFlag(s, h, f))
  {
    hide Values;
    ValuesSame(s.handles, WithFlag(s, h, f).handles, |s.handles|);
  }

  /** RecycleHandle deletes the value of the handle. */
  lemma RecycledOwned(s: Shard, h: nat)
    requires h < |s.handles| && WholeBut(s, h) && !s.handles[h].flags.inCache && s.handles[h].flags.refs == 0
    ensures Owned(Recycled(s, h)) == Owned(s) && Whole(Recycled(s, h))
  {
    hide Values, Of;
    var x := s.handles[h];
    var x' := x.(key := "", value := None);
    ValuesChange(s.handles, h, x', |s.handles|);
    assert Of(x') == multiset{} by { OfNone(x'); }
    NoMore(Values(s.handles, |s.handles|));
    DeletedNow(s.deleted, x);
    var n := |s.handles|;
    Swap(Values(s.handles[h := x'], n), multiset(s.deleted), Of(x));
    assert Recycled(s, h).handles == s.handles[h := x'];
  }

  lemma NoMore<T>(a: multiset<T>)
    ensures a + multiset{} == a
  {
  }

  lemma OfNone(x: Handle)
    requires x.value.None?
    ensures Of(x) == multiset{}
  {
  }

  lemma DeletedNow(deleted: seq<nat>, x: Handle)
    ensures multiset(deleted + if x.value.Some? then [x.value.value] else []) == multiset(deleted) + Of(x)
  {
    if x.value.Some? {
      assert multiset(deleted + [x.value.value]) == multiset(deleted) + multiset([x.value.value]);
    } else {
      assert deleted + [] == deleted;
    }
  }

  lemma UnsetOwned(s: Shard, h: nat)
    requires h < |s.handles| && Whole(s)
    ensures Owned(Unset(s, h).0) == Owned(s) && Whole(Unset(s, h).0)
  {
    hide Owned, Recycled, Whole, WholeBut;
    var f := s.handles[h].flags;
    FlagOwned(s, h, f.(inCache := false));
    if f.inCache && f.refs == 0 {
      RecycledOwned(WithFlag(s, h, f.(inCache := false)), h);
    }
  }

  lemma ErasedOwned(s: Shard, key: string)
    requires Whole(s) && (key in s.table ==> s.table[key] < |s.handles|)
    ensures Owned(Erased(s, key).0) == Owned(s) && Whole(Erased(s, key).0)
  {
    hide Owned, Unset, Whole;
    if key in s.table {
      var s' := s.(table := s.table - {key});
      SameOwned(s, s');
      UnsetOwned(s', s.table[key]);
    }
  }

  lemma ReffedOwned(s: Shard, h: nat)
    requires h < |s.handles| && Whole(s)
    ensures Owned(Reffed(s, h).0) == Owned(s) && Whole(Reffed(s, h).0)
  {
    hide Owned, Whole, WholeBut;
    var f := s.handles[h].flags;
    FlagOwned(s, h, f.(refs := f.refs + 1));
    SameOwned(WithFlag(s, h, f.(refs := f.refs + 1)), Reffed(s, h).0);
  }

  lemma UnreffedOwned(s: Shard, h: nat, setUsage: bool)
    requires h < |s.handles| && s.handles[h].flags.refs > 0 && Whole(s)
    ensures Owned(Unreffed(s, h, setUsage).0) == Owned(s) && Whole(Unreffed(s, h, setUsage).0)
  {
    hide Owned, Recycled, Whole, WholeBut;
    var x := s.handles[h];
    var f := x.flags.(usage := x.flags.usage || setUsage, refs := x.flags.refs - 1);
    var pinned: nat := if x.flags.refs == 1 then (s.pinned - x.charge) % SIZE else s.pinned;
    var s' := WithFlag(s, h, f).(pinned := pinned);
    FlagOwned(s, h, f);
    SameOwned(WithFlag(s, h, f), s');
    if x.flags.refs == 1 && !x.flags.inCache {
      assert WholeBut(s', h) by { SameBut(WithFlag(s, h, f), s', h); }
      RecycledOwned(s', h);
    }
  }

  lemma SameBut(s: Shard, s': Shard, h: nat)
    requires WholeBut(s, h) && s'.handles == s.handles
    ensures WholeBut(s', h)
  {
  }

  lemma ReleasedOwned(s: Shard, h: nat, force: bool)
    requires Ok(s) && Whole(s) && h < |s.handles| && s.handles[h].flags.refs > 0
    ensures forall k | k in s.table :: s.table[k] < |s.handles|
    ensures Owned(Released(s, h, force).0) == Owned(s) && Whole(Released(s, h, force).0)
  {
    hide Ok, Owned, Whole, Unreffed, Erased, Shrinks;
    SaneTable(s);
    UnreffedOk(s, h, true);
    UnreffedOwned(s, h, true);
    var (s', erased) := Unreffed(s, h, true);
    if force && !erased {
      SaneTable(s');
      ErasedOwned(s', s'.handles[h].key);
    }
  }

  lemma LookedUpOwned(s: Shard, key: string)
    requires Ok(s) && Whole(s)
    ensures key in s.table ==> s.table[key] < |s.handles|
    ensures Owned(LookedUp(s, key).0) == Owned(s) && Whole(LookedUp(s, key).0)
  {
    hide Ok, Owned, Whole, Unreffed, Reffed, Shrinks;
    SaneTable(s);
    if key in s.table {
      var h := s.table[key];
      ReffedOk(s, h);
      ReffedOwned(s, h);
      KeyInTable(s, key);
    }
  }

  lemma {:induction false} ClearedOwned(s: Shard, i: nat)
    requires Whole(s)
    ensures Owned(ClearedFrom(s, i)) == Owned(s) && Whole(ClearedFrom(s, i))
    decreases |s.handles| - i
  {
    hide Owned, Whole, Unset;
    if i < |s.handles| {
      UnsetOwned(s, i);
      UnsetKeepsLength(s, i);
      ClearedOwned(Unset(s, i).0, i + 1);
    }
  }

  lemma TriedOwned(s: Shard, h: nat)
    requires h < |s.handles| && Whole(s)
    ensures Owned(Tried(s, h).0) == Owned(s) && Whole(Tried(s, h).0)
  {
    hide Owned, Recycled, Whole, WholeBut;
    var x := s.handles[h];
    if x.flags == Flags(true, false, 0) {
      var s1 := s.(table := s.table - {x.key});
      SameOwned(s, s1);
      FlagOwned(s1, h, Flags(false, false, 0));
      RecycledOwned(WithFlag(s1, h, Flags(false, false, 0)), h);
    } else {
      FlagOwned(s, h, x.flags.(usage := false));
    }
  }

  lemma {:induction false} SweptOwned(s: Shard, charge: nat, newHead: nat, second: bool)
    requires s.head < |s.handles| && newHead < |s.handles| && Whole(s)
    ensures Owned(Swept(s, charge, newHead, second).0) == Owned(s) && Whole(Swept(s, charge, newHead, second).0)
    decreases Left(|s.handles|, s.head, newHead, second)
  {
    hide Owned, Tried, Whole, Fits;
    if Fits(s, charge) {
      SameOwned(s, s.(head := newHead));
    } else {
      TriedKeeps(s, newHead);
      TriedOwned(s, newHead);
      var s' := Tried(s, newHead).0;
      var next := NextHead(s', newHead);
      if !(next == s.head && second) {
        SweptOwned(s', charge, next, second || next == s.head);
      }
    }
  }

  lemma EvictedOwned(s: Shard, charge: nat)
    requires Whole(s) && (s.usage != 0 ==> s.head < |s.handles|)
    ensures Owned(Evicted(s, charge).0) == Owned(s) && Whole(Evicted(s, charge).0)
  {
    hide Owned, Whole, Swept;
    if s.usage != 0 {
      SweptOwned(s, charge, s.head, false);
    }
  }

  /** The new handle takes over its value; a recycled one has lost its own. */
  lemma TakenOwned(s: Shard, x: Handle, value: nat)
    requires Ok(s) && Whole(s) && x.value == Some(value) && x.flags.inCache
    ensures s.recycle != [] ==> s.recycle[|s.recycle| - 1] < |s.handles|
    ensures Owned(Taken(s, x).0) == Owned(s) + multiset{value} && Whole(Taken(s, x).0)
  {
    hide Values, Of, Whole, Life, Listed, Counted;
    OkIsSane(s);
    TakenWhole(s, x);
    var r := Taken(s, x).0;
    if s.recycle == [] {
      ValuesAppended(s.handles, x);
    } else {
      var h := s.recycle[|s.recycle| - 1];
      ValuesChange(s.handles, h, x, |s.handles|);
      OfNone(s.handles[h]);
      NoMore(Values(r.handles, |r.handles|));
    }
    assert Of(x) == multiset{value} by { OfSome(x, value); }
    Swap(Values(s.handles, |s.handles|), multiset{value}, multiset(s.deleted));
  }

  lemma TakenWhole(s: Shard, x: Handle)
    requires Ok(s) && Whole(s) && x.value.Some? && x.flags.inCache
    ensures s.recycle != [] ==>
              var h := s.recycle[|s.recycle| - 1]; h < |s.handles| && s.handles[h].value.None?
    ensures Sane(s) && Whole(Taken(s, x).0)
  {
    hide Listed, Counted;
    OkIsSane(s);
    if s.recycle != [] {
      assert s.recycle[|s.recycle| - 1] in s.recycle;
    }
  }

  lemma OfSome(x: Handle, value: nat)
    requires x.value == Some(value)
    ensures Of(x) == multiset{value}
  {
  }

  lemma ValuesAppended(handles: seq<Handle>, x: Handle)
    ensures Values(handles + [x], |handles| + 1) == Values(handles, |handles|) + Of(x)
  {
    ValuesSame(handles, handles + [x], |handles|);
  }

  lemma StoredOwned(s: Shard, key: string, value: nat, charge: nat, hold: bool)
    requires Ok(s) && Whole(s)
    ensures Sane(s)
    ensures var r := Stored(s, key, value, charge, hold).0; Owned(r) == Owned(s) + multiset{value} && Whole(r)
  {
    hide Ok, Owned, Whole, Taken, Erased, Life, Listed, Counted;
    OkIsSane(s);
    var x := NewHandle(key, value, charge, hold);
    TakenOk(s, x);
    TakenOwned(s, x, value);
    var s1 := Taken(s, x).0;
    ErasedOwned(s1, key);
    SameOwned(Erased(s1, key).0, Stored(s, key, value, charge, hold).0);
  }

  /** What Insert takes over: the value of an entry it stores, or that nobody is to hold. The value of an
      entry that was to be held stays with the caller when it is refused. */
  lemma InsertedOwned(s: Shard, key: string, value: nat, charge: nat, hold: bool)
    requires Ok(s) && Whole(s) && charge < SIZE
    ensures Sane(s) && Sane(Evicted(s, charge).0)
    ensures var (r, h) := Inserted(s, key, value, charge, hold);
            Owned(r) == Owned(s) + (if h.Some? || !hold then multiset{value} else multiset{}) && Whole(r)
  {
    hide Ok, Owned, Whole, Evicted, Stored, Shrinks, StoredOver;
    InsertedOk(s, key, value, charge, hold);
    EvictedOk(s, charge);
    EvictedOwned(s, charge);
    var e := Evicted(s, charge).0;
    StoredOwned(e, key, value, charge, hold);
    DeletedOwned(e, if hold then [] else [value]);
  }

  lemma DeletedOwned(s: Shard, more: seq<nat>)
    requires Whole(s)
    ensures var r := s.(deleted := s.deleted + more); Owned(r) == Owned(s) + multiset(more) && Whole(r)
  {
    hide Values;
    assert multiset(s.deleted + more) == multiset(s.deleted) + multiset(more);
  }

  // ----- what the calls report -----

  /** The result says whether a value has been deleted, which is then the only one. */
  predicate Reports(s: Shard, r: (Shard, bool)) {
    if r.1 then |r.0.deleted| == |s.deleted| + 1 && r.0.deleted[..|s.deleted|] == s.deleted
    else r.0.deleted == s.deleted
  }

  lemma RecycledReports(s: Shard, h: nat)
    requires h < |s.handles| && s.handles[h].value.Some?
    ensures Reports(s, (Recycled(s, h), true))
  {
  }

  lemma UnsetReports(s: Shard, h: nat)
    requires Whole(s) && h < |s.handles|
    ensures Reports(s, Unset(s, h))
  {
    hide Recycled;
    var f := s.handles[h].flags;
    if f.inCache && f.refs == 0 {
      RecycledReports(WithFlag(s, h, f.(inCache := false)), h);
    }
  }

  /** Erase, and UnsetInCache. */
  lemma ErasedReports(s: Shard, key: string)
    requires Whole(s) && (key in s.table ==> s.table[key] < |s.handles|)
    ensures Reports(s, Erased(s, key))
  {
    hide Unset, Whole, Reports;
    if key in s.table {
      var s' := s.(table := s.table - {key});
      SameOwned(s, s');
      UnsetReports(s', s.table[key]);
      assert s'.deleted == s.deleted;
      ReportsSame(s, s', Unset(s', s.table[key]));
    } else {
      ReportsSame(s, s, (s, false));
    }
  }

  lemma ReportsSame(s: Shard, s': Shard, r: (Shard, bool))
    requires s'.deleted == s.deleted
    ensures Reports(s, r) <==> Reports(s', r)
    ensures !r.1 && r.0.deleted == s.deleted ==> Reports(s, r)
  {
  }

  /** Unref. */
  lemma UnreffedReports(s: Shard, h: nat, setUsage: bool)
    requires Whole(s) && h < |s.handles| && s.handles[h].flags.refs > 0
    ensures Reports(s, Unreffed(s, h, setUsage))
  {
    hide Recycled;
    var x := s.handles[h];
    var f := x.flags.(usage := x.flags.usage || setUsage, refs := x.flags.refs - 1);
    if x.flags.refs == 1 && !x.flags.inCache {
      RecycledReports(WithFlag(s, h, f).(pinned := (s.pinned - x.charge) % SIZE), h);
    }
  }

  /** TryEvict. */
  lemma TriedReports(s: Shard, h: nat)
    requires Whole(s) && h < |s.handles|
    ensures Reports(s, Tried(s, h))
    ensures Tried(s, h).1 <==> s.handles[h].flags == Flags(true, false, 0)
  {
    hide Recycled;
    var x := s.handles[h];
    if x.flags == Flags(true, false, 0) {
      RecycledReports(WithFlag(s.(table := s.table - {x.key}), h, Flags(false, false, 0)), h);
    }
  }

  /** Release, forced or not. */
  lemma ReleasedReports(s: Shard, h: nat, force: bool)
    requires Ok(s) && Whole(s) && h < |s.handles| && s.handles[h].flags.refs > 0
    ensures forall k | k in s.table :: s.table[k] < |s.handles|
    ensures Reports(s, Released(s, h, force))
  {
    hide Ok, Whole, Unreffed, Erased, Shrinks, Reports;
    SaneTable(s);
    UnreffedOk(s, h, true);
    UnreffedOwned(s, h, true);
    UnreffedReports(s, h, true);
    var (s', erased) := Unreffed(s, h, true);
    if force && !erased {
      SaneTable(s');
      ErasedReports(s', s'.handles[h].key);
      NothingYet(s, (s', erased));
      ReportsSame(s, s', Erased(s', s'.handles[h].key));
    }
  }

  lemma NothingYet(s: Shard, r: (Shard, bool))
    requires Reports(s, r) && !r.1
    ensures r.0.deleted == s.deleted
  {
  }

  // ----- histories -----

  /** The value that a call hands over. */
  ghost function HandedOver(s: Shard, c: Call): multiset<nat>
    requires Ok(s)
  {
    if c.InsertCall? && Allowed(s, c)
       && (!c.hold ||
           (InsertedOk(s, c.key, c.value, c.charge, c.hold);
            Inserted(s, c.key, c.value, c.charge, c.hold).1.Some?))
    then multiset{c.value} else multiset{}
  }

  lemma DoneOwned(s: Shard, c: Call)
    requires Ok(s) && Whole(s)
    ensures Owned(Done(s, c)) == Owned(s) + HandedOver(s, c) && Whole(Done(s, c))
  {
    hide Ok, Owned, Whole, Inserted, LookedUp, Released, Reffed, Erased, Cleared, Resized, Shrinks, StoredOver;
    if Allowed(s, c) {
      OkIsSane(s);
      match c
      case InsertCall(key, value, charge, hold) =>
        InsertedOk(s, key, value, charge, hold);
        InsertedOwned(s, key, value, charge, hold);
      case LookupCall(key) => LookedUpOwned(s, key);
      case ReleaseCall(h, force) => ReleasedOwned(s, h, force);
      case RefCall(h) => ReffedOwned(s, h);
      case EraseCall(key) => ErasedOwned(s, key);
      case ClearCall => AllClearedOwned(s);
      case ResizeCall(capacity) => ResizedOwned(s, capacity);
      case StrictCall(strict) => SameOwned(s, Done(s, c));
    }
  }

  lemma AllClearedOwned(s: Shard)
    requires Whole(s)
    ensures Owned(Cleared(s)) == Owned(s) && Whole(Cleared(s))
  {
    hide Owned, Whole, ClearedFrom;
    var s' := s.(table := map[]);
    SameOwned(s, s');
    ClearedOwned(s', 0);
  }

  lemma ResizedOwned(s: Shard, capacity: nat)
    requires Whole(s) && (s.usage != 0 ==> s.head < |s.handles|)
    ensures Owned(Resized(s, capacity)) == Owned(s) && Whole(Resized(s, capacity))
  {
    hide Owned, Whole, Evicted;
    var s' := s.(capacity := capacity);
    SameOwned(s, s');
    EvictedOwned(s', 0);
  }

  /** All values handed over in a history. */
  ghost function AllHandedOver(s: Shard, calls: seq<Call>): multiset<nat>
    requires Ok(s)
    decreases |calls|
  {
    if calls == [] then multiset{}
    else (DoneOk(s, calls[0]); HandedOver(s, calls[0]) + AllHandedOver(Done(s, calls[0]), calls[1..]))
  }

  lemma {:induction false} RunOwned(s: Shard, calls: seq<Call>)
    requires Ok(s) && Whole(s)
    ensures Owned(Run(s, calls)) == Owned(s) + AllHandedOver(s, calls) && Whole(Run(s, calls))
    decreases |calls|
  {
    hide Ok, Owned, Whole, Done, HandedOver;
    if calls != [] {
      DoneOk(s, calls[0]);
      DoneOwned(s, calls[0]);
      RunOwned(Done(s, calls[0]), calls[1..]);
    }
  }

  /** After any history, the values handed over are those whose deleters have been called and those of the
      handles that are cached or referenced, each as often as it was handed over. */
  lemma EachDeletedOnce(capacity: nat, strict: bool, calls: seq<Call>)
    ensures Ok(Empty(capacity, strict))
    ensures var s := Run(Empty(capacity, strict), calls);
            && multiset(s.deleted) + Values(s.handles, |s.handles|) == AllHandedOver(Empty(capacity, strict), calls)
            && forall h | 0 <= h < |s.handles| ::
                 s.handles[h].value.Some? <==> s.handles[h].flags.inCache || s.handles[h].flags.refs > 0
  {
    hide Run, AllHandedOver, Ok;
    EmptyOk(capacity, strict);
    EmptyOwned(capacity, strict);
    NothingBefore(AllHandedOver(Empty(capacity, strict), calls));
    var s := Run(Empty(capacity, strict), calls);
    Commutes(Values(s.handles, |s.handles|), multiset(s.deleted));
    RunOwned(Empty(capacity, strict), calls);
  }

  lemma EmptyOwned(capacity: nat, strict: bool)
    ensures Owned(Empty(capacity, strict)) == multiset{} && Whole(Empty(capacity, strict))
  {
  }

  lemma NothingBefore<T>(a: multiset<T>)
    ensures multiset{} + a == a
  {
  }

  lemma Commutes<T>(a: multiset<T>, b: multiset<T>)
    ensures a + b == b + a
  {
  }
}
