/** The capacity in histories of calls that do not overlap: how much eviction can free, when Insert is
    refused, and that a strict cache never holds more than its capacity
    (external/rocksdb/cache/clock_cache.cc:483-607). */
module ClockLimits {
  import opened Strings
  import opened ClockHandle
  import opened ClockShard
  import opened ClockHistory

  // ----- nothing but Insert adds to the charges -----

  function Charges(s: Shard): nat {
    TotalCharge(s.handles, s.recycle)
  }

  ghost predicate Falls(s: Shard, s': Shard) {
    Charges(s') <= Charges(s) && s'.capacity == s.capacity && s'.strict == s.strict
  }

  lemma FlagFalls(s: Shard, h: nat, f: Flags)
    requires h < |s.handles|
    ensures Charges(WithFlag(s, h, f)) == Charges(s)
  {
    hide TotalCharge;
    TotalFlags(s.handles, s.recycle, h, f);
  }

  lemma RecycledFalls(s: Shard, h: nat)
    requires h < |s.handles| && h !in s.recycle
    ensures Falls(s, Recycled(s, h)) && Charges(Recycled(s, h)) + s.handles[h].charge == Charges(s)
  {
    hide TotalCharge;
    TotalRecycled(s.handles, s.recycle, h);
  }

  lemma NotRecycled(s: Shard, h: nat)
    requires Life(s.handles, s.recycle, None) && h < |s.handles|
    requires s.handles[h].flags.inCache || s.handles[h].flags.refs > 0
    ensures h !in s.recycle
  {
  }

  lemma UnsetFalls(s: Shard, h: nat)
    requires Life(s.handles, s.recycle, None) && h < |s.handles|
    ensures Falls(s, Unset(s, h).0)
  {
    hide Life, Charges, Recycled;
    var f := s.handles[h].flags;
    FlagFalls(s, h, f.(inCache := false));
    if f.inCache && f.refs == 0 {
      NotRecycled(s, h);
      RecycledFalls(WithFlag(s, h, f.(inCache := false)), h);
    }
  }

  lemma ErasedFalls(s: Shard, key: string)
    requires Life(s.handles, s.recycle, None) && (key in s.table ==> s.table[key] < |s.handles|)
    ensures Falls(s, Erased(s, key).0)
  {
    hide Life, Unset;
    if key in s.table {
      UnsetFalls(s.(table := s.table - {key}), s.table[key]);
    }
  }

  lemma ReffedFalls(s: Shard, h: nat)
    requires h < |s.handles|
    ensures Falls(s, Reffed(s, h).0)
  {
    hide Charges;
    var f := s.handles[h].flags;
    FlagFalls(s, h, f.(refs := f.refs + 1));
    SameCharges(WithFlag(s, h, f.(refs := f.refs + 1)), Reffed(s, h).0);
  }

  lemma SameCharges(s: Shard, s': Shard)
    ensures s'.handles == s.handles && s'.recycle == s.recycle ==> Charges(s') == Charges(s)
  {
  }

  lemma UnreffedFalls(s: Shard, h: nat, setUsage: bool)
    requires Life(s.handles, s.recycle, None) && h < |s.handles| && s.handles[h].flags.refs > 0
    ensures Falls(s, Unreffed(s, h, setUsage).0)
  {
    hide Life, Charges, Recycled;
    var x := s.handles[h];
    var f := x.flags.(usage := x.flags.usage || setUsage, refs := x.flags.refs - 1);
    var pinned: nat := if x.flags.refs == 1 then (s.pinned - x.charge) % SIZE else s.pinned;
    var s' := WithFlag(s, h, f).(pinned := pinned);
    FlagFalls(s, h, f);
    SameCharges(WithFlag(s, h, f), s');
    if x.flags.refs == 1 && !x.flags.inCache {
      NotRecycled(s, h);
      RecycledFalls(s', h);
    }
  }

  lemma ReleasedFalls(s: Shard, h: nat, force: bool)
    requires Ok(s) && h < |s.handles| && s.handles[h].flags.refs > 0
    ensures forall k | k in s.table :: s.table[k] < |s.handles|
    ensures Falls(s, Released(s, h, force).0)
  {
    hide Life, Listed, Counted, Unreffed, Erased, Shrinks, Charges;
    SaneTable(s);
    UnreffedOk(s, h, true);
    UnreffedFalls(s, h, true);
    var (s', erased) := Unreffed(s, h, true);
    if force && !erased {
      SaneTable(s');
      ErasedFalls(s', s'.handles[h].key);
    }
  }

  lemma LookedUpFalls(s: Shard, key: string)
    requires Ok(s)
    ensures key in s.table ==> s.table[key] < |s.handles|
    ensures Falls(s, LookedUp(s, key).0)
  {
    hide Life, Listed, Counted, Unreffed, Reffed, Shrinks, Charges;
    SaneTable(s);
    if key in s.table {
      ReffedOk(s, s.table[key]);
      ReffedFalls(s, s.table[key]);
      KeyInTable(s, key);
    }
  }

  lemma {:induction false} ClearedFalls(s: Shard, i: nat)
    requires Life(s.handles, s.recycle, None) && s.table == map[] && Counted(s, 0, 0)
    requires Listed(s.handles, map[], From(i, |s.handles|))
    ensures Falls(s, ClearedFrom(s, i))
    decreases |s.handles| - i
  {
    hide Life, Counted, Unset, Charges;
    if i < |s.handles| {
      UnsetOk(s, i, From(i, |s.handles|), 0, 0);
      UnsetFalls(s, i);
      assert From(i, |s.handles|) - {i} == From(i + 1, |s.handles|);
      ClearedFalls(Unset(s, i).0, i + 1);
    }
  }

  lemma AllClearedFalls(s: Shard)
    requires Ok(s)
    ensures Falls(s, Cleared(s))
  {
    hide Life, Counted, Listed, ClearedFrom;
    var s' := s.(table := map[]);
    assert Counted(s', 0, 0) by { CountedSame(s, s', 0, 0); }
    ListedCleared(s.handles);
    ClearedFalls(s', 0);
  }

  lemma TriedFalls(s: Shard, h: nat)
    requires Life(s.handles, s.recycle, None) && h < |s.handles|
    ensures Falls(s, Tried(s, h).0)
  {
    hide Life, Charges, Recycled;
    var x := s.handles[h];
    if x.flags == Flags(true, false, 0) {
      var s1 := s.(table := s.table - {x.key});
      SameCharges(s, s1);
      FlagFalls(s1, h, Flags(false, false, 0));
      NotRecycled(s, h);
      RecycledFalls(WithFlag(s1, h, Flags(false, false, 0)), h);
    } else {
      FlagFalls(s, h, x.flags.(usage := false));
    }
  }

  lemma {:induction false} SweptFalls(s: Shard, charge: nat, newHead: nat, second: bool)
    requires Ok(s) && s.head < |s.handles| && newHead < |s.handles|
    ensures Falls(s, Swept(s, charge, newHead, second).0)
    decreases Left(|s.handles|, s.head, newHead, second)
  {
    hide Tried, Life, Listed, Counted, Shrinks, Charges, Fits;
    if Fits(s, charge) {
      SameCharges(s, s.(head := newHead));
    } else {
      TriedOk(s, newHead);
      TriedFalls(s, newHead);
      var s' := Tried(s, newHead).0;
      var next := NextHead(s', newHead);
      if !(next == s.head && second) {
        SweptFalls(s', charge, next, second || next == s.head);
      }
    }
  }

  lemma EvictedFalls(s: Shard, charge: nat)
    requires Ok(s)
    ensures s.usage != 0 ==> s.head < |s.handles|
    ensures Falls(s, Evicted(s, charge).0)
  {
    hide Life, Listed, Charges, TotalPinned, Swept;
    if s.usage != 0 {
      EmptyTotal(s);
      SweptFalls(s, charge, s.head, false);
    }
  }

  /** Insert adds the charge of the new entry, and takes off that of one it replaces. */
  lemma StoredRises(s: Shard, key: string, value: nat, charge: nat, hold: bool)
    requires Ok(s)
    ensures Sane(s)
    ensures Charges(Stored(s, key, value, charge, hold).0) <= Charges(s) + charge
  {
    hide Life, Listed, Counted, Taken, Erased, TotalCharge;
    OkIsSane(s);
    var x := NewHandle(key, value, charge, hold);
    TakenOk(s, x);
    TakenRises(s, x);
    var s1 := Taken(s, x).0;
    ErasedFalls(s1, key);
    var s2 := Erased(s1, key).0;
    SameCharges(s2, Stored(s, key, value, charge, hold).0);
  }

  lemma TakenRises(s: Shard, x: Handle)
    requires Ok(s)
    ensures s.recycle != [] ==> s.recycle[|s.recycle| - 1] < |s.handles|
    ensures Charges(Taken(s, x).0) == Charges(s) + x.charge
  {
    hide TotalCharge, Listed, Counted;
    OkIsSane(s);
    if s.recycle == [] {
      TotalAppended(s.handles, s.recycle, x);
    } else {
      TotalTaken(s.handles, s.recycle, x);
    }
  }

  // ----- what eviction can free -----

  predicate IsIdle(x: Handle) {
    x.flags.inCache && x.flags.refs == 0
  }

  function IdleCharge(x: Handle): nat {
    if IsIdle(x) then x.charge else 0
  }

  /** The charges of the first `n` handles that are in cache and unreferenced. */
  function Idle(handles: seq<Handle>, n: nat): nat
    requires n <= |handles|
  {
    if n == 0 then 0 else Idle(handles, n - 1) + IdleCharge(handles[n - 1])
  }

  /** A handle in use is referenced, or idle. */
  lemma {:induction false} ChargesSplit(handles: seq<Handle>, recycle: seq<nat>, n: nat)
    requires Life(handles, recycle, None) && n <= |handles|
    ensures Total(handles, recycle, n) == Pinned(handles, n) + Idle(handles, n)
  {
    if n > 0 {
      ChargesSplit(handles, recycle, n - 1);
    }
  }

  lemma {:induction false} IdleAtLeast(handles: seq<Handle>, h: nat, n: nat)
    requires h < n <= |handles|
    ensures Idle(handles, n) >= IdleCharge(handles[h])
    ensures (forall x | 0 <= x < n && x != h :: !IsIdle(handles[x])) ==> Idle(handles, n) == IdleCharge(handles[h])
  {
    if h < n - 1 {
      IdleAtLeast(handles, h, n - 1);
    } else {
      IdleOnly(handles, n - 1);
    }
  }

  lemma {:induction false} IdleOnly(handles: seq<Handle>, n: nat)
    requires n <= |handles|
    ensures (forall x | 0 <= x < n :: !IsIdle(handles[x])) ==> Idle(handles, n) == 0
  {
    if n > 0 {
      IdleOnly(handles, n - 1);
    }
  }

  /** The handle that a sweep comes to last. */
  function Last(s: Shard): (h: nat)
    requires s.head < |s.handles|
    ensures h < |s.handles|
  {
    if s.head == 0 then |s.handles| - 1 else s.head - 1
  }

  /** The loop gives up right after its last TryEvict, without another look at the usage: what that call
      frees comes too late. In the first sweep it is known by its usage bit. */
  function Late(s: Shard, second: bool): nat
    requires s.head < |s.handles|
  {
    var x := s.handles[Last(s)];
    if second || x.flags.usage then IdleCharge(x) else 0
  }

  lemma LateIsIdle(s: Shard, second: bool)
    requires Ok(s) && s.head < |s.handles|
    ensures TotalPinned(s.handles) + Late(s, second) <= Charges(s)
  {
    hide Listed, Counted, Pinned, Total, Idle, Life;
    ChargesSplit(s.handles, s.recycle, |s.handles|);
    IdleAtLeast(s.handles, Last(s), |s.handles|);
  }

  lemma OnlyLateIsIdle(s: Shard, newHead: nat)
    requires Ok(s) && s.head < |s.handles| && newHead < |s.handles| && Progress(s, newHead, true)
    requires newHead == Last(s)
    ensures Charges(s) == TotalPinned(s.handles) + Late(s, true)
  {
    hide Listed, Counted, Pinned, Total, Idle, Life;
    ChargesSplit(s.handles, s.recycle, |s.handles|);
    IdleAtLeast(s.handles, newHead, |s.handles|);
    forall x | 0 <= x < |s.handles| && x != newHead ensures !IsIdle(s.handles[x]) {
      assert Behind(|s.handles|, s.head, newHead, x);
      assert Kept(s.handles[x]);
    }
  }

  lemma FitsExactly(s: Shard, charge: nat)
    requires Ok(s) && Charges(s) + charge < SIZE
    ensures s.usage == Charges(s) && (Fits(s, charge) <==> Charges(s) + charge <= s.capacity)
  {
    hide Life, Listed, TotalPinned, TotalCharge;
  }

  lemma TriedPinned(s: Shard, h: nat)
    requires Ok(s) && h < |s.handles|
    ensures TotalPinned(Tried(s, h).0.handles) == TotalPinned(s.handles)
  {
    hide Life, Listed, Counted, Tried, Pinned, Shrinks;
    TriedOk(s, h);
    TriedCharge(s, h);
    PinnedSame(s.handles, Tried(s, h).0.handles, |s.handles|);
  }

  lemma TriedCharge(s: Shard, h: nat)
    requires h < |s.handles|
    ensures h < |Tried(s, h).0.handles| && Tried(s, h).0.handles[h].charge == s.handles[h].charge
  {
  }

  /** What comes too late stays the same as the hand moves on. */
  lemma LateStays(s: Shard, newHead: nat, second: bool)
    requires Ok(s) && s.head < |s.handles| && newHead < |s.handles|
    ensures var s' := Tried(s, newHead).0;
            && s'.head == s.head && |s'.handles| == |s.handles|
            && (NextHead(s', newHead) == s.head <==> newHead == Last(s))
            && (!(newHead == Last(s) && second) ==> Late(s', second || newHead == Last(s)) == Late(s, second))
  {
    hide Life, Listed, Counted, Tried, Shrinks;
    TriedOk(s, newHead);
    TriedCharge(s, newHead);
    TriedFlags(s, newHead);
  }

  lemma TriedFlags(s: Shard, h: nat)
    requires h < |s.handles|
    ensures h < |Tried(s, h).0.handles|
    ensures var f, f' := s.handles[h].flags, Tried(s, h).0.handles[h].flags;
            f' == if f == Flags(true, false, 0) then Flags(false, false, 0) else f.(usage := false)
  {
  }

  lemma {:induction false} SweepSucceedsIff(s: Shard, charge: nat, newHead: nat, second: bool)
    requires Ok(s) && s.head < |s.handles| && newHead < |s.handles| && Progress(s, newHead, second)
    requires Charges(s) + charge < SIZE
    ensures Swept(s, charge, newHead, second).1 <==>
            TotalPinned(s.handles) + Late(s, second) + charge <= s.capacity
    decreases Left(|s.handles|, s.head, newHead, second)
  {
    hide Tried, Life, Listed, Counted, Shrinks, Progress, Fits, Charges, Pinned, Late;
    FitsExactly(s, charge);
    if Fits(s, charge) {
      LateIsIdle(s, second);
    } else {
      TriedOk(s, newHead);
      TriedFalls(s, newHead);
      TriedPinned(s, newHead);
      LateStays(s, newHead, second);
      var s' := Tried(s, newHead).0;
      var next := NextHead(s', newHead);
      if next == s.head && second {
        OnlyLateIsIdle(s, newHead);
      } else {
        SweepAdvances(s, newHead, second);
        SweepSucceedsIff(s', charge, next, second || next == s.head);
      }
    }
  }

  /** The same for a whole shard, which may be empty. */
  function TooLate(s: Shard): nat {
    if s.head < |s.handles| then Late(s, false) else 0
  }

  /** EvictFromCache makes room exactly when the charge fits beside what is referenced and what comes too
      late. */
  lemma EvictionSucceedsIff(s: Shard, charge: nat)
    requires Ok(s) && Charges(s) + charge < SIZE
    ensures s.usage != 0 ==> s.head < |s.handles|
    ensures Evicted(s, charge).1 <==> TotalPinned(s.handles) + TooLate(s) + charge <= s.capacity
  {
    hide Life, Listed, Charges, TotalPinned, Swept, Late, Progress;
    FitsExactly(s, 0);
    if s.usage != 0 {
      EmptyTotal(s);
      NothingBehind(s);
      SweepSucceedsIff(s, charge, s.head, false);
    } else {
      NothingPinned(s);
    }
  }

  lemma NothingBehind(s: Shard)
    requires s.head < |s.handles|
    ensures Progress(s, s.head, false)
  {
  }

  lemma NothingPinned(s: Shard)
    requires Ok(s) && Charges(s) == 0
    ensures TotalPinned(s.handles) == 0 && TooLate(s) == 0
  {
    hide Life, Listed, Counted, Late, Pinned, Total, Idle;
    ChargesSplit(s.handles, s.recycle, |s.handles|);
    if s.head < |s.handles| {
      LateIsIdle(s, false);
    }
  }

  // ----- Insert -----

  /** Insert refuses an entry exactly when there is no room for it, and then only if nobody is to hold it
      or the limit is strict. */
  lemma InsertRefusedIff(s: Shard, key: string, value: nat, charge: nat, hold: bool)
    requires Ok(s) && Charges(s) + charge < SIZE
    ensures Sane(s) && Sane(Evicted(s, charge).0)
    ensures Inserted(s, key, value, charge, hold).1 == None <==>
            (s.strict || !hold) && TotalPinned(s.handles) + TooLate(s) + charge > s.capacity
  {
    hide Ok, Evicted, Stored, Charges, TotalPinned, TooLate;
    InsertedOk(s, key, value, charge, hold) by { ChargeFits(s, charge); }
    EvictionSucceedsIff(s, charge);
    EvictedKeeps(s, charge);
  }

  lemma ChargeFits(s: Shard, charge: nat)
    requires Charges(s) + charge < SIZE
    ensures charge < SIZE
  {
  }

  lemma EvictedKeeps(s: Shard, charge: nat)
    requires Ok(s)
    ensures Sane(s)
    ensures var r := Evicted(s, charge).0; Ok(r) && Falls(s, r)
  {
    hide Life, Listed, Counted, Evicted, Shrinks, Charges;
    OkIsSane(s);
    EvictedOk(s, charge);
    EvictedFalls(s, charge);
  }

  /** An entry that is stored without overflow, unheld or under a strict limit, lies within the capacity. */
  lemma InsertStaysWithin(s: Shard, key: string, value: nat, charge: nat, hold: bool)
    requires Ok(s) && Charges(s) + charge < SIZE
    ensures Sane(s) && Sane(Evicted(s, charge).0)
    ensures var (r, h) := Inserted(s, key, value, charge, hold);
            && r.capacity == s.capacity && r.strict == s.strict
            && (h.Some? && (!hold || s.strict) ==> Charges(r) <= s.capacity)
            && (h == None ==> Charges(r) <= Charges(s))
  {
    hide Ok, Evicted, Stored, Charges, Fits, Shrinks;
    ChargeFits(s, charge);
    InsertedOk(s, key, value, charge, hold);
    EvictedKeeps(s, charge);
    OkIsSane(s);
    var (e, ok) := Evicted(s, charge);
    OkIsSane(e);
    StoredRises(e, key, value, charge, hold);
    StoredKeeps(e, key, value, charge, hold);
    if ok {
      EvictionFits(s, charge);
      FitsExactly(e, charge);
    }
    var (r, h) := Inserted(s, key, value, charge, hold);
    SameCharges(e, r);
  }

  lemma StoredKeeps(s: Shard, key: string, value: nat, charge: nat, hold: bool)
    requires Ok(s)
    ensures Sane(s)
    ensures var r := Stored(s, key, value, charge, hold).0; r.capacity == s.capacity && r.strict == s.strict
  {
    hide Ok, Stored;
    StoredOk(s, key, value, charge, hold);
  }

  lemma EvictionFits(s: Shard, charge: nat)
    requires Ok(s) && charge < SIZE
    ensures s.usage != 0 ==> s.head < |s.handles|
    ensures Evicted(s, charge).1 ==> Fits(Evicted(s, charge).0, charge)
  {
    hide Ok, Evicted, Fits;
    EvictedOk(s, charge);
  }

  // ----- histories -----

  /** Calls that leave the capacity and a strict limit as they are, and charges that cannot overflow. */
  predicate Fixed(c: Call, capacity: nat) {
    && !c.ResizeCall?
    && c != StrictCall(false)
    && (c.InsertCall? ==> c.charge + capacity < SIZE)
  }

  ghost predicate Within(s: Shard, capacity: nat) {
    Ok(s) && s.strict && s.capacity == capacity && Charges(s) <= capacity
  }

  lemma CallStaysWithin(s: Shard, c: Call, capacity: nat)
    requires Within(s, capacity) && Fixed(c, capacity)
    ensures Within(Done(s, c), capacity)
  {
    hide Ok, Inserted, LookedUp, Released, Reffed, Erased, Cleared, Charges, Shrinks;
    DoneOk(s, c);
    if Allowed(s, c) {
      OkIsSane(s);
      match c
      case InsertCall(key, value, charge, hold) =>
        InsertedOk(s, key, value, charge, hold);
        InsertStaysWithin(s, key, value, charge, hold);
      case LookupCall(key) => LookedUpFalls(s, key);
      case ReleaseCall(h, force) => ReleasedFalls(s, h, force);
      case RefCall(h) => ReffedFalls(s, h);
      case EraseCall(key) => ErasedFalls(s, key) by { OkIsLife(s); }
      case ClearCall => AllClearedFalls(s);
      case StrictCall(strict) => SameCharges(s, Done(s, c));
    }
  }

  lemma OkIsLife(s: Shard)
    requires Ok(s)
    ensures Life(s.handles, s.recycle, None)
  {
  }

  lemma {:induction false} RunStaysWithin(s: Shard, calls: seq<Call>, capacity: nat)
    requires Within(s, capacity) && forall i | 0 <= i < |calls| :: Fixed(calls[i], capacity)
    ensures Within(Run(s, calls), capacity)
    decreases |calls|
  {
    hide Done, Fixed, Ok, Charges;
    if calls != [] {
      DoneOk(s, calls[0]);
      CallStaysWithin(s, calls[0], capacity);
      RunStaysWithin(Done(s, calls[0]), calls[1..], capacity);
    }
  }

  /** After any history of a strict cache whose capacity stays the same and whose charges cannot overflow,
      the usage is the sum of the charges in use and at most the capacity. */
  lemma StrictHistory(capacity: nat, calls: seq<Call>)
    requires capacity < SIZE && forall i | 0 <= i < |calls| :: Fixed(calls[i], capacity)
    ensures Ok(Empty(capacity, true))
    ensures var s := Run(Empty(capacity, true), calls); s.usage == Charges(s) <= capacity
  {
    hide Run, Fixed, Charges, Ok;
    EmptyOk(capacity, true);
    assert Charges(Empty(capacity, true)) == 0 by { NoCharges(capacity); }
    RunStaysWithin(Empty(capacity, true), calls, capacity);
    FitsExactly(Run(Empty(capacity, true), calls), 0);
  }

  lemma NoCharges(capacity: nat)
    ensures Charges(Empty(capacity, true)) == 0
  {
  }

  // ----- what comes too late -----

  /** The only entry, looked at and given back. */
  function Used(k: string, v: nat, strict: bool): Shard {
    Shard([Handle(Flags(true, true, 0), k, Some(v), 1)], [], map[k := 0], 0, 1, 0, 1, strict, [])
  }

  function Pinned1(k: string, v: nat, strict: bool): Shard {
    Shard([Held(k, v, 1, true)], [], map[k := 0], 0, 1, 1, 1, strict, [])
  }

  lemma InsertsOne(k: string, v: nat, strict: bool)
    ensures Inserted(Empty(1, strict), k, v, 1, true) == (Pinned1(k, v, strict), Some(0))
  {
    assert [] + [Held(k, v, 1, true)] == [Held(k, v, 1, true)];
    var s1 := Taken(Empty(1, strict), NewHandle(k, v, 1, true)).0;
    assert s1.handles == [Held(k, v, 1, true)] && Erased(s1, k).0 == s1;
    assert map[][k := 0] == map[k := 0];
  }

  lemma EvictsAndRefuses(k: string, v: nat, k': string, w: nat, strict: bool)
    ensures var s := Used(k, v, strict);
            && Sane(s) && Sane(Evicted(s, 1).0)
            && Inserted(s, k', w, 1, false).1 == None && Inserted(s, k', w, 1, false).0.table == map[]
  {
    var s := Used(k, v, strict);
    var s1 := Tried(s, 0).0;
    assert s1 == s.(handles := [Handle(Flags(true, false, 0), k, Some(v), 1)]);
    var s2 := Tried(s1, 0).0;
    assert s2.table == map[] && |s2.handles| == 1 && s2.recycle == [0];
    assert Swept(s1, 1, 0, true) == (s2, false);
    assert Swept(s, 1, 0, false) == (s2, false);
  }

  /** A cache with room for one entry: after Insert, Release of the only reference, and Insert of another
      key it is empty. The second entry is refused although its predecessor has made room. */
  lemma RefusedWithRoom(k: string, v: nat, k': string, w: nat, strict: bool)
    ensures Ok(Empty(1, strict))
    ensures var calls := [InsertCall(k, v, 1, true), ReleaseCall(0, false), InsertCall(k', w, 1, false)];
            Run(Empty(1, strict), calls).table == map[]
  {
    hide Ok, Inserted, Evicted, Sane;
    EmptyOk(1, strict);
    var s0, s1, s2 := Empty(1, strict), Pinned1(k, v, strict), Used(k, v, strict);
    var c0, c1, c2 := InsertCall(k, v, 1, true), ReleaseCall(0, false), InsertCall(k', w, 1, false);
    InsertsOne(k, v, strict);
    assert Done(s0, c0) == s1;
    DoneOk(s0, c0);
    assert Done(s1, c1) == s2;
    DoneOk(s1, c1);
    EvictsAndRefuses(k, v, k', w, strict);
    assert Done(s2, c2).table == map[];
    DoneOk(s2, c2);
    RunOne(Done(s2, c2), map[]);
    RunCons(s2, c2, [], map[]);
    RunCons(s1, c1, [c2], map[]);
    RunCons(s0, c0, [c1, c2], map[]);
  }

  // ----- SetCapacity -----

  lemma {:induction false} SweptPinned(s: Shard, charge: nat, newHead: nat, second: bool)
    requires Ok(s) && s.head < |s.handles| && newHead < |s.handles|
    ensures TotalPinned(Swept(s, charge, newHead, second).0.handles) == TotalPinned(s.handles)
    decreases Left(|s.handles|, s.head, newHead, second)
  {
    hide Tried, Life, Listed, Counted, Shrinks, TotalPinned, Fits;
    if !Fits(s, charge) {
      TriedOk(s, newHead);
      TriedPinned(s, newHead);
      var s' := Tried(s, newHead).0;
      var next := NextHead(s', newHead);
      if !(next == s.head && second) {
        SweptPinned(s', charge, next, second || next == s.head);
      }
    }
  }

  lemma EvictedPinned(s: Shard, charge: nat)
    requires Ok(s)
    ensures s.usage != 0 ==> s.head < |s.handles|
    ensures TotalPinned(Evicted(s, charge).0.handles) == TotalPinned(s.handles)
  {
    hide Life, Listed, TotalPinned, Swept;
    if s.usage != 0 {
      EmptyTotal(s);
      SweptPinned(s, charge, s.head, false);
    }
  }

  /** After SetCapacity the usage lies within the new capacity exactly when what is referenced does; if it
      does not, only referenced entries are left. */
  lemma ResizedWithinIff(s: Shard, capacity: nat)
    requires Ok(s) && Charges(s) < SIZE
    ensures Sane(s)
    ensures var r := Resized(s, capacity);
            && (r.usage <= capacity <==> TotalPinned(s.handles) <= capacity)
            && (r.usage > capacity ==> r.usage == TotalPinned(s.handles))
  {
    hide Ok, Evicted, Charges, TotalPinned, Shrinks, Fits;
    OkIsSane(s);
    var s' := s.(capacity := capacity);
    OkButCapacity(s, s');
    SameCharges(s, s');
    EvictedOk(s', 0);
    EvictedFalls(s', 0);
    EvictedPinned(s', 0);
    var (r, ok) := Evicted(s', 0);
    FitsExactly(r, 0);
    PinnedIsCharged(r);
    if s'.usage == 0 {
      EmptyFits(s');
    } else if !ok {
      AllKept(r);
    }
  }

  lemma EmptyFits(s: Shard)
    requires s.usage == 0
    ensures Evicted(s, 0) == (s, true)
  {
  }

  lemma PinnedIsCharged(s: Shard)
    requires Ok(s)
    ensures TotalPinned(s.handles) <= Charges(s)
  {
    hide Life, Listed, Counted, Pinned, Total;
    ChargesSplit(s.handles, s.recycle, |s.handles|);
  }

  lemma AllKept(s: Shard)
    requires Ok(s) && forall h | 0 <= h < |s.handles| :: Kept(s.handles[h])
    ensures Charges(s) == TotalPinned(s.handles)
  {
    hide Life, Listed, Counted, Pinned, Total, Idle;
    ChargesSplit(s.handles, s.recycle, |s.handles|);
    forall x | 0 <= x < |s.handles| ensures !IsIdle(s.handles[x]) {
      assert Kept(s.handles[x]);
    }
    IdleOnly(s.handles, |s.handles|);
  }
}
