/** What holds in every reachable state of the CLOCK cache shard, whatever the threads do and however
    their actions interleave. */
module ClockRuns {
  import opened Strings
  import opened ClockHandle
  import opened ClockState
  import opened ClockInvariant
  import opened ClockSafety
  import opened ClockCritical

  lemma ProceedKeeps(s: State, t: nat)
    requires Inv(s)
    ensures Inv(Proceed(s, t))
  {
    hide Inv, RefFound, CheckKey, SetUsage, Drop, LockDying, RecycleDying, EraseUnset, ClearStep, ClearRecycle,
         SweepStep, SweepMiss, SweepErase, SweepRecycle, AfterEvict, Link, ReplaceUnset, ReplaceRecycle, TableInsert,
         AddCharge;
    match AtPc(s, t)
    case Idle =>
    case Found(_, _) => RefFoundKeeps(s, t);
    case Reffed(_, _) => CheckKeyKeeps(s, t);
    case Releasing(_) => SetUsageKeeps(s, t);
    case Dropping(_) => DropKeeps(s, t);
    case Dying(_) => LockDyingKeeps(s, t);
    case Recycling(_) => RecycleDyingKeeps(s, t);
    case Unsetting(_) => EraseUnsetKeeps(s, t);
    case Clearing(_) => ClearStepKeeps(s, t);
    case ClearRecycling(_) => ClearRecycleKeeps(s, t);
    case Sweeping(_) => SweepStepKeeps(s, t);
    case SweepMissed(_) => SweepMissKeeps(s, t);
    case SweepErasing(_) => SweepEraseKeeps(s, t);
    case SweepRecycling(_) => SweepRecycleKeeps(s, t);
    case Evicted(_, _) => AfterEvictKeeps(s, t);
    case Linking(_, _, _) => LinkKeeps(s, t);
    case Replacing(_, _, _, _) => ReplaceUnsetKeeps(s, t);
    case ReplaceRecycling(_, _, _, _) => ReplaceRecycleKeeps(s, t);
    case TableInserting(_, _, _) => TableInsertKeeps(s, t);
    case Charging(_, _, _) => AddChargeKeeps(s, t);
  }

  lemma StepKeeps(s: State, e: Event)
    requires Inv(s)
    ensures Inv(Step(s, e))
  {
    hide Inv, StartLookup, StartRelease, ClientRef, StartErase, StartClear, StartInsert, StartResize, SetStrict,
         Proceed;
    match e
    case LookupEvent(t, key) => StartLookupKeeps(s, t, key);
    case ReleaseEvent(t, token) => StartReleaseKeeps(s, t, token);
    case RefEvent(token) => ClientRefKeeps(s, token);
    case EraseEvent(t, key) => StartEraseKeeps(s, t, key);
    case ClearEvent(t) => StartClearKeeps(s, t);
    case InsertEvent(t, key, charge, hold) => StartInsertKeeps(s, t, key, charge, hold);
    case ResizeEvent(t, capacity) => StartResizeKeeps(s, t, capacity);
    case StrictEvent(strict) => SetStrictKeeps(s, strict);
    case Continue(t) => ProceedKeeps(s, t);
  }

  lemma {:induction false} RunKeeps(s: State, events: seq<Event>)
    requires Inv(s)
    ensures Inv(Run(s, events))
    decreases |events|
  {
    hide Inv, Step;
    if events != [] {
      StepKeeps(s, events[0]);
      RunKeeps(Step(s, events[0]), events[1..]);
    }
  }

  ghost predicate Reachable(s: State) {
    exists threads: nat, capacity: nat, strict: bool, events: seq<Event> | capacity < SIZE ::
      s == Run(Init(threads, capacity, strict), events)
  }

  lemma ReachableInv(s: State)
    requires Reachable(s)
    ensures Inv(s)
  {
    hide Inv, Run;
    var threads: nat, capacity: nat, strict: bool, events: seq<Event> :|
      capacity < SIZE && s == Run(Init(threads, capacity, strict), events);
    InitInv(threads, capacity, strict);
    RunKeeps(Init(threads, capacity, strict), events);
  }

  // ----- the life cycle of a handle -----

  predicate IsFree(s: State, h: nat) {
    h in s.recycle
  }

  predicate InCache(s: State, h: nat)
    requires h < |s.handles|
  {
    s.handles[h].flags.inCache
  }

  predicate Detached(s: State, h: nat)
    requires h < |s.handles|
  {
    !InCache(s, h) && s.handles[h].flags.refs > 0
  }

  /** Thread `t` has taken the handle out of service and has yet to recycle it. */
  predicate DyingBy(s: State, h: nat, t: nat) {
    t < |s.threads| && Duty(s.threads[t]) == Some(h)
  }

  ghost predicate IsDying(s: State, h: nat) {
    exists t: nat :: DyingBy(s, h, t)
  }

  /** Every handle is in exactly one of the four states, no handle is in the recycle bin twice, and no
      two threads are due to recycle the same handle. */
  lemma HandleLifeCycle(s: State, h: nat)
    requires Reachable(s) && h < |s.handles|
    ensures IsFree(s, h) ==> !InCache(s, h) && !Detached(s, h) && !IsDying(s, h)
    ensures InCache(s, h) ==> !Detached(s, h) && !IsDying(s, h)
    ensures Detached(s, h) ==> !IsDying(s, h)
    ensures IsFree(s, h) || InCache(s, h) || Detached(s, h) || IsDying(s, h)
    ensures forall t: nat, u: nat | DyingBy(s, h, t) && DyingBy(s, h, u) :: t == u
    ensures forall i, j | 0 <= i < j < |s.recycle| :: s.recycle[i] != s.recycle[j]
  {
    hide DataInv, TokenOk, MutexOk, FoundOk, FreshOk, Duty, OwnersOf;
    ReachableInv(s);
    assert Alive(s.handles[h].flags, h in s.recycle, h in s.duty, OwnersOf(s.owners, h));
    if h in s.duty {
      assert DyingBy(s, h, s.duty[h]);
    }
  }

  /** The count of a handle is the number of references that clients and threads hold; a free or dying
      handle has none, so nobody can read it while it is reused. */
  lemma CountIsReferences(s: State, h: nat)
    requires Reachable(s) && h < |s.handles|
    ensures s.handles[h].flags.refs == |OwnersOf(s.owners, h)|
    ensures IsFree(s, h) || IsDying(s, h) ==> OwnersOf(s.owners, h) == {}
  {
    hide DataInv, ThreadsInv, OwnersOf, IsDying;
    ReachableInv(s);
    HandleLifeCycle(s, h);
    assert Alive(s.handles[h].flags, h in s.recycle, h in s.duty, OwnersOf(s.owners, h));
  }

  // ----- the deleter -----

  /** A value that was stored in a handle is, from then on, either still in that handle, which is then
      not free, or queued for its deleter, once. */
  lemma QueuedExactlyOnce(s: State, v: nat)
    requires Reachable(s) && v in s.home
    ensures Stored(s.handles, s.recycle, s.home[v], v) <==> v !in s.queued
    ensures forall h: nat | Stored(s.handles, s.recycle, h, v) :: h == s.home[v]
    ensures forall i, j | 0 <= i < j < |s.queued| :: s.queued[i] != s.queued[j]
  {
    hide ThreadsInv, LifeOk, TableOk, HolderOk, UsageOk, FreshValues;
    ReachableInv(s);
  }

  // ----- when the mutex is free -----

  /** `usage_` is the sum of the charges of all handles outside the recycle bin, and the hash table and
      the in-cache bits describe the same set of handles. */
  lemma AgreementWhenUnlocked(s: State)
    requires Reachable(s) && s.mutex == None
    ensures s.usage == TotalCharge(s.handles, s.recycle) % SIZE
    ensures forall h | 0 <= h < |s.handles| :: InCache(s, h) <==> InTable(s.handles[h], s.table, h)
    ensures forall k | k in s.table :: s.table[k] < |s.handles| && s.handles[s.table[k]].key == k
  {
    hide ThreadsInv, LifeOk, HolderOk, ValuesOk, FreshValues, TotalCharge;
    ReachableInv(s);
  }

  // ----- the strict capacity limit -----

  function OpOf(pc: Pc): Option<Op> {
    match pc
    case Sweeping(sw) => Some(sw.op)
    case SweepMissed(sw) => Some(sw.op)
    case SweepErasing(sw) => Some(sw.op)
    case SweepRecycling(sw) => Some(sw.op)
    case Evicted(op, _) => Some(op)
    case _ => None
  }

  /** What a thread is about to do respects the limit. */
  predicate PcWithin(pc: Pc, total: nat, capacity: nat) {
    && (OpOf(pc).Some? ==> Charge(OpOf(pc).value) < SIZE - capacity)
    && (pc.Evicted? && pc.ok ==> total + Charge(pc.op) <= capacity)
  }

  ghost predicate Within(s: State, capacity: nat) {
    && s.strict && s.capacity == capacity < SIZE
    && TotalCharge(s.handles, s.recycle) <= capacity
    && forall t | 0 <= t < |s.threads| :: PcWithin(s.threads[t], TotalCharge(s.handles, s.recycle), capacity)
  }

  /** Neither the limit nor its strictness is changed, and the charge of an inserted entry does not
      overflow when it is added to the capacity. */
  predicate Modest(e: Event, capacity: nat) {
    match e
    case InsertEvent(_, _, charge, _) => charge + capacity < SIZE
    case ResizeEvent(_, _) => false
    case StrictEvent(strict) => strict
    case _ => true
  }

  /** No entry changes but in its flags. */
  ghost predicate SameButFlags(handles: seq<Handle>, handles': seq<Handle>) {
    && |handles'| == |handles|
    && forall h | 0 <= h < |handles| :: handles'[h] == handles[h].(flags := handles'[h].flags)
  }

  /** An action that leaves all entries and the recycle bin alone, but for flags. */
  ghost predicate Plain(s: State, s': State, t: nat) {
    && s'.strict == s.strict && s'.capacity == s.capacity && s'.recycle == s.recycle
    && SameButFlags(s.handles, s'.handles)
    && PlainThreads(s.threads, s'.threads, t)
  }

  ghost predicate PlainThreads(threads: seq<Pc>, threads': seq<Pc>, t: nat) {
    && |threads'| == |threads|
    && (forall u | 0 <= u < |threads| && u != t :: threads'[u] == threads[u])
    && (t < |threads| ==> threads'[t] == threads[t] || Follows(threads[t], threads'[t]))
  }

  /** The thread goes on with the same operation, and has not just found room for it. */
  predicate Follows(pc: Pc, pc': Pc) {
    (OpOf(pc') == None || OpOf(pc') == OpOf(pc)) && !(pc'.Evicted? && pc'.ok)
  }

  lemma ThreadFollows(threads: seq<Pc>, t: nat, pc: Pc)
    requires t < |threads| && Follows(threads[t], pc)
    ensures PlainThreads(threads, threads[t := pc], t)
  {
    hide Follows;
  }

  lemma NothingMoves(s: State, t: nat)
    ensures Plain(s, s, t)
  {
    hide Follows;
  }

  lemma FlagsKeepEntries(handles: seq<Handle>, h: nat, f: Flags)
    requires h < |handles|
    ensures SameButFlags(handles, WithFlags(handles, h, f)) && SameButFlags(handles, handles)
  {
  }

  /** One thread moves on and changes the flags of one handle. */
  lemma PlainStep(s: State, s': State, t: nat, pc: Pc, h: nat, f: Flags)
    requires t < |s.threads| && h < |s.handles| && Follows(s.threads[t], pc)
    requires s'.handles == WithFlags(s.handles, h, f) && s'.threads == s.threads[t := pc]
    requires s'.strict == s.strict && s'.capacity == s.capacity && s'.recycle == s.recycle
    ensures Plain(s, s', t)
  {
    hide PlainThreads, SameButFlags, Follows;
    FlagsKeepEntries(s.handles, h, f);
    ThreadFollows(s.threads, t, pc);
  }

  lemma SameHandlesEntries(handles: seq<Handle>)
    ensures SameButFlags(handles, handles)
  {
  }

  lemma PlainKeepsWithin(s: State, s': State, t: nat, capacity: nat)
    requires Within(s, capacity) && Plain(s, s', t)
    ensures Within(s', capacity)
  {
    hide Total, OpOf;
    TotalSame(s.handles, s'.handles, s.recycle, |s.handles|);
    forall u | 0 <= u < |s'.threads| ensures PcWithin(s'.threads[u], TotalCharge(s'.handles, s'.recycle), capacity) {
      assert PcWithin(s.threads[u], TotalCharge(s.handles, s.recycle), capacity);
    }
  }

  // These actions change no charge and enter or leave no handle.

  lemma RefFoundIsPlain(s: State, t: nat)
    ensures Plain(s, RefFound(s, t), t)
  {
    hide Plain;
    NothingMoves(s, t);
    var pc := AtPc(s, t);
    if pc.Found? && pc.h < |s.handles| {
      var f := s.handles[pc.h].flags;
      if f.inCache {
        PlainStep(s, RefFound(s, t), t, Reffed(pc.key, s.nextToken), pc.h, f.(refs := f.refs + 1));
      } else {
        PlainStep(s, RefFound(s, t), t, Idle, pc.h, f);
      }
    }
  }

  lemma CheckKeyIsPlain(s: State, t: nat)
    ensures Plain(s, CheckKey(s, t), t)
  {
    hide PlainThreads, SameButFlags;
    var s' := CheckKey(s, t);
    if s' == s {
      NothingMoves(s, t);
    } else {
      SameHandlesEntries(s.handles);
      ThreadFollows(s.threads, t, s'.threads[t]);
    }
  }

  lemma SetUsageIsPlain(s: State, t: nat)
    ensures Plain(s, SetUsage(s, t), t)
  {
    hide PlainThreads, SameButFlags;
    var s' := SetUsage(s, t);
    if s' == s {
      NothingMoves(s, t);
    } else {
      FlagsKeepEntries(s.handles, s.owners[s.threads[t].token].h, s'.handles[s.owners[s.threads[t].token].h].flags);
      ThreadFollows(s.threads, t, s'.threads[t]);
    }
  }

  lemma DropIsPlain(s: State, t: nat)
    ensures Plain(s, Drop(s, t), t)
  {
    hide Plain;
    NothingMoves(s, t);
    if Drop(s, t) != s {
      var h := s.owners[s.threads[t].token].h;
      var f := s.handles[h].flags;
      PlainStep(s, Drop(s, t), t, if f.refs == 1 && !f.inCache then Dying(h) else Idle, h, f.(refs := f.refs - 1));
    }
  }

  lemma LockDyingIsPlain(s: State, t: nat)
    ensures Plain(s, LockDying(s, t), t)
  {
    hide PlainThreads, SameButFlags;
    var s' := LockDying(s, t);
    if s' == s {
      NothingMoves(s, t);
    } else {
      SameHandlesEntries(s.handles);
      ThreadFollows(s.threads, t, s'.threads[t]);
    }
  }

  lemma EraseUnsetIsPlain(s: State, t: nat)
    ensures Plain(s, EraseUnset(s, t), t)
  {
    hide Plain;
    NothingMoves(s, t);
    var pc := AtPc(s, t);
    if pc.Unsetting? && pc.h < |s.handles| {
      var f := s.handles[pc.h].flags;
      var next := if f.inCache && f.refs == 0 then Recycling(pc.h) else Idle;
      PlainStep(s, EraseUnset(s, t), t, next, pc.h, f.(inCache := false));
    }
  }

  lemma UnlockIsPlain(s: State, t: nat)
    ensures Plain(s, Unlock(s, t), t)
  {
    hide PlainThreads, SameButFlags;
    NothingMoves(s, t);
    if t < |s.threads| {
      ThreadFollows(s.threads, t, Idle);
    }
  }

  lemma ClearStepIsPlain(s: State, t: nat)
    ensures Plain(s, ClearStep(s, t), t)
  {
    hide Plain;
    NothingMoves(s, t);
    var pc := AtPc(s, t);
    if pc.Clearing? {
      if pc.i < |s.handles| {
        var f := s.handles[pc.i].flags;
        var next := if f.inCache && f.refs == 0 then ClearRecycling(pc.i) else Clearing(pc.i + 1);
        PlainStep(s, ClearStep(s, t), t, next, pc.i, f.(inCache := false));
      } else {
        UnlockIsPlain(s, t);
      }
    }
  }

  lemma SweepMissIsPlain(s: State, t: nat)
    ensures Plain(s, SweepMiss(s, t), t)
  {
    hide PlainThreads, SameButFlags;
    var s' := SweepMiss(s, t);
    if s' == s {
      NothingMoves(s, t);
    } else {
      FlagsKeepEntries(s.handles, s.threads[t].sw.newHead, s'.handles[s.threads[t].sw.newHead].flags);
      ThreadFollows(s.threads, t, s'.threads[t]);
    }
  }

  lemma SweepEraseIsPlain(s: State, t: nat)
    ensures Plain(s, SweepErase(s, t), t)
  {
    hide PlainThreads, SameButFlags;
    var s' := SweepErase(s, t);
    if s' == s {
      NothingMoves(s, t);
    } else {
      SameHandlesEntries(s.handles);
      ThreadFollows(s.threads, t, s'.threads[t]);
    }
  }

  lemma LinkIsPlain(s: State, t: nat)
    ensures Plain(s, Link(s, t), t)
  {
    hide PlainThreads, SameButFlags;
    var s' := Link(s, t);
    if s' == s {
      NothingMoves(s, t);
    } else {
      SameHandlesEntries(s.handles);
      ThreadFollows(s.threads, t, s'.threads[t]);
    }
  }

  lemma ReplaceUnsetIsPlain(s: State, t: nat)
    ensures Plain(s, ReplaceUnset(s, t), t)
  {
    hide Plain;
    NothingMoves(s, t);
    var pc := AtPc(s, t);
    if pc.Replacing? && pc.prev < |s.handles| {
      var f := s.handles[pc.prev].flags;
      var next := if f.inCache && f.refs == 0 then ReplaceRecycling(pc.op, pc.h, pc.tok, pc.prev)
          else TableInserting(pc.op, pc.h, pc.tok);
      PlainStep(s, ReplaceUnset(s, t), t, next, pc.prev, f.(inCache := false));
    }
  }

  lemma TableInsertIsPlain(s: State, t: nat)
    ensures Plain(s, TableInsert(s, t), t)
  {
    hide PlainThreads, SameButFlags;
    var s' := TableInsert(s, t);
    if s' == s {
      NothingMoves(s, t);
    } else {
      SameHandlesEntries(s.handles);
      ThreadFollows(s.threads, t, s'.threads[t]);
    }
  }

  lemma AddChargeIsPlain(s: State, t: nat)
    ensures Plain(s, AddCharge(s, t), t)
  {
    hide PlainThreads, SameButFlags;
    var s' := AddCharge(s, t);
    if s' == s {
      NothingMoves(s, t);
    } else {
      SameHandlesEntries(s.handles);
      ThreadFollows(s.threads, t, s'.threads[t]);
    }
  }

  /** Recycling a handle frees its charge. */
  lemma RecycleKeepsWithin(s: State, s': State, t: nat, pc: Pc, h: nat, capacity: nat)
    requires Inv(s) && Within(s, capacity) && t < |s.threads| && Duty(s.threads[t]) == Some(h) && h < |s.handles|
    requires s'.handles == Recycle(s, h).handles && s'.recycle == s.recycle + [h] && s'.threads == s.threads[t := pc]
    requires s'.strict == s.strict && s'.capacity == s.capacity && Follows(s.threads[t], pc)
    ensures Within(s', capacity)
  {
    hide Total, OpOf, DataInv, TokenOk, MutexOk, FoundOk, FreshOk, Duty, OwnersOf, TotalCharge;
    assert Alive(s.handles[h].flags, h in s.recycle, h in s.duty, OwnersOf(s.owners, h));
    TotalRecycled(s.handles, s.recycle, h);
    forall u | 0 <= u < |s'.threads| ensures PcWithin(s'.threads[u], TotalCharge(s'.handles, s'.recycle), capacity) {
      assert PcWithin(s.threads[u], TotalCharge(s.handles, s.recycle), capacity);
    }
  }

  lemma RecyclingKeepsWithin(s: State, t: nat, capacity: nat)
    requires Inv(s) && Within(s, capacity)
    ensures Within(RecycleDying(s, t), capacity) && Within(ClearRecycle(s, t), capacity)
  {
    hide Inv, Within;
    var pc := AtPc(s, t);
    if RecycleDying(s, t) != s {
      RecycleKeepsWithin(s, RecycleDying(s, t), t, Idle, pc.h, capacity);
    }
    if ClearRecycle(s, t) != s {
      RecycleKeepsWithin(s, ClearRecycle(s, t), t, Clearing(pc.i + 1), pc.i, capacity);
    }
  }

  lemma RecyclingKeepsWithin'(s: State, t: nat, capacity: nat)
    requires Inv(s) && Within(s, capacity)
    ensures Within(SweepRecycle(s, t), capacity) && Within(ReplaceRecycle(s, t), capacity)
  {
    hide Inv, Within;
    var pc := AtPc(s, t);
    if SweepRecycle(s, t) != s {
      var r := Recycle(s, pc.sw.newHead);
      RecycleKeepsWithin(s, SweepRecycle(s, t), t, Advance(r, pc.sw.(usage := r.usage)), pc.sw.newHead, capacity);
    }
    if ReplaceRecycle(s, t) != s {
      RecycleKeepsWithin(s, ReplaceRecycle(s, t), t, TableInserting(pc.op, pc.h, pc.tok), pc.prev, capacity);
    }
  }

  /** With the total within the capacity, `usage_` has not wrapped around. */
  lemma UsageIsTotal(s: State, t: nat, capacity: nat)
    requires Inv(s) && Within(s, capacity) && Pending(Holder(s)) == 0
    ensures s.usage == TotalCharge(s.handles, s.recycle)
  {
    hide ThreadsInv, LifeOk, TableOk, HolderOk, ValuesOk, FreshValues, TotalCharge, PcWithin;
  }

  /** `usage + charge` in size_t is at most the capacity exactly when the sum is, or wraps around. */
  lemma FitTest(usage: nat, charge: nat, capacity: nat)
    requires usage <= capacity < SIZE && charge < SIZE
    ensures (usage + charge) % SIZE <= capacity <==> usage + charge <= capacity || usage + charge >= SIZE
  {
  }

  lemma SweepKeepsWithin(s: State, t: nat, capacity: nat)
    requires Inv(s) && Within(s, capacity)
    ensures Within(SweepStep(s, t), capacity)
  {
    hide Inv, Within, Plain;
    var s' := SweepStep(s, t);
    if s' != s {
      var sw := s.threads[t].sw;
      if (sw.usage + Charge(sw.op)) % SIZE <= sw.capacity {
        SweepFitsWithin(s, t, capacity);
      } else {
        SweepTriesIsPlain(s, t);
        PlainKeepsWithin(s, s', t, capacity);
      }
    }
  }

  lemma SweepTriesIsPlain(s: State, t: nat)
    requires t < |s.threads| && s.threads[t].Sweeping? && SweepStep(s, t) != s
    requires var sw := s.threads[t].sw; (sw.usage + Charge(sw.op)) % SIZE > sw.capacity
    ensures Plain(s, SweepStep(s, t), t)
  {
    hide Plain;
    var sw := s.threads[t].sw;
    var h := sw.newHead;
    if s.handles[h].flags == Flags(true, false, 0) {
      PlainStep(s, SweepStep(s, t), t, SweepErasing(sw), h, Flags(false, false, 0));
    } else {
      PlainStep(s, SweepStep(s, t), t, SweepMissed(sw), h, s.handles[h].flags);
    }
  }

  lemma SweepFitsWithin(s: State, t: nat, capacity: nat)
    requires Inv(s) && Within(s, capacity) && t < |s.threads| && s.threads[t].Sweeping?
    requires var sw := s.threads[t].sw; (sw.usage + Charge(sw.op)) % SIZE <= sw.capacity
    ensures var sw := s.threads[t].sw; Within(Goto(s, t, Evicted(sw.op, true)).(head := sw.newHead), capacity)
  {
    hide ThreadsInv, LifeOk, TableOk, UsageOk, ValuesOk, FreshValues, TotalCharge;
    var sw := s.threads[t].sw;
    IsHolder(s, t);
    UsageIsTotal(s, t, capacity);
    assert PcWithin(s.threads[t], TotalCharge(s.handles, s.recycle), capacity);
    FitTest(s.usage, Charge(sw.op), capacity);
  }

  lemma StartEvictWithin(s: State, op: Op, capacity: nat)
    requires Inv(s) && Within(s, capacity) && s.mutex == None && Charge(op) + capacity < SIZE
    ensures PcWithin(StartEvict(s, op), TotalCharge(s.handles, s.recycle), capacity)
  {
    hide ThreadsInv, LifeOk, TableOk, HolderOk, ValuesOk, FreshValues, TotalCharge, UsageOk;
    HolderIsIdle(s);
    UsageIsTotal(s, 0, capacity);
  }

  lemma InsertKeepsWithin(s: State, t: nat, key: string, charge: nat, hold: bool, capacity: nat)
    requires Inv(s) && Within(s, capacity) && charge + capacity < SIZE
    ensures Within(StartInsert(s, t, key, charge, hold), capacity)
  {
    hide Inv, TotalCharge, PcWithin, StartEvict;
    if StartInsert(s, t, key, charge, hold) != s {
      StartEvictWithin(s, Insert(key, s.nextValue, charge, hold), capacity);
    }
  }

  /** Only the thread with the mutex can have finished an eviction. */
  lemma OneEvicted(s: State, t: nat, u: nat)
    requires ThreadsInv(s) && t < |s.threads| && u < |s.threads| && s.threads[t].Evicted? && s.threads[u].Evicted?
    ensures t == u
  {
    hide DutyOk, TokenOk, FoundOk, FreshOk;
    assert s.mutex == Some(t) && s.mutex == Some(u);
  }

  lemma FillKeepsWithin(s: State, t: nat, capacity: nat)
    requires Inv(s) && Within(s, capacity)
    ensures Within(AfterEvict(s, t), capacity)
  {
    hide Inv, Within, Plain, Fill;
    var s' := AfterEvict(s, t);
    if s' != s {
      var pc := s.threads[t];
      assert s.strict by { IsStrict(s, capacity); }
      if pc.op.Resize? || !pc.ok {
        EndsIsPlain(s, t);
        PlainKeepsWithin(s, s', t, capacity);
      } else {
        FillWithin(s, t, capacity);
      }
    }
  }

  lemma IsStrict(s: State, capacity: nat)
    requires Within(s, capacity)
    ensures s.strict
  {
    hide TotalCharge, PcWithin;
  }

  /** The operation ends without an entry. */
  lemma EndsIsPlain(s: State, t: nat)
    requires s.strict && t < |s.threads| && s.threads[t].Evicted? && (s.threads[t].op.Resize? || !s.threads[t].ok)
    ensures Plain(s, AfterEvict(s, t), t)
  {
    hide PlainThreads, SameButFlags, Fill;
    SameHandlesEntries(s.handles);
    ThreadFollows(s.threads, t, Idle);
  }

  lemma FillWithin(s: State, t: nat, capacity: nat)
    requires Inv(s) && Within(s, capacity) && t < |s.threads| && s.threads[t].Evicted? && s.threads[t].op.Insert?
             && s.threads[t].ok
    ensures Within(AfterEvict(s, t), capacity)
  {
    hide Inv, TotalCharge, PcWithin;
    var s', pc := AfterEvict(s, t), s.threads[t];
    var total := TotalCharge(s.handles, s.recycle);
    OkWithin(s, t, capacity);
    FillTotal(s, t);
    forall u | 0 <= u < |s'.threads| ensures PcWithin(s'.threads[u], total + pc.op.charge, capacity) {
      OthersWithin(s, s', t, u, capacity);
    }
  }

  lemma FillTotal(s: State, t: nat)
    requires Inv(s) && t < |s.threads| && s.threads[t].Evicted? && s.threads[t].op.Insert? && s.threads[t].ok
    ensures var s' := AfterEvict(s, t);
            && TotalCharge(s'.handles, s'.recycle) == TotalCharge(s.handles, s.recycle) + s.threads[t].op.charge
            && |s'.threads| == |s.threads| && s'.threads[t].Linking?
  {
    hide ThreadsInv, DataInv, TotalCharge, OwnersOf, Alive;
    var x := FilledHandle(s.threads[t].op);
    if s.recycle == [] {
      FillAppends(s, t);
      TotalAppended(s.handles, s.recycle, x);
    } else {
      assert s.recycle[|s.recycle| - 1] in s.recycle;
      FillTakes(s, t);
      TotalTaken(s.handles, s.recycle, x);
    }
  }

  lemma FillAppends(s: State, t: nat)
    requires t < |s.threads| && s.threads[t].Evicted? && s.threads[t].op.Insert? && s.threads[t].ok && s.recycle == []
    ensures var s' := AfterEvict(s, t);
            && s'.handles == s.handles + [FilledHandle(s.threads[t].op)] && s'.recycle == s.recycle
            && |s'.threads| == |s.threads| && s'.threads[t].Linking?
  {
  }

  lemma FillTakes(s: State, t: nat)
    requires t < |s.threads| && s.threads[t].Evicted? && s.threads[t].op.Insert? && s.threads[t].ok && s.recycle != []
    requires s.recycle[|s.recycle| - 1] < |s.handles|
    ensures var s' := AfterEvict(s, t); var n := |s.recycle| - 1;
            && s'.handles == s.handles[s.recycle[n] := FilledHandle(s.threads[t].op)] && s'.recycle == s.recycle[..n]
            && |s'.threads| == |s.threads| && s'.threads[t].Linking?
  {
  }

  lemma OkWithin(s: State, t: nat, capacity: nat)
    requires Within(s, capacity) && t < |s.threads| && s.threads[t].Evicted? && s.threads[t].ok
    ensures TotalCharge(s.handles, s.recycle) + Charge(s.threads[t].op) <= capacity
  {
    hide TotalCharge;
    assert PcWithin(s.threads[t], TotalCharge(s.handles, s.recycle), capacity);
  }

  lemma OthersWithin(s: State, s': State, t: nat, u: nat, capacity: nat)
    requires Inv(s) && Within(s, capacity) && t < |s.threads| && s.threads[t].Evicted? && s.threads[t].op.Insert?
    requires u < |s'.threads| && |s'.threads| == |s.threads| && s'.threads[t].Linking?
    requires u != t ==> s'.threads[u] == s.threads[u]
    ensures PcWithin(s'.threads[u], TotalCharge(s.handles, s.recycle) + s.threads[t].op.charge, capacity)
  {
    hide ThreadsInv, DataInv, TotalCharge, LifeOk;
    if u != t {
      assert PcWithin(s.threads[u], TotalCharge(s.handles, s.recycle), capacity);
      if s.threads[u].Evicted? {
        OneEvicted(s, t, u);
      }
    }
  }

  lemma StartLookupIsPlain(s: State, t: nat, key: string)
    ensures Plain(s, StartLookup(s, t, key), t)
  {
    hide PlainThreads, SameButFlags;
    var s' := StartLookup(s, t, key);
    if s' == s {
      NothingMoves(s, t);
    } else {
      SameHandlesEntries(s.handles);
      ThreadFollows(s.threads, t, s'.threads[t]);
    }
  }

  lemma StartReleaseIsPlain(s: State, t: nat, token: nat)
    ensures Plain(s, StartRelease(s, t, token), t)
  {
    hide PlainThreads, SameButFlags;
    var s' := StartRelease(s, t, token);
    if s' == s {
      NothingMoves(s, t);
    } else {
      SameHandlesEntries(s.handles);
      ThreadFollows(s.threads, t, s'.threads[t]);
    }
  }

  lemma StartEraseIsPlain(s: State, t: nat, key: string)
    ensures Plain(s, StartErase(s, t, key), t)
  {
    hide PlainThreads, SameButFlags;
    var s' := StartErase(s, t, key);
    if s' == s {
      NothingMoves(s, t);
    } else {
      SameHandlesEntries(s.handles);
      ThreadFollows(s.threads, t, s'.threads[t]);
    }
  }

  lemma StartClearIsPlain(s: State, t: nat)
    ensures Plain(s, StartClear(s, t), t)
  {
    hide PlainThreads, SameButFlags;
    var s' := StartClear(s, t);
    if s' == s {
      NothingMoves(s, t);
    } else {
      SameHandlesEntries(s.handles);
      ThreadFollows(s.threads, t, s'.threads[t]);
    }
  }

  lemma ClientRefIsPlain(s: State, t: nat, token: nat)
    ensures Plain(s, ClientRef(s, token), t)
  {
    hide PlainThreads, SameButFlags;
    var s' := ClientRef(s, token);
    NothingMoves(s, t);
    if s' != s {
      var h := s.owners[token].h;
      FlagsKeepEntries(s.handles, h, s'.handles[h].flags);
    }
  }

  lemma ProceedKeepsWithin(s: State, t: nat, capacity: nat)
    requires Inv(s) && Within(s, capacity)
    ensures Within(Proceed(s, t), capacity)
  {
    hide Inv, Within, Plain, RefFound, CheckKey, SetUsage, Drop, LockDying, RecycleDying, EraseUnset, ClearStep,
         ClearRecycle, SweepStep, SweepMiss, SweepErase, SweepRecycle, AfterEvict, Link, ReplaceUnset, ReplaceRecycle,
         TableInsert, AddCharge;
    var pc := AtPc(s, t);
    if pc.Recycling? || pc.ClearRecycling? {
      RecyclingKeepsWithin(s, t, capacity);
    } else if pc.SweepRecycling? || pc.ReplaceRecycling? {
      RecyclingKeepsWithin'(s, t, capacity);
    } else if pc.Sweeping? {
      SweepKeepsWithin(s, t, capacity);
    } else if pc.Evicted? {
      FillKeepsWithin(s, t, capacity);
    } else if !pc.Idle? {
      match pc {
        case Found(_, _) => RefFoundIsPlain(s, t);
        case Reffed(_, _) => CheckKeyIsPlain(s, t);
        case Releasing(_) => SetUsageIsPlain(s, t);
        case Dropping(_) => DropIsPlain(s, t);
        case Dying(_) => LockDyingIsPlain(s, t);
        case Unsetting(_) => EraseUnsetIsPlain(s, t);
        case Clearing(_) => ClearStepIsPlain(s, t);
        case SweepMissed(_) => SweepMissIsPlain(s, t);
        case SweepErasing(_) => SweepEraseIsPlain(s, t);
        case Linking(_, _, _) => LinkIsPlain(s, t);
        case Replacing(_, _, _, _) => ReplaceUnsetIsPlain(s, t);
        case TableInserting(_, _, _) => TableInsertIsPlain(s, t);
        case Charging(_, _, _) => AddChargeIsPlain(s, t);
      }
      PlainKeepsWithin(s, Proceed(s, t), t, capacity);
    }
  }

  lemma StepKeepsWithin(s: State, e: Event, capacity: nat)
    requires Inv(s) && Within(s, capacity) && Modest(e, capacity)
    ensures Within(Step(s, e), capacity)
  {
    hide Inv, PcWithin, Plain, TotalCharge, StartLookup, StartRelease, ClientRef, StartErase, StartClear, StartInsert,
         Proceed;
    match e
    case LookupEvent(t, key) => StartLookupIsPlain(s, t, key); PlainKeepsWithin(s, Step(s, e), t, capacity);
    case ReleaseEvent(t, token) => StartReleaseIsPlain(s, t, token); PlainKeepsWithin(s, Step(s, e), t, capacity);
    case RefEvent(token) => ClientRefIsPlain(s, 0, token); PlainKeepsWithin(s, Step(s, e), 0, capacity);
    case EraseEvent(t, key) => StartEraseIsPlain(s, t, key); PlainKeepsWithin(s, Step(s, e), t, capacity);
    case ClearEvent(t) => StartClearIsPlain(s, t); PlainKeepsWithin(s, Step(s, e), t, capacity);
    case InsertEvent(t, key, charge, hold) => InsertKeepsWithin(s, t, key, charge, hold, capacity);
    case StrictEvent(strict) =>
    case Continue(t) => ProceedKeepsWithin(s, t, capacity);
  }

  lemma {:induction false} RunKeepsWithin(s: State, events: seq<Event>, capacity: nat)
    requires Inv(s) && Within(s, capacity) && forall i | 0 <= i < |events| :: Modest(events[i], capacity)
    ensures Inv(Run(s, events)) && Within(Run(s, events), capacity)
    decreases |events|
  {
    hide Inv, Within, Modest, Step;
    if events != [] {
      StepKeeps(s, events[0]);
      StepKeepsWithin(s, events[0], capacity);
      RunKeepsWithin(Step(s, events[0]), events[1..], capacity);
    }
  }

  /** With the strict limit on and the capacity fixed, the usage never exceeds the capacity, in any
      interleaving. */
  lemma StrictLimit(threads: nat, capacity: nat, events: seq<Event>)
    requires capacity < SIZE && forall i | 0 <= i < |events| :: Modest(events[i], capacity)
    ensures var s := Run(Init(threads, capacity, true), events);
            TotalCharge(s.handles, s.recycle) <= capacity && s.usage <= capacity
  {
    hide Run, Modest;
    InitInv(threads, capacity, true);
    RunKeepsWithin(Init(threads, capacity, true), events, capacity);
    UsageWithin(Run(Init(threads, capacity, true), events), capacity);
  }

  lemma UsageWithin(s: State, capacity: nat)
    requires Inv(s) && Within(s, capacity)
    ensures s.usage <= capacity
  {
    hide ThreadsInv, LifeOk, TableOk, ValuesOk, FreshValues, TotalCharge, PcWithin;
    PendingIsCounted(s);
  }

  /** The pending charge belongs to a handle outside the recycle bin. */
  lemma PendingIsCounted(s: State)
    requires Inv(s)
    ensures Pending(Holder(s)) <= TotalCharge(s.handles, s.recycle)
  {
    hide ThreadsInv, UsageOk, TableOk, ValuesOk, FreshValues, Total, OwnersOf;
    if Pending(Holder(s)) > 0 {
      var h := Filled(Holder(s)).value;
      assert Alive(s.handles[h].flags, h in s.recycle, h in s.duty, OwnersOf(s.owners, h));
      TotalCounts(s.handles, s.recycle, h, |s.handles|);
    }
  }

  lemma {:induction false} TotalCounts(handles: seq<Handle>, recycle: seq<nat>, h: nat, n: nat)
    requires h < n <= |handles| && h !in recycle
    ensures handles[h].charge <= Total(handles, recycle, n)
  {
    if h < n - 1 {
      TotalCounts(handles, recycle, h, n - 1);
    }
  }
}
