/** The actions inside Erase, EraseUnRefEntries, EvictFromCache and Insert keep the invariant. */
module ClockCritical {
  import opened Strings
  import opened ClockHandle
  import opened ClockState
  import opened ClockInvariant
  import opened ClockEffects
  import opened ClockSafety

  // ----- UnsetInCache -----

  /** UnsetInCache on a handle outside the table; the thread takes the handle over if it was in cache
      and has no references. */
  lemma UnsetKeeps(s: State, t: nat, taking: Pc, leaving: Pc, h: nat)
    requires Inv(s) && t < |s.threads| && Holds(s.threads[t]) && h < |s.handles| && Holds(taking) && Holds(leaving)
    requires Duty(s.threads[t]) == None && Duty(taking) == Some(h) && Duty(leaving) == None
    requires Token(taking) == Token(s.threads[t]) && Token(leaving) == Token(s.threads[t])
    requires !InTable(s.handles[h], s.table, h)
    requires var f := s.handles[h].flags;
             var pc := if f.inCache && f.refs == 0 then taking else leaving;
             var handles := WithFlags(s.handles, h, f.(inCache := false));
             && SameOthers(|s.handles|, s.threads[t], pc, h) && !Stale(pc, h)
             && Pending(pc) == Pending(s.threads[t]) && Unstored(pc) == Unstored(s.threads[t])
             && HolderOk(handles, s.table, s.usage, s.capacity, pc)
    ensures var f := s.handles[h].flags;
            var s' := SetFlags(s, h, f.(inCache := false));
            Inv(if f.inCache && f.refs == 0 then Goto(s', t, taking).(duty := s.duty[h := t]) else Goto(s', t, leaving))
  {
    hide LifeOk, ThreadsInv, TableOk, UsageOk, ValuesOk, FreshValues, HolderOk, SameOthers, Pending, Unstored, Duty,
         Token, Holds, Stale, Loose;
    var f := s.handles[h].flags;
    var u := SetFlags(s, h, f.(inCache := false));
    var take := f.inCache && f.refs == 0;
    var pc := if take then taking else leaving;
    var s' := if take then Goto(u, t, taking).(duty := s.duty[h := t]) else Goto(u, t, leaving);
    BitUnset(s.handles, s.recycle, s.owners, s.duty, h, t);
    IsHolder(s, t);
    if take {
      HolderTakes(s, t, taking, h);
      SameThreadsButHandles(Goto(s, t, taking).(duty := s.duty[h := t]), s');
    } else {
      HolderGoes(s, t, leaving);
      SameThreadsButHandles(Goto(s, t, leaving), s');
    }
    DataUnset(s, s', s.threads[t], pc, h);
  }

  lemma DataUnset(s: State, s': State, pc: Pc, pc': Pc, h: nat)
    requires DataInv(s, pc) && h < |s.handles| && !InTable(s.handles[h], s.table, h)
    requires SameData(s, s') && s'.handles == WithFlags(s.handles, h, s.handles[h].flags.(inCache := false))
    requires SameOthers(|s.handles|, pc, pc', h) && !Stale(pc', h)
    requires Pending(pc) == Pending(pc') && Unstored(pc') == Unstored(pc)
    requires HolderOk(s'.handles, s.table, s.usage, s.capacity, pc')
    ensures DataInv(s', pc')
  {
    hide TableOk, ValuesOk, HolderOk, Total, SameOthers, Pending, Unstored, Loose, Stale;
    OutsideTable(s.handles, s'.handles, s.table, pc, pc', h);
    TotalSame(s.handles, s'.handles, s.recycle, |s.handles|);
    ValuesUnchanged(s.handles, s'.handles, s.recycle, s.home, s.queued);
  }

  /** A handle on which the holder works outside the table. */
  lemma LooseIsOutside(handles: seq<Handle>, table: map<string, nat>, pc: Pc, h: nat)
    requires TableOk(handles, table, pc) && h < |handles| && Loose(pc, h) && !Stale(pc, h)
    ensures !InTable(handles[h], table, h)
  {
  }

  // ----- Erase -----

  lemma StartEraseKeeps(s: State, t: nat, key: string)
    requires Inv(s)
    ensures Inv(StartErase(s, t, key))
  {
    hide LifeOk, ThreadsInv, UsageOk, ValuesOk, TableOk;
    var s' := StartErase(s, t, key);
    if s' != s {
      TableEntry(s.handles, s.table, Holder(s), key);
      var pc := Unsetting(s.table[key]);
      HolderEnters(s, t, pc);
      SameThreads(Lock(s, t, pc), s');
      KeyErased(s.handles, s.table, Idle, pc, key);
      SamePending(s, Idle, pc);
    }
  }

  lemma TableEntry(handles: seq<Handle>, table: map<string, nat>, pc: Pc, k: string)
    requires TableOk(handles, table, pc) && k in table
    ensures table[k] < |handles| && handles[table[k]].key == k && !Loose(pc, table[k])
    ensures handles[table[k]].flags.inCache || Stale(pc, table[k])
  {
    assert InTable(handles[table[k]], table, table[k]);
    assert handles[table[k]].flags.inCache || Stale(pc, table[k]);
  }

  lemma EraseUnsetKeeps(s: State, t: nat)
    requires Inv(s)
    ensures Inv(EraseUnset(s, t))
  {
    hide LifeOk, ThreadsInv, TableOk, UsageOk, ValuesOk, FreshValues;
    var s' := EraseUnset(s, t);
    if s' != s {
      var h := s.threads[t].h;
      var f := s.handles[h].flags;
      EraseUnsetStep(s, t);
      if !(f.inCache && f.refs == 0) {
        LeavesFrom(Goto(SetFlags(s, h, f.(inCache := false)), t, Resting()), t, s');
      }
    }
  }

  /** A place in the critical section where nothing is left to do. */
  function Resting(): Pc {
    Evicted(Resize, false)
  }

  lemma EraseUnsetStep(s: State, t: nat)
    requires Inv(s) && t < |s.threads| && s.threads[t].Unsetting? && s.threads[t].h < |s.handles|
    ensures var h := s.threads[t].h; var f := s.handles[h].flags;
            var s' := SetFlags(s, h, f.(inCache := false));
            Inv(if f.inCache && f.refs == 0 then Goto(s', t, Recycling(h)).(duty := s.duty[h := t])
                else Goto(s', t, Resting()))
  {
    hide LifeOk, ThreadsInv, TableOk, UsageOk, ValuesOk, FreshValues, SameOthers, Inv;
    var h := s.threads[t].h;
    assert Charge(Resize) == 0;
    UnsettingOthers(|s.handles|, h);
    UnsettingIsOutside(s, t);
    UnsetKeeps(s, t, Recycling(h), Resting(), h);
  }

  lemma UnsettingIsOutside(s: State, t: nat)
    requires Inv(s) && t < |s.threads| && s.threads[t].Unsetting? && s.threads[t].h < |s.handles|
    ensures !InTable(s.handles[s.threads[t].h], s.table, s.threads[t].h)
  {
    hide LifeOk, ThreadsInv, TableOk, UsageOk, ValuesOk, FreshValues;
    IsHolder(s, t);
    LooseIsOutside(s.handles, s.table, s.threads[t], s.threads[t].h);
  }

  lemma UnsettingOthers(n: nat, h: nat)
    ensures SameOthers(n, Unsetting(h), Recycling(h), h) && SameOthers(n, Unsetting(h), Resting(), h)
  {
  }

  /** From a place where nothing is left to do, the thread gives the mutex back. */
  lemma LeavesFrom(s: State, t: nat, s': State)
    requires Inv(s) && t < |s.threads| && s.threads[t] == Resting() && s' == Unlock(s, t)
    ensures Inv(s')
  {
    hide LifeOk, ThreadsInv, DataInv;
    HolderLeaves(s, t);
    DataMoves(s, s', s.threads[t], Idle);
  }

  // ----- EraseUnRefEntries -----

  lemma StartClearKeeps(s: State, t: nat)
    requires Inv(s)
    ensures Inv(StartClear(s, t))
  {
    hide LifeOk, ThreadsInv, UsageOk, ValuesOk, TableOk;
    var s' := StartClear(s, t);
    if s' != s {
      HolderEnters(s, t, Clearing(0));
      SameThreads(Lock(s, t, Clearing(0)), s');
      TableCleared(s.handles);
      SamePending(s, Idle, Clearing(0));
    }
  }

  lemma ClearStepKeeps(s: State, t: nat)
    requires Inv(s)
    ensures Inv(ClearStep(s, t))
  {
    hide Inv;
    var s' := ClearStep(s, t);
    if s' != s {
      var i := s.threads[t].i;
      if i >= |s.handles| {
        ClearEnds(s, t);
      } else {
        ClearsOne(s, t);
      }
    }
  }

  lemma ClearEnds(s: State, t: nat)
    requires Inv(s) && t < |s.threads| && s.threads[t].Clearing? && s.threads[t].i >= |s.handles|
    ensures Inv(Unlock(s, t))
  {
    hide LifeOk, ThreadsInv, DataInv;
    IsHolder(s, t);
    HolderLeaves(s, t);
    DataMoves(s, Unlock(s, t), s.threads[t], Idle);
  }

  lemma ClearsOne(s: State, t: nat)
    requires Inv(s) && t < |s.threads| && s.threads[t].Clearing? && s.threads[t].i < |s.handles|
    ensures var i := s.threads[t].i; var f := s.handles[i].flags;
            var s' := SetFlags(s, i, f.(inCache := false));
            Inv(if f.inCache && f.refs == 0 then Goto(s', t, ClearRecycling(i)).(duty := s.duty[i := t])
                else Goto(s', t, Clearing(i + 1)))
  {
    hide LifeOk, ThreadsInv, TableOk, UsageOk, ValuesOk, FreshValues, SameOthers, Inv;
    var i := s.threads[t].i;
    ClearingOthers(|s.handles|, i);
    TableIsClear(s, t);
    UnsetKeeps(s, t, ClearRecycling(i), Clearing(i + 1), i);
  }

  lemma TableIsClear(s: State, t: nat)
    requires Inv(s) && t < |s.threads| && s.threads[t].Clearing?
    ensures s.table == map[]
  {
    hide LifeOk, ThreadsInv, TableOk, UsageOk, ValuesOk, FreshValues;
    IsHolder(s, t);
  }

  lemma ClearingOthers(n: nat, i: nat)
    ensures SameOthers(n, Clearing(i), ClearRecycling(i), i) && SameOthers(n, Clearing(i), Clearing(i + 1), i)
  {
  }

  // ----- EvictFromCache -----

  lemma StartEvictKeeps(s: State, s': State, t: nat, op: Op)
    requires Inv(s) && t < |s.threads| && s.threads[t] == Idle && s.mutex == None && Charge(op) < SIZE
    requires s' == Lock(s, t, StartEvict(s, op)).(nextValue := s'.nextValue) && s.nextValue <= s'.nextValue
    requires op.Insert? ==> s.nextValue <= op.value < s'.nextValue
    ensures Inv(s')
  {
    hide LifeOk, ThreadsInv, TableOk, UsageOk, ValuesOk;
    var pc := StartEvict(s, op);
    HolderEnters(s, t, pc);
    SameThreads(Lock(s, t, pc), s');
    TableMoves(s.handles, s.table, Idle, pc);
    if s.usage != 0 {
      UsedHead(s.handles, s.recycle, s.usage, s.head, s.capacity);
    }
    assert UsageOk(s.handles, s.recycle, s.usage, pc) by { SamePending(s, Idle, pc); }
  }

  lemma SamePending(s: State, pc: Pc, pc': Pc)
    requires UsageOk(s.handles, s.recycle, s.usage, pc) && Pending(pc) == Pending(pc')
    ensures UsageOk(s.handles, s.recycle, s.usage, pc')
  {
    hide TotalCharge, Pending;
  }

  lemma StartInsertKeeps(s: State, t: nat, key: string, charge: nat, hold: bool)
    requires Inv(s)
    ensures Inv(StartInsert(s, t, key, charge, hold))
  {
    hide Inv, StartEvict;
    var s' := StartInsert(s, t, key, charge, hold);
    if s' != s {
      StartEvictKeeps(s, s', t, Insert(key, s.nextValue, charge, hold));
    }
  }

  lemma StartResizeKeeps(s: State, t: nat, capacity: nat)
    requires Inv(s)
    ensures Inv(StartResize(s, t, capacity))
  {
    hide StartEvict, LifeOk, TableOk, UsageOk, ValuesOk, FreshValues, ThreadsInv;
    var s' := StartResize(s, t, capacity);
    if s' != s {
      var r := s.(capacity := capacity);
      HolderIsIdle(s);
      SameThreads(s, r);
      StartEvictKeeps(r, s', t, Resize);
    }
  }

  lemma HolderIsIdle(s: State)
    requires s.mutex == None
    ensures Holder(s) == Idle
  {
  }

  lemma SweepStepKeeps(s: State, t: nat)
    requires Inv(s)
    ensures Inv(SweepStep(s, t))
  {
    hide Inv;
    var s' := SweepStep(s, t);
    if s' != s {
      var sw := s.threads[t].sw;
      if (sw.usage + Charge(sw.op)) % SIZE <= sw.capacity {
        SweepFits(s, t);
      } else if s.handles[sw.newHead].flags == Flags(true, false, 0) {
        SweepHits(s, t);
      } else {
        SweepMisses(s, t);
      }
    }
  }

  lemma SweepFits(s: State, t: nat)
    requires Inv(s) && t < |s.threads| && s.threads[t].Sweeping?
    requires var sw := s.threads[t].sw; (sw.usage + Charge(sw.op)) % SIZE <= sw.capacity
    ensures var sw := s.threads[t].sw; Inv(Goto(s, t, Evicted(sw.op, true)).(head := sw.newHead))
  {
    hide LifeOk, ThreadsInv, TableOk, UsageOk, ValuesOk, FreshValues;
    var sw := s.threads[t].sw;
    var r := Goto(s, t, Evicted(sw.op, true));
    IsHolder(s, t);
    HolderGoes(s, t, Evicted(sw.op, true));
    DataMoves(s, r, s.threads[t], Evicted(sw.op, true));
    SameThreads(r, r.(head := sw.newHead));
  }

  lemma SweepMisses(s: State, t: nat)
    requires Inv(s) && t < |s.threads| && s.threads[t].Sweeping?
    ensures Inv(Goto(s, t, SweepMissed(s.threads[t].sw)))
  {
    hide LifeOk, ThreadsInv, TableOk, UsageOk, ValuesOk, FreshValues;
    var pc := SweepMissed(s.threads[t].sw);
    IsHolder(s, t);
    HolderGoes(s, t, pc);
    DataMoves(s, Goto(s, t, pc), s.threads[t], pc);
  }

  /** The exchange of TryEvict succeeds: the handle is the thread's to recycle. */
  lemma SweepHits(s: State, t: nat)
    requires Inv(s) && t < |s.threads| && s.threads[t].Sweeping? && s.threads[t].sw.newHead < |s.handles|
    requires s.handles[s.threads[t].sw.newHead].flags == Flags(true, false, 0)
    ensures var sw := s.threads[t].sw;
            Inv(Goto(SetFlags(s, sw.newHead, Flags(false, false, 0)), t, SweepErasing(sw))
                  .(duty := s.duty[sw.newHead := t]))
  {
    hide LifeOk, ThreadsInv, TableOk, UsageOk, ValuesOk;
    var sw := s.threads[t].sw;
    var h, pc := sw.newHead, SweepErasing(sw);
    var s' := Goto(SetFlags(s, h, Flags(false, false, 0)), t, pc).(duty := s.duty[h := t]);
    IsHolder(s, t);
    BitUnset(s.handles, s.recycle, s.owners, s.duty, h, t);
    HolderTakes(s, t, pc, h);
    SameThreadsButHandles(Goto(s, t, pc).(duty := s.duty[h := t]), s');
    TableEvicts(s.handles, s.table, sw);
    SamePending(s, s.threads[t], pc);
    SameTotal(s, s', pc);
    ValuesUnchanged(s.handles, s'.handles, s.recycle, s.home, s.queued);
  }

  lemma SameTotal(s: State, s': State, pc: Pc)
    requires UsageOk(s.handles, s.recycle, s.usage, pc) && s'.recycle == s.recycle && s'.usage == s.usage
    requires |s.handles| == |s'.handles| && forall h | 0 <= h < |s.handles| ::
             s.handles[h].charge == s'.handles[h].charge
    ensures UsageOk(s'.handles, s'.recycle, s'.usage, pc)
  {
    hide Total;
    TotalSame(s.handles, s'.handles, s.recycle, |s.handles|);
  }

  /** Going on around the list keeps everything but the place. */
  lemma AdvanceIsLike(s: State, sw: Sweep)
    requires s.handles != [] && Charge(sw.op) < SIZE && sw.usage == s.usage && sw.capacity == s.capacity
    ensures var pc := Advance(s, sw);
            && Holds(pc) && Duty(pc) == None && Token(pc) == None && Pending(pc) == 0 && Unstored(pc) == OpValue(sw.op)
            && (forall h :: !Loose(pc, h) && !Stale(pc, h))
            && HolderOk(s.handles, s.table, s.usage, s.capacity, pc)
  {
  }

  lemma SweepMissKeeps(s: State, t: nat)
    requires Inv(s)
    ensures Inv(SweepMiss(s, t))
  {
    hide LifeOk, ThreadsInv, TableOk, UsageOk, ValuesOk, FreshValues, Advance, Quiet;
    var s' := SweepMiss(s, t);
    if s' != s {
      var sw := s.threads[t].sw;
      var h, pc := sw.newHead, Advance(s, sw);
      IsHolder(s, t);
      AdvanceIsLike(s, sw);
      HolderGoes(s, t, pc);
      DataMoves(s, Goto(s, t, pc), s.threads[t], pc);
      var f := s.handles[h].flags;
      FlagsAreQuiet(s.handles, h, false, f.refs);
      DataQuiet(Goto(s, t, pc), SetFlags(Goto(s, t, pc), h, f.(usage := false)), pc);
      UsageBitChanged(s.handles, s.recycle, s.owners, s.duty, h, false);
      SameThreadsButHandles(Goto(s, t, pc), s');
      assert Advance(SetFlags(s, h, f.(usage := false)), sw) == pc by {
        AdvanceReads(s, SetFlags(s, h, f.(usage := false)), sw);
      }
    }
  }

  lemma AdvanceReads(s: State, s': State, sw: Sweep)
    requires |s.handles| == |s'.handles| && s.head == s'.head
    ensures Advance(s, sw) == Advance(s', sw)
  {
  }

  lemma SweepEraseKeeps(s: State, t: nat)
    requires Inv(s)
    ensures Inv(SweepErase(s, t))
  {
    hide LifeOk, ThreadsInv, TableOk, UsageOk, ValuesOk;
    var s' := SweepErase(s, t);
    if s' != s {
      var sw := s.threads[t].sw;
      var h, pc := sw.newHead, SweepRecycling(sw);
      IsHolder(s, t);
      HolderGoes(s, t, pc);
      SameThreads(Goto(s, t, pc), s');
      StaleEntry(s.handles, s.table, s.threads[t], h);
      KeyErased(s.handles, s.table, s.threads[t], pc, s.handles[h].key);
      SamePending(s, s.threads[t], pc);
    }
  }

  lemma StaleEntry(handles: seq<Handle>, table: map<string, nat>, pc: Pc, h: nat)
    requires TableOk(handles, table, pc) && h < |handles| && Stale(pc, h)
    ensures InTable(handles[h], table, h)
  {
  }

  lemma SweepRecycleKeeps(s: State, t: nat)
    requires Inv(s)
    ensures Inv(SweepRecycle(s, t))
  {
    hide LifeOk, ThreadsInv, TableOk, UsageOk, ValuesOk, FreshValues, Advance;
    var s' := SweepRecycle(s, t);
    if s' != s {
      var sw := s.threads[t].sw;
      var r := Recycle(s, sw.newHead);
      var sw' := sw.(usage := r.usage);
      IsHolder(s, t);
      AdvanceIsLike(r, sw');
      RecycleKeeps(s, t, Advance(r, sw'), sw.newHead);
    }
  }

  // ----- Insert -----

  lemma AfterEvictKeeps(s: State, t: nat)
    requires Inv(s)
    ensures Inv(AfterEvict(s, t))
  {
    hide Inv, Fill;
    var s' := AfterEvict(s, t);
    if s' != s {
      var pc := s.threads[t];
      if pc.op.Resize? {
        ResizeEnds(s, t);
      } else if !pc.ok && (s.strict || !pc.op.hold) {
        InsertFails(s, t);
      } else if s.recycle == [] {
        FillsNew(s, t);
      } else {
        FillsFree(s, t);
      }
    }
  }

  lemma ResizeEnds(s: State, t: nat)
    requires Inv(s) && t < |s.threads| && s.threads[t].Evicted? && s.threads[t].op.Resize?
    ensures Inv(Unlock(s, t))
  {
    hide LifeOk, ThreadsInv, DataInv;
    IsHolder(s, t);
    HolderLeaves(s, t);
    DataMoves(s, Unlock(s, t), s.threads[t], Idle);
  }

  lemma InsertFails(s: State, t: nat)
    requires Inv(s) && t < |s.threads| && s.threads[t].Evicted? && s.threads[t].op.Insert?
    ensures var op := s.threads[t].op;
            Inv(Unlock(s, t).(queued := s.queued + if op.hold then [] else [op.value]))
  {
    hide LifeOk, ThreadsInv, TableOk, UsageOk, ValuesOk;
    var op := s.threads[t].op;
    var s' := Unlock(s, t).(queued := s.queued + if op.hold then [] else [op.value]);
    IsHolder(s, t);
    HolderLeaves(s, t);
    SameThreads(Unlock(s, t), s');
    TableMoves(s.handles, s.table, s.threads[t], Idle);
    SamePending(s, s.threads[t], Idle);
    if op.hold {
      assert s.queued + [] == s.queued;
    } else {
      ValueGivenUp(s.handles, s.recycle, s.home, s.queued, op.value);
    }
  }

  function FilledHandle(op: Op): Handle
    requires op.Insert?
  {
    Handle(Flags(true, false, if op.hold then 1 else 0), op.key, Some(op.value), op.charge)
  }

  function NewToken(s: State, op: Op): Option<nat> {
    if op.Insert? && op.hold then Some(s.nextToken) else None
  }

  /** The threads after the handle has been filled. */
  lemma FillThreads(s: State, t: nat, h: nat, op: Op)
    requires ThreadsInv(s) && t < |s.threads| && Holds(s.threads[t]) && op.Insert?
    requires Duty(s.threads[t]) == None && Token(s.threads[t]) == None
    ensures var k := NewToken(s, op);
            var s' := Goto(s, t, Linking(op, h, k))
                        .(owners := if k.Some? then s.owners[k.value := Owner(h, Some(t))] else s.owners,
                          nextToken := if k.Some? then s.nextToken + 1 else s.nextToken);
            ThreadsInv(s') && Holder(s') == Linking(op, h, k)
  {
    hide MutexOk, DutyOk, TokenOk, FoundOk;
    var k := NewToken(s, op);
    var pc := Linking(op, h, k);
    StaysInside(s.threads, s.mutex, t, pc);
    DutyStays(s.threads, s.duty, t, pc);
    if k.Some? {
      TokenGained(s.threads, s.owners, t, pc, k.value, h);
    } else {
      TokenStays(s.threads, s.owners, t, pc);
    }
    FoundStays(s.threads, |s.handles|, |s.handles|, t, pc);
  }

  /** The data after the handle has been filled. */
  lemma DataFilled(s: State, s': State, op: Op, ok: bool, h: nat, k: Option<nat>)
    requires DataInv(s, Evicted(op, ok)) && op.Insert? && h < |s'.handles| && s'.handles[h] == FilledHandle(op)
    requires TableOk(s'.handles, s'.table, Linking(op, h, k)) && ValuesOk(s'.handles, s'.recycle, s'.home, s'.queued)
    requires TotalCharge(s'.handles, s'.recycle) == TotalCharge(s.handles, s.recycle) + op.charge
    requires |s.handles| <= |s'.handles| && s'.home == s.home[op.value := h] && s'.queued == s.queued
    requires s'.usage == s.usage && s'.capacity == s.capacity && s'.head == s.head && s'.nextValue == s.nextValue
    ensures DataInv(s', Linking(op, h, k))
  {
    hide TableOk, ValuesOk, TotalCharge;
  }

  lemma FillsFree(s: State, t: nat)
    requires Inv(s) && t < |s.threads| && s.threads[t].Evicted? && s.threads[t].op.Insert? && s.recycle != []
    ensures var h := s.recycle[|s.recycle| - 1];
            h < |s.handles| && Inv(Fill(s.(recycle := s.recycle[..|s.recycle| - 1]), t, s.threads[t].op, h))
  {
    hide LifeOk, ThreadsInv, DataInv;
    var op, n := s.threads[t].op, |s.recycle| - 1;
    var h, x, k := s.recycle[n], FilledHandle(op), NewToken(s, op);
    TokensAreFresh(s);
    LifeTaken(s.handles, s.recycle, s.owners, s.duty, x, k, t);
    var s' := Fill(s.(recycle := s.recycle[..n]), t, op, h);
    FillThreads(s, t, h, op);
    SameThreadsButHandles(Goto(s, t, Linking(op, h, k)).(owners := s'.owners, nextToken := s'.nextToken), s');
    FillsFreeData(s, s', t);
  }

  lemma FillsFreeData(s: State, s': State, t: nat)
    requires Inv(s) && t < |s.threads| && s.threads[t].Evicted? && s.threads[t].op.Insert? && s.recycle != []
    requires s.recycle[|s.recycle| - 1] < |s.handles|
    requires s' == Fill(s.(recycle := s.recycle[..|s.recycle| - 1]), t, s.threads[t].op, s.recycle[|s.recycle| - 1])
    ensures DataInv(s', Linking(s.threads[t].op, s.recycle[|s.recycle| - 1], NewToken(s, s.threads[t].op)))
  {
    hide LifeOk, ThreadsInv, TableOk, ValuesOk, TotalCharge, SameOthers, UsageOk;
    var pc := s.threads[t];
    var op, n := pc.op, |s.recycle| - 1;
    var h, x, k := s.recycle[n], FilledHandle(op), NewToken(s, op);
    var pc' := Linking(op, h, k);
    IsHolder(s, t);
    TokensAreFresh(s);
    LifeTaken(s.handles, s.recycle, s.owners, s.duty, x, k, t);
    EvictedOthers(|s.handles|, op, pc.ok, h, k);
    TableFilled(s.handles, s'.handles, s.table, pc, pc', h);
    RecycleIsDistinct(s);
    TotalTaken(s.handles, s.recycle, x);
    ValueStored(s.handles, s'.handles, s.recycle, s.recycle[..n], s.home, s.queued, h, op.value);
    DataFilled(s, s', op, pc.ok, h, k);
  }

  lemma TokensAreFresh(s: State)
    requires ThreadsInv(s)
    ensures s.nextToken !in s.owners
  {
    hide MutexOk, DutyOk, TokenOk, FoundOk;
  }

  lemma RecycleIsDistinct(s: State)
    requires LifeOk(s.handles, s.recycle, s.owners, s.duty)
    ensures forall i, j | 0 <= i < j < |s.recycle| :: s.recycle[i] != s.recycle[j]
  {
    hide OwnersOf, Alive;
  }

  lemma EvictedOthers(n: nat, op: Op, ok: bool, h: nat, k: Option<nat>)
    ensures SameOthers(n, Evicted(op, ok), Linking(op, h, k), h)
  {
  }

  function Longer(s: State): State {
    s.(handles := s.handles + [Handle(Flags(false, false, 0), "", None, 0)])
  }

  lemma FillsNew(s: State, t: nat)
    requires Inv(s) && t < |s.threads| && s.threads[t].Evicted? && s.threads[t].op.Insert?
    ensures Inv(Fill(Longer(s), t, s.threads[t].op, |s.handles|))
  {
    hide LifeOk, ThreadsInv, DataInv;
    var op, h := s.threads[t].op, |s.handles|;
    var x, k := FilledHandle(op), NewToken(s, op);
    TokensAreFresh(s);
    LifeAppended(s.handles, s.recycle, s.owners, s.duty, x, k, t);
    var s' := Fill(Longer(s), t, op, h);
    assert s'.handles == s.handles + [x];
    FillThreads(s, t, h, op);
    ThreadsButLonger(Goto(s, t, Linking(op, h, k)).(owners := s'.owners, nextToken := s'.nextToken), s');
    FillsNewData(s, s', t);
  }

  lemma FillsNewData(s: State, s': State, t: nat)
    requires Inv(s) && t < |s.threads| && s.threads[t].Evicted? && s.threads[t].op.Insert?
    requires s' == Fill(Longer(s), t, s.threads[t].op, |s.handles|)
    ensures DataInv(s', Linking(s.threads[t].op, |s.handles|, NewToken(s, s.threads[t].op)))
  {
    hide LifeOk, ThreadsInv, TableOk, ValuesOk, TotalCharge, SameOthers, UsageOk;
    var pc := s.threads[t];
    var op, h := pc.op, |s.handles|;
    var x, k := FilledHandle(op), NewToken(s, op);
    var pc' := Linking(op, h, k);
    IsHolder(s, t);
    TokensAreFresh(s);
    LifeAppended(s.handles, s.recycle, s.owners, s.duty, x, k, t);
    assert s'.handles == s.handles + [x];
    EvictedOthers(|s.handles|, op, pc.ok, h, k);
    TableFilled(s.handles, s'.handles, s.table, pc, pc', h);
    TotalAppended(s.handles, s.recycle, x);
    ValueStored(s.handles, s'.handles, s.recycle, s.recycle, s.home, s.queued, h, op.value);
    DataFilled(s, s', op, pc.ok, h, k);
  }

  lemma ThreadsButLonger(s: State, s': State)
    requires ThreadsInv(s) && s'.threads == s.threads && s'.mutex == s.mutex && s'.duty == s.duty
             && s'.owners == s.owners
    requires s'.nextToken == s.nextToken && |s.handles| <= |s'.handles|
    ensures ThreadsInv(s')
  {
    hide MutexOk, DutyOk, TokenOk, FreshOk;
  }

  lemma LinkKeeps(s: State, t: nat)
    requires Inv(s)
    ensures Inv(Link(s, t))
  {
    hide Inv;
    var s' := Link(s, t);
    if s' != s {
      if s.threads[t].op.key in s.table {
        LinkReplaces(s, t);
      } else {
        LinkFinds(s, t);
      }
    }
  }

  lemma LinkFinds(s: State, t: nat)
    requires Inv(s) && t < |s.threads| && s.threads[t].Linking? && s.threads[t].op.Insert?
             && s.threads[t].op.key !in s.table
    ensures var pc := s.threads[t]; Inv(Goto(s, t, TableInserting(pc.op, pc.h, pc.tok)))
  {
    hide LifeOk, ThreadsInv, TableOk, UsageOk, ValuesOk, FreshValues;
    var pc := s.threads[t];
    var pc' := TableInserting(pc.op, pc.h, pc.tok);
    IsHolder(s, t);
    HolderGoes(s, t, pc');
    DataMoves(s, Goto(s, t, pc'), pc, pc');
  }

  lemma LinkReplaces(s: State, t: nat)
    requires Inv(s) && t < |s.threads| && s.threads[t].Linking? && s.threads[t].op.Insert?
             && s.threads[t].op.key in s.table
    ensures var pc := s.threads[t]; var prev := s.table[pc.op.key];
            Inv(Goto(s, t, Replacing(pc.op, pc.h, pc.tok, prev)).(table := s.table - {pc.op.key}))
  {
    hide LifeOk, ThreadsInv, TableOk, UsageOk, ValuesOk, SameOthers;
    var pc := s.threads[t];
    var prev := s.table[pc.op.key];
    var pc' := Replacing(pc.op, pc.h, pc.tok, prev);
    IsHolder(s, t);
    TableEntry(s.handles, s.table, pc, pc.op.key);
    HolderGoes(s, t, pc');
    SameThreads(Goto(s, t, pc'), Goto(s, t, pc').(table := s.table - {pc.op.key}));
    LinkingOthers(|s.handles|, pc, prev);
    KeyErased(s.handles, s.table, pc, pc', pc.op.key);
    SamePending(s, pc, pc');
  }

  lemma LinkingOthers(n: nat, pc: Pc, prev: nat)
    requires pc.Linking?
    ensures SameOthers(n, pc, Replacing(pc.op, pc.h, pc.tok, prev), prev)
  {
  }

  lemma ReplaceUnsetKeeps(s: State, t: nat)
    requires Inv(s)
    ensures Inv(ReplaceUnset(s, t))
  {
    hide LifeOk, ThreadsInv, TableOk, UsageOk, ValuesOk, FreshValues, SameOthers;
    var s' := ReplaceUnset(s, t);
    if s' != s {
      var pc := s.threads[t];
      IsHolder(s, t);
      LooseIsOutside(s.handles, s.table, pc, pc.prev);
      var taking, leaving := ReplaceRecycling(pc.op, pc.h, pc.tok, pc.prev), TableInserting(pc.op, pc.h, pc.tok);
      ReplacingOthers(|s.handles|, pc);
      UnsetKeeps(s, t, taking, leaving, pc.prev);
    }
  }

  lemma ReplacingOthers(n: nat, pc: Pc)
    requires pc.Replacing? && pc.prev != pc.h
    ensures SameOthers(n, pc, ReplaceRecycling(pc.op, pc.h, pc.tok, pc.prev), pc.prev)
    ensures SameOthers(n, pc, TableInserting(pc.op, pc.h, pc.tok), pc.prev)
    ensures SameOthers(n, ReplaceRecycling(pc.op, pc.h, pc.tok, pc.prev), TableInserting(pc.op, pc.h, pc.tok), pc.prev)
  {
  }

  lemma ReplaceRecycleKeeps(s: State, t: nat)
    requires Inv(s)
    ensures Inv(ReplaceRecycle(s, t))
  {
    hide LifeOk, ThreadsInv, TableOk, UsageOk, ValuesOk, FreshValues, SameOthers;
    var s' := ReplaceRecycle(s, t);
    if s' != s {
      var pc := s.threads[t];
      IsHolder(s, t);
      ReplacingOthers(|s.handles|, Replacing(pc.op, pc.h, pc.tok, pc.prev));
      RecycleKeeps(s, t, TableInserting(pc.op, pc.h, pc.tok), pc.prev);
    }
  }

  lemma TableInsertKeeps(s: State, t: nat)
    requires Inv(s)
    ensures Inv(TableInsert(s, t))
  {
    hide LifeOk, ThreadsInv, TableOk, UsageOk, ValuesOk;
    var s' := TableInsert(s, t);
    if s' != s {
      var pc := s.threads[t];
      var pc' := Charging(pc.op, pc.h, pc.tok);
      IsHolder(s, t);
      HolderGoes(s, t, pc');
      SameThreads(Goto(s, t, pc'), s');
      TableInserted(s.handles, s.table, pc, pc', pc.h);
      SamePending(s, pc, pc');
    }
  }

  lemma AddChargeKeeps(s: State, t: nat)
    requires Inv(s)
    ensures Inv(AddCharge(s, t))
  {
    hide Inv;
    if AddCharge(s, t) != s {
      Charges(s, t);
    }
  }

  lemma Charges(s: State, t: nat)
    requires Inv(s) && t < |s.threads| && s.threads[t].Charging?
    ensures Inv(ChargeThreads(s, t).(usage := (s.usage + Charge(s.threads[t].op)) % SIZE))
  {
    hide LifeOk, ThreadsInv, DataInv;
    var s' := ChargeThreads(s, t).(usage := (s.usage + Charge(s.threads[t].op)) % SIZE);
    IsHolder(s, t);
    ChargeLeaves(s, t);
    SameThreadsButHandles(ChargeThreads(s, t), s');
    DataCharged(s, s', s.threads[t]);
  }

  lemma DataCharged(s: State, s': State, pc: Pc)
    requires DataInv(s, pc) && pc.Charging?
    requires SameData(s.(usage := (s.usage + Charge(pc.op)) % SIZE), s') && s'.handles == s.handles
    ensures DataInv(s', Idle)
  {
    hide TableOk, ValuesOk, TotalCharge;
    TableMoves(s.handles, s.table, pc, Idle);
    ModuloSubtract(TotalCharge(s.handles, s.recycle) - Charge(pc.op), Charge(pc.op));
  }

  function ChargeThreads(s: State, t: nat): State
    requires t < |s.threads| && s.threads[t].Charging?
  {
    var tok := s.threads[t].tok;
    if tok.Some? && tok.value in s.owners then
      Unlock(s, t).(owners := s.owners[tok.value := s.owners[tok.value].(thread := None)])
    else Unlock(s, t)
  }

  lemma ChargeLeaves(s: State, t: nat)
    requires ThreadsInv(s) && LifeOk(s.handles, s.recycle, s.owners, s.duty) && t < |s.threads|
             && s.threads[t].Charging?
    ensures var s' := ChargeThreads(s, t);
            ThreadsInv(s') && LifeOk(s'.handles, s'.recycle, s'.owners, s'.duty) && Holder(s') == Idle
  {
    hide LifeOk, MutexOk, DutyOk, TokenOk, FoundOk;
    var tok := s.threads[t].tok;
    Leaves(s.threads, s.mutex, t);
    DutyStays(s.threads, s.duty, t, Idle);
    FoundStays(s.threads, |s.handles|, |s.handles|, t, Idle);
    if tok.Some? {
      TokenIsOwned(s.threads, s.owners, t);
      TokenToClient(s.threads, s.owners, t, Idle, tok.value, s.owners[tok.value].h);
      ReferenceMoved(s.handles, s.recycle, s.owners, s.duty, tok.value, None);
    } else {
      TokenStays(s.threads, s.owners, t, Idle);
    }
  }
}
