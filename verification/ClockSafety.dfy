/** Every action of every thread keeps the invariant, so it holds in every state of every run. */
module ClockSafety {
  import opened Strings
  import opened ClockHandle
  import opened ClockState
  import opened ClockInvariant
  import opened ClockEffects

  // ----- parts of the state that stay -----

  /** Everything that DataInv reads, apart from the handles. */
  predicate SameData(s: State, s': State) {
    && s'.table == s.table && s'.recycle == s.recycle && s'.usage == s.usage && s'.capacity == s.capacity
    && s'.head == s.head && s'.home == s.home && s'.queued == s.queued && s'.nextValue == s.nextValue
  }

  lemma DataQuiet(s: State, s': State, pc: Pc)
    requires DataInv(s, pc) && SameData(s, s') && Quiet(s.handles, s'.handles)
    ensures DataInv(s', pc)
  {
    hide TableOk, UsageOk, ValuesOk, FreshValues, Quiet;
    TableQuiet(s.handles, s'.handles, s.table, pc);
    UsageQuiet(s.handles, s'.handles, s.recycle, s.usage, pc);
    ValuesQuiet(s.handles, s'.handles, s.recycle, s.home, s.queued);
    HolderQuiet(s.handles, s'.handles, s.table, s.usage, s.capacity, pc);
    QuietLength(s.handles, s'.handles);
  }

  lemma QuietLength(handles: seq<Handle>, handles': seq<Handle>)
    requires Quiet(handles, handles')
    ensures |handles| == |handles'|
  {
  }

  lemma HolderQuiet(handles: seq<Handle>, handles': seq<Handle>, table: map<string, nat>, usage: nat, capacity: nat,
      pc: Pc)
    requires HolderOk(handles, table, usage, capacity, pc) && Quiet(handles, handles')
    ensures HolderOk(handles', table, usage, capacity, pc)
  {
    assert forall h | 0 <= h < |handles| :: SameButCounts(handles[h], handles'[h]);
  }

  /** The holder of the mutex moves on, and no handle changes. */
  lemma DataMoves(s: State, s': State, pc: Pc, pc': Pc)
    requires DataInv(s, pc) && SameData(s, s') && s'.handles == s.handles
    requires forall h | 0 <= h < |s.handles| :: Loose(pc, h) == Loose(pc', h) && Stale(pc, h) == Stale(pc', h)
    requires Pending(pc) == Pending(pc') && (Unstored(pc') == Unstored(pc) || Unstored(pc') == None)
    requires HolderOk(s.handles, s.table, s.usage, s.capacity, pc')
    ensures DataInv(s', pc')
  {
    hide TableOk, ValuesOk, HolderOk, TotalCharge, Pending, Unstored, Loose, Stale;
    TableMoves(s.handles, s.table, pc, pc');
  }

  // ----- actions without the mutex -----

  lemma StartLookupKeeps(s: State, t: nat, key: string)
    requires Inv(s)
    ensures Inv(StartLookup(s, t, key))
  {
    hide LifeOk, MutexOk, DutyOk, TokenOk, FoundOk, FreshOk, HolderOk, UsageOk, ValuesOk, FreshValues;
    if StartLookup(s, t, key) != s {
      var pc := Found(key, s.table[key]);
      StaysOutside(s.threads, s.mutex, t, pc);
      DutyStays(s.threads, s.duty, t, pc);
      TokenStays(s.threads, s.owners, t, pc);
      FoundStays(s.threads, |s.handles|, |s.handles|, t, pc);
    }
  }

  lemma RefFoundKeeps(s: State, t: nat)
    requires Inv(s)
    ensures Inv(RefFound(s, t))
  {
    hide LifeOk, ThreadsInv, DataInv;
    var s' := RefFound(s, t);
    if s' != s {
      if s.handles[s.threads[t].h].flags.inCache {
        RefGained(s, t);
      } else {
        GoesIdle(s, t);
        DataSame(s, s', Holder(s));
      }
    }
  }

  /** The exchange succeeds. */
  lemma RefGained(s: State, t: nat)
    requires Inv(s) && t < |s.threads| && s.threads[t].Found? && s.threads[t].h < |s.handles|
    requires s.handles[s.threads[t].h].flags.inCache
    ensures Inv(RefFound(s, t))
  {
    hide LifeOk, MutexOk, DutyOk, TokenOk, FoundOk, DataInv, Quiet;
    var h, k := s.threads[t].h, s.nextToken;
    var f := s.handles[h].flags;
    var pc := Reffed(s.threads[t].key, k);
    StaysOutside(s.threads, s.mutex, t, pc);
    DutyStays(s.threads, s.duty, t, pc);
    TokenGained(s.threads, s.owners, t, pc, k, h);
    FoundStays(s.threads, |s.handles|, |s.handles|, t, pc);
    ReferenceGained(s.handles, s.recycle, s.owners, s.duty, k, Owner(h, Some(t)));
    FlagsAreQuiet(s.handles, h, f.usage, f.refs + 1);
    DataQuiet(s, RefFound(s, t), Holder(s));
  }

  /** A thread outside the critical section with nothing on its hands becomes idle. */
  lemma GoesIdle(s: State, t: nat)
    requires ThreadsInv(s) && t < |s.threads| && !Holds(s.threads[t]) && Duty(s.threads[t]) == None
             && Token(s.threads[t]) == None
    ensures ThreadsInv(Goto(s, t, Idle)) && Holder(Goto(s, t, Idle)) == Holder(s)
  {
    hide MutexOk, DutyOk, TokenOk, FoundOk, FreshOk;
    StaysOutside(s.threads, s.mutex, t, Idle);
    DutyStays(s.threads, s.duty, t, Idle);
    TokenStays(s.threads, s.owners, t, Idle);
    FoundStays(s.threads, |s.handles|, |s.handles|, t, Idle);
  }

  lemma DataSame(s: State, s': State, pc: Pc)
    requires DataInv(s, pc) && SameData(s, s') && s'.handles == s.handles
    ensures DataInv(s', pc)
  {
    hide TableOk, ValuesOk, HolderOk, UsageOk, FreshValues;
  }

  lemma TokenIsOwned(threads: seq<Pc>, owners: map<nat, Owner>, t: nat)
    requires TokenOk(threads, owners) && t < |threads| && Token(threads[t]).Some?
    ensures Token(threads[t]).value in owners && owners[Token(threads[t]).value].thread == Some(t)
  {
    hide Token;
  }

  lemma CheckKeyKeeps(s: State, t: nat)
    requires Inv(s)
    ensures Inv(CheckKey(s, t))
  {
    hide LifeOk, ThreadsInv, DataInv;
    var s' := CheckKey(s, t);
    if s' != s {
      var k := s.threads[t].token;
      if s.handles[s.owners[k].h].key == s.threads[t].key {
        KeyIsRight(s, t);
      } else {
        KeepsToken(s, t, Dropping(k));
      }
      DataSame(s, s', Holder(s));
    }
  }

  /** A thread outside the critical section moves on and keeps what it has. */
  lemma KeepsToken(s: State, t: nat, pc: Pc)
    requires ThreadsInv(s) && t < |s.threads| && !Holds(s.threads[t]) && !Holds(pc) && !pc.Found?
    requires Duty(pc) == Duty(s.threads[t]) && Token(pc) == Token(s.threads[t])
    ensures ThreadsInv(Goto(s, t, pc)) && Holder(Goto(s, t, pc)) == Holder(s)
  {
    hide MutexOk, DutyOk, TokenOk, FoundOk, FreshOk;
    StaysOutside(s.threads, s.mutex, t, pc);
    DutyStays(s.threads, s.duty, t, pc);
    TokenStays(s.threads, s.owners, t, pc);
    FoundStays(s.threads, |s.handles|, |s.handles|, t, pc);
  }

  lemma KeyIsRight(s: State, t: nat)
    requires ThreadsInv(s) && LifeOk(s.handles, s.recycle, s.owners, s.duty) && t < |s.threads| && s.threads[t].Reffed?
    requires s.threads[t].token in s.owners
    ensures var k := s.threads[t].token;
            var s' := Goto(s, t, Idle).(owners := s.owners[k := Owner(s.owners[k].h, None)]);
            ThreadsInv(s') && LifeOk(s'.handles, s'.recycle, s'.owners, s'.duty) && Holder(s') == Holder(s)
  {
    hide LifeOk, MutexOk, DutyOk, TokenOk, FoundOk;
    var k := s.threads[t].token;
    StaysOutside(s.threads, s.mutex, t, Idle);
    DutyStays(s.threads, s.duty, t, Idle);
    TokenToClient(s.threads, s.owners, t, Idle, k, s.owners[k].h);
    FoundStays(s.threads, |s.handles|, |s.handles|, t, Idle);
    ReferenceMoved(s.handles, s.recycle, s.owners, s.duty, k, None);
  }

  lemma StartReleaseKeeps(s: State, t: nat, token: nat)
    requires Inv(s)
    ensures Inv(StartRelease(s, t, token))
  {
    hide LifeOk, MutexOk, DutyOk, TokenOk, FoundOk, DataInv;
    var s' := StartRelease(s, t, token);
    if s' != s {
      StaysOutside(s.threads, s.mutex, t, Releasing(token));
      DutyStays(s.threads, s.duty, t, Releasing(token));
      TokenGained(s.threads, s.owners, t, Releasing(token), token, s.owners[token].h);
      FoundStays(s.threads, |s.handles|, |s.handles|, t, Releasing(token));
      ReferenceMoved(s.handles, s.recycle, s.owners, s.duty, token, Some(t));
      DataSame(s, s', Holder(s));
    }
  }

  lemma SetUsageKeeps(s: State, t: nat)
    requires Inv(s)
    ensures Inv(SetUsage(s, t))
  {
    hide LifeOk, MutexOk, DutyOk, TokenOk, FoundOk, FreshOk, DataInv, Quiet;
    var s' := SetUsage(s, t);
    if s' != s {
      var k := s.threads[t].token;
      var h := s.owners[k].h;
      StaysOutside(s.threads, s.mutex, t, Dropping(k));
      DutyStays(s.threads, s.duty, t, Dropping(k));
      TokenStays(s.threads, s.owners, t, Dropping(k));
      FoundStays(s.threads, |s.handles|, |s.handles|, t, Dropping(k));
      UsageBitChanged(s.handles, s.recycle, s.owners, s.duty, h, true);
      FlagsAreQuiet(s.handles, h, true, s.handles[h].flags.refs);
      DataQuiet(s, s', Holder(s));
    }
  }

  lemma DropKeeps(s: State, t: nat)
    requires Inv(s)
    ensures Inv(Drop(s, t))
  {
    hide LifeOk, ThreadsInv, DataInv;
    var s' := Drop(s, t);
    if s' != s {
      var f := s.handles[s.owners[s.threads[t].token].h].flags;
      if f.refs == 1 && !f.inCache {
        DropsLast(s, t);
      } else {
        DropsOther(s, t);
      }
    }
  }

  predicate Drops(s: State, t: nat) {
    && t < |s.threads| && s.threads[t].Dropping? && s.threads[t].token in s.owners
    && s.owners[s.threads[t].token].h < |s.handles| && s.handles[s.owners[s.threads[t].token].h].flags.refs > 0
  }

  lemma DropsOther(s: State, t: nat)
    requires Inv(s) && Drops(s, t)
    requires var f := s.handles[s.owners[s.threads[t].token].h].flags; !(f.refs == 1 && !f.inCache)
    ensures Inv(Drop(s, t))
  {
    hide LifeOk, MutexOk, DutyOk, TokenOk, FoundOk, DataInv, Quiet;
    var k := s.threads[t].token;
    var h := s.owners[k].h;
    var f := s.handles[h].flags;
    ReferenceDropped(s.handles, s.recycle, s.owners, s.duty, k, t);
    StaysOutside(s.threads, s.mutex, t, Idle);
    DutyStays(s.threads, s.duty, t, Idle);
    TokenDropped(s.threads, s.owners, t, Idle, k);
    FoundStays(s.threads, |s.handles|, |s.handles|, t, Idle);
    FlagsAreQuiet(s.handles, h, f.usage, f.refs - 1);
    DataQuiet(s, Drop(s, t), Holder(s));
  }

  /** The last reference of a detached handle: the thread has to recycle it. */
  lemma DropsLast(s: State, t: nat)
    requires Inv(s) && Drops(s, t)
    requires var f := s.handles[s.owners[s.threads[t].token].h].flags; f.refs == 1 && !f.inCache
    ensures Inv(Drop(s, t))
  {
    hide LifeOk, MutexOk, DutyOk, TokenOk, FoundOk, DataInv, Quiet;
    var k := s.threads[t].token;
    var h := s.owners[k].h;
    var f := s.handles[h].flags;
    ReferenceDropped(s.handles, s.recycle, s.owners, s.duty, k, t);
    StaysOutside(s.threads, s.mutex, t, Dying(h));
    DutyBegins(s.threads, s.duty, t, Dying(h), h);
    TokenDropped(s.threads, s.owners, t, Dying(h), k);
    FoundStays(s.threads, |s.handles|, |s.handles|, t, Dying(h));
    FlagsAreQuiet(s.handles, h, f.usage, f.refs - 1);
    DataQuiet(s, Drop(s, t), Holder(s));
  }

  lemma ClientRefKeeps(s: State, token: nat)
    requires Inv(s)
    ensures Inv(ClientRef(s, token))
  {
    hide LifeOk, MutexOk, DutyOk, TokenOk, FoundOk, DataInv, Quiet;
    var s' := ClientRef(s, token);
    if s' != s {
      var h := s.owners[token].h;
      var f := s.handles[h].flags;
      TokenOfClient(s.threads, s.owners, s.nextToken, h);
      ReferenceGained(s.handles, s.recycle, s.owners, s.duty, s.nextToken, Owner(h, None));
      FlagsAreQuiet(s.handles, h, f.usage, f.refs + 1);
      DataQuiet(s, s', Holder(s));
    }
  }

  lemma SetStrictKeeps(s: State, strict: bool)
    requires Inv(s)
    ensures Inv(SetStrict(s, strict))
  {
    hide LifeOk, ThreadsInv, DataInv;
    assert ThreadsInv(SetStrict(s, strict)) by { SameThreads(s, SetStrict(s, strict)); }
    DataSame(s, SetStrict(s, strict), Holder(s));
  }

  lemma SameThreads(s: State, s': State)
    requires ThreadsInv(s) && s'.threads == s.threads && s'.mutex == s.mutex && s'.duty == s.duty
             && s'.owners == s.owners
    requires s'.nextToken == s.nextToken && s'.handles == s.handles
    ensures ThreadsInv(s')
  {
    hide MutexOk, DutyOk, TokenOk, FoundOk, FreshOk;
  }

  // ----- the mutex -----

  /** The holder moves on, and keeps duty and token. */
  lemma HolderGoes(s: State, t: nat, pc: Pc)
    requires ThreadsInv(s) && t < |s.threads| && Holds(s.threads[t]) && Holds(pc)
    requires Duty(pc) == Duty(s.threads[t]) && Token(pc) == Token(s.threads[t])
    ensures ThreadsInv(Goto(s, t, pc)) && Holder(s) == s.threads[t] && Holder(Goto(s, t, pc)) == pc
  {
    hide MutexOk, DutyOk, TokenOk, FoundOk, FreshOk;
    StaysInside(s.threads, s.mutex, t, pc);
    DutyStays(s.threads, s.duty, t, pc);
    TokenStays(s.threads, s.owners, t, pc);
    FoundStays(s.threads, |s.handles|, |s.handles|, t, pc);
  }

  /** The holder takes over a handle. */
  lemma HolderTakes(s: State, t: nat, pc: Pc, h: nat)
    requires ThreadsInv(s) && t < |s.threads| && Holds(s.threads[t]) && Holds(pc) && h !in s.duty
    requires Duty(s.threads[t]) == None && Duty(pc) == Some(h) && Token(pc) == Token(s.threads[t])
    ensures ThreadsInv(Goto(s, t, pc).(duty := s.duty[h := t]))
    ensures Holder(s) == s.threads[t] && Holder(Goto(s, t, pc).(duty := s.duty[h := t])) == pc
  {
    hide MutexOk, DutyOk, TokenOk, FoundOk, FreshOk;
    StaysInside(s.threads, s.mutex, t, pc);
    DutyBegins(s.threads, s.duty, t, pc, h);
    TokenStays(s.threads, s.owners, t, pc);
    FoundStays(s.threads, |s.handles|, |s.handles|, t, pc);
  }

  /** The holder is done with its handle. */
  lemma HolderDone(s: State, t: nat, pc: Pc, h: nat)
    requires ThreadsInv(s) && t < |s.threads| && Holds(s.threads[t]) && Holds(pc)
    requires Duty(s.threads[t]) == Some(h) && Duty(pc) == None && Token(pc) == Token(s.threads[t])
    ensures ThreadsInv(Goto(s, t, pc).(duty := s.duty - {h}))
    ensures h in s.duty && Holder(s) == s.threads[t] && Holder(Goto(s, t, pc).(duty := s.duty - {h})) == pc
  {
    hide MutexOk, TokenOk, FoundOk, FreshOk;
    StaysInside(s.threads, s.mutex, t, pc);
    DutyEnds(s.threads, s.duty, t, pc, h);
    TokenStays(s.threads, s.owners, t, pc);
    FoundStays(s.threads, |s.handles|, |s.handles|, t, pc);
  }

  lemma HolderEnters(s: State, t: nat, pc: Pc)
    requires ThreadsInv(s) && t < |s.threads| && s.mutex == None && Holds(pc)
    requires Duty(pc) == Duty(s.threads[t]) && Token(pc) == Token(s.threads[t])
    ensures ThreadsInv(Lock(s, t, pc)) && Holder(s) == Idle && Holder(Lock(s, t, pc)) == pc
  {
    hide MutexOk, DutyOk, TokenOk, FoundOk, FreshOk;
    Enters(s.threads, t, pc);
    DutyStays(s.threads, s.duty, t, pc);
    TokenStays(s.threads, s.owners, t, pc);
    FoundStays(s.threads, |s.handles|, |s.handles|, t, pc);
  }

  lemma HolderLeaves(s: State, t: nat)
    requires ThreadsInv(s) && t < |s.threads| && Holds(s.threads[t]) && Duty(s.threads[t]) == None
             && Token(s.threads[t]) == None
    ensures ThreadsInv(Unlock(s, t)) && Holder(s) == s.threads[t] && Holder(Unlock(s, t)) == Idle
  {
    hide MutexOk, DutyOk, TokenOk, FoundOk, FreshOk;
    Leaves(s.threads, s.mutex, t);
    DutyStays(s.threads, s.duty, t, Idle);
    TokenStays(s.threads, s.owners, t, Idle);
    FoundStays(s.threads, |s.handles|, |s.handles|, t, Idle);
  }

  lemma LockDyingKeeps(s: State, t: nat)
    requires Inv(s)
    ensures Inv(LockDying(s, t))
  {
    hide LifeOk, ThreadsInv, DataInv;
    var s' := LockDying(s, t);
    if s' != s {
      var pc := Recycling(s.threads[t].h);
      HolderEnters(s, t, pc);
      DataMoves(s, s', Idle, pc);
    }
  }

  // ----- RecycleHandle -----

  /** What RecycleHandle does to the data, and where the thread goes next. */
  lemma DataRecycled(s: State, s': State, pc: Pc, pc': Pc, h: nat)
    requires DataInv(s, pc) && h < |s.handles| && h !in s.recycle && !s.handles[h].flags.inCache && !Stale(pc, h)
             && !Stale(pc', h)
    requires SameOthers(|s.handles|, pc, pc', h) && Pending(pc) == Pending(pc')
    requires Unstored(pc') == Unstored(pc) || Unstored(pc') == None
    requires var r := Recycle(s, h);
             && SameData(r, s') && s'.handles == r.handles
             && HolderOk(r.handles, r.table, r.usage, r.capacity, pc')
    ensures DataInv(s', pc')
  {
    hide TableOk, ValuesOk, HolderOk, TotalCharge, UsageOk, SameOthers, Pending, Unstored;
    var x := s.handles[h].(key := "", value := None);
    NotInTable(s.handles, s.table, pc, h);
    OutsideTable(s.handles, s.handles[h := x], s.table, pc, pc', h);
    UsageRecycled(s.handles, s.recycle, s.usage, pc, pc', h);
    ValueQueued(s.handles, s.recycle, s.home, s.queued, h);
  }

  lemma NotInTable(handles: seq<Handle>, table: map<string, nat>, pc: Pc, h: nat)
    requires TableOk(handles, table, pc) && h < |handles| && !handles[h].flags.inCache && !Stale(pc, h)
    ensures !InTable(handles[h], table, h)
  {
  }

  /** RecycleHandle by the thread that has the duty, which stays in its critical section. */
  lemma RecycleKeeps(s: State, t: nat, pc: Pc, h: nat)
    requires Inv(s) && t < |s.threads| && Holds(s.threads[t]) && Holds(pc)
    requires Duty(s.threads[t]) == Some(h) && Duty(pc) == None && Token(pc) == Token(s.threads[t])
    requires !Stale(s.threads[t], h) && !Stale(pc, h)
    requires SameOthers(|s.handles|, s.threads[t], pc, h) && Pending(s.threads[t]) == Pending(pc)
    requires Unstored(pc) == Unstored(s.threads[t]) || Unstored(pc) == None
    requires h < |s.handles|
    requires var r := Recycle(s, h); HolderOk(r.handles, r.table, r.usage, r.capacity, pc)
    ensures Inv(Goto(Recycle(s, h), t, pc))
  {
    hide LifeOk, ThreadsInv, DataInv, HolderOk, SameOthers, Pending, Unstored, Duty, Token, Holds, Stale;
    var s' := Goto(Recycle(s, h), t, pc);
    HolderDone(s, t, pc, h);
    Recycled(s.handles, s.recycle, s.owners, s.duty, h);
    DataRecycled(s, s', s.threads[t], pc, h);
    assert ThreadsInv(s') by {
      SameThreadsButHandles(Goto(s, t, pc).(duty := s.duty - {h}), s');
    }
  }

  lemma SameThreadsButHandles(s: State, s': State)
    requires ThreadsInv(s) && s'.threads == s.threads && s'.mutex == s.mutex && s'.duty == s.duty
             && s'.owners == s.owners
    requires s'.nextToken == s.nextToken && |s'.handles| == |s.handles|
    ensures ThreadsInv(s')
  {
    hide MutexOk, DutyOk, TokenOk, FoundOk, FreshOk;
  }

  lemma RecycleDyingKeeps(s: State, t: nat)
    requires Inv(s)
    ensures Inv(RecycleDying(s, t))
  {
    hide LifeOk, ThreadsInv, DataInv;
    var s' := RecycleDying(s, t);
    if s' != s {
      var h := s.threads[t].h;
      var pc := Evicted(Resize, false);  // a place in the critical section where nothing is left to do
      assert Charge(Resize) == 0;
      RecycleKeeps(s, t, pc, h);
      var r := Goto(Recycle(s, h), t, pc);
      HolderLeaves(r, t);
      DataMoves(r, Unlock(r, t), pc, Idle);
      assert r.threads[t := Idle] == s.threads[t := Idle];
      assert s' == Unlock(r, t);
    }
  }

  lemma ClearRecycleKeeps(s: State, t: nat)
    requires Inv(s)
    ensures Inv(ClearRecycle(s, t))
  {
    hide LifeOk, ThreadsInv, TableOk, UsageOk, ValuesOk, FreshValues;
    var s' := ClearRecycle(s, t);
    if s' != s {
      var i := s.threads[t].i;
      IsHolder(s, t);
      RecycleKeeps(s, t, Clearing(i + 1), i);
    }
  }

  lemma IsHolder(s: State, t: nat)
    requires ThreadsInv(s) && t < |s.threads| && Holds(s.threads[t])
    ensures Holder(s) == s.threads[t] && s.mutex == Some(t)
  {
    hide DutyOk, TokenOk, FoundOk, FreshOk;
  }
}
