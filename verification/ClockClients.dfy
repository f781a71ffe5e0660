/** What the clients of the CLOCK cache rely on while other threads go on
    (external/rocksdb/cache/clock_cache.cc:426-466, 609-643): as long as a reference is held, the entry behind it
    is neither reused nor passed to its deleter, and what Lookup hands out belongs to the key that was asked
    for. */
module ClockClients {
  import opened Strings
  import opened ClockHandle
  import opened ClockState
  import opened ClockInvariant
  import opened ClockRuns

  // ----- entries -----

  /** Key, value and charge of a handle are as before. */
  predicate EntryStays(handles: seq<Handle>, handles': seq<Handle>, h: nat) {
    h < |handles| && h < |handles'| && handles'[h] == handles[h].(flags := handles'[h].flags)
  }

  lemma PlainEntry(s: State, s': State, t: nat, h: nat)
    requires Plain(s, s', t) && h < |s.handles|
    ensures EntryStays(s.handles, s'.handles, h)
  {
    hide PlainThreads;
  }

  lemma RecycledEntry(s: State, d: nat, h: nat)
    requires d < |s.handles| && h < |s.handles| && d != h
    ensures EntryStays(s.handles, Recycle(s, d).handles, h)
  {
  }

  lemma GotoHandles(s: State, t: nat, pc: Pc)
    ensures Goto(s, t, pc).handles == s.handles && Unlock(s, t).handles == s.handles
  {
  }

  /** The handle that a thread is due to recycle has no references. */
  lemma DutyIsFree(s: State, t: nat, h: nat)
    requires Inv(s) && t < |s.threads| && h < |s.handles| && s.handles[h].flags.refs > 0
    ensures Duty(s.threads[t]) != Some(h)
  {
    hide DataInv, MutexOk, TokenOk, FoundOk, FreshOk, OwnersOf, Duty;
    assert Alive(s.handles[h].flags, h in s.recycle, h in s.duty, OwnersOf(s.owners, h));
  }

  lemma RecycleBinIsFree(s: State, h: nat)
    requires Inv(s) && h < |s.handles| && s.handles[h].flags.refs > 0
    ensures h !in s.recycle
  {
    hide DataInv, ThreadsInv, OwnersOf;
    assert Alive(s.handles[h].flags, h in s.recycle, h in s.duty, OwnersOf(s.owners, h));
  }

  lemma RecyclingEntry(s: State, t: nat, h: nat)
    requires Inv(s) && t < |s.threads| && h < |s.handles| && s.handles[h].flags.refs > 0
    requires var pc := s.threads[t]; pc.Recycling? || pc.ClearRecycling? || pc.SweepRecycling? || pc.ReplaceRecycling?
    ensures EntryStays(s.handles, Proceed(s, t).handles, h)
  {
    hide Inv, Recycle, Goto, Unlock, Advance, EntryStays;
    DutyIsFree(s, t, h);
    assert EntryStays(s.handles, s.handles, h) by { SameEntry(s.handles, h); }
    var pc := s.threads[t];
    var d := Duty(pc).value;
    if d < |s.handles| {
      var r := Recycle(s, d);
      RecycledEntry(s, d, h);
      match pc {
        case Recycling(_) => GotoHandles(r, t, Idle);
        case ClearRecycling(i) => GotoHandles(r, t, Clearing(i + 1));
        case SweepRecycling(sw) => GotoHandles(r, t, Advance(r, sw.(usage := r.usage)));
        case ReplaceRecycling(op, x, tok, _) => GotoHandles(r, t, TableInserting(op, x, tok));
      }
    }
  }

  lemma SameEntry(handles: seq<Handle>, h: nat)
    requires h < |handles|
    ensures EntryStays(handles, handles, h)
  {
  }

  lemma FilledEntry(s: State, t: nat, op: Op, d: nat, h: nat)
    requires d < |s.handles| && op.Insert? && h < |s.handles| && d != h
    ensures EntryStays(s.handles, Fill(s, t, op, d).handles, h)
  {
  }

  lemma AfterEvictEntry(s: State, t: nat, h: nat)
    requires Inv(s) && t < |s.threads| && s.threads[t].Evicted? && h < |s.handles| && s.handles[h].flags.refs > 0
    ensures EntryStays(s.handles, AfterEvict(s, t).handles, h)
  {
    hide Inv, Fill, Unlock, Goto;
    RecycleBinIsFree(s, h);
    GotoHandles(s, t, Idle);
    var op := s.threads[t].op;
    if op.Insert? {
      var more := s.(handles := s.handles + [Handle(Flags(false, false, 0), "", None, 0)]);
      FilledEntry(more, t, op, |s.handles|, h);
      if s.recycle != [] {
        var n := |s.recycle| - 1;
        assert s.recycle[n] in s.recycle;
        if s.recycle[n] < |s.handles| {
          FilledEntry(s.(recycle := s.recycle[..n]), t, op, s.recycle[n], h);
        }
      }
    }
  }

  lemma SweepStepEntry(s: State, t: nat, h: nat)
    requires t < |s.threads| && s.threads[t].Sweeping? && h < |s.handles|
    ensures EntryStays(s.handles, SweepStep(s, t).handles, h)
  {
    hide Plain, EntryStays;
    var sw := s.threads[t].sw;
    GotoHandles(s, t, Evicted(sw.op, true));
    SameEntry(s.handles, h);
    if SweepStep(s, t) != s && (sw.usage + Charge(sw.op)) % SIZE > sw.capacity {
      SweepTriesIsPlain(s, t);
      PlainEntry(s, SweepStep(s, t), t, h);
    }
  }

  lemma ProceedEntry(s: State, t: nat, h: nat)
    requires Inv(s) && h < |s.handles| && s.handles[h].flags.refs > 0
    ensures EntryStays(s.handles, Proceed(s, t).handles, h)
  {
    hide Inv, EntryStays, Plain, RefFound, CheckKey, SetUsage, Drop, LockDying, RecycleDying, EraseUnset, ClearStep,
         ClearRecycle, SweepStep, SweepMiss, SweepErase, SweepRecycle, AfterEvict, Link, ReplaceUnset, ReplaceRecycle,
         TableInsert, AddCharge;
    var pc := AtPc(s, t);
    SameEntry(s.handles, h);
    if pc.Recycling? || pc.ClearRecycling? || pc.SweepRecycling? || pc.ReplaceRecycling? {
      RecyclingEntry(s, t, h);
    } else if pc.Sweeping? {
      SweepStepEntry(s, t, h);
    } else if pc.Evicted? {
      AfterEvictEntry(s, t, h);
    } else if !pc.Idle? {
      match pc {
        case Found(_, _) => RefFoundIsPlain(s, t);
        case Reffed(_, _) => CheckKeyIsPlain(s, t);
        case Releasing(_) => SetUsageIsPlain(s, t);
        case Dropping(_) => DropIsPlain(s, t);
        case Dying(_) => LockDyingIsPlain(s, t);
        case Unsetting(_) => EraseUnsetIsPlain(s, t);
        case Clearing(_) => ClearStepIsPlain(s, t);
        case SweepMissed(_) => SweepMissIsPlain(s, t);
        case SweepErasing(_) => SweepEraseIsPlain(s, t);
        case Linking(_, _, _) => LinkIsPlain(s, t);
        case Replacing(_, _, _, _) => ReplaceUnsetIsPlain(s, t);
        case TableInserting(_, _, _) => TableInsertIsPlain(s, t);
        case Charging(_, _, _) => AddChargeIsPlain(s, t);
      }
      PlainEntry(s, Proceed(s, t), t, h);
    }
  }

  lemma StartHandles(s: State, t: nat, key: string, charge: nat, hold: bool, capacity: nat)
    ensures StartInsert(s, t, key, charge, hold).handles == s.handles
    ensures StartResize(s, t, capacity).handles == s.handles
  {
    hide StartEvict;
  }

  /** No action of any thread changes an entry that is referenced. */
  lemma StepEntry(s: State, e: Event, h: nat)
    requires Inv(s) && h < |s.handles| && s.handles[h].flags.refs > 0
    ensures EntryStays(s.handles, Step(s, e).handles, h)
  {
    hide Inv, EntryStays, Plain, StartLookup, StartRelease, ClientRef, StartErase, StartClear, StartInsert, StartResize,
         Proceed;
    SameEntry(s.handles, h);
    match e
    case LookupEvent(t, key) => StartLookupIsPlain(s, t, key); PlainEntry(s, Step(s, e), t, h);
    case ReleaseEvent(t, token) => StartReleaseIsPlain(s, t, token); PlainEntry(s, Step(s, e), t, h);
    case RefEvent(token) => ClientRefIsPlain(s, 0, token); PlainEntry(s, Step(s, e), 0, h);
    case EraseEvent(t, key) => StartEraseIsPlain(s, t, key); PlainEntry(s, Step(s, e), t, h);
    case ClearEvent(t) => StartClearIsPlain(s, t); PlainEntry(s, Step(s, e), t, h);
    case InsertEvent(t, key, charge, hold) => StartHandles(s, t, key, charge, hold, 0);
    case ResizeEvent(t, capacity) => StartHandles(s, t, "", 0, false, capacity);
    case StrictEvent(strict) =>
    case Continue(t) => ProceedEntry(s, t, h);
  }

  // ----- references -----

  /** References stay with their handles, and new ones are fresh. */
  predicate TokensStay(s: State, s': State) {
    && s.nextToken <= s'.nextToken
    && forall k | k in s'.owners :: (k in s.owners && s'.owners[k].h == s.owners[k].h) || s.nextToken <= k
  }

  predicate SameTokens(s: State, s': State) {
    s'.owners == s.owners && s'.nextToken == s.nextToken
  }

  // One lemma for each action.

  lemma GotoTokens(s: State, t: nat, pc: Pc)
    ensures SameTokens(s, Goto(s, t, pc))
  {
  }

  lemma SetFlagsTokens(s: State, h: nat, f: Flags)
    requires h < |s.handles|
    ensures SameTokens(s, SetFlags(s, h, f))
  {
  }

  lemma SetUsageTokens(s: State, t: nat)
    ensures SameTokens(s, SetUsage(s, t))
  {
  }

  lemma LockDyingTokens(s: State, t: nat)
    ensures SameTokens(s, LockDying(s, t))
  {
  }

  lemma RecycleDyingTokens(s: State, t: nat)
    ensures SameTokens(s, RecycleDying(s, t))
  {
  }

  lemma EraseUnsetTokens(s: State, t: nat)
    ensures SameTokens(s, EraseUnset(s, t))
  {
  }

  lemma ClearStepTokens(s: State, t: nat)
    ensures SameTokens(s, ClearStep(s, t))
  {
    hide Goto, SetFlags, Unlock;
    var pc := AtPc(s, t);
    if pc.Clearing? {
      UnlockTokens(s, t);
      if pc.i < |s.handles| {
        var f := s.handles[pc.i].flags.(inCache := false);
        SetFlagsTokens(s, pc.i, f);
        GotoTokens(SetFlags(s, pc.i, f), t, ClearRecycling(pc.i));
        GotoTokens(SetFlags(s, pc.i, f), t, Clearing(pc.i + 1));
      }
    }
  }

  lemma ClearRecycleTokens(s: State, t: nat)
    ensures SameTokens(s, ClearRecycle(s, t))
  {
  }

  lemma SweepStepTokens(s: State, t: nat)
    ensures SameTokens(s, SweepStep(s, t))
  {
    hide Goto, SetFlags;
    var pc := AtPc(s, t);
    if pc.Sweeping? {
      GotoTokens(s, t, Evicted(pc.sw.op, true));
      GotoTokens(s, t, SweepMissed(pc.sw));
      if pc.sw.newHead < |s.handles| {
        SetFlagsTokens(s, pc.sw.newHead, Flags(false, false, 0));
        GotoTokens(SetFlags(s, pc.sw.newHead, Flags(false, false, 0)), t, SweepErasing(pc.sw));
      }
    }
  }

  lemma SweepMissTokens(s: State, t: nat)
    ensures SameTokens(s, SweepMiss(s, t))
  {
    hide Advance;
  }

  lemma SweepEraseTokens(s: State, t: nat)
    ensures SameTokens(s, SweepErase(s, t))
  {
  }

  lemma SweepRecycleTokens(s: State, t: nat)
    ensures SameTokens(s, SweepRecycle(s, t))
  {
    hide Advance;
  }

  lemma LinkTokens(s: State, t: nat)
    ensures SameTokens(s, Link(s, t))
  {
  }

  lemma ReplaceUnsetTokens(s: State, t: nat)
    ensures SameTokens(s, ReplaceUnset(s, t))
  {
  }

  lemma ReplaceRecycleTokens(s: State, t: nat)
    ensures SameTokens(s, ReplaceRecycle(s, t))
  {
  }

  lemma TableInsertTokens(s: State, t: nat)
    ensures SameTokens(s, TableInsert(s, t))
  {
  }

  lemma RefFoundTokens(s: State, t: nat)
    ensures TokensStay(s, RefFound(s, t))
  {
  }

  lemma CheckKeyTokens(s: State, t: nat)
    ensures TokensStay(s, CheckKey(s, t))
  {
  }

  lemma DropTokens(s: State, t: nat)
    ensures TokensStay(s, Drop(s, t))
  {
  }

  lemma UnlockTokens(s: State, t: nat)
    ensures SameTokens(s, Unlock(s, t))
  {
  }

  lemma FillTokens(s: State, t: nat, op: Op, h: nat)
    requires h < |s.handles| && op.Insert?
    ensures TokensStay(s, Fill(s, t, op, h))
  {
  }

  lemma AfterEvictTokens(s: State, t: nat)
    ensures TokensStay(s, AfterEvict(s, t))
  {
    hide Fill, Unlock;
    UnlockTokens(s, t);
    var pc := AtPc(s, t);
    if pc.Evicted? && pc.op.Insert? {
      var more := s.(handles := s.handles + [Handle(Flags(false, false, 0), "", None, 0)]);
      FillTokens(more, t, pc.op, |s.handles|);
      if s.recycle != [] && s.recycle[|s.recycle| - 1] < |s.handles| {
        FillTokens(s.(recycle := s.recycle[..|s.recycle| - 1]), t, pc.op, s.recycle[|s.recycle| - 1]);
      }
    }
  }

  lemma AddChargeTokens(s: State, t: nat)
    ensures TokensStay(s, AddCharge(s, t))
  {
    hide Unlock;
    UnlockTokens(s, t);
  }

  lemma ClientTokens(s: State, t: nat, token: nat)
    ensures TokensStay(s, ClientRef(s, token)) && TokensStay(s, StartRelease(s, t, token))
  {
  }

  lemma StartTokens(s: State, t: nat, key: string)
    ensures SameTokens(s, StartLookup(s, t, key))
    ensures SameTokens(s, StartErase(s, t, key)) && SameTokens(s, StartClear(s, t))
  {
  }

  lemma EvictTokens(s: State, t: nat, key: string, charge: nat, hold: bool, capacity: nat)
    ensures SameTokens(s, StartInsert(s, t, key, charge, hold)) && SameTokens(s, StartResize(s, t, capacity))
  {
    hide StartEvict;
  }

  lemma SameIsStay(s: State, s': State)
    requires SameTokens(s, s')
    ensures TokensStay(s, s')
  {
  }

  lemma ProceedTokens(s: State, t: nat)
    ensures TokensStay(s, Proceed(s, t))
  {
    hide TokensStay, SameTokens, RefFound, CheckKey, SetUsage, Drop, LockDying, RecycleDying, EraseUnset, ClearStep,
         ClearRecycle, SweepStep, SweepMiss, SweepErase, SweepRecycle, AfterEvict, Link, ReplaceUnset, ReplaceRecycle,
         TableInsert, AddCharge;
    var pc := AtPc(s, t);
    if pc.Found? {
      RefFoundTokens(s, t);
    } else if pc.Reffed? {
      CheckKeyTokens(s, t);
    } else if pc.Dropping? {
      DropTokens(s, t);
    } else if pc.Evicted? {
      AfterEvictTokens(s, t);
    } else if pc.Charging? {
      AddChargeTokens(s, t);
    } else {
      SetUsageTokens(s, t);
      LockDyingTokens(s, t);
      RecycleDyingTokens(s, t);
      EraseUnsetTokens(s, t);
      ClearStepTokens(s, t);
      ClearRecycleTokens(s, t);
      SweepStepTokens(s, t);
      SweepMissTokens(s, t);
      SweepEraseTokens(s, t);
      SweepRecycleTokens(s, t);
      LinkTokens(s, t);
      ReplaceUnsetTokens(s, t);
      ReplaceRecycleTokens(s, t);
      TableInsertTokens(s, t);
      NothingTokens(s);
      SameIsStay(s, Proceed(s, t));
    }
  }

  lemma NothingTokens(s: State)
    ensures SameTokens(s, s)
  {
  }

  lemma StepTokens(s: State, e: Event)
    ensures TokensStay(s, Step(s, e))
  {
    hide TokensStay, SameTokens, StartLookup, StartRelease, ClientRef, StartErase, StartClear, StartInsert, StartResize,
         Proceed;
    match e
    case LookupEvent(t, key) => StartTokens(s, t, key); SameIsStay(s, Step(s, e));
    case ReleaseEvent(t, token) => ClientTokens(s, t, token);
    case RefEvent(token) => ClientTokens(s, 0, token);
    case EraseEvent(t, key) => StartTokens(s, t, key); SameIsStay(s, Step(s, e));
    case ClearEvent(t) => StartTokens(s, t, ""); SameIsStay(s, Step(s, e));
    case InsertEvent(t, key, charge, hold) => EvictTokens(s, t, key, charge, hold, 0); SameIsStay(s, Step(s, e));
    case ResizeEvent(t, capacity) => EvictTokens(s, t, "", 0, false, capacity); SameIsStay(s, Step(s, e));
    case StrictEvent(strict) => StrictTokens(s, strict);
    case Continue(t) => ProceedTokens(s, t);
  }

  lemma StrictTokens(s: State, strict: bool)
    ensures TokensStay(s, SetStrict(s, strict))
  {
  }

  /** A reference that has been given back is never held again. */
  lemma {:induction false} GoneForGood(s: State, events: seq<Event>, k: nat)
    requires k < s.nextToken && k !in s.owners
    ensures k !in Run(s, events).owners
    decreases |events|
  {
    hide Step;
    if events != [] {
      StepTokens(s, events[0]);
      GoneForGood(Step(s, events[0]), events[1..], k);
    }
  }

  /** A reference pins a handle that has an entry, which has not been passed to its deleter. */
  lemma TokenPins(s: State, k: nat)
    requires Inv(s) && k in s.owners
    ensures k < s.nextToken && s.owners[k].h < |s.handles|
    ensures var x := s.handles[s.owners[k].h]; x.flags.refs > 0 && x.value.Some? && x.value.value !in s.queued
  {
    hide MutexOk, DutyOk, TokenOk, FoundOk, TableOk, HolderOk, UsageOk, FreshValues;
    var h := s.owners[k].h;
    assert Alive(s.handles[h].flags, h in s.recycle, h in s.duty, OwnersOf(s.owners, h));
    assert k in OwnersOf(s.owners, h);
    assert Stored(s.handles, s.recycle, h, s.handles[h].value.value);
  }

  // ----- what clients rely on -----

  /** While a reference is held, through every run of the other threads, it stays with its handle, whose key,
      value and charge do not change, and the value is not passed to its deleter. */
  lemma {:induction false} ReferencePins(s: State, events: seq<Event>, k: nat)
    requires Inv(s) && k in s.owners && k in Run(s, events).owners
    ensures var s', h := Run(s, events), s.owners[k].h;
            && s'.owners[k].h == h && EntryStays(s.handles, s'.handles, h)
            && s.handles[h].value.Some? && s.handles[h].value.value !in s'.queued
    decreases |events|
  {
    hide Inv, Step;
    TokenPins(s, k);
    if events != [] {
      var s1 := Step(s, events[0]);
      StepKeeps(s, events[0]);
      StepTokens(s, events[0]);
      StepEntry(s, events[0], s.owners[k].h);
      if k in s1.owners {
        ReferencePins(s1, events[1..], k);
      } else {
        GoneForGood(s1, events[1..], k);
      }
    }
  }

  /** Lookup either gives its reference back, or hands out one to an entry with the key that was asked for;
      the client finds that key, and the same value, for as long as it holds the reference. */
  lemma LookupHandsOut(s: State, t: nat, events: seq<Event>)
    requires Reachable(s) && t < |s.threads| && s.threads[t].Reffed?
    ensures var key, k, s1 := s.threads[t].key, s.threads[t].token, Step(s, Continue(t));
            && k in s1.owners && s1.owners[k].h < |s1.handles|
            && (s1.threads[t] == Dropping(k) || s1.threads[t] == Idle)
            && (s1.threads[t] == Idle && k in Run(s1, events).owners ==>
                  var s2, h := Run(s1, events), s1.owners[k].h;
                  && s2.owners[k].h == h < |s2.handles| && s2.handles[h].key == key
                  && s2.handles[h].value == s1.handles[h].value && s1.handles[h].value.Some?
                  && s1.handles[h].value.value !in s2.queued)
  {
    hide Inv, Reachable, Run, CheckKey;
    var k, s1 := s.threads[t].token, Step(s, Continue(t));
    ReachableInv(s);
    ReffedIsOwned(s, t);
    KeyChecked(s, t);
    StepKeeps(s, Continue(t));
    if s1.threads[t] == Idle && k in Run(s1, events).owners {
      ReferencePins(s1, events, k);
    }
  }

  lemma ReffedIsOwned(s: State, t: nat)
    requires Inv(s) && t < |s.threads| && s.threads[t].Reffed?
    ensures s.threads[t].token in s.owners && s.owners[s.threads[t].token].h < |s.handles|
  {
    hide DataInv, MutexOk, DutyOk, FoundOk, FreshOk, Alive, OwnersOf;
    assert Token(s.threads[t]) == Some(s.threads[t].token);
  }

  lemma KeyChecked(s: State, t: nat)
    requires t < |s.threads| && s.threads[t].Reffed?
    requires var k := s.threads[t].token; k in s.owners && s.owners[k].h < |s.handles|
    ensures var key, k, s1 := s.threads[t].key, s.threads[t].token, CheckKey(s, t);
            && k in s1.owners && s1.handles == s.handles && s1.owners[k].h == s.owners[k].h
            && |s1.threads| == |s.threads|
            && (s1.threads[t] == Dropping(k) || (s1.threads[t] == Idle && s.handles[s.owners[k].h].key == key))
  {
  }
}
