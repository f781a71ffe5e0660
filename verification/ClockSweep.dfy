/** EvictFromCache while other threads go on (external/rocksdb/cache/clock_cache.cc:498-522): it makes at
    most two sweeps of the circular list and succeeds only when the charge fits. And every operation: the
    program's assertions hold, and no thread is ever stuck but for the mutex. */
module ClockSweep {
  import opened Strings
  import opened ClockHandle
  import opened ClockState
  import opened ClockInvariant
  import opened ClockRuns
  import ClockShard

  /** The local variables of a thread inside the loop of EvictFromCache. */
  function SweepOf(pc: Pc): Option<Sweep> {
    match pc
    case Sweeping(sw) => Some(sw)
    case SweepMissed(sw) => Some(sw)
    case SweepErasing(sw) => Some(sw)
    case SweepRecycling(sw) => Some(sw)
    case _ => None
  }

  predicate InLoop(s: State, t: nat) {
    t < |s.threads| && SweepOf(s.threads[t]).Some?
  }

  /** The next action of this thread moves its hand on. */
  predicate Moves(pc: Pc) {
    pc.SweepMissed? || pc.SweepRecycling?
  }

  predicate Bounded(s: State, t: nat)
    requires InLoop(s, t)
  {
    s.head < |s.handles| && SweepOf(s.threads[t]).value.newHead < |s.handles|
  }

  /** The positions that the hand has still to visit. */
  function Left(s: State, t: nat): nat
    requires InLoop(s, t) && Bounded(s, t)
  {
    var sw := SweepOf(s.threads[t]).value;
    ClockShard.Left(|s.handles|, s.head, sw.newHead, sw.second)
  }

  /** How often the hand of thread `t` moves in a run, until the thread leaves the loop. */
  function Moved(s: State, t: nat, events: seq<Event>): nat
    decreases |events|
  {
    if events == [] || !InLoop(s, t) then 0
    else (if events[0] == Continue(t) && Moves(s.threads[t]) then 1 else 0) + Moved(Step(s, events[0]), t, events[1..])
  }

  /** How many actions thread `t` takes until it leaves the loop. */
  function Actions(s: State, t: nat, events: seq<Event>): nat
    decreases |events|
  {
    if events == [] || !InLoop(s, t) then 0
    else (if events[0] == Continue(t) then 1 else 0) + Actions(Step(s, events[0]), t, events[1..])
  }

  // ----- what single actions change -----

  lemma GotoParts(s: State, t: nat, pc: Pc)
    ensures var s' := Goto(s, t, pc);
            && s'.handles == s.handles && s'.head == s.head && s'.mutex == s.mutex
            && s'.threads == if t < |s.threads| then s.threads[t := pc] else s.threads
  {
  }

  lemma SetFlagsParts(s: State, h: nat, f: Flags)
    requires h < |s.handles|
    ensures var s' := SetFlags(s, h, f);
            && |s'.handles| == |s.handles| && s'.head == s.head && s'.mutex == s.mutex && s'.threads == s.threads
  {
  }

  lemma FillParts(s: State, t: nat, op: Op, h: nat)
    requires h < |s.handles| && op.Insert? && t < |s.threads|
    ensures Fill(s, t, op, h).threads == s.threads[t := Linking(op, h, if op.hold then Some(s.nextToken) else None)]
  {
  }

  /** The loop test and the exchange of TryEvict change only flags, the thread and, at the end, the head. */
  lemma SweepStepParts(s: State, t: nat)
    requires InLoop(s, t) && s.threads[t].Sweeping?
    ensures var s' := SweepStep(s, t); var sw := s.threads[t].sw;
            && |s'.handles| == |s.handles| && |s'.threads| == |s.threads|
            && (s' == s || s'.threads[t] == Evicted(sw.op, true) ||
                ((s'.threads[t] == SweepErasing(sw) || s'.threads[t] == SweepMissed(sw)) && s'.head == s.head))
  {
    hide Goto, SetFlags;
    var sw := s.threads[t].sw;
    GotoParts(s, t, Evicted(sw.op, true));
    GotoParts(s, t, SweepMissed(sw));
    if sw.newHead < |s.handles| {
      SetFlagsParts(s, sw.newHead, Flags(false, false, 0));
      GotoParts(SetFlags(s, sw.newHead, Flags(false, false, 0)), t, SweepErasing(sw));
    }
  }

  // ----- the others -----

  /** Thread `t`, the head and the length of the list are as before. */
  predicate Undisturbed(s: State, s': State, t: nat) {
    && |s'.threads| == |s.threads| && t < |s.threads| && s'.threads[t] == s.threads[t]
    && s'.head == s.head && |s'.handles| == |s.handles|
  }

  /** Nobody else moves the hand or the head, or appends to the list, while a thread is in the loop. */
  lemma OthersWait(s: State, t: nat, e: Event)
    requires Inv(s) && InLoop(s, t) && e != Continue(t)
    ensures Undisturbed(s, Step(s, e), t)
  {
    hide DataInv, LifeOk, DutyOk, TokenOk, FoundOk, FreshOk, Undisturbed, Proceed,
         StartLookup, StartRelease, ClientRef, StartErase, StartClear, StartInsert, StartResize, SetStrict;
    assert Holds(s.threads[t]) && s.mutex == Some(t);
    match e
    case LookupEvent(u, key) => OthersLookup(s, t, u, key);
    case ReleaseEvent(u, token) => OthersRelease(s, t, u, token);
    case RefEvent(token) => OthersRef(s, t, token);
    case EraseEvent(u, key) => OthersErase(s, t, u, key);
    case ClearEvent(u) => OthersClear(s, t, u);
    case InsertEvent(u, key, charge, hold) => OthersInsert(s, t, u, key, charge, hold);
    case ResizeEvent(u, capacity) => OthersResize(s, t, u, capacity);
    case StrictEvent(strict) => OthersStrict(s, t, strict);
    case Continue(u) =>
      assert u < |s.threads| ==> !Holds(s.threads[u]);
      OthersProceed(s, t, u);
  }

  lemma OthersLookup(s: State, t: nat, u: nat, key: string)
    requires InLoop(s, t)
    ensures Undisturbed(s, StartLookup(s, u, key), t)
  {
  }

  lemma OthersRelease(s: State, t: nat, u: nat, token: nat)
    requires InLoop(s, t)
    ensures Undisturbed(s, StartRelease(s, u, token), t)
  {
  }

  lemma OthersRef(s: State, t: nat, token: nat)
    requires InLoop(s, t)
    ensures Undisturbed(s, ClientRef(s, token), t)
  {
  }

  lemma OthersErase(s: State, t: nat, u: nat, key: string)
    requires InLoop(s, t) && s.mutex == Some(t)
    ensures Undisturbed(s, StartErase(s, u, key), t)
  {
  }

  lemma OthersClear(s: State, t: nat, u: nat)
    requires InLoop(s, t) && s.mutex == Some(t)
    ensures Undisturbed(s, StartClear(s, u), t)
  {
  }

  lemma OthersInsert(s: State, t: nat, u: nat, key: string, charge: nat, hold: bool)
    requires InLoop(s, t) && s.mutex == Some(t)
    ensures Undisturbed(s, StartInsert(s, u, key, charge, hold), t)
  {
  }

  lemma OthersResize(s: State, t: nat, u: nat, capacity: nat)
    requires InLoop(s, t) && s.mutex == Some(t)
    ensures Undisturbed(s, StartResize(s, u, capacity), t)
  {
  }

  lemma OthersStrict(s: State, t: nat, strict: bool)
    requires InLoop(s, t)
    ensures Undisturbed(s, SetStrict(s, strict), t)
  {
  }

  lemma OthersProceed(s: State, t: nat, u: nat)
    requires InLoop(s, t) && t != u && s.mutex == Some(t) && (u < |s.threads| ==> !Holds(s.threads[u]))
    ensures Undisturbed(s, Proceed(s, u), t)
  {
    hide Undisturbed, RefFound, CheckKey, SetUsage, Drop, LockDying;
    OthersRefFound(s, t, u);
    OthersCheckKey(s, t, u);
    OthersSetUsage(s, t, u);
    OthersDrop(s, t, u);
    OthersLockDying(s, t, u);
    assert Undisturbed(s, s, t) by { OthersStrict(s, t, s.strict); }
  }

  lemma OthersRefFound(s: State, t: nat, u: nat)
    requires InLoop(s, t) && t != u
    ensures Undisturbed(s, RefFound(s, u), t)
  {
    hide Goto, SetFlags;
    var pc := AtPc(s, u);
    GotoParts(s, u, Idle);
    if pc.Found? && pc.h < |s.handles| {
      var f := s.handles[pc.h].flags;
      SetFlagsParts(s, pc.h, f.(refs := f.refs + 1));
      GotoParts(SetFlags(s, pc.h, f.(refs := f.refs + 1)), u, Reffed(pc.key, s.nextToken));
    }
  }

  lemma OthersCheckKey(s: State, t: nat, u: nat)
    requires InLoop(s, t) && t != u
    ensures Undisturbed(s, CheckKey(s, u), t)
  {
  }

  lemma OthersSetUsage(s: State, t: nat, u: nat)
    requires InLoop(s, t) && t != u
    ensures Undisturbed(s, SetUsage(s, u), t)
  {
  }

  lemma OthersDrop(s: State, t: nat, u: nat)
    requires InLoop(s, t) && t != u
    ensures Undisturbed(s, Drop(s, u), t)
  {
  }

  lemma OthersLockDying(s: State, t: nat, u: nat)
    requires InLoop(s, t) && s.mutex == Some(t)
    ensures Undisturbed(s, LockDying(s, u), t)
  {
  }

  // ----- the thread itself -----

  lemma HandIsBounded(s: State, t: nat)
    requires Inv(s) && InLoop(s, t)
    ensures Bounded(s, t)
  {
    hide LifeOk, DutyOk, TokenOk, FoundOk, FreshOk, TableOk, UsageOk, ValuesOk, FreshValues;
    assert Holds(s.threads[t]) && s.mutex == Some(t);
  }

  /** One move of the hand leaves one position less, or ends the loop. */
  lemma AdvanceLeaves(n: nat, head: nat, sw: Sweep)
    requires head < n && sw.newHead < n
    ensures var next := if sw.newHead + 1 >= n then 0 else sw.newHead + 1;
            (next == head && sw.second) ||
            ClockShard.Left(n, head, next, sw.second || next == head) + 1
                == ClockShard.Left(n, head, sw.newHead, sw.second)
  {
  }

  lemma LeftIsSmall(n: nat, head: nat, newHead: nat, second: bool)
    requires head < n && newHead < n
    ensures 1 <= ClockShard.Left(n, head, newHead, second) <= 2 * n
  {
  }

  /** The place of the thread in its round. */
  function Phase(pc: Pc): nat {
    match pc
    case Sweeping(_) => 3
    case SweepErasing(_) => 2
    case SweepMissed(_) => 1
    case SweepRecycling(_) => 1
    case _ => 0
  }

  /** After an action of its own the thread has left the loop, or is further on in it. */
  predicate GoesOn(s: State, s': State, t: nat)
    requires InLoop(s, t) && Bounded(s, t)
  {
    InLoop(s', t) ==>
      && Bounded(s', t)
      && (if Moves(s.threads[t]) then Left(s', t) + 1 == Left(s, t) && s'.threads[t].Sweeping?
          else Left(s', t) == Left(s, t) && Phase(s'.threads[t]) < Phase(s.threads[t]))
  }

  lemma OwnAction(s: State, t: nat)
    requires Inv(s) && InLoop(s, t) && Bounded(s, t)
    ensures GoesOn(s, Proceed(s, t), t)
  {
    hide Inv, GoesOn, Goes, Sure, SweepStep, SweepMiss, SweepErase, SweepRecycle;
    match s.threads[t]
    case Sweeping(_) => HolderHolds(s, t); SweepStepGoes(s, t); OwnStep(s, t);
    case SweepMissed(_) => OwnMiss(s, t);
    case SweepErasing(_) => OwnErase(s, t);
    case SweepRecycling(_) => OwnRecycle(s, t);
    case _ =>
  }

  lemma OwnStep(s: State, t: nat)
    requires InLoop(s, t) && Bounded(s, t) && s.threads[t].Sweeping? && Goes(s, SweepStep(s, t), t)
    ensures GoesOn(s, SweepStep(s, t), t)
  {
    hide ClockShard.Left, SweepStep;
    SweepStepParts(s, t);
  }

  lemma OwnErase(s: State, t: nat)
    requires InLoop(s, t) && Bounded(s, t) && s.threads[t].SweepErasing?
    ensures GoesOn(s, SweepErase(s, t), t)
  {
    hide ClockShard.Left;
  }

  lemma OwnMiss(s: State, t: nat)
    requires InLoop(s, t) && Bounded(s, t) && s.threads[t].SweepMissed?
    ensures GoesOn(s, SweepMiss(s, t), t)
  {
    hide ClockShard.Left;
    AdvanceLeaves(|s.handles|, s.head, s.threads[t].sw);
  }

  lemma OwnRecycle(s: State, t: nat)
    requires InLoop(s, t) && Bounded(s, t) && s.threads[t].SweepRecycling?
    ensures GoesOn(s, SweepRecycle(s, t), t)
  {
    hide ClockShard.Left;
    AdvanceLeaves(|s.handles|, s.head, s.threads[t].sw);
  }

  /** Whatever the other threads do: from any point of the loop on, the hand moves at most as often as
      there are positions left, and the thread takes at most three actions for each. */
  lemma {:induction false} LoopIsBounded(s: State, t: nat, events: seq<Event>)
    requires Inv(s) && InLoop(s, t)
    ensures Bounded(s, t)
    ensures Moved(s, t, events) <= Left(s, t)
    ensures Actions(s, t, events) <= 3 * (Left(s, t) - 1) + Phase(s.threads[t])
    decreases |events|
  {
    hide Inv, Step, Left, Phase, Bounded, ClockShard.Left;
    HandIsBounded(s, t);
    PositionsLeft(s, t);
    if events != [] {
      var e, s' := events[0], Step(s, events[0]);
      StepKeeps(s, e);
      if e == Continue(t) {
        StepIsProceed(s, t);
        OwnAction(s, t);
      } else {
        OthersWait(s, t, e);
        StaysInLoop(s, s', t);
        SameLeft(s, s', t);
      }
      if InLoop(s', t) {
        LoopIsBounded(s', t, events[1..]);
        PhaseIsSmall(s'.threads[t]);
      }
    }
  }

  lemma PositionsLeft(s: State, t: nat)
    requires InLoop(s, t) && Bounded(s, t)
    ensures 1 <= Left(s, t) <= 2 * |s.handles| && Phase(s.threads[t]) >= 1
  {
    hide ClockShard.Left;
    LeftIsSmall(|s.handles|, s.head, SweepOf(s.threads[t]).value.newHead, SweepOf(s.threads[t]).value.second);
  }

  lemma PhaseIsSmall(pc: Pc)
    ensures Phase(pc) <= 3
  {
  }

  lemma StepIsProceed(s: State, t: nat)
    ensures Step(s, Continue(t)) == Proceed(s, t)
  {
  }

  lemma StaysInLoop(s: State, s': State, t: nat)
    requires InLoop(s, t) && Undisturbed(s, s', t)
    ensures InLoop(s', t)
  {
  }

  lemma SameLeft(s: State, s': State, t: nat)
    requires InLoop(s, t) && Bounded(s, t) && InLoop(s', t)
    requires Undisturbed(s, s', t)
    ensures Bounded(s', t) && Left(s', t) == Left(s, t)
  {
  }

  /** In every reachable state and every run from it: a thread in EvictFromCache makes at most two sweeps
      of the list, with at most three actions for each position, before it leaves the loop. */
  lemma TwoSweepsAlways(s: State, t: nat, events: seq<Event>)
    requires Reachable(s) && InLoop(s, t)
    ensures Moved(s, t, events) <= 2 * |s.handles|
    ensures Actions(s, t, events) <= 6 * |s.handles|
  {
    hide Inv, Reachable, Left, Phase;
    ReachableInv(s);
    LoopIsBounded(s, t, events);
    PositionsLeft(s, t);
    PhaseIsSmall(s.threads[t]);
  }

  /** The list does not grow in the meantime, up to and including the action that leaves the loop, so that
      these are two sweeps of the list at the end as well. */
  lemma {:induction false} ListStays(s: State, t: nat, events: seq<Event>)
    requires Inv(s) && forall i | 0 <= i < |events| :: InLoop(Run(s, events[..i]), t)
    ensures |Run(s, events).handles| == |s.handles|
    decreases |events|
  {
    hide Inv, Step;
    if events != [] {
      var e, s' := events[0], Step(s, events[0]);
      StepKeeps(s, e);
      assert events[..0] == [];
      assert InLoop(Run(s, events[..0]), t);
      if e == Continue(t) {
        HandIsBounded(s, t);
        StepIsProceed(s, t);
        OwnList(s, t);
      } else {
        OthersWait(s, t, e);
      }
      forall i | 0 <= i < |events[1..]| ensures InLoop(Run(s', events[1..][..i]), t) {
        assert events[..i + 1][0] == e && events[..i + 1][1..] == events[1..][..i];
      }
      ListStays(s', t, events[1..]);
    }
  }

  lemma OwnList(s: State, t: nat)
    requires InLoop(s, t)
    ensures |Proceed(s, t).handles| == |s.handles|
  {
    hide SweepStep, SweepMiss, SweepErase, SweepRecycle;
    match s.threads[t]
    case Sweeping(_) => StepList(s, t);
    case SweepMissed(_) => MissList(s, t);
    case SweepErasing(_) => EraseList(s, t);
    case SweepRecycling(_) => RecycleList(s, t);
    case _ =>
  }

  lemma StepList(s: State, t: nat)
    requires InLoop(s, t) && s.threads[t].Sweeping?
    ensures |SweepStep(s, t).handles| == |s.handles|
  {
    hide SweepStep;
    SweepStepParts(s, t);
  }

  lemma MissList(s: State, t: nat)
    ensures |SweepMiss(s, t).handles| == |s.handles|
  {
    hide Advance;
  }

  lemma EraseList(s: State, t: nat)
    ensures |SweepErase(s, t).handles| == |s.handles|
  {
  }

  lemma RecycleList(s: State, t: nat)
    ensures |SweepRecycle(s, t).handles| == |s.handles|
  {
    hide Advance;
  }

  /** Whenever EvictFromCache returns true, usage and charge fit the capacity, in size_t. */
  lemma EvictionFits(s: State, t: nat)
    requires Reachable(s) && t < |s.threads| && s.threads[t].Evicted? && s.threads[t].ok
    ensures (s.usage + Charge(s.threads[t].op)) % SIZE <= s.capacity
  {
    hide LifeOk, DutyOk, TokenOk, FoundOk, FreshOk, TableOk, UsageOk, ValuesOk, FreshValues;
    ReachableInv(s);
    assert Holds(s.threads[t]) && s.mutex == Some(t);
  }

  // ----- the program's assertions -----

  /** RecycleHandle is called on a handle that is neither in cache nor referenced (405). */
  lemma RecycledIsUnused(s: State, t: nat)
    requires Reachable(s) && t < |s.threads| && Duty(s.threads[t]).Some?
    ensures var h := Duty(s.threads[t]).value;
            h < |s.handles| && !s.handles[h].flags.inCache && s.handles[h].flags.refs == 0
  {
    hide DataInv, MutexOk, TokenOk, FoundOk, FreshOk, OwnersOf, Duty;
    ReachableInv(s);
    var h := Duty(s.threads[t]).value;
    assert h in s.duty;
    assert Alive(s.handles[h].flags, h in s.recycle, h in s.duty, OwnersOf(s.owners, h));
  }

  /** A reference to a handle whose count is not zero. */
  predicate TokenLives(s: State, k: nat) {
    k in s.owners && s.owners[k].h < |s.handles| && s.handles[s.owners[k].h].flags.refs > 0
  }

  /** Unref is called on a handle with a reference (455). */
  lemma DroppedIsReferenced(s: State, t: nat)
    requires Reachable(s) && t < |s.threads| && s.threads[t].Dropping?
    ensures TokenLives(s, s.threads[t].token)
  {
    hide Inv, Reachable, TokenLives;
    ReachableInv(s);
    TokenIsReferenced(s, t);
  }

  /** TryEvict finds the key of its handle in the table (490), and the hand is on the list (507). */
  lemma SweepAsserts(s: State, t: nat)
    requires Reachable(s) && InLoop(s, t)
    ensures SweepOf(s.threads[t]).value.newHead < |s.handles|
    ensures s.threads[t].SweepErasing? ==> s.handles[SweepOf(s.threads[t]).value.newHead].key in s.table
  {
    hide LifeOk, DutyOk, TokenOk, FoundOk, FreshOk, UsageOk, ValuesOk, FreshValues;
    ReachableInv(s);
    assert Holds(s.threads[t]) && s.mutex == Some(t);
    var h := SweepOf(s.threads[t]).value.newHead;
    assert s.threads[t].SweepErasing? ==> Stale(s.threads[t], h) && InTable(s.handles[h], s.table, h);
  }

  // ----- progress -----

  /** A thread is inside an operation and does not wait for the mutex. */
  predicate Ready(s: State, t: nat) {
    t < |s.threads| && !s.threads[t].Idle? && !(s.threads[t].Dying? && s.mutex.Some?)
  }

  /** The thread is somewhere else. */
  predicate Goes(s: State, s': State, t: nat) {
    AtPc(s', t) != AtPc(s, t)
  }

  lemma GoesOutside(s: State, t: nat)
    requires FoundOk(s.threads, |s.handles|) && Ready(s, t) && !Holds(s.threads[t])
    requires Token(s.threads[t]).Some? ==> TokenLives(s, Token(s.threads[t]).value)
    ensures Goes(s, Proceed(s, t), t)
  {
    hide RefFound, CheckKey, SetUsage, Drop, LockDying, TokenLives, Goes;
    match s.threads[t]
    case Found(_, _) => RefFoundGoes(s, t);
    case Reffed(_, _) => CheckKeyGoes(s, t);
    case Releasing(_) => SetUsageGoes(s, t);
    case Dropping(_) => DropGoes(s, t);
    case Dying(_) => LockDyingGoes(s, t);
    case _ =>
  }

  lemma RefFoundGoes(s: State, t: nat)
    requires t < |s.threads| && s.threads[t].Found? && FoundOk(s.threads, |s.handles|)
    ensures Goes(s, RefFound(s, t), t)
  {
  }

  lemma CheckKeyGoes(s: State, t: nat)
    requires t < |s.threads| && s.threads[t].Reffed? && TokenLives(s, s.threads[t].token)
    ensures Goes(s, CheckKey(s, t), t)
  {
  }

  lemma SetUsageGoes(s: State, t: nat)
    requires t < |s.threads| && s.threads[t].Releasing? && TokenLives(s, s.threads[t].token)
    ensures Goes(s, SetUsage(s, t), t)
  {
  }

  lemma DropGoes(s: State, t: nat)
    requires t < |s.threads| && s.threads[t].Dropping? && TokenLives(s, s.threads[t].token)
    ensures Goes(s, Drop(s, t), t)
  {
  }

  lemma LockDyingGoes(s: State, t: nat)
    requires t < |s.threads| && s.threads[t].Dying? && s.mutex == None
    ensures Goes(s, LockDying(s, t), t)
  {
  }

  /** What the next action of the thread with the mutex needs to find. */
  predicate Sure(s: State, t: nat) {
    && t < |s.threads| && Holds(s.threads[t])
    && HolderOk(s.handles, s.table, s.usage, s.capacity, s.threads[t])
    && (Duty(s.threads[t]).Some? ==> Duty(s.threads[t]).value < |s.handles|)
    && (s.recycle != [] ==> s.recycle[|s.recycle| - 1] < |s.handles|)
  }

  lemma GoesInside(s: State, t: nat)
    requires Sure(s, t)
    ensures Goes(s, Proceed(s, t), t)
  {
    hide RecycleDying, EraseUnset, ClearStep, ClearRecycle, SweepStep, SweepMiss, SweepErase, SweepRecycle,
         AfterEvict, Link, ReplaceUnset, ReplaceRecycle, TableInsert, AddCharge, Goes, HolderOk, Duty;
    match s.threads[t]
    case Recycling(_) => RecycleDyingGoes(s, t);
    case Unsetting(_) => EraseUnsetGoes(s, t);
    case Clearing(_) => ClearStepGoes(s, t);
    case ClearRecycling(_) => ClearRecycleGoes(s, t);
    case Sweeping(_) => SweepStepGoes(s, t);
    case SweepMissed(_) => SweepMissGoes(s, t);
    case SweepErasing(_) => SweepEraseGoes(s, t);
    case SweepRecycling(_) => SweepRecycleGoes(s, t);
    case Evicted(_, _) => AfterEvictGoes(s, t);
    case Linking(_, _, _) => LinkGoes(s, t);
    case Replacing(_, _, _, _) => ReplaceUnsetGoes(s, t);
    case ReplaceRecycling(_, _, _, _) => ReplaceRecycleGoes(s, t);
    case TableInserting(_, _, _) => TableInsertGoes(s, t);
    case Charging(_, _, _) => AddChargeGoes(s, t);
    case _ =>
  }

  lemma RecycleDyingGoes(s: State, t: nat)
    requires Sure(s, t) && s.threads[t].Recycling?
    ensures Goes(s, RecycleDying(s, t), t)
  {
  }

  lemma EraseUnsetGoes(s: State, t: nat)
    requires Sure(s, t) && s.threads[t].Unsetting?
    ensures Goes(s, EraseUnset(s, t), t)
  {
  }

  lemma ClearStepGoes(s: State, t: nat)
    requires Sure(s, t) && s.threads[t].Clearing?
    ensures Goes(s, ClearStep(s, t), t)
  {
  }

  lemma ClearRecycleGoes(s: State, t: nat)
    requires Sure(s, t) && s.threads[t].ClearRecycling?
    ensures Goes(s, ClearRecycle(s, t), t)
  {
  }

  lemma SweepStepGoes(s: State, t: nat)
    requires Sure(s, t) && s.threads[t].Sweeping?
    ensures Goes(s, SweepStep(s, t), t)
  {
  }

  lemma SweepMissGoes(s: State, t: nat)
    requires Sure(s, t) && s.threads[t].SweepMissed?
    ensures Goes(s, SweepMiss(s, t), t)
  {
  }

  lemma SweepEraseGoes(s: State, t: nat)
    requires Sure(s, t) && s.threads[t].SweepErasing?
    ensures Goes(s, SweepErase(s, t), t)
  {
  }

  lemma SweepRecycleGoes(s: State, t: nat)
    requires Sure(s, t) && s.threads[t].SweepRecycling?
    ensures Goes(s, SweepRecycle(s, t), t)
  {
  }

  lemma AfterEvictGoes(s: State, t: nat)
    requires Sure(s, t) && s.threads[t].Evicted?
    ensures Goes(s, AfterEvict(s, t), t)
  {
    hide Fill, HolderOk;
    var op := s.threads[t].op;
    if op.Insert? {
      FillParts(s.(handles := s.handles + [Handle(Flags(false, false, 0), "", None, 0)]), t, op, |s.handles|);
      if s.recycle != [] {
        var n := |s.recycle| - 1;
        FillParts(s.(recycle := s.recycle[..n]), t, op, s.recycle[n]);
      }
    }
  }

  lemma LinkGoes(s: State, t: nat)
    requires Sure(s, t) && s.threads[t].Linking?
    ensures Goes(s, Link(s, t), t)
  {
  }

  lemma ReplaceUnsetGoes(s: State, t: nat)
    requires Sure(s, t) && s.threads[t].Replacing?
    ensures Goes(s, ReplaceUnset(s, t), t)
  {
  }

  lemma ReplaceRecycleGoes(s: State, t: nat)
    requires Sure(s, t) && s.threads[t].ReplaceRecycling?
    ensures Goes(s, ReplaceRecycle(s, t), t)
  {
  }

  lemma TableInsertGoes(s: State, t: nat)
    requires Sure(s, t) && s.threads[t].TableInserting?
    ensures Goes(s, TableInsert(s, t), t)
  {
  }

  lemma AddChargeGoes(s: State, t: nat)
    requires Sure(s, t) && s.threads[t].Charging?
    ensures Goes(s, AddCharge(s, t), t)
  {
  }

  lemma TokenIsReferenced(s: State, t: nat)
    requires Inv(s) && t < |s.threads| && Token(s.threads[t]).Some?
    ensures TokenLives(s, Token(s.threads[t]).value)
  {
    hide DataInv, MutexOk, DutyOk, FoundOk, FreshOk, Token;
    var k := Token(s.threads[t]).value;
    var h := s.owners[k].h;
    assert Alive(s.handles[h].flags, h in s.recycle, h in s.duty, OwnersOf(s.owners, h));
    assert k in OwnersOf(s.owners, h);
  }

  /** No thread is ever stuck inside an operation: its next action takes it on, unless it waits for the
      mutex. */
  lemma NeverStuck(s: State, t: nat)
    requires Reachable(s) && Ready(s, t)
    ensures Goes(s, Proceed(s, t), t)
  {
    hide Proceed, Duty, Token, Reachable, Goes, Sure;
    ReachableInv(s);
    if Holds(s.threads[t]) {
      HolderHolds(s, t);
      GoesInside(s, t);
    } else {
      if Token(s.threads[t]).Some? {
        TokenIsReferenced(s, t);
      }
      GoesOutside(s, t);
    }
  }

  lemma HolderHolds(s: State, t: nat)
    requires Inv(s) && t < |s.threads| && Holds(s.threads[t])
    ensures Sure(s, t)
  {
    hide TokenOk, FoundOk, FreshOk, TableOk, UsageOk, ValuesOk, FreshValues, Duty, Alive, OwnersOf, HolderOk;
    assert s.mutex == Some(t);
    if s.recycle != [] {
      assert s.recycle[|s.recycle| - 1] in s.recycle;
    }
  }
}
