/** What every reachable state of the CLOCK cache shard satisfies. */
module ClockInvariant {
  import opened Strings
  import opened ClockHandle
  import opened ClockState

  // ----- who has to do with which handle -----

  /** The handle that a thread has taken out of service and not yet recycled. */
  function Duty(pc: Pc): Option<nat> {
    match pc
    case Dying(h) => Some(h)
    case Recycling(h) => Some(h)
    case ClearRecycling(i) => Some(i)
    case SweepErasing(sw) => Some(sw.newHead)
    case SweepRecycling(sw) => Some(sw.newHead)
    case ReplaceRecycling(_, _, _, prev) => Some(prev)
    case _ => None
  }

  /** The reference that a thread holds. */
  function Token(pc: Pc): Option<nat> {
    match pc
    case Reffed(_, token) => Some(token)
    case Releasing(token) => Some(token)
    case Dropping(token) => Some(token)
    case Linking(_, _, tok) => tok
    case Replacing(_, _, tok, _) => tok
    case ReplaceRecycling(_, _, tok, _) => tok
    case TableInserting(_, _, tok) => tok
    case Charging(_, _, tok) => tok
    case _ => None
  }

  predicate Holds(pc: Pc) {
    !(pc.Idle? || pc.Found? || pc.Reffed? || pc.Releasing? || pc.Dropping? || pc.Dying?)
  }

  /** The handle that Insert has filled and not yet charged for. */
  function Filled(pc: Pc): Option<nat> {
    match pc
    case Linking(_, h, _) => Some(h)
    case Replacing(_, h, _, _) => Some(h)
    case ReplaceRecycling(_, h, _, _) => Some(h)
    case TableInserting(_, h, _) => Some(h)
    case Charging(_, h, _) => Some(h)
    case _ => None
  }

  /** Where the thread with the mutex is. */
  function HolderOf(threads: seq<Pc>, mutex: Option<nat>): Pc {
    if mutex.Some? && mutex.value < |threads| then threads[mutex.value] else Idle
  }

  function Holder(s: State): Pc {
    HolderOf(s.threads, s.mutex)
  }

  // ----- threads -----

  ghost predicate MutexOk(threads: seq<Pc>, mutex: Option<nat>) {
    && (mutex.Some? ==> mutex.value < |threads|)
    && forall t | 0 <= t < |threads| :: mutex == Some(t) <==> Holds(threads[t])
  }

  ghost predicate DutyOk(threads: seq<Pc>, duty: map<nat, nat>) {
    && (forall h | h in duty :: duty[h] < |threads| && Duty(threads[duty[h]]) == Some(h))
    && (forall t | 0 <= t < |threads| && Duty(threads[t]).Some? ::
          Duty(threads[t]).value in duty && duty[Duty(threads[t]).value] == t)
  }

  ghost predicate TokenOk(threads: seq<Pc>, owners: map<nat, Owner>) {
    && (forall k | k in owners && owners[k].thread.Some? ::
          owners[k].thread.value < |threads| && Token(threads[owners[k].thread.value]) == Some(k))
    && (forall t | 0 <= t < |threads| && Token(threads[t]).Some? ::
          Token(threads[t]).value in owners && owners[Token(threads[t]).value].thread == Some(t))
  }

  /** Handles are never removed from the list, so a stale pointer stays one to a handle. */
  ghost predicate FoundOk(threads: seq<Pc>, n: nat) {
    forall t | 0 <= t < |threads| && threads[t].Found? :: threads[t].h < n
  }

  // ----- the life of a handle -----

  ghost function OwnersOf(owners: map<nat, Owner>, h: nat): set<nat> {
    set k | k in owners && owners[k].h == h
  }

  /** A handle is free, or in cache, or detached but referenced, or due to be recycled by exactly one
      thread. Its count is the number of references that somebody holds. */
  ghost predicate Alive(f: Flags, free: bool, due: bool, owners: set<nat>) {
    && f.refs == |owners|
    && (free ==> !f.inCache && f.refs == 0 && !due)
    && (due <==> !free && !f.inCache && f.refs == 0)
  }

  ghost predicate LifeOk(handles: seq<Handle>, recycle: seq<nat>, owners: map<nat, Owner>, duty: map<nat, nat>) {
    && (forall h | 0 <= h < |handles| :: Alive(handles[h].flags, h in recycle, h in duty, OwnersOf(owners, h)))
    && (forall h | h in recycle :: h < |handles|)
    && (forall i, j | 0 <= i < j < |recycle| :: recycle[i] != recycle[j])
    && (forall k | k in owners :: owners[k].h < |handles|)
    && (forall h | h in duty :: h < |handles|)
  }

  ghost predicate FreshOk(owners: map<nat, Owner>, nextToken: nat) {
    forall k | k in owners :: k < nextToken
  }

  // ----- the table -----

  /** Handles that are in cache but not in the table, while an operation is under way. */
  predicate Loose(pc: Pc, h: nat) {
    match pc
    case Unsetting(x) => h == x
    case Clearing(i) => i <= h
    case ClearRecycling(i) => i < h
    case Linking(_, x, _) => h == x
    case Replacing(_, x, _, prev) => h == x || h == prev
    case ReplaceRecycling(_, x, _, _) => h == x
    case TableInserting(_, x, _) => h == x
    case _ => false
  }

  /** The handle that is in the table but no longer in cache. */
  predicate Stale(pc: Pc, h: nat) {
    pc.SweepErasing? && h == pc.sw.newHead
  }

  /** The table lists exactly the handles that are in cache, but for those that the thread with the
      mutex is working on. */
  ghost predicate TableOk(handles: seq<Handle>, table: map<string, nat>, pc: Pc) {
    && (forall k | k in table :: table[k] < |handles| && handles[table[k]].key == k)
    && (forall h | 0 <= h < |handles| ::
          InTable(handles[h], table, h) <==> (handles[h].flags.inCache && !Loose(pc, h)) || Stale(pc, h))
  }

  // ----- the thread with the mutex -----

  predicate FilledBy(handles: seq<Handle>, op: Op, h: nat) {
    && op.Insert? && h < |handles| && op.charge < SIZE
    && handles[h].key == op.key && handles[h].charge == op.charge && handles[h].flags.inCache
  }

  predicate SweepOk(handles: seq<Handle>, usage: nat, capacity: nat, sw: Sweep) {
    sw.newHead < |handles| && sw.usage == usage && sw.capacity == capacity && Charge(sw.op) < SIZE
  }

  predicate HolderOk(handles: seq<Handle>, table: map<string, nat>, usage: nat, capacity: nat, pc: Pc) {
    match pc
    case Unsetting(h) => h < |handles|
    case Clearing(_) => table == map[]
    case ClearRecycling(i) => table == map[]
    case Sweeping(sw) => SweepOk(handles, usage, capacity, sw)
    case SweepMissed(sw) => SweepOk(handles, usage, capacity, sw)
    case SweepErasing(sw) => SweepOk(handles, usage, capacity, sw) && !handles[sw.newHead].flags.inCache
    case SweepRecycling(sw) => SweepOk(handles, usage, capacity, sw)
    case Evicted(op, ok) => Charge(op) < SIZE && (ok ==> (usage + Charge(op)) % SIZE <= capacity)
    case Linking(op, h, _) => FilledBy(handles, op, h)
    case Replacing(op, h, _, prev) =>
      FilledBy(handles, op, h) && op.key !in table && prev < |handles| && prev != h && handles[prev].flags.inCache
    case ReplaceRecycling(op, h, _, prev) => FilledBy(handles, op, h) && op.key !in table && prev != h
    case TableInserting(op, h, _) => FilledBy(handles, op, h) && op.key !in table
    case Charging(op, h, _) => FilledBy(handles, op, h)
    case _ => true
  }

  // ----- usage -----

  /** What Insert has filled in but not yet charged for. */
  function Pending(pc: Pc): nat {
    match pc
    case Linking(op, _, _) => Charge(op)
    case Replacing(op, _, _, _) => Charge(op)
    case ReplaceRecycling(op, _, _, _) => Charge(op)
    case TableInserting(op, _, _) => Charge(op)
    case Charging(op, _, _) => Charge(op)
    case _ => 0
  }

  predicate UsageOk(handles: seq<Handle>, recycle: seq<nat>, usage: nat, pc: Pc) {
    usage == (TotalCharge(handles, recycle) - Pending(pc)) % SIZE
  }

  predicate HeadOk(handles: seq<Handle>, head: nat, usage: nat, capacity: nat) {
    (head == 0 || head < |handles|) && usage < SIZE && capacity < SIZE
  }

  // ----- values -----

  /** The value that Insert has not yet stored or given up. */
  function Unstored(pc: Pc): Option<nat> {
    match pc
    case Sweeping(sw) => OpValue(sw.op)
    case SweepMissed(sw) => OpValue(sw.op)
    case SweepErasing(sw) => OpValue(sw.op)
    case SweepRecycling(sw) => OpValue(sw.op)
    case Evicted(op, _) => OpValue(op)
    case _ => None
  }

  function OpValue(op: Op): Option<nat> {
    if op.Insert? then Some(op.value) else None
  }

  /** The value is in its handle, which is not free. */
  predicate Stored(handles: seq<Handle>, recycle: seq<nat>, h: nat, v: nat) {
    h < |handles| && h !in recycle && handles[h].value == Some(v)
  }

  /** A value that has been stored is still in the one handle it was stored in, or it has been queued
      for its deleter, once. */
  ghost predicate ValuesOk(handles: seq<Handle>, recycle: seq<nat>, home: map<nat, nat>, queued: seq<nat>) {
    && (forall v | v in home :: v in queued <==> !Stored(handles, recycle, home[v], v))
    && (forall h | 0 <= h < |handles| && h !in recycle ::
          handles[h].value.Some? && handles[h].value.value in home && home[handles[h].value.value] == h)
    && (forall i, j | 0 <= i < j < |queued| :: queued[i] != queued[j])
  }

  ghost predicate FreshValues(home: map<nat, nat>, queued: seq<nat>, nextValue: nat, pc: Pc) {
    && (forall v | v in home :: v < nextValue)
    && (forall v | v in queued :: v < nextValue)
    && (Unstored(pc).Some? ==>
          Unstored(pc).value < nextValue && Unstored(pc).value !in home && Unstored(pc).value !in queued)
  }

  // ----- all together -----

  ghost predicate ThreadsInv(s: State) {
    && MutexOk(s.threads, s.mutex)
    && DutyOk(s.threads, s.duty)
    && TokenOk(s.threads, s.owners)
    && FoundOk(s.threads, |s.handles|)
    && FreshOk(s.owners, s.nextToken)
  }

  ghost predicate DataInv(s: State, pc: Pc) {
    && TableOk(s.handles, s.table, pc)
    && HolderOk(s.handles, s.table, s.usage, s.capacity, pc)
    && UsageOk(s.handles, s.recycle, s.usage, pc)
    && HeadOk(s.handles, s.head, s.usage, s.capacity)
    && ValuesOk(s.handles, s.recycle, s.home, s.queued)
    && FreshValues(s.home, s.queued, s.nextValue, pc)
  }

  ghost predicate Inv(s: State) {
    && ThreadsInv(s)
    && LifeOk(s.handles, s.recycle, s.owners, s.duty)
    && DataInv(s, Holder(s))
  }

  lemma InitInv(threads: nat, capacity: nat, strict: bool)
    requires capacity < SIZE
    ensures Inv(Init(threads, capacity, strict))
  {
  }

  // ----- threads: one thread moves -----

  lemma StaysOutside(threads: seq<Pc>, mutex: Option<nat>, t: nat, pc: Pc)
    requires MutexOk(threads, mutex) && t < |threads| && !Holds(threads[t]) && !Holds(pc)
    ensures MutexOk(threads[t := pc], mutex) && HolderOf(threads[t := pc], mutex) == HolderOf(threads, mutex)
  {
  }

  lemma StaysInside(threads: seq<Pc>, mutex: Option<nat>, t: nat, pc: Pc)
    requires MutexOk(threads, mutex) && t < |threads| && Holds(threads[t]) && Holds(pc)
    ensures MutexOk(threads[t := pc], mutex) && HolderOf(threads, mutex) == threads[t]
            && HolderOf(threads[t := pc], mutex) == pc
  {
  }

  lemma Enters(threads: seq<Pc>, t: nat, pc: Pc)
    requires MutexOk(threads, None) && t < |threads| && Holds(pc)
    ensures MutexOk(threads[t := pc], Some(t)) && HolderOf(threads, None) == Idle
            && HolderOf(threads[t := pc], Some(t)) == pc
  {
  }

  lemma Leaves(threads: seq<Pc>, mutex: Option<nat>, t: nat)
    requires MutexOk(threads, mutex) && t < |threads| && Holds(threads[t])
    ensures MutexOk(threads[t := Idle], None) && HolderOf(threads, mutex) == threads[t]
            && HolderOf(threads[t := Idle], None) == Idle
  {
  }

  lemma FoundStays(threads: seq<Pc>, n: nat, m: nat, t: nat, pc: Pc)
    requires FoundOk(threads, n) && n <= m && t < |threads| && (pc.Found? ==> pc.h < m)
    ensures FoundOk(threads[t := pc], m)
  {
  }

  lemma DutyStays(threads: seq<Pc>, duty: map<nat, nat>, t: nat, pc: Pc)
    requires DutyOk(threads, duty) && t < |threads| && Duty(pc) == Duty(threads[t])
    ensures DutyOk(threads[t := pc], duty)
  {
    hide Duty;
  }

  lemma DutyBegins(threads: seq<Pc>, duty: map<nat, nat>, t: nat, pc: Pc, h: nat)
    requires DutyOk(threads, duty) && t < |threads| && Duty(threads[t]) == None && Duty(pc) == Some(h) && h !in duty
    ensures DutyOk(threads[t := pc], duty[h := t])
  {
    hide Duty;
  }

  lemma DutyEnds(threads: seq<Pc>, duty: map<nat, nat>, t: nat, pc: Pc, h: nat)
    requires DutyOk(threads, duty) && t < |threads| && Duty(threads[t]) == Some(h) && Duty(pc) == None
    ensures DutyOk(threads[t := pc], duty - {h})
  {
    hide Duty;
  }

  lemma TokenStays(threads: seq<Pc>, owners: map<nat, Owner>, t: nat, pc: Pc)
    requires TokenOk(threads, owners) && t < |threads| && Token(pc) == Token(threads[t])
    ensures TokenOk(threads[t := pc], owners)
  {
    hide Token;
  }

  lemma TokenGained(threads: seq<Pc>, owners: map<nat, Owner>, t: nat, pc: Pc, k: nat, h: nat)
    requires TokenOk(threads, owners) && t < |threads| && Token(threads[t]) == None && Token(pc) == Some(k)
    requires k in owners ==> owners[k].thread == None
    ensures TokenOk(threads[t := pc], owners[k := Owner(h, Some(t))])
  {
    hide Token;
  }

  lemma TokenDropped(threads: seq<Pc>, owners: map<nat, Owner>, t: nat, pc: Pc, k: nat)
    requires TokenOk(threads, owners) && t < |threads| && Token(threads[t]) == Some(k) && Token(pc) == None
    ensures TokenOk(threads[t := pc], owners - {k})
  {
    hide Token;
  }

  lemma TokenToClient(threads: seq<Pc>, owners: map<nat, Owner>, t: nat, pc: Pc, k: nat, h: nat)
    requires TokenOk(threads, owners) && t < |threads| && Token(threads[t]) == Some(k) && Token(pc) == None
    ensures TokenOk(threads[t := pc], owners[k := Owner(h, None)])
  {
    hide Token;
  }

  lemma TokenOfClient(threads: seq<Pc>, owners: map<nat, Owner>, k: nat, h: nat)
    requires TokenOk(threads, owners) && k !in owners
    ensures TokenOk(threads, owners[k := Owner(h, None)])
  {
    hide Token;
  }

  // ----- handles: one reference more or less -----

  lemma OwnerAdded(owners: map<nat, Owner>, k: nat, o: Owner, h: nat)
    requires k !in owners
    ensures OwnersOf(owners[k := o], h) == if o.h == h then OwnersOf(owners, h) + {k} else OwnersOf(owners, h)
    ensures k !in OwnersOf(owners, h)
  {
  }

  lemma OwnerRemoved(owners: map<nat, Owner>, k: nat, h: nat)
    requires k in owners
    ensures OwnersOf(owners - {k}, h) == OwnersOf(owners, h) - {k}
    ensures k in OwnersOf(owners, h) <==> owners[k].h == h
  {
  }

  lemma OwnerMoved(owners: map<nat, Owner>, k: nat, thread: Option<nat>, h: nat)
    requires k in owners
    ensures OwnersOf(owners[k := Owner(owners[k].h, thread)], h) == OwnersOf(owners, h)
  {
  }

  lemma ReferenceGained(handles: seq<Handle>, recycle: seq<nat>, owners: map<nat, Owner>, duty: map<nat, nat>, k: nat,
      o: Owner)
    requires LifeOk(handles, recycle, owners, duty) && k !in owners && o.h < |handles| && handles[o.h].flags.inCache
    ensures var f := handles[o.h].flags;
            LifeOk(WithFlags(handles, o.h, f.(refs := f.refs + 1)), recycle, owners[k := o], duty)
  {
    hide OwnersOf;
    forall h { OwnerAdded(owners, k, o, h); }
  }

  lemma ReferenceDropped(handles: seq<Handle>, recycle: seq<nat>, owners: map<nat, Owner>, duty: map<nat, nat>,
      k: nat, t: nat)
    requires LifeOk(handles, recycle, owners, duty) && k in owners
    ensures var h := owners[k].h; var f := handles[h].flags;
            && f.refs > 0 && h !in duty
            && LifeOk(WithFlags(handles, h, f.(refs := f.refs - 1)), recycle, owners - {k},
                      if f.refs == 1 && !f.inCache then duty[h := t] else duty)
  {
    hide OwnersOf;
    var h := owners[k].h;
    assert Alive(handles[h].flags, h in recycle, h in duty, OwnersOf(owners, h));
    OwnerRemoved(owners, k, h);
    forall x { OwnerRemoved(owners, k, x); }
  }

  lemma ReferenceMoved(handles: seq<Handle>, recycle: seq<nat>, owners: map<nat, Owner>, duty: map<nat, nat>, k: nat,
      thread: Option<nat>)
    requires LifeOk(handles, recycle, owners, duty) && k in owners
    ensures LifeOk(handles, recycle, owners[k := Owner(owners[k].h, thread)], duty)
  {
    hide OwnersOf;
    forall h { OwnerMoved(owners, k, thread, h); }
  }

  lemma UsageBitChanged(handles: seq<Handle>, recycle: seq<nat>, owners: map<nat, Owner>, duty: map<nat, nat>, h: nat,
      b: bool)
    requires LifeOk(handles, recycle, owners, duty) && h < |handles|
    ensures LifeOk(WithFlags(handles, h, handles[h].flags.(usage := b)), recycle, owners, duty)
  {
    hide OwnersOf;
  }

  /** UnsetInCache: whoever clears the bit of an unreferenced handle has to recycle it. */
  lemma BitUnset(handles: seq<Handle>, recycle: seq<nat>, owners: map<nat, Owner>, duty: map<nat, nat>, h: nat, t: nat)
    requires LifeOk(handles, recycle, owners, duty) && h < |handles|
    ensures var f := handles[h].flags;
            && (f.inCache ==> h !in duty)
            && LifeOk(WithFlags(handles, h, f.(inCache := false)), recycle, owners,
                      if f.inCache && f.refs == 0 then duty[h := t] else duty)
  {
    hide OwnersOf;
    assert Alive(handles[h].flags, h in recycle, h in duty, OwnersOf(owners, h));
  }

  /** RecycleHandle by the thread that has the duty. */
  lemma Recycled(handles: seq<Handle>, recycle: seq<nat>, owners: map<nat, Owner>, duty: map<nat, nat>, h: nat)
    requires LifeOk(handles, recycle, owners, duty) && h in duty
    ensures h < |handles| && h !in recycle && !handles[h].flags.inCache
    ensures LifeOk(handles[h := handles[h].(key := "", value := None)], recycle + [h], owners, duty - {h})
  {
    hide OwnersOf;
    assert Alive(handles[h].flags, h in recycle, h in duty, OwnersOf(owners, h));
    var hs := handles[h := handles[h].(key := "", value := None)];
    forall x | 0 <= x < |hs| ensures Alive(hs[x].flags, x in recycle + [h], x in duty - {h}, OwnersOf(owners, x)) {
      assert Alive(handles[x].flags, x in recycle, x in duty, OwnersOf(owners, x));
    }
  }
}
