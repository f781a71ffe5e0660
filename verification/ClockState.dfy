/** The CLOCK cache shard of external/rocksdb/cache/clock_cache.cc as a state machine: any number of
    threads, each between two of its atomic actions, run interleaved under sequential consistency.
    An action is one access to shared state that another thread can observe: an operation on the
    packed flags of a handle, on the hash table or on `usage_`, or taking the mutex. */
module ClockState {
  import opened Strings
  import opened ClockHandle

  /** Who holds a reference: a client of the cache, or a thread inside an operation. */
  datatype Owner = Owner(h: nat, thread: Option<nat>)

  /** What EvictFromCache is called for. */
  datatype Op =
    | Insert(key: string, value: nat, charge: nat, hold: bool)
    | Resize

  function Charge(op: Op): nat {
    if op.Insert? then op.charge else 0
  }

  /** The local variables of EvictFromCache. */
  datatype Sweep = Sweep(op: Op, newHead: nat, second: bool, usage: nat, capacity: nat)

  /** Where a thread is. */
  datatype Pc =
    | Idle
    | Found(key: string, h: nat)        // Lookup: the table had h; next is Ref
    | Reffed(key: string, token: nat)   // Lookup: next is the double check of the key
    | Releasing(token: nat)             // Unref: next is setting the usage bit
    | Dropping(token: nat)              // Unref: next is decreasing the count
    | Dying(h: nat)                     // Unref dropped the last reference; next is the mutex
    // From here on the thread holds the mutex.
    | Recycling(h: nat)                 // next is RecycleHandle, then the mutex is released
    | Unsetting(h: nat)                 // EraseAndConfirm: h has left the table; next is UnsetInCache
    | Clearing(i: nat)                  // EraseUnRefEntries: next is UnsetInCache of handle i
    | ClearRecycling(i: nat)
    | Sweeping(sw: Sweep)               // EvictFromCache: at the loop test
    | SweepMissed(sw: Sweep)            // TryEvict: the exchange failed; next is clearing the usage bit
    | SweepErasing(sw: Sweep)           // TryEvict: the exchange succeeded; next is leaving the table
    | SweepRecycling(sw: Sweep)
    | Evicted(op: Op, ok: bool)         // EvictFromCache has returned
    | Linking(op: Op, h: nat, tok: Option<nat>)  // Insert: h is filled; next is the lookup of the key
    | Replacing(op: Op, h: nat, tok: Option<nat>, prev: nat)  // the old handle has left the table
    | ReplaceRecycling(op: Op, h: nat, tok: Option<nat>, prev: nat)
    | TableInserting(op: Op, h: nat, tok: Option<nat>)
    | Charging(op: Op, h: nat, tok: Option<nat>)  // next is adding the charge to usage_

  /** The shard. `owners`, `duty` and `home` are bookkeeping that no action reads: who holds which
      reference, which thread has to recycle a handle, and which handle a value was stored in. */
  datatype State = State(
    handles: seq<Handle>,
    recycle: seq<nat>,
    table: map<string, nat>,
    head: nat,
    usage: nat,
    capacity: nat,
    strict: bool,
    mutex: Option<nat>,
    threads: seq<Pc>,
    queued: seq<nat>,
    owners: map<nat, Owner>,
    nextToken: nat,
    duty: map<nat, nat>,
    home: map<nat, nat>,
    nextValue: nat)

  function Init(threads: nat, capacity: nat, strict: bool): State {
    State([], [], map[], 0, 0, capacity, strict, None, Repeat(Idle, threads), [], map[], 0, map[], map[], 0)
  }

  function AtPc(s: State, t: nat): Pc {
    if t < |s.threads| then s.threads[t] else Idle
  }

  function Goto(s: State, t: nat, pc: Pc): State {
    if t < |s.threads| then s.(threads := s.threads[t := pc]) else s
  }

  /** The thread leaves its critical section. */
  function Unlock(s: State, t: nat): State {
    Goto(s, t, Idle).(mutex := None)
  }

  function SetFlags(s: State, h: nat, f: Flags): State
    requires h < |s.handles|
  {
    s.(handles := s.handles[h := s.handles[h].(flags := f)])
  }

  // ----- actions without the mutex -----

  /** Lookup: table_.find (clock_cache.cc:609-613). */
  function StartLookup(s: State, t: nat, key: string): State {
    if t < |s.threads| && s.threads[t] == Idle && key in s.table then Goto(s, t, Found(key, s.table[key])) else s
  }

  /** Ref as called by Lookup: the exchange that succeeds, or the load that ends the loop (426-444). */
  function RefFound(s: State, t: nat): State {
    var pc := AtPc(s, t);
    if !pc.Found? || pc.h >= |s.handles| then s
    else
      var f := s.handles[pc.h].flags;
      if !f.inCache then Goto(s, t, Idle)
      else
        Goto(SetFlags(s, pc.h, f.(refs := f.refs + 1)), t, Reffed(pc.key, s.nextToken))
          .(owners := s.owners[s.nextToken := Owner(pc.h, Some(t))], nextToken := s.nextToken + 1)
  }

  /** Lookup: the double check of the key; on success the reference is the client's (624-631). */
  function CheckKey(s: State, t: nat): State {
    var pc := AtPc(s, t);
    if !pc.Reffed? || pc.token !in s.owners || s.owners[pc.token].h >= |s.handles| then s
    else
      var h := s.owners[pc.token].h;
      if s.handles[h].key == pc.key then Goto(s, t, Idle).(owners := s.owners[pc.token := Owner(h, None)])
      else Goto(s, t, Dropping(pc.token))
  }

  /** Release by a client that holds the reference `token` (634-637). */
  function StartRelease(s: State, t: nat, token: nat): State {
    if t < |s.threads| && s.threads[t] == Idle && token in s.owners && s.owners[token].thread == None then
      Goto(s, t, Releasing(token)).(owners := s.owners[token := s.owners[token].(thread := Some(t))])
    else s
  }

  /** Unref: fetch_or of the usage bit (448-450). */
  function SetUsage(s: State, t: nat): State {
    var pc := AtPc(s, t);
    if !pc.Releasing? || pc.token !in s.owners || s.owners[pc.token].h >= |s.handles| then s
    else
      var h := s.owners[pc.token].h;
      Goto(SetFlags(s, h, s.handles[h].flags.(usage := true)), t, Dropping(pc.token))
  }

  /** Unref: fetch_sub of one reference (454-460). */
  function Drop(s: State, t: nat): State {
    var pc := AtPc(s, t);
    if !pc.Dropping? || pc.token !in s.owners || s.owners[pc.token].h >= |s.handles| then s
    else
      var h := s.owners[pc.token].h;
      var f := s.handles[h].flags;
      if f.refs == 0 then s
      else
        var s' := SetFlags(s, h, f.(refs := f.refs - 1)).(owners := s.owners - {pc.token});
        if f.refs == 1 && !f.inCache then Goto(s', t, Dying(h)).(duty := s.duty[h := t]) else Goto(s', t, Idle)
  }

  /** Ref by a client that already holds a reference to the handle (426-444). */
  function ClientRef(s: State, token: nat): State {
    if token !in s.owners || s.owners[token].thread != None || s.owners[token].h >= |s.handles| then s
    else
      var h := s.owners[token].h;
      var f := s.handles[h].flags;
      if !f.inCache then s
      else
        SetFlags(s, h, f.(refs := f.refs + 1)).(owners := s.owners[s.nextToken := Owner(h, None)],
            nextToken := s.nextToken + 1)
  }

  /** SetStrictCapacityLimit is a plain store (534-537). */
  function SetStrict(s: State, strict: bool): State {
    s.(strict := strict)
  }

  // ----- actions under the mutex -----

  function Lock(s: State, t: nat, pc: Pc): State {
    Goto(s, t, pc).(mutex := Some(t))
  }

  /** Unref: taking the mutex for the handle whose last reference is gone (461). */
  function LockDying(s: State, t: nat): State {
    var pc := AtPc(s, t);
    if pc.Dying? && s.mutex == None then Lock(s, t, Recycling(pc.h)) else s
  }

  /** RecycleHandle (402-413). */
  function Recycle(s: State, h: nat): State
    requires h < |s.handles|
  {
    var x := s.handles[h];
    s.(handles := s.handles[h := x.(key := "", value := None)],
       recycle := s.recycle + [h],
       usage := (s.usage - x.charge) % SIZE,
       queued := s.queued + (if x.value.Some? then [x.value.value] else []),
       duty := s.duty - {h})
  }

  function RecycleDying(s: State, t: nat): State {
    var pc := AtPc(s, t);
    if pc.Recycling? && pc.h < |s.handles| then Unlock(Recycle(s, pc.h), t) else s
  }

  /** EraseAndConfirm: the mutex, and the key leaves the table (651-658). */
  function StartErase(s: State, t: nat, key: string): State {
    if t < |s.threads| && s.threads[t] == Idle && s.mutex == None && key in s.table then
      Lock(s, t, Unsetting(s.table[key])).(table := s.table - {key})
    else s
  }

  /** UnsetInCache by EraseAndConfirm (468-481, 659). */
  function EraseUnset(s: State, t: nat): State {
    var pc := AtPc(s, t);
    if !pc.Unsetting? || pc.h >= |s.handles| then s
    else
      var f := s.handles[pc.h].flags;
      var s' := SetFlags(s, pc.h, f.(inCache := false));
      if f.inCache && f.refs == 0 then Goto(s', t, Recycling(pc.h)).(duty := s.duty[pc.h := t]) else Unlock(s', t)
  }

  /** EraseUnRefEntries: the mutex, and the table is cleared (664-668). */
  function StartClear(s: State, t: nat): State {
    if t < |s.threads| && s.threads[t] == Idle && s.mutex == None then Lock(s, t, Clearing(0)).(table := map[]) else s
  }

  function ClearStep(s: State, t: nat): State {
    var pc := AtPc(s, t);
    if !pc.Clearing? then s
    else if pc.i >= |s.handles| then Unlock(s, t)
    else
      var f := s.handles[pc.i].flags;
      var s' := SetFlags(s, pc.i, f.(inCache := false));
      if f.inCache && f.refs == 0 then Goto(s', t, ClearRecycling(pc.i)).(duty := s.duty[pc.i := t])
      else Goto(s', t, Clearing(pc.i + 1))
  }

  function ClearRecycle(s: State, t: nat): State {
    var pc := AtPc(s, t);
    if pc.ClearRecycling? && pc.i < |s.handles| then Goto(Recycle(s, pc.i), t, Clearing(pc.i + 1)) else s
  }

  /** EvictFromCache up to its loop (498-505). */
  function StartEvict(s: State, op: Op): Pc {
    if s.usage == 0 then Evicted(op, Charge(op) <= s.capacity)
    else Sweeping(Sweep(op, s.head, false, s.usage, s.capacity))
  }

  function StartInsert(s: State, t: nat, key: string, charge: nat, hold: bool): State {
    if t < |s.threads| && s.threads[t] == Idle && s.mutex == None && charge < SIZE then
      Lock(s, t, StartEvict(s, Insert(key, s.nextValue, charge, hold))).(nextValue := s.nextValue + 1)
    else s
  }

  /** SetCapacity (524-532). */
  function StartResize(s: State, t: nat, capacity: nat): State {
    if t < |s.threads| && s.threads[t] == Idle && s.mutex == None && capacity < SIZE then
      var s' := s.(capacity := capacity);
      Lock(s', t, StartEvict(s', Resize))
    else s
  }

  /** The loop test, with its wrap-around, and the exchange of TryEvict (485-487, 506-508). */
  function SweepStep(s: State, t: nat): State {
    var pc := AtPc(s, t);
    if !pc.Sweeping? then s
    else
      var sw := pc.sw;
      if (sw.usage + Charge(sw.op)) % SIZE <= sw.capacity then Goto(s, t, Evicted(sw.op, true)).(head := sw.newHead)
      else if sw.newHead >= |s.handles| then s
      else if s.handles[sw.newHead].flags == Flags(true, false, 0) then
        Goto(SetFlags(s, sw.newHead, Flags(false, false, 0)), t, SweepErasing(sw)).(duty := s.duty[sw.newHead := t])
      else Goto(s, t, SweepMissed(sw))
  }

  /** Moving on around the circular list (511-518). */
  function Advance(s: State, sw: Sweep): Pc {
    var next := if sw.newHead + 1 >= |s.handles| then 0 else sw.newHead + 1;
    if next == s.head && sw.second then Evicted(sw.op, false)
    else Sweeping(sw.(newHead := next, second := sw.second || next == s.head))
  }

  /** TryEvict: fetch_and of the usage bit (494). */
  function SweepMiss(s: State, t: nat): State {
    var pc := AtPc(s, t);
    if !pc.SweepMissed? || pc.sw.newHead >= |s.handles| then s
    else
      var h := pc.sw.newHead;
      Goto(SetFlags(s, h, s.handles[h].flags.(usage := false)), t, Advance(s, pc.sw))
  }

  /** TryEvict: the key leaves the table (488-490). */
  function SweepErase(s: State, t: nat): State {
    var pc := AtPc(s, t);
    if pc.SweepErasing? && pc.sw.newHead < |s.handles| then
      Goto(s, t, SweepRecycling(pc.sw)).(table := s.table - {s.handles[pc.sw.newHead].key})
    else s
  }

  /** TryEvict: RecycleHandle; the loop reloads usage_ (491, 509). */
  function SweepRecycle(s: State, t: nat): State {
    var pc := AtPc(s, t);
    if pc.SweepRecycling? && pc.sw.newHead < |s.handles| then
      var s' := Recycle(s, pc.sw.newHead);
      Goto(s', t, Advance(s', pc.sw.(usage := s'.usage)))
    else s
  }

  /** Insert after EvictFromCache (545-570): it fails, or takes a handle and fills it. No other thread
      reads the handle before its flags are stored. SetCapacity just releases the mutex. */
  function AfterEvict(s: State, t: nat): State {
    var pc := AtPc(s, t);
    if !pc.Evicted? then s
    else if pc.op.Resize? then Unlock(s, t)
    else if !pc.ok && (s.strict || !pc.op.hold) then
      Unlock(s, t).(queued := s.queued + if pc.op.hold then [] else [pc.op.value])
    else if s.recycle == [] then
      Fill(s.(handles := s.handles + [Handle(Flags(false, false, 0), "", None, 0)]), t, pc.op, |s.handles|)
    else
      var h := s.recycle[|s.recycle| - 1];
      if h < |s.handles| then Fill(s.(recycle := s.recycle[..|s.recycle| - 1]), t, pc.op, h) else s
  }

  function Fill(s: State, t: nat, op: Op, h: nat): State
    requires h < |s.handles| && op.Insert?
  {
    var filled := Handle(Flags(true, false, if op.hold then 1 else 0), op.key, Some(op.value), op.charge);
    var s' := s.(handles := s.handles[h := filled], home := s.home[op.value := h]);
    if op.hold then
      Goto(s', t, Linking(op, h, Some(s.nextToken)))
        .(owners := s.owners[s.nextToken := Owner(h, Some(t))], nextToken := s.nextToken + 1)
    else Goto(s', t, Linking(op, h, None))
  }

  /** Insert: an existing handle leaves the table (571-574). */
  function Link(s: State, t: nat): State {
    var pc := AtPc(s, t);
    if !pc.Linking? || !pc.op.Insert? then s
    else if pc.op.key in s.table then
      Goto(s, t, Replacing(pc.op, pc.h, pc.tok, s.table[pc.op.key])).(table := s.table - {pc.op.key})
    else Goto(s, t, TableInserting(pc.op, pc.h, pc.tok))
  }

  /** UnsetInCache of the replaced handle (575). */
  function ReplaceUnset(s: State, t: nat): State {
    var pc := AtPc(s, t);
    if !pc.Replacing? || pc.prev >= |s.handles| then s
    else
      var f := s.handles[pc.prev].flags;
      var s' := SetFlags(s, pc.prev, f.(inCache := false));
      if f.inCache && f.refs == 0 then
        Goto(s', t, ReplaceRecycling(pc.op, pc.h, pc.tok, pc.prev)).(duty := s.duty[pc.prev := t])
      else Goto(s', t, TableInserting(pc.op, pc.h, pc.tok))
  }

  function ReplaceRecycle(s: State, t: nat): State {
    var pc := AtPc(s, t);
    if pc.ReplaceRecycling? && pc.prev < |s.handles| then
        Goto(Recycle(s, pc.prev), t, TableInserting(pc.op, pc.h, pc.tok)) else s
  }

  /** Insert: the new entry of the table (577). */
  function TableInsert(s: State, t: nat): State {
    var pc := AtPc(s, t);
    if pc.TableInserting? && pc.op.Insert? && pc.op.key !in s.table then
      Goto(s, t, Charging(pc.op, pc.h, pc.tok)).(table := s.table[pc.op.key := pc.h])
    else s
  }

  /** Insert: the charge; the reference, if any, goes to the client (581-582, 602). */
  function AddCharge(s: State, t: nat): State {
    var pc := AtPc(s, t);
    if !pc.Charging? then s
    else
      var s' := Unlock(s, t).(usage := (s.usage + Charge(pc.op)) % SIZE);
      if pc.tok.Some? && pc.tok.value in s.owners then
        s'.(owners := s.owners[pc.tok.value := s.owners[pc.tok.value].(thread := None)])
      else s'
  }

  // ----- runs -----

  /** What can happen next; an event that is not possible in a state leaves it alone. */
  datatype Event =
    | LookupEvent(t: nat, key: string)
    | ReleaseEvent(t: nat, token: nat)
    | RefEvent(token: nat)
    | EraseEvent(t: nat, key: string)
    | ClearEvent(t: nat)
    | InsertEvent(t: nat, key: string, charge: nat, hold: bool)
    | ResizeEvent(t: nat, capacity: nat)
    | StrictEvent(strict: bool)
    | Continue(t: nat)

  /** A thread that is inside an operation takes its next action. */
  function Proceed(s: State, t: nat): State {
    match AtPc(s, t)
    case Idle => s
    case Found(_, _) => RefFound(s, t)
    case Reffed(_, _) => CheckKey(s, t)
    case Releasing(_) => SetUsage(s, t)
    case Dropping(_) => Drop(s, t)
    case Dying(_) => LockDying(s, t)
    case Recycling(_) => RecycleDying(s, t)
    case Unsetting(_) => EraseUnset(s, t)
    case Clearing(_) => ClearStep(s, t)
    case ClearRecycling(_) => ClearRecycle(s, t)
    case Sweeping(_) => SweepStep(s, t)
    case SweepMissed(_) => SweepMiss(s, t)
    case SweepErasing(_) => SweepErase(s, t)
    case SweepRecycling(_) => SweepRecycle(s, t)
    case Evicted(_, _) => AfterEvict(s, t)
    case Linking(_, _, _) => Link(s, t)
    case Replacing(_, _, _, _) => ReplaceUnset(s, t)
    case ReplaceRecycling(_, _, _, _) => ReplaceRecycle(s, t)
    case TableInserting(_, _, _) => TableInsert(s, t)
    case Charging(_, _, _) => AddCharge(s, t)
  }

  function Step(s: State, e: Event): State {
    match e
    case LookupEvent(t, key) => StartLookup(s, t, key)
    case ReleaseEvent(t, token) => StartRelease(s, t, token)
    case RefEvent(token) => ClientRef(s, token)
    case EraseEvent(t, key) => StartErase(s, t, key)
    case ClearEvent(t) => StartClear(s, t)
    case InsertEvent(t, key, charge, hold) => StartInsert(s, t, key, charge, hold)
    case ResizeEvent(t, capacity) => StartResize(s, t, capacity)
    case StrictEvent(strict) => SetStrict(s, strict)
    case Continue(t) => Proceed(s, t)
  }

  function Run(s: State, events: seq<Event>): State
    decreases |events|
  {
    if events == [] then s else Run(Step(s, events[0]), events[1..])
  }
}
