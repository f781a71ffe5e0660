/** The two models of the CLOCK cache shard agree: a call whose thread runs through all its atomic actions
    undisturbed leaves the shard as the object of module ClockShard does. */
module ClockAlone {
  import opened Strings
  import opened ClockHandle
  import C = ClockState
  import S = ClockShard

  /** The same shard, apart from the pinned usage, which the state machine does not keep. */
  ghost predicate Same(s: C.State, x: S.Shard) {
    && s.handles == x.handles && s.recycle == x.recycle && s.table == x.table && s.head == x.head
    && s.usage == x.usage && s.capacity == x.capacity && s.strict == x.strict && s.queued == x.deleted
  }

  /** Thread `t` stands at `pc`; `mutex` says who holds the mutex. */
  ghost predicate At(s: C.State, t: nat, mutex: Option<nat>, pc: C.Pc, x: S.Shard) {
    t < |s.threads| && s.threads[t] == pc && s.mutex == mutex && Same(s, x)
  }

  /** The next `n` actions, all by thread `t`. */
  function Alone(s: C.State, t: nat, n: nat): C.State
    decreases n
  {
    if n == 0 then s else Alone(C.Proceed(s, t), t, n - 1)
  }

  /** Thread `t` comes to `pc`. */
  ghost predicate Comes(s: C.State, t: nat, mutex: Option<nat>, pc: C.Pc, x: S.Shard) {
    exists n: nat :: At(Alone(s, t, n), t, mutex, pc, x)
  }

  /** The call ends. */
  ghost predicate Ends(s: C.State, t: nat, x: S.Shard) {
    Comes(s, t, None, C.Idle, x)
  }

  lemma ComesNow(s: C.State, t: nat, mutex: Option<nat>, pc: C.Pc, x: S.Shard)
    requires At(s, t, mutex, pc, x)
    ensures Comes(s, t, mutex, pc, x)
  {
    hide At;
    assert Alone(s, t, 0) == s;
  }

  lemma ComesNext(s: C.State, t: nat, mutex: Option<nat>, pc: C.Pc, x: S.Shard)
    requires Comes(C.Proceed(s, t), t, mutex, pc, x)
    ensures Comes(s, t, mutex, pc, x)
  {
    hide At, C.Proceed;
    var n: nat :| At(Alone(C.Proceed(s, t), t, n), t, mutex, pc, x);
    assert Alone(s, t, n + 1) == Alone(C.Proceed(s, t), t, n);
  }

  lemma {:induction false} AloneMore(s: C.State, t: nat, m: nat, n: nat)
    ensures Alone(s, t, m + n) == Alone(Alone(s, t, m), t, n)
    decreases m
  {
    hide C.Proceed;
    if m > 0 {
      AloneMore(C.Proceed(s, t), t, m - 1, n);
    }
  }

  // ----- actions -----

  lemma RefFoundAlone(s: C.State, t: nat, key: string, h: nat, x: S.Shard)
    requires At(s, t, None, C.Found(key, h), x) && h < |x.handles|
    ensures var s' := C.Proceed(s, t);
            if x.handles[h].flags.inCache then
              && At(s', t, None, C.Reffed(key, s.nextToken), S.Reffed(x, h).0)
              && s.nextToken in s'.owners && s'.owners[s.nextToken].h == h
            else At(s', t, None, C.Idle, x)
  {
  }

  lemma CheckKeyAlone(s: C.State, t: nat, key: string, token: nat, x: S.Shard)
    requires At(s, t, None, C.Reffed(key, token), x) && token in s.owners && s.owners[token].h < |x.handles|
    ensures var s' := C.Proceed(s, t);
            if x.handles[s.owners[token].h].key == key then At(s', t, None, C.Idle, x)
            else At(s', t, None, C.Dropping(token), x) && s'.owners == s.owners
  {
  }

  lemma SetUsageAlone(s: C.State, t: nat, token: nat, x: S.Shard)
    requires At(s, t, None, C.Releasing(token), x) && token in s.owners && s.owners[token].h < |x.handles|
    ensures var s' := C.Proceed(s, t); var h := s.owners[token].h;
            && At(s', t, None, C.Dropping(token), S.WithFlag(x, h, x.handles[h].flags.(usage := true)))
            && s'.owners == s.owners
  {
  }

  lemma DropAlone(s: C.State, t: nat, token: nat, x: S.Shard)
    requires At(s, t, None, C.Dropping(token), x) && token in s.owners && s.owners[token].h < |x.handles|
    requires x.handles[s.owners[token].h].flags.refs > 0
    ensures var h := s.owners[token].h; var f := x.handles[h].flags;
            At(C.Proceed(s, t), t, None, if f.refs == 1 && !f.inCache then C.Dying(h) else C.Idle,
               S.WithFlag(x, h, f.(refs := f.refs - 1)))
  {
  }

  lemma DyingAlone(s: C.State, t: nat, h: nat, x: S.Shard)
    requires At(s, t, None, C.Dying(h), x)
    ensures At(C.Proceed(s, t), t, Some(t), C.Recycling(h), x)
  {
  }

  lemma RecyclingAlone(s: C.State, t: nat, h: nat, x: S.Shard)
    requires At(s, t, Some(t), C.Recycling(h), x) && h < |x.handles|
    ensures At(C.Proceed(s, t), t, None, C.Idle, S.Recycled(x, h))
  {
  }

  /** Once the reference is given back. */
  lemma DroppingEnds(s: C.State, t: nat, token: nat, x: S.Shard)
    requires At(s, t, None, C.Dropping(token), x) && token in s.owners && s.owners[token].h < |x.handles|
    requires x.handles[s.owners[token].h].flags.refs > 0
    ensures var h := s.owners[token].h; var f := x.handles[h].flags;
            var x' := S.WithFlag(x, h, f.(refs := f.refs - 1));
            Ends(s, t, if f.refs == 1 && !f.inCache then S.Recycled(x', h) else x')
  {
    hide C.Proceed, At, Comes, S.WithFlag, S.Recycled;
    var h := s.owners[token].h;
    var f := x.handles[h].flags;
    var x' := S.WithFlag(x, h, f.(refs := f.refs - 1));
    DropAlone(s, t, token, x);
    var s' := C.Proceed(s, t);
    if f.refs == 1 && !f.inCache {
      FlagLength(x, h, f.(refs := f.refs - 1));
      DyingAlone(s', t, h, x');
      RecyclingAlone(C.Proceed(s', t), t, h, x');
      ComesNow(C.Proceed(C.Proceed(s', t), t), t, None, C.Idle, S.Recycled(x', h));
      ComesNext(C.Proceed(s', t), t, None, C.Idle, S.Recycled(x', h));
      ComesNext(s', t, None, C.Idle, S.Recycled(x', h));
      ComesNext(s, t, None, C.Idle, S.Recycled(x', h));
    } else {
      ComesNow(s', t, None, C.Idle, x');
      ComesNext(s, t, None, C.Idle, x');
    }
  }

  lemma FlagLength(x: S.Shard, h: nat, f: Flags)
    requires h < |x.handles|
    ensures |S.WithFlag(x, h, f).handles| == |x.handles| && S.WithFlag(x, h, f).handles[h].flags == f
  {
  }

  /** The pinned usage does not matter here. */
  lemma EndsSame(s: C.State, t: nat, x: S.Shard, y: S.Shard)
    requires Ends(s, t, x) && y == x.(pinned := y.pinned)
    ensures Ends(s, t, y)
  {
    var n: nat :| At(Alone(s, t, n), t, None, C.Idle, x);
    assert At(Alone(s, t, n), t, None, C.Idle, y);
  }

  // ----- Lookup, Ref and Release -----

  lemma StartLookupAlone(s: C.State, t: nat, key: string, x: S.Shard)
    requires At(s, t, None, C.Idle, x)
    ensures At(C.Step(s, C.LookupEvent(t, key)), t, None,
               if key in x.table then C.Found(key, x.table[key]) else C.Idle, x)
  {
  }

  /** Lookup, undisturbed. */
  lemma LookupAlone(s: C.State, t: nat, key: string, x: S.Shard)
    requires At(s, t, None, C.Idle, x) && (key in x.table ==> x.table[key] < |x.handles|)
    ensures Ends(C.Step(s, C.LookupEvent(t, key)), t, S.LookedUp(x, key).0)
  {
    hide C.Proceed, C.Step, At, Comes, S.WithFlag;
    StartLookupAlone(s, t, key, x);
    var s1 := C.Step(s, C.LookupEvent(t, key));
    if key !in x.table {
      ComesNow(s1, t, None, C.Idle, x);
    } else {
      var h := x.table[key];
      RefFoundAlone(s1, t, key, h, x);
      var s2 := C.Proceed(s1, t);
      if !x.handles[h].flags.inCache {
        ComesNow(s2, t, None, C.Idle, x);
      } else {
        var y := S.Reffed(x, h).0;
        ReffedFlags(x, h);
        CheckKeyAlone(s2, t, key, s.nextToken, y) by { SameTokens(s, t, key); }
        CheckedEnds(s2, t, key, s.nextToken, y, x) by { SameTokens(s, t, key); }
      }
      ComesNext(s1, t, None, C.Idle, S.LookedUp(x, key).0);
    }
  }

  lemma SameTokens(s: C.State, t: nat, key: string)
    ensures C.Step(s, C.LookupEvent(t, key)).nextToken == s.nextToken
  {
  }

  lemma ReffedFlags(x: S.Shard, h: nat)
    requires h < |x.handles| && x.handles[h].flags.inCache
    ensures var y := S.Reffed(x, h).0;
            && |y.handles| == |x.handles| && y.handles[h].key == x.handles[h].key
            && y.handles[h].flags.refs == x.handles[h].flags.refs + 1 && y.handles[h].flags.inCache
  {
  }

  lemma CheckedEnds(s: C.State, t: nat, key: string, token: nat, y: S.Shard, x: S.Shard)
    requires At(s, t, None, C.Reffed(key, token), y) && token in s.owners
    requires key in x.table && x.table[key] < |x.handles| && s.owners[token].h == x.table[key]
    requires x.handles[x.table[key]].flags.inCache && y == S.Reffed(x, x.table[key]).0
    ensures Ends(s, t, S.LookedUp(x, key).0)
  {
    hide C.Proceed, At, Comes, S.WithFlag;
    var h := x.table[key];
    ReffedFlags(x, h);
    CheckKeyAlone(s, t, key, token, y);
    var s' := C.Proceed(s, t);
    if y.handles[h].key == key {
      ComesNow(s', t, None, C.Idle, y);
    } else {
      DroppingEnds(s', t, token, y);
      var f := y.handles[h].flags;
      UnreffedIs(y, h, false);
      EndsSame(s', t, S.WithFlag(y, h, f.(refs := f.refs - 1)), S.Unreffed(y, h, false).0);
    }
    ComesNext(s, t, None, C.Idle, S.LookedUp(x, key).0);
  }

  /** Unref in the order of the actions. */
  lemma UnreffedIs(x: S.Shard, h: nat, setUsage: bool)
    requires h < |x.handles| && x.handles[h].flags.refs > 0
    ensures var f := x.handles[h].flags; var r := S.Unreffed(x, h, setUsage).0;
            var x1 := if setUsage then S.WithFlag(x, h, f.(usage := true)) else x;
            && |x1.handles| == |x.handles|
            && var f1 := x1.handles[h].flags;
               && f1.refs == f.refs && f1.inCache == f.inCache
               && var x2 := S.WithFlag(x1, h, f1.(refs := f1.refs - 1));
                  && |x2.handles| == |x.handles|
                  && r == (if f.refs == 1 && !f.inCache then S.Recycled(x2, h) else x2).(pinned := r.pinned)
  {
    hide S.Recycled;
    var f := x.handles[h].flags;
    var g := f.(usage := f.usage || setUsage, refs := f.refs - 1);
    FlagTwice(x, h, f.(usage := true), g);
    assert (if setUsage then f.(usage := true) else f).(refs := f.refs - 1) == g;
    RecycledPinned(S.WithFlag(x, h, g), h, if f.refs == 1 then (x.pinned - x.handles[h].charge) % SIZE else x.pinned);
  }

  lemma RecycledPinned(x: S.Shard, h: nat, pinned: nat)
    requires h < |x.handles|
    ensures S.Recycled(x.(pinned := pinned), h) == S.Recycled(x, h).(pinned := pinned)
  {
  }

  lemma FlagTwice(x: S.Shard, h: nat, f: Flags, g: Flags)
    requires h < |x.handles|
    ensures h < |S.WithFlag(x, h, f).handles| && S.WithFlag(S.WithFlag(x, h, f), h, g) == S.WithFlag(x, h, g)
  {
    assert x.handles[h := x.handles[h].(flags := f)][h := x.handles[h].(flags := g)] ==
           x.handles[h := x.handles[h].(flags := g)];
  }

  lemma StartReleaseAlone(s: C.State, t: nat, token: nat, x: S.Shard)
    requires At(s, t, None, C.Idle, x) && token in s.owners && s.owners[token].thread == None
    ensures var s' := C.Step(s, C.ReleaseEvent(t, token));
            && At(s', t, None, C.Releasing(token), x)
            && token in s'.owners && s'.owners[token].h == s.owners[token].h
  {
  }

  /** Release without force, undisturbed. */
  lemma ReleaseAlone(s: C.State, t: nat, token: nat, x: S.Shard)
    requires At(s, t, None, C.Idle, x) && token in s.owners && s.owners[token].thread == None
    requires s.owners[token].h < |x.handles| && x.handles[s.owners[token].h].flags.refs > 0
    requires forall k | k in x.table :: x.table[k] < |x.handles|
    ensures Ends(C.Step(s, C.ReleaseEvent(t, token)), t, S.Released(x, s.owners[token].h, false).0)
  {
    hide C.Proceed, C.Step, At, Comes, S.WithFlag, S.Unreffed, S.Recycled;
    var h := s.owners[token].h;
    StartReleaseAlone(s, t, token, x);
    var s1 := C.Step(s, C.ReleaseEvent(t, token));
    SetUsageAlone(s1, t, token, x);
    var s2 := C.Proceed(s1, t);
    var f := x.handles[h].flags;
    var x1 := S.WithFlag(x, h, f.(usage := true));
    FlagLength(x, h, f.(usage := true));
    DroppingEnds(s2, t, token, x1);
    UnreffedIs(x, h, true);
    var f1 := x1.handles[h].flags;
    var x2 := S.WithFlag(x1, h, f1.(refs := f1.refs - 1));
    EndsSame(s2, t, if f.refs == 1 && !f.inCache then S.Recycled(x2, h) else x2, S.Unreffed(x, h, true).0);
    ComesNext(s1, t, None, C.Idle, S.Unreffed(x, h, true).0);
  }

  /** Ref by a client, which is a single action. */
  lemma RefAlone(s: C.State, t: nat, token: nat, x: S.Shard)
    requires At(s, t, None, C.Idle, x) && token in s.owners && s.owners[token].thread == None
    requires s.owners[token].h < |x.handles|
    ensures At(C.Step(s, C.RefEvent(token)), t, None, C.Idle, S.Reffed(x, s.owners[token].h).0)
  {
  }

  /** SetStrictCapacityLimit as well. */
  lemma StrictAlone(s: C.State, t: nat, strict: bool, x: S.Shard)
    requires At(s, t, None, C.Idle, x)
    ensures At(C.Step(s, C.StrictEvent(strict)), t, None, C.Idle, x.(strict := strict))
  {
  }

  // ----- Erase and EraseUnRefEntries -----

  lemma StartEraseAlone(s: C.State, t: nat, key: string, x: S.Shard)
    requires At(s, t, None, C.Idle, x)
    ensures var s' := C.Step(s, C.EraseEvent(t, key));
            if key in x.table then At(s', t, Some(t), C.Unsetting(x.table[key]), x.(table := x.table - {key}))
            else At(s', t, None, C.Idle, x)
  {
  }

  lemma EraseUnsetAlone(s: C.State, t: nat, h: nat, x: S.Shard)
    requires At(s, t, Some(t), C.Unsetting(h), x) && h < |x.handles|
    ensures var f := x.handles[h].flags; var x' := S.WithFlag(x, h, f.(inCache := false));
            if f.inCache && f.refs == 0 then At(C.Proceed(s, t), t, Some(t), C.Recycling(h), x')
            else At(C.Proceed(s, t), t, None, C.Idle, x')
  {
  }

  lemma EraseAlone(s: C.State, t: nat, key: string, x: S.Shard)
    requires At(s, t, None, C.Idle, x) && (key in x.table ==> x.table[key] < |x.handles|)
    ensures Ends(C.Step(s, C.EraseEvent(t, key)), t, S.Erased(x, key).0)
  {
    hide C.Proceed, C.Step, At, Comes, S.WithFlag, S.Recycled;
    StartEraseAlone(s, t, key, x);
    var s1 := C.Step(s, C.EraseEvent(t, key));
    if key !in x.table {
      ComesNow(s1, t, None, C.Idle, x);
    } else {
      var h, y := x.table[key], x.(table := x.table - {key});
      EraseUnsetAlone(s1, t, h, y);
      var f := y.handles[h].flags;
      var y' := S.WithFlag(y, h, f.(inCache := false));
      var s2 := C.Proceed(s1, t);
      if f.inCache && f.refs == 0 {
        FlagLength(y, h, f.(inCache := false));
        RecyclingAlone(s2, t, h, y');
        ComesNow(C.Proceed(s2, t), t, None, C.Idle, S.Recycled(y', h));
        ComesNext(s2, t, None, C.Idle, S.Recycled(y', h));
      } else {
        ComesNow(s2, t, None, C.Idle, y');
      }
      ComesNext(s1, t, None, C.Idle, S.Erased(x, key).0);
    }
  }

  lemma StartClearAlone(s: C.State, t: nat, x: S.Shard)
    requires At(s, t, None, C.Idle, x)
    ensures At(C.Step(s, C.ClearEvent(t)), t, Some(t), C.Clearing(0), x.(table := map[]))
  {
  }

  lemma ClearStepAlone(s: C.State, t: nat, i: nat, x: S.Shard)
    requires At(s, t, Some(t), C.Clearing(i), x)
    ensures i >= |x.handles| ==> At(C.Proceed(s, t), t, None, C.Idle, x)
    ensures i < |x.handles| ==>
              var f := x.handles[i].flags; var x' := S.WithFlag(x, i, f.(inCache := false));
              if f.inCache && f.refs == 0 then At(C.Proceed(s, t), t, Some(t), C.ClearRecycling(i), x')
              else At(C.Proceed(s, t), t, Some(t), C.Clearing(i + 1), x')
  {
  }

  lemma ClearRecycleAlone(s: C.State, t: nat, i: nat, x: S.Shard)
    requires At(s, t, Some(t), C.ClearRecycling(i), x) && i < |x.handles|
    ensures At(C.Proceed(s, t), t, Some(t), C.Clearing(i + 1), S.Recycled(x, i))
  {
  }

  lemma {:induction false} ClearingEnds(s: C.State, t: nat, i: nat, x: S.Shard)
    requires At(s, t, Some(t), C.Clearing(i), x)
    ensures Ends(s, t, S.ClearedFrom(x, i))
    decreases |x.handles| - i
  {
    hide C.Proceed, At, Comes, S.WithFlag, S.Recycled;
    ClearStepAlone(s, t, i, x);
    var s1 := C.Proceed(s, t);
    if i >= |x.handles| {
      ComesNow(s1, t, None, C.Idle, x);
    } else {
      var f := x.handles[i].flags;
      var x' := S.WithFlag(x, i, f.(inCache := false));
      FlagLength(x, i, f.(inCache := false));
      if f.inCache && f.refs == 0 {
        ClearRecycleAlone(s1, t, i, x');
        RecycledLength(x', i);
        ClearingEnds(C.Proceed(s1, t), t, i + 1, S.Recycled(x', i));
        ComesNext(s1, t, None, C.Idle, S.ClearedFrom(x, i));
      } else {
        ClearingEnds(s1, t, i + 1, x');
      }
    }
    ComesNext(s, t, None, C.Idle, S.ClearedFrom(x, i));
  }

  lemma RecycledLength(x: S.Shard, h: nat)
    requires h < |x.handles|
    ensures |S.Recycled(x, h).handles| == |x.handles|
  {
  }

  /** EraseUnRefEntries, undisturbed. */
  lemma ClearAlone(s: C.State, t: nat, x: S.Shard)
    requires At(s, t, None, C.Idle, x)
    ensures Ends(C.Step(s, C.ClearEvent(t)), t, S.Cleared(x))
  {
    hide C.Proceed, C.Step, At, Comes, S.ClearedFrom;
    StartClearAlone(s, t, x);
    ClearingEnds(C.Step(s, C.ClearEvent(t)), t, 0, x.(table := map[]));
  }

  // ----- EvictFromCache -----

  lemma FitsAlone(s: C.State, t: nat, sw: C.Sweep, x: S.Shard)
    requires At(s, t, Some(t), C.Sweeping(sw), x) && sw.usage == x.usage && sw.capacity == x.capacity
    requires S.Fits(x, C.Charge(sw.op))
    ensures At(C.Proceed(s, t), t, Some(t), C.Evicted(sw.op, true), x.(head := sw.newHead))
  {
  }

  lemma TryAlone(s: C.State, t: nat, sw: C.Sweep, x: S.Shard)
    requires At(s, t, Some(t), C.Sweeping(sw), x) && sw.usage == x.usage && sw.capacity == x.capacity
    requires !S.Fits(x, C.Charge(sw.op)) && sw.newHead < |x.handles|
    ensures if x.handles[sw.newHead].flags == Flags(true, false, 0)
            then At(C.Proceed(s, t), t, Some(t), C.SweepErasing(sw), S.WithFlag(x, sw.newHead, Flags(false, false, 0)))
            else At(C.Proceed(s, t), t, Some(t), C.SweepMissed(sw), x)
  {
  }

  /** Where the loop goes from a handle. */
  function NextPc(x: S.Shard, sw: C.Sweep): C.Pc {
    var next := S.NextHead(x, sw.newHead);
    if next == x.head && sw.second then C.Evicted(sw.op, false)
    else C.Sweeping(sw.(newHead := next, second := sw.second || next == x.head))
  }

  lemma MissAlone(s: C.State, t: nat, sw: C.Sweep, x: S.Shard)
    requires At(s, t, Some(t), C.SweepMissed(sw), x) && sw.newHead < |x.handles|
    ensures var x' := S.WithFlag(x, sw.newHead, x.handles[sw.newHead].flags.(usage := false));
            At(C.Proceed(s, t), t, Some(t), NextPc(x', sw), x')
  {
  }

  lemma ErasingAlone(s: C.State, t: nat, sw: C.Sweep, x: S.Shard)
    requires At(s, t, Some(t), C.SweepErasing(sw), x) && sw.newHead < |x.handles|
    ensures At(C.Proceed(s, t), t, Some(t), C.SweepRecycling(sw), x.(table := x.table - {x.handles[sw.newHead].key}))
  {
  }

  lemma EvictingAlone(s: C.State, t: nat, sw: C.Sweep, x: S.Shard)
    requires At(s, t, Some(t), C.SweepRecycling(sw), x) && sw.newHead < |x.handles|
    ensures var x' := S.Recycled(x, sw.newHead);
            At(C.Proceed(s, t), t, Some(t), NextPc(x', sw.(usage := x'.usage)), x')
  {
  }

  /** One round of the loop. */
  lemma RoundAlone(s: C.State, t: nat, sw: C.Sweep, x: S.Shard, pc: C.Pc, y: S.Shard)
    requires At(s, t, Some(t), C.Sweeping(sw), x) && sw.usage == x.usage && sw.capacity == x.capacity
    requires !S.Fits(x, C.Charge(sw.op)) && sw.newHead < |x.handles|
    requires var x' := S.Tried(x, sw.newHead).0;
             forall s' | At(s', t, Some(t), NextPc(x', sw.(usage := x'.usage)), x') :: Comes(s', t, Some(t), pc, y)
    ensures Comes(s, t, Some(t), pc, y)
  {
    hide C.Proceed, At, Comes, S.WithFlag, S.Recycled, NextPc, S.Fits;
    var h := sw.newHead;
    TryAlone(s, t, sw, x);
    var s1 := C.Proceed(s, t);
    if x.handles[h].flags == Flags(true, false, 0) {
      var x1 := S.WithFlag(x, h, Flags(false, false, 0));
      FlagLength(x, h, Flags(false, false, 0));
      ErasingAlone(s1, t, sw, x1);
      var s2 := C.Proceed(s1, t);
      EvictedOrder(x, h);
      EvictingAlone(s2, t, sw, x1.(table := x1.table - {x1.handles[h].key}));
      ComesNext(s2, t, Some(t), pc, y);
      ComesNext(s1, t, Some(t), pc, y);
    } else {
      MissAlone(s1, t, sw, x);
      UsageStays(x, h);
      assert sw.(usage := sw.usage) == sw;
      ComesNext(s1, t, Some(t), pc, y);
    }
    ComesNext(s, t, Some(t), pc, y);
  }

  lemma UsageStays(x: S.Shard, h: nat)
    requires h < |x.handles| && x.handles[h].flags != Flags(true, false, 0)
    ensures S.Tried(x, h).0 == S.WithFlag(x, h, x.handles[h].flags.(usage := false))
    ensures S.Tried(x, h).0.usage == x.usage
  {
  }

  /** The exchange comes before the key leaves the table. */
  lemma EvictedOrder(x: S.Shard, h: nat)
    requires h < |x.handles| && x.handles[h].flags == Flags(true, false, 0)
    ensures var x1 := S.WithFlag(x, h, Flags(false, false, 0));
            && h < |x1.handles|
            && S.Tried(x, h).0 == S.Recycled(x1.(table := x1.table - {x1.handles[h].key}), h)
  {
  }

  lemma {:induction false} SweepComes(s: C.State, t: nat, sw: C.Sweep, x: S.Shard)
    requires At(s, t, Some(t), C.Sweeping(sw), x) && sw.usage == x.usage && sw.capacity == x.capacity
    requires x.head < |x.handles| && sw.newHead < |x.handles|
    ensures var (y, ok) := S.Swept(x, C.Charge(sw.op), sw.newHead, sw.second);
            Comes(s, t, Some(t), C.Evicted(sw.op, ok), y)
    decreases S.Left(|x.handles|, x.head, sw.newHead, sw.second)
  {
    hide C.Proceed, At, Comes, S.Tried, S.Fits;
    var (y, ok) := S.Swept(x, C.Charge(sw.op), sw.newHead, sw.second);
    if S.Fits(x, C.Charge(sw.op)) {
      FitsAlone(s, t, sw, x);
      ComesNow(C.Proceed(s, t), t, Some(t), C.Evicted(sw.op, true), x.(head := sw.newHead));
      ComesNext(s, t, Some(t), C.Evicted(sw.op, ok), y);
    } else {
      S.TriedKeeps(x, sw.newHead);
      var x' := S.Tried(x, sw.newHead).0;
      var next := S.NextHead(x', sw.newHead);
      var pc := NextPc(x', sw.(usage := x'.usage));
      forall s' | At(s', t, Some(t), pc, x') ensures Comes(s', t, Some(t), C.Evicted(sw.op, ok), y) {
        if next == x.head && sw.second {
          ComesNow(s', t, Some(t), pc, x');
        } else {
          SweepComes(s', t, pc.sw, x');
        }
      }
      RoundAlone(s, t, sw, x, C.Evicted(sw.op, ok), y);
    }
  }

  // ----- Insert and SetCapacity -----

  /** Going on from one place of the code to another. */
  lemma ComesThrough(s: C.State, t: nat, mutex: Option<nat>, pc: C.Pc, x: S.Shard, mutex': Option<nat>, pc': C.Pc,
      x': S.Shard)
    requires Comes(s, t, mutex, pc, x)
    requires forall s' | At(s', t, mutex, pc, x) :: Comes(s', t, mutex', pc', x')
    ensures Comes(s, t, mutex', pc', x')
  {
    hide At;
    var m: nat :| At(Alone(s, t, m), t, mutex, pc, x);
    var n: nat :| At(Alone(Alone(s, t, m), t, n), t, mutex', pc', x');
    AloneMore(s, t, m, n);
    assert At(Alone(s, t, m + n), t, mutex', pc', x');
  }

  lemma StartEvictAlone(s: C.State, t: nat, op: C.Op, x: S.Shard)
    requires At(s, t, Some(t), C.StartEvict(s, op), x) && (x.usage != 0 ==> x.head < |x.handles|)
    ensures var (y, ok) := S.Evicted(x, C.Charge(op)); Comes(s, t, Some(t), C.Evicted(op, ok), y)
  {
    hide Comes, S.Swept;
    if x.usage == 0 {
      ComesNow(s, t, Some(t), C.StartEvict(s, op), x);
    } else {
      SweepComes(s, t, C.Sweep(op, x.head, false, x.usage, x.capacity), x);
    }
  }

  lemma StartInsertAlone(s: C.State, t: nat, key: string, charge: nat, hold: bool, x: S.Shard)
    requires At(s, t, None, C.Idle, x) && charge < SIZE
    ensures var s' := C.Step(s, C.InsertEvent(t, key, charge, hold));
            At(s', t, Some(t), C.StartEvict(s', C.Insert(key, s.nextValue, charge, hold)), x)
  {
  }

  /** Insert without room. */
  lemma RefusedAlone(s: C.State, t: nat, op: C.Op, ok: bool, x: S.Shard)
    requires At(s, t, Some(t), C.Evicted(op, ok), x) && op.Insert? && !ok && (x.strict || !op.hold)
    ensures At(C.Proceed(s, t), t, None, C.Idle, x.(deleted := x.deleted + if op.hold then [] else [op.value]))
  {
  }

  function Filled(op: C.Op): Handle
    requires op.Insert?
  {
    S.NewHandle(op.key, op.value, op.charge, op.hold)
  }

  /** Insert takes a handle and fills it. */
  lemma TakenAlone(s: C.State, t: nat, op: C.Op, ok: bool, x: S.Shard) returns (tok: Option<nat>)
    requires At(s, t, Some(t), C.Evicted(op, ok), x) && op.Insert? && !(!ok && (x.strict || !op.hold))
    requires x.recycle != [] ==> x.recycle[|x.recycle| - 1] < |x.handles|
    ensures var (y, h) := S.Taken(x, Filled(op)); At(C.Proceed(s, t), t, Some(t), C.Linking(op, h, tok), y)
  {
    tok := if op.hold then Some(s.nextToken) else None;
    if x.recycle == [] {
      NewIsFilled(s.handles, Filled(op));
    }
  }

  lemma NewIsFilled(handles: seq<Handle>, x: Handle)
    ensures (handles + [Handle(Flags(false, false, 0), "", None, 0)])[|handles| := x] == handles + [x]
  {
  }

  lemma LinkAlone(s: C.State, t: nat, op: C.Op, h: nat, tok: Option<nat>, x: S.Shard)
    requires At(s, t, Some(t), C.Linking(op, h, tok), x) && op.Insert?
    ensures var s' := C.Proceed(s, t);
            if op.key in x.table then
              At(s', t, Some(t), C.Replacing(op, h, tok, x.table[op.key]), x.(table := x.table - {op.key}))
            else At(s', t, Some(t), C.TableInserting(op, h, tok), x)
  {
  }

  lemma ReplaceAlone(s: C.State, t: nat, op: C.Op, h: nat, tok: Option<nat>, prev: nat, x: S.Shard)
    requires At(s, t, Some(t), C.Replacing(op, h, tok, prev), x) && prev < |x.handles|
    ensures var f := x.handles[prev].flags; var x' := S.WithFlag(x, prev, f.(inCache := false));
            At(C.Proceed(s, t), t, Some(t), if f.inCache && f.refs == 0 then C.ReplaceRecycling(op, h, tok, prev)
               else C.TableInserting(op, h, tok), x')
  {
  }

  lemma ReplaceRecycleAlone(s: C.State, t: nat, op: C.Op, h: nat, tok: Option<nat>, prev: nat, x: S.Shard)
    requires At(s, t, Some(t), C.ReplaceRecycling(op, h, tok, prev), x) && prev < |x.handles|
    ensures At(C.Proceed(s, t), t, Some(t), C.TableInserting(op, h, tok), S.Recycled(x, prev))
  {
  }

  lemma TableInsertAlone(s: C.State, t: nat, op: C.Op, h: nat, tok: Option<nat>, x: S.Shard)
    requires At(s, t, Some(t), C.TableInserting(op, h, tok), x) && op.Insert? && op.key !in x.table
    ensures At(C.Proceed(s, t), t, Some(t), C.Charging(op, h, tok), x.(table := x.table[op.key := h]))
  {
  }

  lemma ChargeAlone(s: C.State, t: nat, op: C.Op, h: nat, tok: Option<nat>, x: S.Shard)
    requires At(s, t, Some(t), C.Charging(op, h, tok), x) && op.Insert?
    ensures At(C.Proceed(s, t), t, None, C.Idle, x.(usage := (x.usage + op.charge) % SIZE))
  {
  }

  /** An existing entry of the key is taken out. */
  lemma LinkingComes(s: C.State, t: nat, op: C.Op, h: nat, tok: Option<nat>, x: S.Shard)
    requires At(s, t, Some(t), C.Linking(op, h, tok), x) && op.Insert?
    requires op.key in x.table ==> x.table[op.key] < |x.handles|
    ensures Comes(s, t, Some(t), C.TableInserting(op, h, tok), S.Erased(x, op.key).0)
  {
    hide C.Proceed, At, Comes, S.WithFlag, S.Recycled;
    LinkAlone(s, t, op, h, tok, x);
    var s1 := C.Proceed(s, t);
    var pc := C.TableInserting(op, h, tok);
    if op.key !in x.table {
      ComesNow(s1, t, Some(t), pc, x);
    } else {
      var prev, y := x.table[op.key], x.(table := x.table - {op.key});
      ReplaceAlone(s1, t, op, h, tok, prev, y);
      var s2 := C.Proceed(s1, t);
      var f := y.handles[prev].flags;
      var y' := S.WithFlag(y, prev, f.(inCache := false));
      if f.inCache && f.refs == 0 {
        FlagLength(y, prev, f.(inCache := false));
        ReplaceRecycleAlone(s2, t, op, h, tok, prev, y');
        ComesNow(C.Proceed(s2, t), t, Some(t), pc, S.Recycled(y', prev));
        ComesNext(s2, t, Some(t), pc, S.Recycled(y', prev));
      } else {
        ComesNow(s2, t, Some(t), pc, y');
      }
      ComesNext(s1, t, Some(t), pc, S.Erased(x, op.key).0);
    }
    ComesNext(s, t, Some(t), pc, S.Erased(x, op.key).0);
  }

  lemma ErasedKey(x: S.Shard, key: string)
    requires key in x.table ==> x.table[key] < |x.handles|
    ensures key !in S.Erased(x, key).0.table
  {
  }

  /** From the table entry to the end. */
  lemma TableInsertingEnds(s: C.State, t: nat, op: C.Op, h: nat, tok: Option<nat>, x: S.Shard)
    requires At(s, t, Some(t), C.TableInserting(op, h, tok), x) && op.Insert? && op.key !in x.table
    ensures Ends(s, t, x.(table := x.table[op.key := h], usage := (x.usage + op.charge) % SIZE))
  {
    hide C.Proceed, At, Comes;
    TableInsertAlone(s, t, op, h, tok, x);
    var y := x.(table := x.table[op.key := h]);
    var s1 := C.Proceed(s, t);
    ChargeAlone(s1, t, op, h, tok, y);
    var z := y.(usage := (y.usage + op.charge) % SIZE);
    ComesNow(C.Proceed(s1, t), t, None, C.Idle, z);
    ComesNext(s1, t, None, C.Idle, z);
    ComesNext(s, t, None, C.Idle, z);
  }

  /** From the handle to the end. */
  lemma LinkingEnds(s: C.State, t: nat, op: C.Op, h: nat, tok: Option<nat>, x: S.Shard)
    requires At(s, t, Some(t), C.Linking(op, h, tok), x) && op.Insert?
    requires op.key in x.table ==> x.table[op.key] < |x.handles|
    ensures var y := S.Erased(x, op.key).0;
            Ends(s, t, y.(table := y.table[op.key := h], usage := (y.usage + op.charge) % SIZE))
  {
    hide C.Proceed, At, Comes, S.Erased;
    var y := S.Erased(x, op.key).0;
    var z := y.(table := y.table[op.key := h], usage := (y.usage + op.charge) % SIZE);
    LinkingComes(s, t, op, h, tok, x);
    ErasedKey(x, op.key);
    var pc := C.TableInserting(op, h, tok);
    forall s' | At(s', t, Some(t), pc, y) ensures Comes(s', t, None, C.Idle, z) {
      TableInsertingEnds(s', t, op, h, tok, y);
    }
    ComesThrough(s, t, Some(t), pc, y, None, C.Idle, z);
  }

  /** Insert behind EvictFromCache. */
  lemma StoringEnds(s: C.State, t: nat, op: C.Op, ok: bool, x: S.Shard)
    requires At(s, t, Some(t), C.Evicted(op, ok), x) && op.Insert? && !(!ok && (x.strict || !op.hold)) && S.Sane(x)
    ensures Ends(s, t, S.Stored(x, op.key, op.value, op.charge, op.hold).0)
  {
    hide C.Proceed, At, Comes, S.Taken, S.Erased;
    var tok := TakenAlone(s, t, op, ok, x);
    var (y, h) := S.Taken(x, Filled(op));
    TakenTable(x, Filled(op));
    LinkingEnds(C.Proceed(s, t), t, op, h, tok, y);
    var z := S.Erased(y, op.key).0;
    var end := z.(table := z.table[op.key := h], usage := (z.usage + op.charge) % SIZE);
    ComesNext(s, t, None, C.Idle, end);
    EndsSame(s, t, end, S.Stored(x, op.key, op.value, op.charge, op.hold).0);
  }

  lemma TakenTable(x: S.Shard, y: Handle)
    requires S.Sane(x)
    ensures S.Taken(x, y).0.table == x.table && |S.Taken(x, y).0.handles| >= |x.handles|
  {
  }

  lemma EvictedStrict(x: S.Shard, charge: nat)
    requires x.usage != 0 ==> x.head < |x.handles|
    ensures S.Evicted(x, charge).0.strict == x.strict
  {
    if x.usage != 0 {
      SweptStrict(x, charge, x.head, false);
    }
  }

  lemma {:induction false} SweptStrict(x: S.Shard, charge: nat, newHead: nat, second: bool)
    requires x.head < |x.handles| && newHead < |x.handles|
    ensures S.Swept(x, charge, newHead, second).0.strict == x.strict
    decreases S.Left(|x.handles|, x.head, newHead, second)
  {
    hide S.Tried, S.Fits;
    if !S.Fits(x, charge) {
      TriedStrict(x, newHead);
      S.TriedKeeps(x, newHead);
      var x' := S.Tried(x, newHead).0;
      var next := S.NextHead(x', newHead);
      if !(next == x.head && second) {
        SweptStrict(x', charge, next, second || next == x.head);
      }
    }
  }

  lemma TriedStrict(x: S.Shard, h: nat)
    requires h < |x.handles|
    ensures S.Tried(x, h).0.strict == x.strict
  {
  }

  /** Insert, undisturbed. */
  lemma InsertAlone(s: C.State, t: nat, key: string, charge: nat, hold: bool, x: S.Shard)
    requires At(s, t, None, C.Idle, x) && charge < SIZE && S.Sane(x) && S.Sane(S.Evicted(x, charge).0)
    ensures Ends(C.Step(s, C.InsertEvent(t, key, charge, hold)), t, S.Inserted(x, key, s.nextValue, charge, hold).0)
  {
    hide C.Proceed, C.Step, At, Comes, S.Evicted, S.Stored, C.StartEvict;
    var op := C.Insert(key, s.nextValue, charge, hold);
    StartInsertAlone(s, t, key, charge, hold, x);
    var s1 := C.Step(s, C.InsertEvent(t, key, charge, hold));
    StartEvictAlone(s1, t, op, x);
    EvictedStrict(x, charge);
    var (y, ok) := S.Evicted(x, charge);
    var z := S.Inserted(x, key, s.nextValue, charge, hold).0;
    forall s' | At(s', t, Some(t), C.Evicted(op, ok), y) ensures Comes(s', t, None, C.Idle, z) {
      if !ok && (y.strict || !hold) {
        RefusedAlone(s', t, op, ok, y);
        ComesNow(C.Proceed(s', t), t, None, C.Idle, z);
        ComesNext(s', t, None, C.Idle, z);
      } else {
        StoringEnds(s', t, op, ok, y);
      }
    }
    ComesThrough(s1, t, Some(t), C.Evicted(op, ok), y, None, C.Idle, z);
  }

  lemma StartResizeAlone(s: C.State, t: nat, capacity: nat, x: S.Shard)
    requires At(s, t, None, C.Idle, x) && capacity < SIZE
    ensures var s' := C.Step(s, C.ResizeEvent(t, capacity));
            At(s', t, Some(t), C.StartEvict(s', C.Resize), x.(capacity := capacity))
  {
  }

  lemma ResizedEnds(s: C.State, t: nat, ok: bool, x: S.Shard)
    requires At(s, t, Some(t), C.Evicted(C.Resize, ok), x)
    ensures At(C.Proceed(s, t), t, None, C.Idle, x)
  {
  }

  /** SetCapacity, undisturbed. */
  lemma ResizeAlone(s: C.State, t: nat, capacity: nat, x: S.Shard)
    requires At(s, t, None, C.Idle, x) && capacity < SIZE && (x.usage != 0 ==> x.head < |x.handles|)
    ensures Ends(C.Step(s, C.ResizeEvent(t, capacity)), t, S.Resized(x, capacity))
  {
    hide C.Proceed, C.Step, At, Comes, S.Evicted, C.StartEvict;
    StartResizeAlone(s, t, capacity, x);
    var s1, x1 := C.Step(s, C.ResizeEvent(t, capacity)), x.(capacity := capacity);
    StartEvictAlone(s1, t, C.Resize, x1);
    var (y, ok) := S.Evicted(x1, 0);
    forall s' | At(s', t, Some(t), C.Evicted(C.Resize, ok), y) ensures Comes(s', t, None, C.Idle, y) {
      ResizedEnds(s', t, ok, y);
      ComesNow(C.Proceed(s', t), t, None, C.Idle, y);
      ComesNext(s', t, None, C.Idle, y);
    }
    ComesThrough(s1, t, Some(t), C.Evicted(C.Resize, ok), y, None, C.Idle, y);
  }
}
