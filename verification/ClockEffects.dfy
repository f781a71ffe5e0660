/** How the changes that the actions make to handles, table and recycle bin affect the parts of the
    invariant. */
module ClockEffects {
  import opened Strings
  import opened ClockHandle
  import opened ClockState
  import opened ClockInvariant

  // ----- the table -----

  /** Nothing changes but reference counts and usage bits. */
  ghost predicate Quiet(handles: seq<Handle>, handles': seq<Handle>) {
    && |handles| == |handles'|
    && forall h | 0 <= h < |handles| :: SameButCounts(handles[h], handles'[h])
  }

  predicate SameButCounts(x: Handle, y: Handle) {
    y == x.(flags := x.flags.(usage := y.flags.usage, refs := y.flags.refs))
  }

  lemma FlagsAreQuiet(handles: seq<Handle>, h: nat, usage: bool, refs: nat)
    requires h < |handles|
    ensures Quiet(handles, WithFlags(handles, h, Flags(handles[h].flags.inCache, usage, refs)))
  {
  }

  lemma TableQuiet(handles: seq<Handle>, handles': seq<Handle>, table: map<string, nat>, pc: Pc)
    requires TableOk(handles, table, pc) && Quiet(handles, handles')
    ensures TableOk(handles', table, pc)
  {
    hide Loose, Stale;
    assert forall h | 0 <= h < |handles| :: SameButCounts(handles[h], handles'[h]);
  }

  /** The thread with the mutex moves on without a change to the handles. */
  lemma TableMoves(handles: seq<Handle>, table: map<string, nat>, pc: Pc, pc': Pc)
    requires TableOk(handles, table, pc)
    requires forall h | 0 <= h < |handles| :: Loose(pc, h) == Loose(pc', h) && Stale(pc, h) == Stale(pc', h)
    ensures TableOk(handles, table, pc')
  {
    hide Loose, Stale;
  }

  /** Apart from handle `h`, the thread works on the same handles. */
  predicate SameOthers(n: nat, pc: Pc, pc': Pc, h: nat) {
    forall x | 0 <= x < n && x != h :: Loose(pc, x) == Loose(pc', x) && Stale(pc, x) == Stale(pc', x)
  }

  lemma KeyErased(handles: seq<Handle>, table: map<string, nat>, pc: Pc, pc': Pc, k: string)
    requires TableOk(handles, table, pc) && k in table && SameOthers(|handles|, pc, pc', table[k])
    requires !Stale(pc', table[k]) && (Loose(pc', table[k]) || !handles[table[k]].flags.inCache)
    ensures TableOk(handles, table - {k}, pc')
  {
    hide Loose, Stale;
    forall h | 0 <= h < |handles|
      ensures InTable(handles[h], table - {k}, h) <==> (handles[h].flags.inCache && !Loose(pc', h)) || Stale(pc', h)
    {
      assert InTable(handles[h], table, h) <==> (handles[h].flags.inCache && !Loose(pc, h)) || Stale(pc, h);
    }
  }

  lemma TableCleared(handles: seq<Handle>)
    ensures TableOk(handles, map[], Clearing(0))
  {
  }

  /** A handle that is not in the table loses its in-cache bit, or its key. */
  lemma OutsideTable(handles: seq<Handle>, handles': seq<Handle>, table: map<string, nat>, pc: Pc, pc': Pc, h: nat)
    requires TableOk(handles, table, pc) && h < |handles| && SameOthers(|handles|, pc, pc', h) && !Stale(pc', h)
    requires !InTable(handles[h], table, h)
    requires |handles'| == |handles| && handles' == handles[h := handles'[h]] && !handles'[h].flags.inCache
    ensures TableOk(handles', table, pc')
  {
    hide Loose, Stale;
    forall x | 0 <= x < |handles'|
      ensures InTable(handles'[x], table, x) <==> (handles'[x].flags.inCache && !Loose(pc', x)) || Stale(pc', x)
    {
      assert InTable(handles[x], table, x) <==> (handles[x].flags.inCache && !Loose(pc, x)) || Stale(pc, x);
    }
  }

  lemma TableEvicts(handles: seq<Handle>, table: map<string, nat>, sw: Sweep)
    requires TableOk(handles, table, Sweeping(sw)) && sw.newHead < |handles| && handles[sw.newHead].flags.inCache
    ensures TableOk(WithFlags(handles, sw.newHead, Flags(false, false, 0)), table, SweepErasing(sw))
  {
    var hs := WithFlags(handles, sw.newHead, Flags(false, false, 0));
    var pc, pc' := Sweeping(sw), SweepErasing(sw);
    forall x | 0 <= x < |hs| ensures InTable(hs[x], table, x)
        <==> (hs[x].flags.inCache && !Loose(pc', x)) || Stale(pc', x) {
      assert InTable(handles[x], table, x) <==> (handles[x].flags.inCache && !Loose(pc, x)) || Stale(pc, x);
    }
  }

  /** A handle that was not in cache is filled, or a new one is. */
  lemma TableFilled(handles: seq<Handle>, handles': seq<Handle>, table: map<string, nat>, pc: Pc, pc': Pc, h: nat)
    requires TableOk(handles, table, pc) && h <= |handles| && SameOthers(|handles|, pc, pc', h)
    requires Loose(pc', h) && !Stale(pc', h) && (h < |handles| ==> !handles[h].flags.inCache && !Stale(pc, h))
    requires |handles'| == (if h < |handles| then |handles| else |handles| + 1)
    requires forall x | 0 <= x < |handles| && x != h :: handles'[x] == handles[x]
    ensures TableOk(handles', table, pc')
  {
    hide Loose, Stale;
    assert h < |handles| ==> !InTable(handles[h], table, h);
    forall x | 0 <= x < |handles'|
      ensures InTable(handles'[x], table, x) <==> (handles'[x].flags.inCache && !Loose(pc', x)) || Stale(pc', x)
    {
      if x < |handles| {
        assert InTable(handles[x], table, x) <==> (handles[x].flags.inCache && !Loose(pc, x)) || Stale(pc, x);
      }
    }
  }

  lemma TableInserted(handles: seq<Handle>, table: map<string, nat>, pc: Pc, pc': Pc, h: nat)
    requires TableOk(handles, table, pc) && h < |handles| && SameOthers(|handles|, pc, pc', h)
    requires handles[h].key !in table && handles[h].flags.inCache && !Loose(pc', h)
    ensures TableOk(handles, table[handles[h].key := h], pc')
  {
    hide Loose, Stale;
    var table' := table[handles[h].key := h];
    forall x | 0 <= x < |handles|
      ensures InTable(handles[x], table', x) <==> (handles[x].flags.inCache && !Loose(pc', x)) || Stale(pc', x)
    {
      assert InTable(handles[x], table, x) <==> (handles[x].flags.inCache && !Loose(pc, x)) || Stale(pc, x);
    }
  }

  // ----- usage -----

  lemma TotalQuiet(handles: seq<Handle>, handles': seq<Handle>, recycle: seq<nat>)
    requires Quiet(handles, handles')
    ensures TotalCharge(handles, recycle) == TotalCharge(handles', recycle)
  {
    hide Total;
    assert forall h | 0 <= h < |handles| :: SameButCounts(handles[h], handles'[h]);
    TotalSame(handles, handles', recycle, |handles|);
  }

  lemma UsageQuiet(handles: seq<Handle>, handles': seq<Handle>, recycle: seq<nat>, usage: nat, pc: Pc)
    requires UsageOk(handles, recycle, usage, pc) && Quiet(handles, handles')
    ensures UsageOk(handles', recycle, usage, pc)
  {
    hide TotalCharge;
    TotalQuiet(handles, handles', recycle);
  }

  lemma UsageRecycled(handles: seq<Handle>, recycle: seq<nat>, usage: nat, pc: Pc, pc': Pc, h: nat)
    requires UsageOk(handles, recycle, usage, pc) && h < |handles| && h !in recycle && Pending(pc) == Pending(pc')
    ensures UsageOk(handles[h := handles[h].(key := "", value := None)], recycle + [h],
            (usage - handles[h].charge) % SIZE, pc')
  {
    hide TotalCharge, Pending;
    TotalRecycled(handles, recycle, h);
    ModuloSubtract(TotalCharge(handles, recycle) - Pending(pc), handles[h].charge);
  }

  /** A usage that is not zero comes from some handle, so the sweep starts inside the list. */
  lemma UsedHead(handles: seq<Handle>, recycle: seq<nat>, usage: nat, head: nat, capacity: nat)
    requires UsageOk(handles, recycle, usage, Idle) && HeadOk(handles, head, usage, capacity) && usage != 0
    ensures head < |handles|
  {
  }

  // ----- values -----

  lemma ValuesUnchanged(handles: seq<Handle>, handles': seq<Handle>, recycle: seq<nat>, home: map<nat, nat>,
      queued: seq<nat>)
    requires ValuesOk(handles, recycle, home, queued) && |handles| == |handles'|
    requires forall h | 0 <= h < |handles| :: handles[h].value == handles'[h].value
    ensures ValuesOk(handles', recycle, home, queued)
  {
    forall v | v in home ensures v in queued <==> !Stored(handles', recycle, home[v], v) {
      assert v in queued <==> !Stored(handles, recycle, home[v], v);
    }
  }

  lemma ValuesQuiet(handles: seq<Handle>, handles': seq<Handle>, recycle: seq<nat>, home: map<nat, nat>,
      queued: seq<nat>)
    requires ValuesOk(handles, recycle, home, queued) && Quiet(handles, handles')
    ensures ValuesOk(handles', recycle, home, queued)
  {
    hide ValuesOk;
    assert forall h | 0 <= h < |handles| :: SameButCounts(handles[h], handles'[h]);
    ValuesUnchanged(handles, handles', recycle, home, queued);
  }

  lemma ValueQueued(handles: seq<Handle>, recycle: seq<nat>, home: map<nat, nat>, queued: seq<nat>, h: nat)
    requires ValuesOk(handles, recycle, home, queued) && h < |handles| && h !in recycle
    ensures handles[h].value.Some? && handles[h].value.value in home && handles[h].value.value !in queued
    ensures ValuesOk(handles[h := handles[h].(key := "", value := None)], recycle + [h], home,
            queued + [handles[h].value.value])
  {
    var hs, r, v := handles[h := handles[h].(key := "", value := None)], recycle + [h], handles[h].value.value;
    assert Stored(handles, recycle, h, v);
    forall w | w in home ensures w in queued + [v] <==> !Stored(hs, r, home[w], w) {
      assert w in queued <==> !Stored(handles, recycle, home[w], w);
    }
  }

  lemma ValueGivenUp(handles: seq<Handle>, recycle: seq<nat>, home: map<nat, nat>, queued: seq<nat>, v: nat)
    requires ValuesOk(handles, recycle, home, queued) && v !in home && v !in queued
    ensures ValuesOk(handles, recycle, home, queued + [v])
  {
    forall w | w in home ensures w in queued + [v] <==> !Stored(handles, recycle, home[w], w) {
      assert w in queued <==> !Stored(handles, recycle, home[w], w);
    }
  }

  /** A handle that was free or new stores a fresh value. */
  lemma ValueStored(handles: seq<Handle>, handles': seq<Handle>, recycle: seq<nat>, recycle': seq<nat>,
                    home: map<nat, nat>, queued: seq<nat>, h: nat, v: nat)
    requires ValuesOk(handles, recycle, home, queued) && v !in home && v !in queued
    requires |handles| <= |handles'| && h < |handles'| && handles'[h].value == Some(v) && h !in recycle'
    requires forall x | 0 <= x < |handles'| && x != h :: x < |handles| && handles'[x] == handles[x]
    requires (h < |handles| ==> h in recycle) && (forall x | x != h :: x in recycle <==> x in recycle')
    ensures ValuesOk(handles', recycle', home[v := h], queued)
  {
    var home' := home[v := h];
    forall w | w in home' ensures w in queued <==> !Stored(handles', recycle', home'[w], w) {
      if w != v {
        assert w in queued <==> !Stored(handles, recycle, home[w], w);
      } else {
        assert Stored(handles', recycle', h, v);
      }
    }
  }

  // ----- handles that are taken -----

  /** A handle from the recycle bin. */
  lemma LifeTaken(handles: seq<Handle>, recycle: seq<nat>, owners: map<nat, Owner>, duty: map<nat, nat>, x: Handle,
      k: Option<nat>, t: nat)
    requires LifeOk(handles, recycle, owners, duty) && recycle != []
    requires x.flags.inCache && x.flags.refs == (if k.Some? then 1 else 0) && (k.Some? ==> k.value !in owners)
    ensures var n := |recycle| - 1; var h := recycle[n];
            && h < |handles| && h !in recycle[..n] && !handles[h].flags.inCache
            && (forall y | y != h :: y in recycle <==> y in recycle[..n])
            && LifeOk(handles[h := x], recycle[..n], if k.Some? then owners[k.value := Owner(h, Some(t))]
               else owners, duty)
  {
    hide OwnersOf;
    var n := |recycle| - 1;
    var h := recycle[n];
    assert recycle == recycle[..n] + [h];
    assert h in recycle;
    var owners' := if k.Some? then owners[k.value := Owner(h, Some(t))] else owners;
    var hs := handles[h := x];
    assert Alive(handles[h].flags, h in recycle, h in duty, OwnersOf(owners, h));
    forall y | 0 <= y < |hs| ensures Alive(hs[y].flags, y in recycle[..n], y in duty, OwnersOf(owners', y)) {
      assert Alive(handles[y].flags, y in recycle, y in duty, OwnersOf(owners, y));
      if k.Some? {
        OwnerAdded(owners, k.value, Owner(h, Some(t)), y);
      }
    }
  }

  /** A new handle at the end of the list. */
  lemma LifeAppended(handles: seq<Handle>, recycle: seq<nat>, owners: map<nat, Owner>, duty: map<nat, nat>, x: Handle,
      k: Option<nat>, t: nat)
    requires LifeOk(handles, recycle, owners, duty)
    requires x.flags.inCache && x.flags.refs == (if k.Some? then 1 else 0) && (k.Some? ==> k.value !in owners)
    ensures |handles| !in recycle
    ensures LifeOk(handles + [x], recycle, if k.Some? then owners[k.value := Owner(|handles|, Some(t))]
            else owners, duty)
  {
    hide OwnersOf;
    var h := |handles|;
    var owners' := if k.Some? then owners[k.value := Owner(h, Some(t))] else owners;
    var hs := handles + [x];
    NoOwners(owners, h);
    forall y | 0 <= y < |hs| ensures Alive(hs[y].flags, y in recycle, y in duty, OwnersOf(owners', y)) {
      assert y < h ==> Alive(handles[y].flags, y in recycle, y in duty, OwnersOf(owners, y));
      if k.Some? {
        OwnerAdded(owners, k.value, Owner(h, Some(t)), y);
      }
    }
  }

  lemma NoOwners(owners: map<nat, Owner>, h: nat)
    requires forall k | k in owners :: owners[k].h < h
    ensures OwnersOf(owners, h) == {}
  {
  }
}
