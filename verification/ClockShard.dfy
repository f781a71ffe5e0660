/** The CLOCK cache shard (external/rocksdb/cache/clock_cache.cc) as its callers see it when calls do
    not overlap: an object whose methods update the list, the recycle bin, the table and the usage
    counters in place, each against a function from the old contents to the new. */
module ClockShard {
  import opened Strings
  import opened ClockHandle

  /** The contents of a shard; `deleted` are the values whose deleters have been called. */
  datatype Shard = Shard(
    handles: seq<Handle>,
    recycle: seq<nat>,
    table: map<string, nat>,
    head: nat,
    usage: nat,
    pinned: nat,
    capacity: nat,
    strict: bool,
    deleted: seq<nat>)

  // ----- what the operations do -----

  function WithFlag(s: Shard, h: nat, f: Flags): Shard
    requires h < |s.handles|
  {
    s.(handles := s.handles[h := s.handles[h].(flags := f)])
  }

  /** RecycleHandle (402-413), with the call of the deleter by Cleanup. */
  function Recycled(s: Shard, h: nat): Shard
    requires h < |s.handles|
  {
    var x := s.handles[h];
    s.(handles := s.handles[h := x.(key := "", value := None)],
       recycle := s.recycle + [h],
       usage := (s.usage - x.charge) % SIZE,
       deleted := s.deleted + if x.value.Some? then [x.value.value] else [])
  }

  /** UnsetInCache (468-481); whether a value is erased. */
  function Unset(s: Shard, h: nat): (Shard, bool)
    requires h < |s.handles|
  {
    var f := s.handles[h].flags;
    var s' := WithFlag(s, h, f.(inCache := false));
    if f.inCache && f.refs == 0 then (Recycled(s', h), true) else (s', false)
  }

  /** EraseAndConfirm (651-662). */
  function Erased(s: Shard, key: string): (Shard, bool)
    requires key in s.table ==> s.table[key] < |s.handles|
  {
    if key in s.table then Unset(s.(table := s.table - {key}), s.table[key]) else (s, false)
  }

  /** Ref (426-444). */
  function Reffed(s: Shard, h: nat): (Shard, bool)
    requires h < |s.handles|
  {
    var x := s.handles[h];
    if !x.flags.inCache then (s, false)
    else
      (WithFlag(s, h, x.flags.(refs := x.flags.refs + 1))
         .(pinned := if x.flags.refs == 0 then (s.pinned + x.charge) % SIZE else s.pinned), true)
  }

  /** Unref (446-466). */
  function Unreffed(s: Shard, h: nat, setUsage: bool): (Shard, bool)
    requires h < |s.handles| && s.handles[h].flags.refs > 0
  {
    var x := s.handles[h];
    var f := x.flags;
    var s' := WithFlag(s, h, f.(usage := f.usage || setUsage, refs := f.refs - 1))
              .(pinned := if f.refs == 1 then (s.pinned - x.charge) % SIZE else s.pinned);
    if f.refs == 1 && !f.inCache then (Recycled(s', h), true) else (s', false)
  }

  /** Lookup (609-632). */
  function LookedUp(s: Shard, key: string): (Shard, Option<nat>)
    requires key in s.table ==> s.table[key] < |s.handles|
  {
    if key !in s.table then (s, None)
    else
      var h := s.table[key];
      var (s', ok) := Reffed(s, h);
      if !ok then (s', None)
      else if s'.handles[h].key != key then (Unreffed(s', h, false).0, None)
      else (s', Some(h))
  }

  /** Release (634-643). */
  function Released(s: Shard, h: nat, force: bool): (Shard, bool)
    requires h < |s.handles| && s.handles[h].flags.refs > 0
    requires forall k | k in s.table :: s.table[k] < |s.handles|
  {
    var (s', erased) := Unreffed(s, h, true);
    if force && !erased then Erased(s', s'.handles[h].key) else (s', erased)
  }

  /** TryEvict (483-496). */
  function Tried(s: Shard, h: nat): (Shard, bool)
    requires h < |s.handles|
  {
    var x := s.handles[h];
    if x.flags == Flags(true, false, 0) then
      (Recycled(WithFlag(s.(table := s.table - {x.key}), h, Flags(false, false, 0)), h), true)
    else (WithFlag(s, h, x.flags.(usage := false)), false)
  }

  predicate Fits(s: Shard, charge: nat) {
    (s.usage + charge) % SIZE <= s.capacity
  }

  /** The positions that are left in the two sweeps of EvictFromCache. */
  function Left(n: nat, head: nat, newHead: nat, second: bool): nat
    requires head < n && newHead < n
  {
    (if second then 0 else n) + if newHead <= head then (if newHead == head then n else head - newHead)
        else n - newHead + head
  }

  function NextHead(s: Shard, newHead: nat): nat {
    if newHead + 1 >= |s.handles| then 0 else newHead + 1
  }

  /** The loop of EvictFromCache (506-521). It takes at most two sweeps. */
  function Swept(s: Shard, charge: nat, newHead: nat, second: bool): (r: (Shard, bool))
    requires s.head < |s.handles| && newHead < |s.handles|
    decreases Left(|s.handles|, s.head, newHead, second)
  {
    if Fits(s, charge) then (s.(head := newHead), true)
    else
      var s' := Tried(s, newHead).0;
      var next := NextHead(s', newHead);
      if next == s.head && second then (s', false)
      else Swept(s', charge, next, second || next == s.head)
  }

  /** EvictFromCache (498-522). */
  function Evicted(s: Shard, charge: nat): (Shard, bool)
    requires s.usage != 0 ==> s.head < |s.handles|
  {
    if s.usage == 0 then (s, charge <= s.capacity) else Swept(s, charge, s.head, false)
  }

  function NewHandle(key: string, value: nat, charge: nat, hold: bool): Handle {
    Handle(Flags(true, false, if hold then 1 else 0), key, Some(value), charge)
  }

  /** Taking a handle from the recycle bin, or a new one (555-570). */
  function Taken(s: Shard, x: Handle): (Shard, nat)
    requires s.recycle != [] ==> s.recycle[|s.recycle| - 1] < |s.handles|
  {
    if s.recycle == [] then (s.(handles := s.handles + [x]), |s.handles|)
    else
      var n := |s.recycle| - 1;
      (s.(handles := s.handles[s.recycle[n] := x], recycle := s.recycle[..n]), s.recycle[n])
  }

  /** Insert after EvictFromCache has succeeded, or on a cache without a strict limit (555-582). */
  function Stored(s: Shard, key: string, value: nat, charge: nat, hold: bool): (Shard, nat)
    requires s.recycle != [] ==> s.recycle[|s.recycle| - 1] < |s.handles|
    requires key in s.table ==> s.table[key] < |s.handles|
  {
    var (s1, h) := Taken(s, NewHandle(key, value, charge, hold));
    var s2 := Erased(s1, key).0;
    (s2.(table := s2.table[key := h],
         pinned := if hold then (s2.pinned + charge) % SIZE else s2.pinned,
         usage := (s2.usage + charge) % SIZE), h)
  }

  ghost predicate Sane(s: Shard) {
    && (s.usage != 0 ==> s.head < |s.handles|)
    && (s.recycle != [] ==> s.recycle[|s.recycle| - 1] < |s.handles|)
    && (forall k | k in s.table :: s.table[k] < |s.handles|)
  }

  /** Insert (539-607); the handle of the new entry, if there is one. */
  function Inserted(s: Shard, key: string, value: nat, charge: nat, hold: bool): (Shard, Option<nat>)
    requires Sane(s) && Sane(Evicted(s, charge).0)
  {
    var (s', ok) := Evicted(s, charge);
    if !ok && (s.strict || !hold) then (s'.(deleted := s'.deleted + if hold then [] else [value]), None)
    else
      var (s'', h) := Stored(s', key, value, charge, hold);
      (s'', Some(h))
  }

  /** The loop of EraseUnRefEntries (669-671). */
  function ClearedFrom(s: Shard, i: nat): Shard
    decreases |s.handles| - i
  {
    if i >= |s.handles| then s else ClearedFrom(Unset(s, i).0, i + 1)
  }

  function Cleared(s: Shard): Shard {
    ClearedFrom(s.(table := map[]), 0)
  }

  function Resized(s: Shard, capacity: nat): Shard
    requires s.usage != 0 ==> s.head < |s.handles|
  {
    Evicted(s.(capacity := capacity), 0).0
  }

  // ----- the object -----

  class ClockCacheShard {
    var list: seq<Handle>
    var recycle: seq<nat>
    var table: map<string, nat>
    var head: nat
    var usage: nat
    var pinnedUsage: nat
    var capacity: nat
    var strictCapacityLimit: bool
    var deleted: seq<nat>

    ghost function Contents(): Shard
      reads this
    {
      Shard(list, recycle, table, head, usage, pinnedUsage, capacity, strictCapacityLimit, deleted)
    }

    constructor ()
      ensures Contents() == Shard([], [], map[], 0, 0, 0, 0, false, [])
    {
      list, recycle, table := [], [], map[];
      head, usage, pinnedUsage, capacity := 0, 0, 0, 0;
      strictCapacityLimit, deleted := false, [];
    }

    method SetFlags(h: nat, f: Flags)
      requires h < |list|
      modifies this`list
      ensures Contents() == WithFlag(old(Contents()), h, f)
    {
      list := list[h := list[h].(flags := f)];
    }

    method RecycleHandle(h: nat)
      requires h < |list|
      modifies this
      ensures Contents() == Recycled(old(Contents()), h)
    {
      var x := list[h];
      if x.value.Some? {
        deleted := deleted + [x.value.value];
      }
      assert old(deleted) + [] == old(deleted);
      list := list[h := x.(key := "", value := None)];
      recycle := recycle + [h];
      usage := (usage - x.charge) % SIZE;
    }

    method UnsetInCache(h: nat) returns (erased: bool)
      requires h < |list|
      modifies this
      ensures (Contents(), erased) == Unset(old(Contents()), h)
    {
      var f := list[h].flags;
      SetFlags(h, f.(inCache := false));
      erased := f.inCache && f.refs == 0;
      if erased {
        RecycleHandle(h);
      }
    }

    method EraseAndConfirm(key: string) returns (erased: bool)
      requires key in table ==> table[key] < |list|
      modifies this
      ensures (Contents(), erased) == Erased(old(Contents()), key)
    {
      erased := false;
      if key in table {
        var h := table[key];
        table := table - {key};
        erased := UnsetInCache(h);
      }
    }

    method Ref(h: nat) returns (ok: bool)
      requires h < |list|
      modifies this
      ensures (Contents(), ok) == Reffed(old(Contents()), h)
    {
      var f := list[h].flags;
      ok := f.inCache;
      if ok {
        SetFlags(h, f.(refs := f.refs + 1));
        if f.refs == 0 {
          pinnedUsage := (pinnedUsage + list[h].charge) % SIZE;
        }
      }
    }

    method Unref(h: nat, setUsage: bool) returns (erased: bool)
      requires h < |list| && list[h].flags.refs > 0
      modifies this
      ensures (Contents(), erased) == Unreffed(old(Contents()), h, setUsage)
    {
      var f := list[h].flags;
      if setUsage {
        SetFlags(h, f.(usage := true));
      }
      SetFlags(h, list[h].flags.(refs := f.refs - 1));
      assert list == old(list)[h := old(list)[h].(flags := Flags(f.inCache, f.usage || setUsage, f.refs - 1))];
      erased := false;
      if f.refs == 1 {
        pinnedUsage := (pinnedUsage - list[h].charge) % SIZE;
        if !f.inCache {
          RecycleHandle(h);
          erased := true;
        }
      }
    }

    method Lookup(key: string) returns (r: Option<nat>)
      requires key in table ==> table[key] < |list|
      modifies this
      ensures (Contents(), r) == LookedUp(old(Contents()), key)
    {
      if key !in table {
        return None;
      }
      var h := table[key];
      var ok := Ref(h);
      if !ok {
        return None;
      }
      if list[h].key != key {
        var _ := Unref(h, false);
        return None;
      }
      r := Some(h);
    }

    method Release(h: nat, forceErase: bool) returns (erased: bool)
      requires h < |list| && list[h].flags.refs > 0
      requires forall k | k in table :: table[k] < |list|
      modifies this
      ensures (Contents(), erased) == Released(old(Contents()), h, forceErase)
    {
      erased := Unref(h, true);
      if forceErase && !erased {
        erased := EraseAndConfirm(list[h].key);
      }
    }

    method TryEvict(h: nat) returns (evicted: bool)
      requires h < |list|
      modifies this
      ensures (Contents(), evicted) == Tried(old(Contents()), h)
    {
      var f := list[h].flags;
      evicted := f == Flags(true, false, 0);
      if evicted {
        SetFlags(h, Flags(false, false, 0));
        table := table - {list[h].key};
        RecycleHandle(h);
      } else {
        SetFlags(h, f.(usage := false));
      }
    }

    method EvictFromCache(charge: nat) returns (ok: bool)
      requires usage != 0 ==> head < |list|
      modifies this
      ensures (Contents(), ok) == Evicted(old(Contents()), charge)
    {
      hide Tried;
      var used, limit := usage, capacity;
      if used == 0 {
        return charge <= limit;
      }
      ghost var result := Evicted(Contents(), charge);
      var newHead: nat := head;
      var second := false;
      while (used + charge) % SIZE > limit
        invariant head < |list| && newHead < |list| && head == old(head)
        invariant used == usage && limit == capacity
        invariant result == Swept(Contents(), charge, newHead, second)
        decreases Left(|list|, head, newHead, second)
      {
        TriedKeeps(Contents(), newHead);
        var evicted := TryEvict(newHead);
        if evicted {
          used := usage;
        }
        newHead := if newHead + 1 >= |list| then 0 else newHead + 1;
        if newHead == head {
          if second {
            return false;
          } else {
            second := true;
          }
        }
      }
      head := newHead;
      ok := true;
    }

    method SetCapacity(capacity': nat)
      requires usage != 0 ==> head < |list|
      modifies this
      ensures Contents() == Resized(old(Contents()), capacity')
    {
      capacity := capacity';
      var _ := EvictFromCache(0);
    }

    method SetStrictCapacityLimit(strict: bool)
      modifies this
      ensures Contents() == old(Contents()).(strict := strict)
    {
      strictCapacityLimit := strict;
    }

    method Insert(key: string, value: nat, charge: nat, hold: bool) returns (r: Option<nat>)
      requires Sane(Contents()) && Sane(Evicted(Contents(), charge).0)
      modifies this
      ensures (Contents(), r) == Inserted(old(Contents()), key, value, charge, hold)
    {
      hide Evicted, Stored;
      var success := EvictFromCache(charge);
      EvictedKeepsLimit(old(Contents()), charge);
      assert deleted + [] == deleted;
      if !success && (strictCapacityLimit || !hold) {
        if !hold {
          deleted := deleted + [value];
        }
        return None;
      }
      var h := Store(key, value, charge, hold);
      r := Some(h);
    }

    method Store(key: string, value: nat, charge: nat, hold: bool) returns (h: nat)
      requires Sane(Contents())
      modifies this
      ensures (Contents(), h) == Stored(old(Contents()), key, value, charge, hold)
    {
      hide Unset;
      ghost var before := list;
      if recycle != [] {
        h := recycle[|recycle| - 1];
        recycle := recycle[..|recycle| - 1];
      } else {
        h := |list|;
        list := list + [Handle(Flags(false, false, 0), "", None, 0)];
      }
      list := list[h := NewHandle(key, value, charge, hold)];
      assert h == |before| ==> list == before + [NewHandle(key, value, charge, hold)];
      var _ := EraseAndConfirm(key);
      table := table[key := h];
      if hold {
        pinnedUsage := (pinnedUsage + charge) % SIZE;
      }
      usage := (usage + charge) % SIZE;
    }

    method Erase(key: string)
      requires key in table ==> table[key] < |list|
      modifies this
      ensures Contents() == Erased(old(Contents()), key).0
    {
      var _ := EraseAndConfirm(key);
    }

    method EraseUnRefEntries()
      modifies this
      ensures Contents() == Cleared(old(Contents()))
    {
      hide Unset;
      ghost var result := Cleared(Contents());
      table := map[];
      var i := 0;
      while i < |list|
        invariant result == ClearedFrom(Contents(), i)
        decreases |list| - i
      {
        UnsetKeepsLength(Contents(), i);
        var _ := UnsetInCache(i);
        i := i + 1;
      }
    }
  }

  lemma TriedKeeps(s: Shard, h: nat)
    requires h < |s.handles|
    ensures var r := Tried(s, h);
            && |r.0.handles| == |s.handles| && r.0.head == s.head && r.0.capacity == s.capacity
            && (!r.1 ==> r.0.usage == s.usage)
  {
  }

  lemma UnsetKeepsLength(s: Shard, h: nat)
    requires h < |s.handles|
    ensures |Unset(s, h).0.handles| == |s.handles|
  {
  }

  lemma {:induction false} SweptKeepsLimit(s: Shard, charge: nat, newHead: nat, second: bool)
    requires s.head < |s.handles| && newHead < |s.handles|
    ensures var r := Swept(s, charge, newHead, second).0;
            r.strict == s.strict && r.capacity == s.capacity && |r.handles| == |s.handles|
    decreases Left(|s.handles|, s.head, newHead, second)
  {
    if !Fits(s, charge) {
      var s' := Tried(s, newHead).0;
      var next := NextHead(s', newHead);
      if !(next == s.head && second) {
        SweptKeepsLimit(s', charge, next, second || next == s.head);
      }
    }
  }

  lemma EvictedKeepsLimit(s: Shard, charge: nat)
    requires s.usage != 0 ==> s.head < |s.handles|
    ensures Evicted(s, charge).0.strict == s.strict
  {
    if s.usage != 0 {
      SweptKeepsLimit(s, charge, s.head, false);
    }
  }
}
