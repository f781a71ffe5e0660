/** The hand of the CLOCK cache when calls do not overlap: which entries it comes past, what becomes of
    them, and where it stops (external/rocksdb/cache/clock_cache.cc:446-522). */
module ClockHand {
  import opened Strings
  import opened ClockHandle
  import opened ClockShard
  import opened ClockHistory
  import opened ClockLimits

  /** How far the handle lies ahead of the hand. */
  function Ahead(n: nat, hand: nat, h: nat): nat
    requires hand < n && h < n
  {
    if hand <= h then h - hand else n - hand + h
  }

  /** How often the hand comes to a handle `ahead` of it in `tries` moves, which are at most two turns. */
  function Visits(n: nat, ahead: nat, tries: nat): nat {
    if tries <= ahead then 0 else if tries <= n + ahead then 1 else 2
  }

  /** The flags of an entry after some visits: one with a usage bit goes at the second visit, one without
      at the first, and one that is referenced stays; all but the evicted have lost their usage bit. */
  function Visited(f: Flags, visits: nat): Flags {
    if visits == 0 then f
    else if f.inCache && f.refs == 0 && (!f.usage || visits > 1) then Flags(false, false, 0)
    else f.(usage := false)
  }

  /** What a sweep that starts at `newHead` makes of the handle `h`, and where it leaves the hand. */
  predicate Comes(s: Shard, newHead: nat, second: bool, tries: nat, h: nat, r: Shard, ok: bool)
    requires s.head < |s.handles| && newHead < |s.handles| && h < |s.handles|
  {
    var n := |s.handles|;
    var visits := Visits(n, Ahead(n, newHead, h), tries);
    && |r.handles| == n && r.handles[h].flags == Visited(s.handles[h].flags, visits)
    && (visits == 0 ==> r.handles[h] == s.handles[h])
    && (if ok then r.head < n && Reached(n, newHead, r.head, tries) && tries < Left(n, s.head, newHead, second)
        else r.head == s.head && tries == Left(n, s.head, newHead, second))
  }

  predicate Reached(n: nat, newHead: nat, hand: nat, tries: nat)
    requires newHead < n && hand < n
  {
    tries == Ahead(n, newHead, hand) + if tries < n then 0 else n
  }

  /** The hand goes from handle to handle. */
  lemma {:induction false} SweepOrder(s: Shard, charge: nat, newHead: nat, second: bool, h: nat)
    requires s.head < |s.handles| && newHead < |s.handles| && h < |s.handles|
    ensures var (r, ok) := Swept(s, charge, newHead, second);
            Comes(s, newHead, second, Tries(s, charge, newHead, second), h, r, ok)
    decreases Left(|s.handles|, s.head, newHead, second)
  {
    hide Tried, Fits, Comes;
    if Fits(s, charge) {
      ComesNowhere(s, newHead, second, h);
    } else {
      TriedKeeps(s, newHead);
      var s' := Tried(s, newHead).0;
      var next := NextHead(s', newHead);
      if next == s.head && second {
        ComesOnce(s, newHead, h);
      } else {
        var second' := second || next == s.head;
        SweepOrder(s', charge, next, second', h);
        var (r, ok) := Swept(s', charge, next, second');
        ComesNext(s, newHead, second, Tries(s', charge, next, second'), h, r, ok);
      }
    }
  }

  lemma ComesNowhere(s: Shard, newHead: nat, second: bool, h: nat)
    requires s.head < |s.handles| && newHead < |s.handles| && h < |s.handles|
    ensures Comes(s, newHead, second, 0, h, s.(head := newHead), true)
  {
  }

  lemma ComesOnce(s: Shard, newHead: nat, h: nat)
    requires s.head < |s.handles| && newHead < |s.handles| && h < |s.handles|
    requires NextHead(s, newHead) == s.head
    ensures Comes(s, newHead, true, 1, h, Tried(s, newHead).0, false)
  {
    hide Tried;
    TriedKeeps(s, newHead);
    TriedFlags(s, newHead);
    TriedElsewhere(s, newHead, h);
  }

  lemma ComesNext(s: Shard, newHead: nat, second: bool, tries: nat, h: nat, r: Shard, ok: bool)
    requires s.head < |s.handles| && newHead < |s.handles| && h < |s.handles|
    requires var s' := Tried(s, newHead).0; var next := NextHead(s, newHead);
             && |s'.handles| == |s.handles| && s'.head == s.head && !(next == s.head && second)
             && Comes(s', next, second || next == s.head, tries, h, r, ok)
    ensures Comes(s, newHead, second, tries + 1, h, r, ok)
  {
    hide Tried, Visits, Visited, Ahead, Left, Reached;
    var n, next := |s.handles|, NextHead(s, newHead);
    TriedFlags(s, newHead);
    FirstVisit(s.handles[newHead].flags);
    TriedElsewhere(s, newHead, h);
    LeftNext(n, s.head, newHead, next, second);
    VisitedNext(s.handles[h].flags, n, newHead, next, h, tries);
    if ok {
      ReachedNext(n, newHead, next, r.head, tries);
    }
  }

  lemma FirstVisit(f: Flags)
    ensures Visited(f, 1) == if f == Flags(true, false, 0) then Flags(false, false, 0) else f.(usage := false)
  {
  }

  lemma LeftNext(n: nat, head: nat, newHead: nat, next: nat, second: bool)
    requires head < n && newHead < n && next == (if newHead + 1 >= n then 0 else newHead + 1)
    requires !(next == head && second)
    ensures Left(n, head, newHead, second) == Left(n, head, next, second || next == head) + 1 <= 2 * n
  {
  }

  lemma ReachedNext(n: nat, newHead: nat, next: nat, hand: nat, tries: nat)
    requires newHead < n && hand < n && next == (if newHead + 1 >= n then 0 else newHead + 1)
    requires Reached(n, next, hand, tries) && tries + 1 < 2 * n
    ensures Reached(n, newHead, hand, tries + 1)
  {
  }

  lemma TriedElsewhere(s: Shard, newHead: nat, h: nat)
    requires newHead < |s.handles| && h < |s.handles|
    ensures |Tried(s, newHead).0.handles| == |s.handles|
    ensures h != newHead ==> Tried(s, newHead).0.handles[h] == s.handles[h]
  {
  }

  lemma VisitedNext(f: Flags, n: nat, newHead: nat, next: nat, h: nat, tries: nat)
    requires newHead < n && h < n && next == (if newHead + 1 >= n then 0 else newHead + 1) && tries < 2 * n
    ensures Visited(if h == newHead then Visited(f, 1) else f, Visits(n, Ahead(n, next, h), tries)) ==
            Visited(f, Visits(n, Ahead(n, newHead, h), tries + 1))
    ensures h != newHead ==> Visits(n, Ahead(n, next, h), tries) == Visits(n, Ahead(n, newHead, h), tries + 1)
    ensures h == newHead ==> Visits(n, Ahead(n, newHead, h), tries + 1) > 0
  {
  }

  /** EvictFromCache on a cache that is not empty: the hand stops behind the last entry it has tried, or
      stays where it was if two turns have not been enough. */
  lemma EvictionOrder(s: Shard, charge: nat, h: nat)
    requires Ok(s) && s.usage != 0 && h < |s.handles|
    ensures s.head < |s.handles|
    ensures var (r, ok) := Evicted(s, charge); var n := |s.handles|; var tries := Tries(s, charge, s.head, false);
            var visits := Visits(n, Ahead(n, s.head, h), tries);
            && |r.handles| == n && r.handles[h].flags == Visited(s.handles[h].flags, visits)
            && (visits == 0 ==> r.handles[h] == s.handles[h])
            && (ok ==> tries < 2 * n && r.head < n && tries % n == Ahead(n, s.head, r.head))
            && (!ok ==> tries == 2 * n && r.head == s.head)
  {
    hide Life, Listed, TotalPinned, Swept, Tries;
    EmptyTotal(s);
    SweepOrder(s, charge, s.head, false, h);
    TwoSweeps(s, charge, s.head, false);
    var n, tries := |s.handles|, Tries(s, charge, s.head, false);
    if Evicted(s, charge).1 {
      OneTurn(n, tries, Ahead(n, s.head, Evicted(s, charge).0.head));
    }
  }

  lemma OneTurn(n: nat, tries: nat, ahead: nat)
    requires ahead < n && tries == ahead + if tries < n then 0 else n
    ensures tries < 2 * n && tries % n == ahead
  {
  }

  // ----- the usage bit -----

  /** The last Release of a cached entry sets its usage bit, so that the hand has to come past it twice
      before it is evicted. */
  lemma ReleasedIsSpared(s: Shard, h: nat, charge: nat)
    requires Ok(s) && h < |s.handles| && s.handles[h].flags.refs > 0 && s.handles[h].flags.inCache
    ensures forall k | k in s.table :: s.table[k] < |s.handles|
    ensures var s' := Released(s, h, false).0;
            && Ok(s') && |s'.handles| == |s.handles| && s'.handles[h].flags.inCache && s'.handles[h].flags.usage
            && (s'.usage != 0 ==> s'.head < |s.handles|)
            && (s'.usage == 0 || Tries(s', charge, s'.head, false) <= |s.handles| + Ahead(|s.handles|, s'.head, h)
                ==> h < |Evicted(s', charge).0.handles| && Evicted(s', charge).0.handles[h].flags.inCache)
  {
    hide Life, Listed, Counted, Evicted, Tries, Shrinks;
    SaneTable(s);
    UnreffedOk(s, h, true);
    var s' := Released(s, h, false).0;
    assert s'.handles[h].flags == Flags(true, true, s.handles[h].flags.refs - 1);
    if s'.usage != 0 {
      EvictionOrder(s', charge, h);
    } else {
      NothingEvicted(s', charge);
    }
  }

  lemma NothingEvicted(s: Shard, charge: nat)
    requires s.usage == 0
    ensures Evicted(s, charge).0 == s
  {
  }

  /** An entry that nobody has looked up goes as soon as the hand comes to it. */
  lemma UnusedGoesFirst(s: Shard, key: string, value: nat, charge: nat, room: nat)
    requires Ok(s)
    ensures Sane(s)
    ensures var (s', h) := Stored(s, key, value, charge, false);
            && Ok(s') && h < |s'.handles| && s'.handles[h].flags.inCache
            && (s'.usage != 0 ==> s'.head < |s'.handles|)
            && (s'.usage != 0 && Tries(s', room, s'.head, false) > Ahead(|s'.handles|, s'.head, h)
                ==> h < |Evicted(s', room).0.handles| && !Evicted(s', room).0.handles[h].flags.inCache)
  {
    hide Life, Listed, Counted, Evicted, Tries, Shrinks, Stored, StoredOver;
    OkIsSane(s);
    StoredOk(s, key, value, charge, false);
    StoredFlags(s, key, value, charge, false);
    var (s', h) := Stored(s, key, value, charge, false);
    if s'.usage != 0 {
      EvictionOrder(s', room, h);
    }
  }

  /** The handle of a new entry. */
  lemma StoredFlags(s: Shard, key: string, value: nat, charge: nat, hold: bool)
    requires Ok(s)
    ensures Sane(s)
    ensures var (r, h) := Stored(s, key, value, charge, hold);
            && h < |r.handles|
            && r.handles[h] == Handle(Flags(true, false, if hold then 1 else 0), key, Some(value), charge)
  {
    hide Life, Listed, Counted, Taken, Erased, Shrinks;
    OkIsSane(s);
    var x := NewHandle(key, value, charge, hold);
    TakenOk(s, x);
    var (s1, h) := Taken(s, x);
    ErasedOk(s1, key, {h}, charge, PinnedBy(x));
  }
}
