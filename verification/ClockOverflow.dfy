/** The capacity test of EvictFromCache adds in size_t without a check (clock_cache.cc:506). A cache with a
    strict limit therefore keeps to it exactly when no charge can overflow the sum with the capacity. */
module ClockOverflow {
  import opened Strings
  import opened ClockHandle
  import opened ClockState
  import opened ClockRuns

  // ----- a cache that only one thread fills -----

  /** Different keys for different entries. */
  function Key(i: nat): string {
    Repeat('k', i)
  }

  function Entry(i: nat, charge: nat): Handle {
    Handle(Flags(true, false, 0), Key(i), Some(i), charge)
  }

  function Entries(charges: seq<nat>): (r: seq<Handle>)
    ensures |r| == |charges|
  {
    if charges == [] then [] else Entries(charges[..|charges| - 1]) + [Entry(|charges| - 1, charges[|charges| - 1])]
  }

  function Places(n: nat): map<string, nat> {
    if n == 0 then map[] else Places(n - 1)[Key(n - 1) := n - 1]
  }

  function Homes(n: nat): map<nat, nat> {
    if n == 0 then map[] else Homes(n - 1)[n - 1 := n - 1]
  }

  function Sum(charges: seq<nat>): nat {
    if charges == [] then 0 else Sum(charges[..|charges| - 1]) + charges[|charges| - 1]
  }

  function Usage(charges: seq<nat>): nat {
    Sum(charges) % SIZE
  }

  /** The first `n` handles are listed, and the mutex is `mutex`. */
  function During(c: nat, charges: seq<nat>, listed: nat, usage: nat, pc: Pc, mutex: Option<nat>, values: nat): State {
    State(Entries(charges), [], Places(listed), 0, usage, c, true, mutex, [pc], [], map[], 0, map[], Homes(|charges|),
        values)
  }

  /** All entries are stored and the thread is idle. */
  function Full(c: nat, charges: seq<nat>): State {
    During(c, charges, |charges|, Usage(charges), Idle, None, |charges|)
  }

  lemma {:induction false} PlacesAre(n: nat, k: string)
    ensures k in Places(n) <==> exists i: nat | i < n :: k == Key(i)
  {
    if n > 0 {
      PlacesAre(n - 1, k);
    }
  }

  lemma KeyIsNew(n: nat)
    ensures Key(n) !in Places(n)
  {
    PlacesAre(n, Key(n));
    forall i: nat | i < n ensures Key(n) != Key(i) {
      assert |Key(n)| == n && |Key(i)| == i;
    }
  }

  lemma EntriesAppend(charges: seq<nat>, d: nat)
    ensures Entries(charges + [d]) == Entries(charges) + [Entry(|charges|, d)]
    ensures Sum(charges + [d]) == Sum(charges) + d
  {
    assert (charges + [d])[..|charges|] == charges;
  }

  lemma UsageAppend(charges: seq<nat>, d: nat)
    ensures Usage(charges + [d]) == (Usage(charges) + d) % SIZE
  {
    hide Sum;
    EntriesAppend(charges, d);
    ModuloSubtract(Sum(charges), d);
  }

  // ----- one more entry -----

  function Op(n: nat, d: nat): ClockState.Op {
    Insert(Key(n), n, d, false)
  }

  /** EvictFromCache has let the entry in. */
  function Let(c: nat, charges: seq<nat>, d: nat): State {
    During(c, charges, |charges|, Usage(charges), Evicted(Op(|charges|, d), true), Some(0), |charges| + 1)
  }

  function InsertOf(n: nat, d: nat): Event {
    InsertEvent(0, Key(n), d, false)
  }

  lemma LetsIn(c: nat, charges: seq<nat>, d: nat) returns (events: seq<Event>)
    requires c < SIZE && d < SIZE && (Usage(charges) + d) % SIZE <= c
    ensures events == [InsertOf(|charges|, d)] || events == [InsertOf(|charges|, d), Continue(0)]
    ensures Run(Full(c, charges), events) == Let(c, charges, d)
  {
    hide Step, Usage, Full, Let, Sweeps;
    var s, e := Full(c, charges), InsertOf(|charges|, d);
    if Usage(charges) == 0 {
      assert Step(s, e) == Let(c, charges, d) by { StartsEmpty(c, charges, d); }
      events := [e];
      RunStep(s, e, []);
    } else {
      var sweeping := Sweeps(c, charges, d);
      StartsSweep(c, charges, d);
      EndsSweep(c, charges, d);
      events := [e, Continue(0)];
      RunStep(sweeping, Continue(0), []);
      RunStep(s, e, [Continue(0)]);
    }
  }

  lemma StartsEmpty(c: nat, charges: seq<nat>, d: nat)
    requires d < SIZE && d % SIZE <= c && Usage(charges) == 0
    ensures Step(Full(c, charges), InsertOf(|charges|, d)) == Let(c, charges, d)
  {
    hide Entries, Places, Homes, Usage, Key;
  }

  function Sweeps(c: nat, charges: seq<nat>, d: nat): State {
    var n := |charges|;
    During(c, charges, n, Usage(charges), Sweeping(Sweep(Op(n, d), 0, false, Usage(charges), c)), Some(0), n + 1)
  }

  lemma StartsSweep(c: nat, charges: seq<nat>, d: nat)
    requires d < SIZE && Usage(charges) != 0
    ensures Step(Full(c, charges), InsertOf(|charges|, d)) == Sweeps(c, charges, d)
  {
    hide Entries, Places, Homes, Usage, Key;
  }

  lemma EndsSweep(c: nat, charges: seq<nat>, d: nat)
    requires (Usage(charges) + d) % SIZE <= c
    ensures Step(Sweeps(c, charges, d), Continue(0)) == Let(c, charges, d)
  {
    hide Entries, Places, Homes, Usage, Key;
  }

  /** The handle is filled, and is not yet in the table. */
  function Linked(c: nat, charges: seq<nat>, d: nat): State {
    During(c, charges + [d], |charges|, Usage(charges), Linking(Op(|charges|, d), |charges|, None), Some(0),
        |charges| + 1)
  }

  function Listed(c: nat, charges: seq<nat>, d: nat): State {
    var n := |charges|;
    During(c, charges + [d], n + 1, Usage(charges), Charging(Op(n, d), n, None), Some(0), n + 1)
  }

  lemma Fills(c: nat, charges: seq<nat>, d: nat)
    ensures Step(Let(c, charges, d), Continue(0)) == Linked(c, charges, d)
  {
    hide Entries, Places, Usage, Key, Entry;
    EntriesAppend(charges, d);
    NewEntry(|charges|, d);
    var hs := Entries(charges);
    var x := Handle(Flags(false, false, 0), "", None, 0);
    assert (hs + [x])[|charges| := Entry(|charges|, d)] == hs + [Entry(|charges|, d)];
  }

  lemma NewEntry(n: nat, d: nat)
    ensures Entry(n, d) == Handle(Flags(true, false, 0), Key(n), Some(n), d)
  {
  }

  function Sought(c: nat, charges: seq<nat>, d: nat): State {
    var n := |charges|;
    During(c, charges + [d], n, Usage(charges), TableInserting(Op(n, d), n, None), Some(0), n + 1)
  }

  lemma Seeks(c: nat, charges: seq<nat>, d: nat)
    ensures Step(Linked(c, charges, d), Continue(0)) == Sought(c, charges, d)
  {
    hide Entries, Places, Homes, Usage, Key;
    KeyIsNew(|charges|);
  }

  lemma Lists(c: nat, charges: seq<nat>, d: nat)
    ensures Step(Sought(c, charges, d), Continue(0)) == Listed(c, charges, d)
  {
    hide Entries, Homes, Usage, Key;
    KeyIsNew(|charges|);
  }

  lemma Counts(c: nat, charges: seq<nat>, d: nat)
    ensures Step(Listed(c, charges, d), Continue(0)) == Full(c, charges + [d])
  {
    hide Entries, Places, Homes, Usage, Key;
    UsageAppend(charges, d);
  }

  function FourSteps(): seq<Event> {
    [Continue(0), Continue(0), Continue(0), Continue(0)]
  }

  lemma Stores(c: nat, charges: seq<nat>, d: nat)
    ensures Run(Let(c, charges, d), FourSteps()) == Full(c, charges + [d])
  {
    hide Step, Let, Linked, Sought, Listed, Full;
    var go := Continue(0);
    Fills(c, charges, d);
    Seeks(c, charges, d);
    Lists(c, charges, d);
    Counts(c, charges, d);
    RunStep(Listed(c, charges, d), go, []);
    RunStep(Sought(c, charges, d), go, [go]);
    RunStep(Linked(c, charges, d), go, [go, go]);
    RunStep(Let(c, charges, d), go, [go, go, go]);
  }

  lemma RunStep(s: State, e: Event, events: seq<Event>)
    ensures Run(s, [e] + events) == Run(Step(s, e), events)
    ensures Run(s, []) == s
  {
    hide Step;
    assert ([e] + events)[1..] == events;
  }

  lemma {:induction false} RunAppend(s: State, a: seq<Event>, b: seq<Event>)
    ensures Run(s, a + b) == Run(Run(s, a), b)
    decreases |a|
  {
    hide Step;
    if a == [] {
      assert a + b == b;
    } else {
      RunAppend(Step(s, a[0]), a[1..], b);
      assert (a + b)[1..] == a[1..] + b;
    }
  }

  // ----- filling the cache -----

  /** Neither the limit nor its strictness is changed, and no entry is charged more than `x`. */
  predicate Charged(e: Event, x: nat) {
    match e
    case InsertEvent(_, _, charge, _) => charge <= x
    case ResizeEvent(_, _) => false
    case StrictEvent(strict) => strict
    case _ => true
  }

  predicate AllCharged(events: seq<Event>, x: nat) {
    forall i | 0 <= i < |events| :: Charged(events[i], x)
  }

  lemma AddsOne(c: nat, charges: seq<nat>, d: nat) returns (events: seq<Event>)
    requires c < SIZE && d < SIZE && (Usage(charges) + d) % SIZE <= c
    ensures Run(Full(c, charges), events) == Full(c, charges + [d]) && AllCharged(events, d)
  {
    hide Run, Full, Let, Usage;
    var first := LetsIn(c, charges, d);
    events := first + FourSteps();
    RunAppend(Full(c, charges), first, FourSteps());
    Stores(c, charges, d);
  }

  /** Any usage up to the capacity can be reached with charges of at most `x`. */
  lemma {:induction false} FillsUpTo(c: nat, x: nat, u: nat) returns (charges: seq<nat>, events: seq<Event>)
    requires 0 < x && u <= c < SIZE
    ensures Sum(charges) == u && AllCharged(events, x)
    ensures Run(Init(1, c, true), events) == Full(c, charges)
    decreases u
  {
    hide Run, Full, Init, Sum, Usage, AllCharged;
    if u == 0 {
      charges, events := [], [];
      StartsFull(c);
    } else {
      var d := if x < u then x else u;
      var before, more := FillsUpTo(c, x, u - d);
      SumIsUsage(before);
      var last := AddsOne(c, before, d);
      charges, events := before + [d], more + last;
      EntriesAppend(before, d);
      RunAppend(Init(1, c, true), more, last);
      ChargedAppend(more, last, d, x);
    }
  }

  lemma SumIsUsage(charges: seq<nat>)
    requires Sum(charges) < SIZE
    ensures Usage(charges) == Sum(charges)
  {
  }

  lemma ChargedAppend(a: seq<Event>, b: seq<Event>, d: nat, x: nat)
    requires AllCharged(a, x) && AllCharged(b, d) && d <= x
    ensures AllCharged(a + b, x)
  {
  }

  lemma StartsFull(c: nat)
    ensures Sum([]) == 0 && forall x :: AllCharged([], x)
    ensures Run(Init(1, c, true), []) == Full(c, [])
  {
    assert Init(1, c, true).threads == [Idle];
    assert Entries([]) == [];
  }

  lemma {:induction false} EntryAt(charges: seq<nat>, i: nat)
    requires i < |charges|
    ensures Entries(charges)[i] == Entry(i, charges[i])
  {
    if i < |charges| - 1 {
      EntryAt(charges[..|charges| - 1], i);
    }
  }

  lemma {:induction false} TotalIsSum(charges: seq<nat>, n: nat)
    requires n <= |charges|
    ensures Total(Entries(charges), [], n) == Sum(charges[..n])
  {
    if n > 0 {
      TotalIsSum(charges, n - 1);
      EntryAt(charges, n - 1);
      assert charges[..n][..n - 1] == charges[..n - 1];
    }
  }

  lemma TotalOfFull(c: nat, charges: seq<nat>)
    ensures var s := Full(c, charges);
            TotalCharge(s.handles, s.recycle) == Sum(charges) && s.usage == Usage(charges) && s.mutex == None
  {
    TotalIsSum(charges, |charges|);
    assert charges[..|charges|] == charges;
  }

  // ----- the exact condition -----

  /** The entries outside the recycle bin, and the usage that is reported, keep to the limit. */
  ghost predicate KeepsLimit(s: State, c: nat) {
    TotalCharge(s.handles, s.recycle) <= c && s.usage <= c
  }

  /** If a charge overflows when it is added to the capacity, entries with at most this charge fill the
      strict cache beyond its capacity, while the usage that is reported keeps to it. */
  lemma StrictLimitOverflows(c: nat, x: nat) returns (events: seq<Event>)
    requires c < SIZE && x < SIZE && c + x >= SIZE
    ensures AllCharged(events, x)
    ensures var s := Run(Init(1, c, true), events);
            TotalCharge(s.handles, s.recycle) == c + x && s.usage == c + x - SIZE && s.mutex == None
  {
    hide Run, Init, Sum, Usage, AllCharged, Full;
    var charges, more := FillsUpTo(c, x, c);
    SumIsUsage(charges);
    var last := AddsOne(c, charges, x);
    events := more + last;
    RunAppend(Init(1, c, true), more, last);
    ChargedAppend(more, last, x, x);
    EntriesAppend(charges, x);
    UsageAppend(charges, x);
    TotalOfFull(c, charges + [x]);
  }

  /** In every interleaving with charges of at most `x` the strict limit is kept, exactly when capacity and
      charge do not overflow. */
  lemma StrictLimitIff(c: nat, x: nat)
    requires c < SIZE && x < SIZE
    ensures (forall threads: nat, events | AllCharged(events, x) :: KeepsLimit(Run(Init(threads, c, true), events), c))
            <==> c + x < SIZE
  {
    hide Run, Init, AllCharged;
    if c + x < SIZE {
      forall threads: nat, events | AllCharged(events, x) ensures KeepsLimit(Run(Init(threads, c, true), events), c) {
        ChargedIsModest(events, c, x);
        StrictLimit(threads, c, events);
      }
    } else {
      var events := StrictLimitOverflows(c, x);
      assert !KeepsLimit(Run(Init(1, c, true), events), c);
    }
  }

  lemma ChargedIsModest(events: seq<Event>, c: nat, x: nat)
    requires AllCharged(events, x) && c + x < SIZE
    ensures forall i | 0 <= i < |events| :: Modest(events[i], c)
  {
  }
}
