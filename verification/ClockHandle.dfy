/** The handles of the CLOCK cache (external/rocksdb/cache/clock_cache.cc:175-213), and the sum of the
    charges of those that are in use. */
module ClockHandle {
  import opened Strings

  const SIZE: int := 0x1_0000_0000_0000_0000  // size_t arithmetic is modulo this

  /** The packed word of a handle: in-cache bit, usage bit and reference count (cf. PackedFlags). */
  datatype Flags = Flags(inCache: bool, usage: bool, refs: nat)

  /** A cache handle. A value is a number, fresh for every Insert. */
  datatype Handle = Handle(flags: Flags, key: string, value: Option<nat>, charge: nat)

  function WithFlags(handles: seq<Handle>, h: nat, f: Flags): seq<Handle>
    requires h < |handles|
  {
    handles[h := handles[h].(flags := f)]
  }

  /** The table has this handle under its key. */
  predicate InTable(x: Handle, table: map<string, nat>, h: nat) {
    x.key in table && table[x.key] == h
  }

  /** The charges of the first `n` handles, without those in the recycle bin. */
  function Total(handles: seq<Handle>, recycle: seq<nat>, n: nat): nat
    requires n <= |handles|
  {
    if n == 0 then 0 else Total(handles, recycle, n - 1) + if n - 1 in recycle then 0 else handles[n - 1].charge
  }

  function TotalCharge(handles: seq<Handle>, recycle: seq<nat>): nat {
    Total(handles, recycle, |handles|)
  }

  lemma {:induction false} TotalSame(handles: seq<Handle>, handles': seq<Handle>, recycle: seq<nat>, n: nat)
    requires n <= |handles| && n <= |handles'| && forall h | 0 <= h < n :: handles[h].charge == handles'[h].charge
    ensures Total(handles, recycle, n) == Total(handles', recycle, n)
  {
    if n > 0 {
      TotalSame(handles, handles', recycle, n - 1);
    }
  }

  /** One handle leaves or enters the recycle bin. */
  lemma {:induction false} TotalChanges(handles: seq<Handle>, recycle: seq<nat>, recycle': seq<nat>, h: nat, n: nat)
    requires n <= |handles| && h !in recycle && h in recycle'
    requires forall x | x != h :: x in recycle <==> x in recycle'
    ensures Total(handles, recycle, n) == Total(handles, recycle', n) + if h < n then handles[h].charge else 0
  {
    if n > 0 {
      TotalChanges(handles, recycle, recycle', h, n - 1);
    }
  }

  lemma TotalRecycled(handles: seq<Handle>, recycle: seq<nat>, h: nat)
    requires h < |handles| && h !in recycle
    ensures TotalCharge(handles, recycle) ==
            TotalCharge(handles[h := handles[h].(key := "", value := None)], recycle + [h]) + handles[h].charge
  {
    hide Total;
    TotalChanges(handles, recycle, recycle + [h], h, |handles|);
    TotalSame(handles, handles[h := handles[h].(key := "", value := None)], recycle + [h], |handles|);
  }

  lemma {:induction false} TotalCharged(handles: seq<Handle>, recycle: seq<nat>, h: nat, x: Handle, n: nat)
    requires h < |handles| && n <= |handles| && h in recycle
    ensures Total(handles[h := x], recycle, n) == Total(handles, recycle, n)
  {
    if n > 0 {
      TotalCharged(handles, recycle, h, x, n - 1);
    }
  }

  lemma TotalTaken(handles: seq<Handle>, recycle: seq<nat>, x: Handle)
    requires recycle != [] && (forall i, j | 0 <= i < j < |recycle| :: recycle[i] != recycle[j])
    requires recycle[|recycle| - 1] < |handles|
    ensures var n := |recycle| - 1; var h := recycle[n];
            TotalCharge(handles[h := x], recycle[..n]) == TotalCharge(handles, recycle) + x.charge
  {
    hide Total;
    var n := |recycle| - 1;
    var h := recycle[n];
    assert recycle == recycle[..n] + [h];
    TotalChanges(handles[h := x], recycle[..n], recycle, h, |handles|);
    TotalCharged(handles, recycle, h, x, |handles|);
  }

  lemma TotalAppended(handles: seq<Handle>, recycle: seq<nat>, x: Handle)
    requires |handles| !in recycle
    ensures TotalCharge(handles + [x], recycle) == TotalCharge(handles, recycle) + x.charge
  {
    TotalSame(handles, handles + [x], recycle, |handles|);
  }

  lemma ModuloSubtract(total: int, x: int)
    ensures (total % SIZE - x) % SIZE == (total - x) % SIZE
    ensures (total % SIZE + x) % SIZE == (total + x) % SIZE
  {
    var q := total / SIZE;
    ModuloMultiple(total % SIZE - x, q);
    ModuloMultiple(total % SIZE + x, q);
  }

  lemma ModuloMultiple(r: int, q: int)
    ensures (r + q * SIZE) % SIZE == r % SIZE
  {
    var d := (r + q * SIZE) / SIZE;
    assert (r + q * SIZE) % SIZE == r - (d - q) * SIZE;
    assert r % SIZE == r - (r / SIZE) * SIZE;
  }
}
