/** The shared list of peers (___sunum/p2p-network/src/peer_list.cpp). An entry is a weak pointer: the
    id of a live peer, or `None` once the peer is gone or the entry has been moved from. */
module PeerList {
  import opened Strings

  type Entry = Option<nat>

  /** The peers that broadcast sends to: all live ones, or all but the one it is called with. */
  function Recipients(list: seq<Entry>, except: Option<nat>): seq<nat> {
    if list == [] then [] else Recipient(list[0], except) + Recipients(list[1..], except)
  }

  function Recipient(e: Entry, except: Option<nat>): seq<nat> {
    if e.Some? && e != except then [e.value] else []
  }

  /** The predicate of remove_peer. */
  predicate Drops(e: Entry, id: nat) {
    e == None || e == Some(id)
  }

  function Kept(list: seq<Entry>, id: nat): seq<Entry> {
    if list == [] then [] else KeptOne(list[0], id) + Kept(list[1..], id)
  }

  function KeptOne(e: Entry, id: nat): seq<Entry> {
    if Drops(e, id) then [] else [e]
  }

  lemma {:induction false} KeptAppend(a: seq<Entry>, b: seq<Entry>, id: nat)
    ensures Kept(a + b, id) == Kept(a, id) + Kept(b, id)
  {
    hide KeptOne;
    if a == [] {
      assert a + b == b && [] + Kept(b, id) == Kept(b, id);
    } else {
      KeptAppend(a[1..], b, id);
      assert (a + b)[0] == a[0];
      assert (a + b)[1..] == a[1..] + b;
      AppendAssociative(KeptOne(a[0], id), Kept(a[1..], id), Kept(b, id));
    }
  }

  lemma {:induction false} RecipientsAppend(a: seq<Entry>, b: seq<Entry>, except: Option<nat>)
    ensures Recipients(a + b, except) == Recipients(a, except) + Recipients(b, except)
  {
    hide Recipient;
    if a == [] {
      assert a + b == b && [] + Recipients(b, except) == Recipients(b, except);
    } else {
      RecipientsAppend(a[1..], b, except);
      assert (a + b)[0] == a[0];
      assert (a + b)[1..] == a[1..] + b;
      AppendAssociative(Recipient(a[0], except), Recipients(a[1..], except), Recipients(b, except));
    }
  }

  /** What std::remove_if leaves: the kept entries in front; behind them an entry that was dropped
      stays, and one that was moved forward is empty. Nothing is erased. */
  function AfterRemove(list: seq<Entry>, id: nat): (r: seq<Entry>)
    requires |Kept(list, id)| <= |list|
    ensures |r| == |list|
  {
    var n := |Kept(list, id)|;
    Kept(list, id) + seq(|list| - n, i requires 0 <= i < |list| - n => Left(list[n + i], id))
  }

  function Left(e: Entry, id: nat): Entry {
    if Drops(e, id) then e else None
  }

  lemma {:induction false} KeptLength(list: seq<Entry>, id: nat)
    ensures |Kept(list, id)| <= |list|
    ensures |Kept(list, id)| == |list| ==> Kept(list, id) == list
  {
    if list != [] {
      KeptLength(list[1..], id);
      assert list == [list[0]] + list[1..];
    }
  }

  class PeerList {
    var list: seq<Entry>

    constructor ()
      ensures list == []
    {
      list := [];
    }

    method AddPeer(id: nat)
      modifies this
      ensures list == old(list) + [Some(id)]
    {
      list := list + [Some(id)];
    }

    /** The loop of std::remove_if: kept entries are moved to the front, in place. */
    method RemovePeer(id: nat)
      modifies this
      ensures |Kept(old(list), id)| <= |old(list)| && list == AfterRemove(old(list), id)
    {
      hide *;
      KeptLength(list, id);
      ghost var before := list;
      var first := 0;
      CompactStart(list, id);
      for i := 0 to |list|
        invariant Compacted(before, list, i, first, id)
      {
        CompactStep(before, list, i, first, id);
        var e := list[i];
        if !Drops(e, id) {
          if first != i {
            list := list[first := e][i := None];
          }
          first := first + 1;
        }
      }
      CompactEnd(before, list, first, id);
    }

    /** broadcast with the peer that the message came from, or with a null pointer at the origin. */
    method Broadcast(except: Option<nat>) returns (sent: seq<nat>)
      ensures sent == Recipients(list, except)
    {
      sent := [];
      for i := 0 to |list|
        invariant sent == Recipients(list[..i], except)
      {
        assert list[..i + 1] == list[..i] + [list[i]];
        RecipientsAppend(list[..i], [list[i]], except);
        if list[i].Some? && list[i] != except {
          sent := sent + [list[i].value];
        }
      }
      assert list[..|list|] == list;
    }
  }

  /** `first` entries have been kept among the first `i`. */
  ghost predicate Compacted(before: seq<Entry>, now: seq<Entry>, i: nat, first: nat, id: nat) {
    && first <= i <= |before| == |now|
    && first == |Kept(before[..i], id)|
    && now[..first] == Kept(before[..i], id)
    && (forall k | first <= k < i :: now[k] == Left(before[k], id))
    && now[i..] == before[i..]
  }

  lemma CompactStart(before: seq<Entry>, id: nat)
    ensures Compacted(before, before, 0, 0, id)
  {
    assert before[..0] == [];
  }

  lemma CompactStep(before: seq<Entry>, now: seq<Entry>, i: nat, first: nat, id: nat)
    requires Compacted(before, now, i, first, id) && i < |before|
    ensures |now| == |before| && first <= i && now[i] == before[i]
    ensures if Drops(now[i], id) then Compacted(before, now, i + 1, first, id)
            else if first != i then Compacted(before, now[first := now[i]][i := None], i + 1, first + 1, id)
            else Compacted(before, now, i + 1, first + 1, id)
  {
    hide Kept, Drops;
    assert now[i] == now[i..][0] == before[i];
    assert before[..i + 1] == before[..i] + [before[i]];
    KeptAppend(before[..i], [before[i]], id);
    KeptSingle(before[i], id);
    assert now[i + 1..] == now[i..][1..] == before[i..][1..] == before[i + 1..];
    if !Drops(now[i], id) {
      assert now[first := now[i]][i := None][i + 1..] == now[i + 1..];
      assert now[first := now[i]][..first + 1] == now[..first] + [now[i]];
      assert first != i ==> now[first := now[i]][i := None][..first + 1] == now[..first] + [now[i]];
    }
  }

  lemma KeptSingle(e: Entry, id: nat)
    ensures Kept([e], id) == if Drops(e, id) then [] else [e]
  {
    assert [e][1..] == [];
  }

  lemma CompactEnd(before: seq<Entry>, now: seq<Entry>, first: nat, id: nat)
    requires Compacted(before, now, |before|, first, id)
    ensures |Kept(before, id)| <= |before| && now == AfterRemove(before, id)
  {
    KeptLength(before, id);
    assert before[..|before|] == before;
  }

  /** Removing a peer leaves the others where broadcast finds them, in the same order. */
  lemma OthersStay(list: seq<Entry>, id: nat)
    ensures |Kept(list, id)| <= |list|
    ensures Recipients(AfterRemove(list, id), Some(id)) == Recipients(list, Some(id))
  {
    hide Recipients, Kept;
    KeptLength(list, id);
    var n := |Kept(list, id)|;
    var tail := seq(|list| - n, i requires 0 <= i < |list| - n => Left(list[n + i], id));
    RecipientsAppend(Kept(list, id), tail, Some(id));
    RecipientsOfKept(list, id);
    forall i | 0 <= i < |tail| ensures Drops(tail[i], id) {
      assert tail[i] == Left(list[n + i], id);
    }
    NoRecipients(tail, id);
    assert Recipients(list, Some(id)) + [] == Recipients(list, Some(id));
  }

  lemma {:induction false} RecipientsOfKept(list: seq<Entry>, id: nat)
    ensures Recipients(Kept(list, id), Some(id)) == Recipients(list, Some(id))
  {
    hide Recipient, KeptOne;
    if list != [] {
      RecipientsOfKept(list[1..], id);
      RecipientsAppend(KeptOne(list[0], id), Kept(list[1..], id), Some(id));
      RecipientOfKept(list[0], id);
    }
  }

  lemma RecipientOfKept(e: Entry, id: nat)
    ensures Recipients(KeptOne(e, id), Some(id)) == Recipient(e, Some(id))
  {
    assert [e][1..] == [];
  }

  lemma {:induction false} NoRecipients(list: seq<Entry>, id: nat)
    requires forall i | 0 <= i < |list| :: Drops(list[i], id)
    ensures Recipients(list, Some(id)) == []
  {
    if list != [] {
      NoRecipients(list[1..], id);
    }
  }

  lemma AfterAt(list: seq<Entry>, id: nat, i: nat)
    requires |Kept(list, id)| <= |list| && i < |list|
    ensures AfterRemove(list, id)[i] == if i < |Kept(list, id)| then Kept(list, id)[i] else Left(list[i], id)
  {
    hide Left;
  }

  /** The removed peer itself is still in the list exactly when it stood behind as many entries as are
      kept; only its having expired keeps broadcast from sending to it. */
  lemma RemovedStays(list: seq<Entry>, id: nat)
    ensures |Kept(list, id)| <= |list|
    ensures Some(id) in AfterRemove(list, id) <==> Some(id) in list[|Kept(list, id)|..]
  {
    hide AfterRemove, Kept;
    KeptLength(list, id);
    var n := |Kept(list, id)|;
    KeptHasNone(list, id);
    var r, tail := AfterRemove(list, id), list[n..];
    forall i | 0 <= i < |r| ensures r[i] == Some(id) <==> i >= n && tail[i - n] == Some(id) {
      AfterAt(list, id, i);
      assert i < n ==> Kept(list, id)[i] in Kept(list, id);
    }
    if Some(id) in tail {
      var i :| 0 <= i < |tail| && tail[i] == Some(id);
      assert r[n + i] == Some(id);
    }
  }

  lemma {:induction false} KeptHasNone(list: seq<Entry>, id: nat)
    ensures Some(id) !in Kept(list, id)
  {
    if list != [] {
      KeptHasNone(list[1..], id);
    }
  }
}
