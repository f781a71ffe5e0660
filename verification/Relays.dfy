/** How often a message is relayed (p2p-network/src/peer.cpp:55-98): in every run, the copies a node sends
    to a peer are one for each broadcast of its own and one for each copy it has received from somebody
    else, with one hop less to live. */
module Relays {
  import opened Strings
  import opened PeerList
  import opened Flooding
  import opened Pongs

  /** How often a peer is in a list. */
  function Links(list: seq<Entry>, w: nat): nat {
    multiset(list)[Some(w)]
  }

  /** The copies of a message that have come to `v` with one hop more, from anybody but `w`. */
  function Arrivals(log: seq<Packet>, v: nat, w: nat, m: Msg): nat {
    if log == [] then 0
    else Arrivals(log[..|log| - 1], v, w, m) + if Causes(log[|log| - 1], v, w, m) then 1 else 0
  }

  predicate Causes(p: Packet, v: nat, w: nat, m: Msg) {
    p.dest == v && p.from != w && p.msg == m.(ttl := (m.ttl + 1) % 0x100)
  }

  /** How often `v` has broadcast exactly this message. */
  function Broadcasts(events: seq<Event>, v: nat, m: Msg): nat {
    if events == [] then 0
    else (if events[0] == Origination(v, m) then 1 else 0) + Broadcasts(events[1..], v, m)
  }

  lemma CountFirst<T>(s: seq<T>, x: T)
    requires s != []
    ensures multiset(s)[x] == (if s[0] == x then 1 else 0) + multiset(s[1..])[x]
  {
    assert s == [s[0]] + s[1..];
    assert multiset(s) == multiset([s[0]]) + multiset(s[1..]);
  }

  lemma CountAlso<T>(y: T, s: seq<T>, x: T)
    ensures multiset([y] + s)[x] == (if y == x then 1 else 0) + multiset(s)[x]
  {
    assert ([y] + s)[1..] == s;
    CountFirst([y] + s, x);
  }

  lemma {:induction false} RecipientsCount(list: seq<Entry>, except: Option<nat>, w: nat)
    ensures multiset(Recipients(list, except))[w] == if except == Some(w) then 0 else Links(list, w)
  {
    if list != [] {
      var e, rest := list[0], Recipients(list[1..], except);
      RecipientsCount(list[1..], except, w);
      CountFirst(list, Some(w));
      if e.Some? && e != except {
        CountAlso(e.value, rest, w);
      } else {
        assert [] + rest == rest;
      }
    }
  }

  lemma {:induction false} CopiesCount(from: nat, dests: seq<nat>, m: Msg, c: Packet)
    ensures CountOf(Copies(from, dests, m), c) ==
            if c.from == from && c.msg == m then multiset(dests)[c.dest] else 0
  {
    if dests != [] {
      CopiesCount(from, dests[1..], m, c);
      CountAlso(Packet(from, dests[0], m), Copies(from, dests[1..], m), c);
      CountFirst(dests, c.dest);
    }
  }

  lemma HopInverse(t: Byte, s: Byte)
    ensures (s - 1) % 0x100 == t <==> s == (t + 1) % 0x100
  {
  }

  /** What one delivery makes its receiver send. */
  lemma RelayCount(n: Net, p: Packet, v: nat, w: nat, m: Msg)
    requires m.id.Own? && m.ttl >= 1
    ensures CountOf(Replies(n, p), Packet(v, w, m)) ==
            if Causes(p, v, w, m) then Links(PeersOf(n.peers, v), w) else 0
  {
    hide CountOf, Copies, Recipients, Links;
    var c := Packet(v, w, m);
    var hopped := p.msg.(ttl := (p.msg.ttl - 1) % 0x100);
    var own := Packet(p.dest, p.from, Msg(Answer(p.msg.id), Pong, 1));
    var pongs := if p.msg.kind == Ping then [own] else [];
    var dests := Recipients(PeersOf(n.peers, p.dest), Some(p.from));
    var relays := if hopped.ttl > 0 then Copies(p.dest, dests, hopped) else [];
    assert Replies(n, p) == pongs + relays;
    CountAppend(pongs, relays, c);
    CountOne(own, c);
    CountNone([], c);
    CopiesCount(p.dest, dests, hopped, c);
    RecipientsCount(PeersOf(n.peers, p.dest), Some(p.from), w);
    HopInverse(m.ttl, p.msg.ttl);
  }

  lemma OriginalCount(n: Net, u: nat, k: Msg, v: nat, w: nat, m: Msg)
    ensures CountOf(Copies(u, Recipients(PeersOf(n.peers, u), None), k), Packet(v, w, m)) ==
            if u == v && k == m then Links(PeersOf(n.peers, v), w) else 0
  {
    hide CountOf, Copies, Recipients, Links;
    CopiesCount(u, Recipients(PeersOf(n.peers, u), None), k, Packet(v, w, m));
    RecipientsCount(PeersOf(n.peers, u), None, w);
  }

  /** `n` packets of this kind have been sent for each link. */
  ghost predicate Relayed(n: Net, v: nat, w: nat, m: Msg, broadcasts: nat) {
    CountOf(n.flying, Packet(v, w, m)) + CountOf(n.log, Packet(v, w, m)) ==
    Links(PeersOf(n.peers, v), w) * (broadcasts + Arrivals(n.log, v, w, m))
  }

  lemma ArrivalsNext(log: seq<Packet>, p: Packet, v: nat, w: nat, m: Msg)
    ensures Arrivals(log + [p], v, w, m) == Arrivals(log, v, w, m) + if Causes(p, v, w, m) then 1 else 0
  {
    assert (log + [p])[..|log|] == log;
  }

  lemma DeliverRelays(n: Net, i: nat, v: nat, w: nat, m: Msg, broadcasts: nat)
    requires m.id.Own? && m.ttl >= 1 && Relayed(n, v, w, m, broadcasts)
    ensures Relayed(Deliver(n, i), v, w, m, broadcasts)
  {
    hide CountOf, Replies, Arrivals, Links, PeersOf;
    if i < |n.flying| {
      var p, c := n.flying[i], Packet(v, w, m);
      var a, b := n.flying[..i], n.flying[i + 1..];
      assert n.flying == a + [p] + b;
      CountAppend(a + [p], b, c);
      CountAppend(a, [p], c);
      CountAppend(a, b, c);
      CountAppend(a + b, Replies(n, p), c);
      CountAppend(n.log, [p], c);
      RelayCount(n, p, v, w, m);
      ArrivalsNext(n.log, p, v, w, m);
      Times(Links(PeersOf(n.peers, v), w), broadcasts + Arrivals(n.log, v, w, m));
    }
  }

  lemma Times(k: nat, a: nat)
    ensures k * (a + 1) == k * a + k
  {
  }

  lemma OriginateRelays(n: Net, u: nat, k: Msg, v: nat, w: nat, m: Msg, broadcasts: nat)
    requires Relayed(n, v, w, m, broadcasts)
    ensures Relayed(Originate(n, u, k), v, w, m, broadcasts + if u == v && k == m then 1 else 0)
  {
    hide CountOf, Recipients, Copies, Arrivals, Links, PeersOf;
    var copies := Copies(u, Recipients(PeersOf(n.peers, u), None), k);
    CountAppend(n.flying, copies, Packet(v, w, m));
    OriginalCount(n, u, k, v, w, m);
    Times(Links(PeersOf(n.peers, v), w), broadcasts + Arrivals(n.log, v, w, m));
  }

  lemma {:induction false} RunRelays(n: Net, events: seq<Event>, v: nat, w: nat, m: Msg, broadcasts: nat)
    requires m.id.Own? && m.ttl >= 1 && Relayed(n, v, w, m, broadcasts)
    ensures Relayed(Run(n, events), v, w, m, broadcasts + Broadcasts(events, v, m))
    decreases |events|
  {
    hide Relayed, Deliver, Originate;
    if events != [] {
      match events[0] {
        case Deliveries(i) => DeliverRelays(n, i, v, w, m, broadcasts);
        case Origination(u, k) => OriginateRelays(n, u, k, v, w, m, broadcasts);
      }
      RunRelays(Step(n, events[0]), events[1..], v, w, m,
                broadcasts + if events[0] == Origination(v, m) then 1 else 0);
    }
  }

  /** In every run, the copies with a given time to live that `v` has sent to `w` are, for each entry of
      `w` in its peer list, its own broadcasts and the copies that came from others with one hop more. */
  lemma CopiesAreCounted(peers: seq<seq<Entry>>, events: seq<Event>, v: nat, w: nat, m: Msg)
    requires m.id.Own? && m.ttl >= 1
    ensures var n := Run(Silent(peers), events);
            CountOf(n.flying, Packet(v, w, m)) + CountOf(n.log, Packet(v, w, m)) ==
            Links(PeersOf(peers, v), w) * (Broadcasts(events, v, m) + Arrivals(n.log, v, w, m))
  {
    hide Run, CountOf, Links, PeersOf, Arrivals;
    NothingSent(peers, v, w, m);
    RunRelays(Silent(peers), events, v, w, m, 0);
    RunKeepsPeers(Silent(peers), events);
  }

  lemma NothingSent(peers: seq<seq<Entry>>, v: nat, w: nat, m: Msg)
    ensures Relayed(Silent(peers), v, w, m, 0)
  {
  }
}
