/** The answers to pings (p2p-network/src/peer.cpp:60-69): while messages are relayed in any order, every
    delivered ping has exactly one pong on its way back to the peer it came from, or delivered there. */
module Pongs {
  import opened Strings
  import opened PeerList
  import opened Flooding

  /** The answer of `v` to the ping `id` from `u`. */
  function PongTo(u: nat, v: nat, id: Id): Packet {
    Packet(v, u, Msg(Answer(id), Pong, 1))
  }

  predicate IsPing(p: Packet, u: nat, v: nat, id: Id) {
    p.msg.kind == Ping && p.msg.id == id && p.from == u && p.dest == v
  }

  /** How many of the packets are such a ping, whatever their time to live. */
  function Pings(ps: seq<Packet>, u: nat, v: nat, id: Id): nat {
    if ps == [] then 0
    else Pings(ps[..|ps| - 1], u, v, id) + if IsPing(ps[|ps| - 1], u, v, id) then 1 else 0
  }

  function CountOf(ps: seq<Packet>, p: Packet): nat {
    multiset(ps)[p]
  }

  /** Who answers does so with time to live 1, so that nobody relays the answer. */
  ghost predicate AnswersAreShort(n: Net) {
    forall p | Sent(n, p) && p.msg.id.Answer? :: p.msg.kind == Pong && p.msg.ttl == 1
  }

  ghost predicate Balanced(n: Net, u: nat, v: nat, id: Id) {
    CountOf(n.flying, PongTo(u, v, id)) + CountOf(n.log, PongTo(u, v, id)) == Pings(n.log, u, v, id)
  }

  lemma CountAppend(a: seq<Packet>, b: seq<Packet>, p: Packet)
    ensures CountOf(a + b, p) == CountOf(a, p) + CountOf(b, p)
  {
  }

  lemma CountOne(q: Packet, p: Packet)
    ensures CountOf([q], p) == if q == p then 1 else 0
  {
    assert multiset([q]) == multiset{q};
  }

  lemma CountNone(ps: seq<Packet>, p: Packet)
    ensures CountOf(ps, p) == 0 <==> p !in ps
  {
    assert p in multiset(ps) <==> p in ps;
  }

  /** Among what the receiver of a packet sends there is one answer to it if it is a ping, and no other. */
  lemma RepliesCount(n: Net, p: Packet, u: nat, v: nat, id: Id)
    requires p.msg.id.Answer? ==> p.msg.kind == Pong && p.msg.ttl == 1
    ensures CountOf(Replies(n, p), PongTo(u, v, id)) == if IsPing(p, u, v, id) then 1 else 0
  {
    hide CountOf, Copies, Recipients;
    var hopped := p.msg.(ttl := (p.msg.ttl - 1) % 0x100);
    var own := Packet(p.dest, p.from, Msg(Answer(p.msg.id), Pong, 1));
    var pongs := if p.msg.kind == Ping then [own] else [];
    var relays := if hopped.ttl > 0
        then Copies(p.dest, Recipients(PeersOf(n.peers, p.dest), Some(p.from)), hopped) else [];
    assert Replies(n, p) == pongs + relays;
    CountAppend(pongs, relays, PongTo(u, v, id));
    CountOne(own, PongTo(u, v, id));
    CountNone([], PongTo(u, v, id));
    CountNone(relays, PongTo(u, v, id));
  }

  lemma RepliesAreShort(n: Net, p: Packet, q: Packet)
    requires p.msg.id.Answer? ==> p.msg.kind == Pong && p.msg.ttl == 1
    requires q in Replies(n, p) && q.msg.id.Answer?
    ensures q.msg.kind == Pong && q.msg.ttl == 1
  {
  }

  lemma DeliverIsShort(n: Net, i: nat)
    requires AnswersAreShort(n)
    ensures AnswersAreShort(Deliver(n, i))
  {
    hide Replies, Deliver;
    if i < |n.flying| {
      var p := n.flying[i];
      assert Sent(n, p);
      forall q | Sent(Deliver(n, i), q) && q.msg.id.Answer? ensures q.msg.kind == Pong && q.msg.ttl == 1 {
        SentStays(n, i, q);
        if q in Replies(n, p) {
          RepliesAreShort(n, p, q);
        }
      }
    } else {
      assert Deliver(n, i) == n by { NoDelivery(n, i); }
    }
  }

  lemma NoDelivery(n: Net, i: nat)
    requires i >= |n.flying|
    ensures Deliver(n, i) == n
  {
  }

  lemma DeliverBalances(n: Net, i: nat, u: nat, v: nat, id: Id)
    requires AnswersAreShort(n) && Balanced(n, u, v, id)
    ensures Balanced(Deliver(n, i), u, v, id)
  {
    hide CountOf, Replies, Pings;
    if i < |n.flying| {
      var p, x := n.flying[i], PongTo(u, v, id);
      var a, b := n.flying[..i], n.flying[i + 1..];
      assert Sent(n, p);
      assert n.flying == a + [p] + b;
      CountAppend(a + [p], b, x);
      CountAppend(a, [p], x);
      CountAppend(a, b, x);
      CountAppend(a + b, Replies(n, p), x);
      CountAppend(n.log, [p], x);
      RepliesCount(n, p, u, v, id);
      PingsNext(n.log, p, u, v, id);
    }
  }

  lemma PingsNext(log: seq<Packet>, p: Packet, u: nat, v: nat, id: Id)
    ensures Pings(log + [p], u, v, id) == Pings(log, u, v, id) + if IsPing(p, u, v, id) then 1 else 0
  {
    assert (log + [p])[..|log|] == log;
  }

  lemma OriginateBalances(n: Net, w: nat, m: Msg, u: nat, v: nat, id: Id)
    requires AnswersAreShort(n) && Balanced(n, u, v, id) && m.id.Own?
    ensures AnswersAreShort(Originate(n, w, m)) && Balanced(Originate(n, w, m), u, v, id)
  {
    hide CountOf, Recipients, Copies;
    var copies := Copies(w, Recipients(PeersOf(n.peers, w), None), m);
    var n' := Originate(n, w, m);
    CountAppend(n.flying, copies, PongTo(u, v, id));
    CountNone(copies, PongTo(u, v, id));
    forall q | Sent(n', q) && q.msg.id.Answer? ensures q.msg.kind == Pong && q.msg.ttl == 1 {
      assert Sent(n, q);
    }
  }

  predicate BroadcastsOwn(e: Event) {
    e.Origination? ==> e.m.id.Own?
  }

  lemma {:induction false} RunBalances(n: Net, events: seq<Event>, u: nat, v: nat, id: Id)
    requires AnswersAreShort(n) && Balanced(n, u, v, id) && forall e | e in events :: BroadcastsOwn(e)
    ensures AnswersAreShort(Run(n, events)) && Balanced(Run(n, events), u, v, id)
    decreases |events|
  {
    hide AnswersAreShort, Balanced, Deliver, Originate;
    if events != [] {
      assert events[0] in events;
      match events[0] {
        case Deliveries(i) => DeliverIsShort(n, i); DeliverBalances(n, i, u, v, id);
        case Origination(w, m) => OriginateBalances(n, w, m, u, v, id);
      }
      RunBalances(Step(n, events[0]), events[1..], u, v, id);
    }
  }

  function Silent(peers: seq<seq<Entry>>): Net {
    Net(peers, [], [])
  }

  /** In every run, for every ping and every pair of nodes, the pongs under way and delivered are as many
      as the times the ping has been delivered. */
  lemma OnePongForEachPing(peers: seq<seq<Entry>>, events: seq<Event>, u: nat, v: nat, id: Id)
    requires forall e | e in events :: BroadcastsOwn(e)
    ensures var n := Run(Silent(peers), events);
            CountOf(n.flying, PongTo(u, v, id)) + CountOf(n.log, PongTo(u, v, id)) == Pings(n.log, u, v, id)
  {
    hide Run;
    StartsBalanced(peers, u, v, id);
    RunBalances(Silent(peers), events, u, v, id);
  }

  lemma StartsBalanced(peers: seq<seq<Entry>>, u: nat, v: nat, id: Id)
    ensures AnswersAreShort(Silent(peers)) && Balanced(Silent(peers), u, v, id)
  {
  }

  lemma {:induction false} PingsIn(ps: seq<Packet>, u: nat, v: nat, id: Id)
    ensures Pings(ps, u, v, id) > 0 <==> exists p :: p in ps && IsPing(p, u, v, id)
  {
    if ps != [] {
      PingsIn(ps[..|ps| - 1], u, v, id);
      assert ps == ps[..|ps| - 1] + [ps[|ps| - 1]];
    }
  }

  /** Once nothing is under way, a node has the pong of a neighbour exactly if its ping has arrived there. */
  lemma PongsArrive(peers: seq<seq<Entry>>, events: seq<Event>, u: nat, v: nat, id: Id)
    requires forall e | e in events :: BroadcastsOwn(e)
    requires Run(Silent(peers), events).flying == []
    ensures var log := Run(Silent(peers), events).log;
            PongTo(u, v, id) in log <==> exists p :: p in log && IsPing(p, u, v, id)
  {
    hide Run, CountOf, Pings;
    var n := Run(Silent(peers), events);
    OnePongForEachPing(peers, events, u, v, id);
    CountNone(n.flying, PongTo(u, v, id));
    CountNone(n.log, PongTo(u, v, id));
    PingsIn(n.log, u, v, id);
  }

  /** No answer exists without the ping it answers, delivered from the one to the other. */
  lemma NoPongWithoutPing(peers: seq<seq<Entry>>, events: seq<Event>, q: Packet)
    requires forall e | e in events :: BroadcastsOwn(e)
    requires Sent(Run(Silent(peers), events), q) && q.msg.id.Answer?
    ensures q == PongTo(q.dest, q.from, q.msg.id.to)
    ensures exists p :: p in Run(Silent(peers), events).log && IsPing(p, q.dest, q.from, q.msg.id.to)
  {
    hide Run, CountOf, Pings;
    var n := Run(Silent(peers), events);
    var u, v, id := q.dest, q.from, q.msg.id.to;
    StartsBalanced(peers, u, v, id);
    RunBalances(Silent(peers), events, u, v, id);
    CountNone(n.flying, q);
    CountNone(n.log, q);
    PingsIn(n.log, u, v, id);
  }
}
