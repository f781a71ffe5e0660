/** Gossip among nodes that relay what they receive (p2p-network/src/peer.cpp:55-98,
    p2p-network/src/message.cpp:26-29, ___sunum/p2p-network/src/peer_list.cpp:27-39). Links are reliable,
    the peer lists are fixed and handlers return true; messages are delivered in any order. */
module Flooding {
  import opened Strings
  import opened PeerList

  datatype Kind = Ping | Pong | Other

  /** The identity of a message stands for its contents: one that somebody broadcasts, or the answer to
      another. */
  datatype Id = Own(n: nat) | Answer(to: Id)

  /** `ttl` is what the sender wrote. */
  datatype Msg = Msg(id: Id, kind: Kind, ttl: Byte)

  datatype Packet = Packet(from: nat, dest: nat, msg: Msg)

  /** Every node's peer list, the packets under way, and those that have been delivered. */
  datatype Net = Net(peers: seq<seq<Entry>>, flying: seq<Packet>, log: seq<Packet>)

  function PeersOf(peers: seq<seq<Entry>>, v: nat): seq<Entry> {
    if v < |peers| then peers[v] else []
  }

  function Copies(from: nat, dests: seq<nat>, m: Msg): (ps: seq<Packet>)
    ensures |ps| == |dests|
    ensures forall p :: p in ps <==> p.from == from && p.msg == m && p.dest in dests
  {
    if dests == [] then [] else [Packet(from, dests[0], m)] + Copies(from, dests[1..], m)
  }

  /** A broadcast with a null peer: the origin sends to all its peers. */
  function Originate(n: Net, v: nat, m: Msg): Net {
    n.(flying := n.flying + Copies(v, Recipients(PeersOf(n.peers, v), None), m))
  }

  /** What the receiver of a packet sends: the pong to a ping, and the message itself, one hop older, to
      everybody but the peer it came from. */
  function Answers(list: seq<Entry>, p: Packet): seq<Packet> {
    var hopped := p.msg.(ttl := (p.msg.ttl - 1) % 0x100);
    (if p.msg.kind == Ping then [Packet(p.dest, p.from, Msg(Answer(p.msg.id), Pong, 1))] else []) +
    (if hopped.ttl > 0 then Copies(p.dest, Recipients(list, Some(p.from)), hopped) else [])
  }

  function Replies(n: Net, p: Packet): seq<Packet> {
    Answers(PeersOf(n.peers, p.dest), p)
  }

  lemma HopBack(ttl: Byte)
    ensures ((ttl + 1) % 0x100 - 1) % 0x100 == ttl
  {
  }

  /** The handler of do_read (peer.cpp:55-98), called with the message as receive has it, one hop older.
      `processed` is what process_msg returns; when it is false the message is not relayed and the peer
      stops reading. */
  method OnMessage(list: PeerList, from: nat, self: nat, hopped: Msg, processed: bool) returns (sent: seq<Packet>,
      goOn: bool)
    ensures goOn == (hopped.kind != Other || processed)
    ensures sent == if goOn then Answers(list.list, Packet(from, self, hopped.(ttl := (hopped.ttl + 1) % 0x100)))
            else []
  {
    hide Copies, Recipients;
    HopBack(hopped.ttl);
    sent := [];
    match hopped.kind {
      case Ping => sent := [Packet(self, from, Msg(Answer(hopped.id), Pong, 1))];
      case Pong =>
      case Other =>
        if !processed {
          return [], false;
        }
    }
    if hopped.ttl > 0 {
      var dests := list.Broadcast(Some(from));
      sent := sent + Copies(self, dests, hopped);
    }
    goOn := true;
  }

  function Deliver(n: Net, i: nat): Net {
    if i < |n.flying| then
      n.(flying := n.flying[..i] + n.flying[i + 1..] + Replies(n, n.flying[i]), log := n.log + [n.flying[i]])
    else n
  }

  datatype Event =
    | Deliveries(i: nat)
    | Origination(v: nat, m: Msg)

  function Step(n: Net, e: Event): Net {
    match e
    case Deliveries(i) => Deliver(n, i)
    case Origination(v, m) => Originate(n, v, m)
  }

  function Run(n: Net, events: seq<Event>): Net
    decreases |events|
  {
    if events == [] then n else Run(Step(n, events[0]), events[1..])
  }

  lemma {:induction false} RunKeepsPeers(n: Net, events: seq<Event>)
    ensures Run(n, events).peers == n.peers
    decreases |events|
  {
    if events != [] {
      RunKeepsPeers(Step(n, events[0]), events[1..]);
    }
  }

  // ----- who can be reached -----

  predicate Linked(peers: seq<seq<Entry>>, v: nat, w: nat) {
    Some(w) in PeersOf(peers, v)
  }

  lemma {:induction false} RecipientsAre(list: seq<Entry>, except: Option<nat>, w: nat)
    ensures w in Recipients(list, except) <==> Some(w) in list && except != Some(w)
  {
    if list != [] {
      RecipientsAre(list[1..], except, w);
      assert list == [list[0]] + list[1..];
    }
  }

  /** `v` is at most `d` hops away from `o`. */
  ghost predicate Within(peers: seq<seq<Entry>>, o: nat, v: nat, d: nat)
    decreases d
  {
    v == o || (d > 0 && exists u: nat :: Within(peers, o, u, d - 1) && Linked(peers, u, v))
  }

  // ----- one message -----

  /** The message that node `o` has broadcast. */
  datatype Flood = Flood(o: nat, id: nat, kind: Kind, ttl: Byte)

  predicate IsCopy(p: Packet, f: Flood) {
    p.msg.id == Own(f.id) && p.msg.kind == f.kind
  }

  function CopyOf(f: Flood, from: nat, dest: nat, ttl: Byte): Packet {
    Packet(from, dest, Msg(Own(f.id), f.kind, ttl))
  }

  predicate Sent(n: Net, p: Packet) {
    p in n.flying || p in n.log
  }

  /** Node `v` has received a copy with this time to live. */
  ghost predicate HasCopy(n: Net, f: Flood, v: nat, t: Byte) {
    exists g: nat :: CopyOf(f, g, v, t) in n.log
  }

  /** A copy comes from the origin, or from a node that received a fresher one. */
  ghost predicate Justified(n: Net, f: Flood, p: Packet) {
    && 1 <= p.msg.ttl <= f.ttl && Linked(n.peers, p.from, p.dest)
    && ((p.from == f.o && p.msg.ttl == f.ttl) ||
        (p.msg.ttl < f.ttl && HasCopy(n, f, p.from, p.msg.ttl + 1)))
  }

  /** Whoever received a copy that may still travel has passed it on. */
  ghost predicate PassedOn(n: Net, f: Flood, p: Packet) {
    p.msg.ttl > 1 ==> forall w: nat | Linked(n.peers, p.dest, w) && w != p.from ::
        Sent(n, CopyOf(f, p.dest, w, p.msg.ttl - 1))
  }

  ghost predicate FloodInv(n: Net, f: Flood) {
    && (forall w: nat | Linked(n.peers, f.o, w) :: Sent(n, CopyOf(f, f.o, w, f.ttl)))
    && (forall p | p in n.log && IsCopy(p, f) :: PassedOn(n, f, p))
    && (forall p | Sent(n, p) && IsCopy(p, f) :: Justified(n, f, p))
  }

  ghost predicate Unknown(n: Net, f: Flood) {
    forall p | Sent(n, p) :: !IsCopy(p, f)
  }

  lemma FloodStarts(n: Net, f: Flood)
    requires Unknown(n, f) && f.ttl >= 1
    ensures FloodInv(Originate(n, f.o, Msg(Own(f.id), f.kind, f.ttl)), f)
  {
    var m := Msg(Own(f.id), f.kind, f.ttl);
    var list := PeersOf(n.peers, f.o);
    var dests := Recipients(list, None);
    var n' := Originate(n, f.o, m);
    forall w: nat ensures w in dests <==> Linked(n.peers, f.o, w) {
      RecipientsAre(list, None, w);
    }
    forall p | p in n.log ensures !IsCopy(p, f) {
      assert Sent(n, p);
    }
    forall p | Sent(n', p) && IsCopy(p, f) ensures Justified(n', f, p) {
      assert !Sent(n, p);
      assert p in Copies(f.o, dests, m);
    }
  }

  /** Nothing that was sent is forgotten. */
  lemma SentStays(n: Net, i: nat, p: Packet)
    ensures Sent(n, p) ==> Sent(Deliver(n, i), p)
    ensures i < |n.flying| && Sent(Deliver(n, i), p) ==> Sent(n, p) || p in Replies(n, n.flying[i])
  {
    hide Replies;
    if i < |n.flying| {
      var n' := Deliver(n, i);
      assert n.flying == n.flying[..i] + [n.flying[i]] + n.flying[i + 1..];
    }
  }

  lemma RepliesAre(n: Net, p: Packet, f: Flood, q: Packet)
    requires IsCopy(p, f) && p.msg.ttl >= 1
    ensures q in Replies(n, p) && IsCopy(q, f) <==>
            p.msg.ttl > 1 && Linked(n.peers, p.dest, q.dest) && q.dest != p.from
                && q == CopyOf(f, p.dest, q.dest, p.msg.ttl - 1)
  {
    var hopped := p.msg.(ttl := (p.msg.ttl - 1) % 0x100);
    assert hopped.ttl == p.msg.ttl - 1;
    RecipientsAre(PeersOf(n.peers, p.dest), Some(p.from), q.dest);
  }

  lemma OtherReplies(n: Net, p: Packet, f: Flood, q: Packet)
    requires !IsCopy(p, f) && q in Replies(n, p)
    ensures !IsCopy(q, f)
  {
  }

  lemma FloodDelivers(n: Net, f: Flood, i: nat)
    requires FloodInv(n, f)
    ensures FloodInv(Deliver(n, i), f)
  {
    hide Replies, Linked;
    if i < |n.flying| {
      var n', p := Deliver(n, i), n.flying[i];
      forall w: nat | Linked(n.peers, f.o, w) ensures Sent(n', CopyOf(f, f.o, w, f.ttl)) {
        SentStays(n, i, CopyOf(f, f.o, w, f.ttl));
      }
      assert Sent(n, p);
      forall q | q in n'.log && IsCopy(q, f) ensures PassedOn(n', f, q) {
        DeliveryPassesOn(n, f, i, q);
      }
      forall q | Sent(n', q) && IsCopy(q, f) ensures Justified(n', f, q) {
        DeliveryJustifies(n, f, i, q);
      }
    }
  }

  lemma DeliveryPassesOn(n: Net, f: Flood, i: nat, q: Packet)
    requires FloodInv(n, f) && i < |n.flying| && q in Deliver(n, i).log && IsCopy(q, f)
    ensures PassedOn(Deliver(n, i), f, q)
  {
    hide Replies, Linked, Justified;
    var n', p := Deliver(n, i), n.flying[i];
    assert Sent(n, p);
    if q.msg.ttl > 1 {
      forall w: nat | Linked(n'.peers, q.dest, w) && w != q.from ensures Sent(n', CopyOf(f, q.dest, w, q.msg.ttl - 1)) {
        var c := CopyOf(f, q.dest, w, q.msg.ttl - 1);
        if q in n.log {
          SentStays(n, i, c);
        } else {
          assert q == p;
          RepliesAre(n, p, f, c);
          assert c in Replies(n, p);
        }
      }
    }
  }

  lemma DeliveryJustifies(n: Net, f: Flood, i: nat, q: Packet)
    requires FloodInv(n, f) && i < |n.flying| && Sent(Deliver(n, i), q) && IsCopy(q, f)
    ensures Justified(Deliver(n, i), f, q)
  {
    hide Replies, Linked, PassedOn;
    var n', p := Deliver(n, i), n.flying[i];
    SentStays(n, i, q);
    assert Sent(n, p);
    if Sent(n, q) {
      assert Justified(n, f, q);
      JustifiedStays(n, f, i, q);
    } else {
      if !IsCopy(p, f) {
        OtherReplies(n, p, f, q);
      }
      assert Justified(n, f, p);
      RepliesAre(n, p, f, q);
      assert p == CopyOf(f, p.from, p.dest, p.msg.ttl);
      assert p in n'.log;
    }
  }

  lemma JustifiedStays(n: Net, f: Flood, i: nat, q: Packet)
    requires Justified(n, f, q)
    ensures Justified(Deliver(n, i), f, q)
  {
    hide Replies, Linked;
    if !(q.from == f.o && q.msg.ttl == f.ttl) {
      var g: nat :| CopyOf(f, g, q.from, q.msg.ttl + 1) in n.log;
      assert CopyOf(f, g, q.from, q.msg.ttl + 1) in Deliver(n, i).log;
    }
  }

  /** Other messages do not interfere. */
  lemma FloodIgnores(n: Net, f: Flood, v: nat, m: Msg)
    requires FloodInv(n, f) && m.id != Own(f.id)
    ensures FloodInv(Originate(n, v, m), f)
  {
    hide Linked;
    var n' := Originate(n, v, m);
    forall p | p in n'.log && IsCopy(p, f) ensures PassedOn(n', f, p) {
      assert PassedOn(n, f, p);
      if p.msg.ttl > 1 {
        forall w: nat | Linked(n.peers, p.dest, w) && w != p.from
            ensures Sent(n', CopyOf(f, p.dest, w, p.msg.ttl - 1)) {
          assert Sent(n, CopyOf(f, p.dest, w, p.msg.ttl - 1));
        }
      }
    }
    forall p | Sent(n', p) && IsCopy(p, f) ensures Justified(n', f, p) {
      assert Sent(n, p);
      assert Justified(n, f, p);
    }
    forall w: nat | Linked(n.peers, f.o, w) ensures Sent(n', CopyOf(f, f.o, w, f.ttl)) {
      assert Sent(n, CopyOf(f, f.o, w, f.ttl));
    }
  }

  predicate Ignores(e: Event, f: Flood) {
    e.Origination? ==> e.m.id != Own(f.id)
  }

  lemma {:induction false} FloodRuns(n: Net, f: Flood, events: seq<Event>)
    requires FloodInv(n, f) && forall e | e in events :: Ignores(e, f)
    ensures FloodInv(Run(n, events), f)
    decreases |events|
  {
    hide FloodInv, Deliver, Originate;
    if events != [] {
      assert events[0] in events;
      match events[0] {
        case Deliveries(i) => FloodDelivers(n, f, i);
        case Origination(v, m) => FloodIgnores(n, f, v, m);
      }
      FloodRuns(Step(n, events[0]), f, events[1..]);
    }
  }

  // ----- completeness and soundness -----

  ghost predicate Quiet(n: Net, f: Flood) {
    forall p | p in n.flying :: !IsCopy(p, f)
  }

  /** Node `v` is the origin, or has received a copy that was worth at least `k` hops. */
  ghost predicate Has(n: Net, f: Flood, v: nat, k: int) {
    v == f.o || exists t: Byte :: k <= t <= f.ttl && HasCopy(n, f, v, t)
  }

  lemma {:induction false} Reached(n: Net, f: Flood, v: nat, d: nat)
    requires FloodInv(n, f) && Quiet(n, f) && d <= f.ttl && Within(n.peers, f.o, v, d)
    ensures Has(n, f, v, f.ttl - d + 1)
    decreases d
  {
    hide Linked, Justified, PassedOn;
    if v != f.o {
      var u: nat :| Within(n.peers, f.o, u, d - 1) && Linked(n.peers, u, v);
      Reached(n, f, u, d - 1);
      NextHop(n, f, u, v, f.ttl - d + 2);
    }
  }

  /** Over one more link: the sender skips only the node that it has the message from. */
  lemma NextHop(n: Net, f: Flood, u: nat, v: nat, k: nat)
    requires FloodInv(n, f) && Quiet(n, f) && Has(n, f, u, k) && Linked(n.peers, u, v) && 2 <= k <= f.ttl + 1
    ensures Has(n, f, v, k - 1)
  {
    hide Linked;
    if u == f.o {
      assert Sent(n, CopyOf(f, f.o, v, f.ttl));
      assert CopyOf(f, f.o, v, f.ttl) in n.log;
      assert HasCopy(n, f, v, f.ttl);
    } else {
      var t: Byte :| k <= t <= f.ttl && HasCopy(n, f, u, t);
      var g: nat :| CopyOf(f, g, u, t) in n.log;
      var p := CopyOf(f, g, u, t);
      assert Sent(n, p);
      assert PassedOn(n, f, p) && Justified(n, f, p);
      if v != g {
        var q := CopyOf(f, u, v, t - 1);
        assert Sent(n, q);
        assert q in n.log;
        assert HasCopy(n, f, v, t - 1);
      } else if g != f.o {
        var g': nat :| CopyOf(f, g', g, t + 1) in n.log;
        CopyIsFresh(n, f, CopyOf(f, g', g, t + 1));
      }
    }
  }

  lemma CopyIsFresh(n: Net, f: Flood, p: Packet)
    requires FloodInv(n, f) && p in n.log && IsCopy(p, f)
    ensures p.msg.ttl <= f.ttl
  {
    assert Sent(n, p);
    assert Justified(n, f, p);
  }

  /** A copy is no further from the origin than its hops. */
  lemma {:induction false} OnlyNearby(n: Net, f: Flood, p: Packet)
    requires FloodInv(n, f) && Sent(n, p) && IsCopy(p, f)
    ensures 1 <= p.msg.ttl <= f.ttl && Within(n.peers, f.o, p.dest, f.ttl - p.msg.ttl + 1)
    decreases f.ttl - p.msg.ttl
  {
    hide Linked, PassedOn;
    assert Justified(n, f, p);
    if p.from == f.o && p.msg.ttl == f.ttl {
      assert Within(n.peers, f.o, f.o, 0);
    } else {
      var g: nat :| CopyOf(f, g, p.from, p.msg.ttl + 1) in n.log;
      OnlyNearby(n, f, CopyOf(f, g, p.from, p.msg.ttl + 1));
    }
  }

  lemma {:induction false} WithinGrows(peers: seq<seq<Entry>>, o: nat, v: nat, d: nat, e: nat)
    requires Within(peers, o, v, d) && d <= e
    ensures Within(peers, o, v, e)
    decreases d
  {
    hide Linked;
    if v != o {
      var u: nat :| Within(peers, o, u, d - 1) && Linked(peers, u, v);
      WithinGrows(peers, o, u, d - 1, e - 1);
    }
  }

  ghost predicate Received(n: Net, f: Flood, v: nat) {
    exists p :: p in n.log && IsCopy(p, f) && p.dest == v
  }

  /** Once no copy is under way, exactly the nodes within `ttl` hops of the origin have received the
      message, whatever else was going on and in whatever order packets were delivered. */
  lemma FloodingReachesExactly(n: Net, f: Flood, events: seq<Event>, v: nat)
    requires Unknown(n, f) && f.ttl >= 1 && forall e | e in events :: Ignores(e, f)
    ensures var n' := Run(Originate(n, f.o, Msg(Own(f.id), f.kind, f.ttl)), events);
            Quiet(n', f) && v != f.o ==> (Received(n', f, v) <==> Within(n.peers, f.o, v, f.ttl))
  {
    hide FloodInv, Run, Originate, Quiet, Unknown, Within;
    var start := Originate(n, f.o, Msg(Own(f.id), f.kind, f.ttl));
    var n' := Run(start, events);
    FloodStarts(n, f);
    FloodRuns(start, f, events);
    RunKeepsPeers(start, events);
    OriginateKeepsPeers(n, f.o, Msg(Own(f.id), f.kind, f.ttl));
    if Quiet(n', f) && v != f.o {
      if Within(n.peers, f.o, v, f.ttl) {
        Reached(n', f, v, f.ttl);
        var t: Byte :| 1 <= t <= f.ttl && HasCopy(n', f, v, t);
        var g: nat :| CopyOf(f, g, v, t) in n'.log;
        assert IsCopy(CopyOf(f, g, v, t), f);
      }
      if Received(n', f, v) {
        var p :| p in n'.log && IsCopy(p, f) && p.dest == v;
        OnlyNearby(n', f, p);
        WithinGrows(n.peers, f.o, v, f.ttl - p.msg.ttl + 1, f.ttl);
      }
    }
  }

  lemma OriginateKeepsPeers(n: Net, v: nat, m: Msg)
    ensures Originate(n, v, m).peers == n.peers
  {
  }

  // ----- termination -----

  /** How many deliveries a packet with this time to live can cause, itself included, where no node has
      more than `d` peers; a ping is answered by a pong. */
  function Weight(kind: Kind, ttl: nat, d: nat): nat {
    if ttl == 0 then 0 else (if kind == Ping then 2 else 1) + d * Weight(kind, ttl - 1, d)
  }

  function TotalWeight(ps: seq<Packet>, d: nat): nat {
    if ps == [] then 0 else Weight(ps[0].msg.kind, ps[0].msg.ttl, d) + TotalWeight(ps[1..], d)
  }

  lemma {:induction false} WeightAppend(a: seq<Packet>, b: seq<Packet>, d: nat)
    ensures TotalWeight(a + b, d) == TotalWeight(a, d) + TotalWeight(b, d)
  {
    hide Weight;
    if a == [] {
      assert a + b == b;
    } else {
      WeightAppend(a[1..], b, d);
      assert (a + b)[1..] == a[1..] + b;
    }
  }

  lemma {:induction false} WeightCopies(from: nat, dests: seq<nat>, m: Msg, d: nat)
    ensures TotalWeight(Copies(from, dests, m), d) == |dests| * Weight(m.kind, m.ttl, d)
  {
    hide Weight;
    var w := Weight(m.kind, m.ttl, d);
    if dests != [] {
      WeightCopies(from, dests[1..], m, d);
      assert Copies(from, dests, m)[1..] == Copies(from, dests[1..], m);
      assert |dests| * w == w + (|dests| - 1) * w;
    }
  }

  predicate Degree(n: Net, d: nat) {
    forall v | 0 <= v < |n.peers| :: |n.peers[v]| <= d
  }

  lemma {:induction false} FewRecipients(list: seq<Entry>, except: Option<nat>)
    ensures |Recipients(list, except)| <= |list|
  {
    if list != [] {
      FewRecipients(list[1..], except);
    }
  }

  /** No packet under way has used up its time to live, so `hop` never wraps around. */
  predicate Living(n: Net) {
    forall p | p in n.flying :: p.msg.ttl >= 1
  }

  lemma DeliverKeepsLiving(n: Net, i: nat)
    requires Living(n)
    ensures Living(Deliver(n, i))
  {
  }

  lemma OriginateKeepsLiving(n: Net, v: nat, m: Msg)
    requires Living(n) && m.ttl >= 1
    ensures Living(Originate(n, v, m))
  {
  }

  lemma {:induction false} RunKeepsLiving(n: Net, events: seq<Event>)
    requires Living(n) && forall e | e in events :: e.Origination? ==> e.m.ttl >= 1
    ensures Living(Run(n, events))
    decreases |events|
  {
    hide Living, Deliver, Originate;
    if events != [] {
      assert events[0] in events;
      match events[0] {
        case Deliveries(i) => DeliverKeepsLiving(n, i);
        case Origination(v, m) => OriginateKeepsLiving(n, v, m);
      }
      RunKeepsLiving(Step(n, events[0]), events[1..]);
    }
  }

  lemma RepliesWeigh(n: Net, p: Packet, d: nat)
    requires Degree(n, d) && p.msg.ttl >= 1
    ensures TotalWeight(Replies(n, p), d) < Weight(p.msg.kind, p.msg.ttl, d)
  {
    hide TotalWeight, Recipients, Weight, Copies;
    var hopped := p.msg.(ttl := (p.msg.ttl - 1) % 0x100);
    var pongs := if p.msg.kind == Ping then [Packet(p.dest, p.from, Msg(Answer(p.msg.id), Pong, 1))] else [];
    var dests := Recipients(PeersOf(n.peers, p.dest), Some(p.from));
    var relays := if hopped.ttl > 0 then Copies(p.dest, dests, hopped) else [];
    WeightAppend(pongs, relays, d);
    PongWeighs(pongs, d);
    WeightCopies(p.dest, dests, hopped, d);
    FewRecipients(PeersOf(n.peers, p.dest), Some(p.from));
    FewerWeigh(|dests|, d, Weight(p.msg.kind, p.msg.ttl - 1, d));
    WeightUnfolds(p.msg.kind, p.msg.ttl, d);
    assert relays == [] ==> TotalWeight(relays, d) == 0 by { NothingWeighs(d); }
  }

  lemma NothingWeighs(d: nat)
    ensures TotalWeight([], d) == 0
  {
  }

  lemma WeightUnfolds(kind: Kind, ttl: nat, d: nat)
    requires ttl >= 1
    ensures Weight(kind, ttl, d) == (if kind == Ping then 2 else 1) + d * Weight(kind, ttl - 1, d)
  {
  }

  lemma FewerWeigh(n: nat, d: nat, w: nat)
    requires n <= d
    ensures 0 <= n * w <= d * w
  {
    assert d * w == n * w + (d - n) * w;
  }

  lemma PongWeighs(pongs: seq<Packet>, d: nat)
    requires |pongs| <= 1 && forall p | p in pongs :: p.msg.kind == Pong && p.msg.ttl == 1
    ensures TotalWeight(pongs, d) == |pongs|
  {
    if pongs != [] {
      assert pongs[0] in pongs;
      assert Weight(Pong, 1, d) == 1 + d * Weight(Pong, 0, d);
      assert d * 0 == 0;
    }
  }

  /** Every delivery makes the packets under way lighter. */
  lemma DeliveryFalls(n: Net, i: nat, d: nat)
    requires Living(n) && Degree(n, d) && i < |n.flying|
    ensures TotalWeight(Deliver(n, i).flying, d) < TotalWeight(n.flying, d)
  {
    hide TotalWeight, Replies, Weight;
    var a, p, b := n.flying[..i], n.flying[i], n.flying[i + 1..];
    assert p in n.flying;
    assert n.flying == a + ([p] + b);
    WeightAppend(a, [p] + b, d);
    WeightAppend([p], b, d);
    WeightAppend(a, b, d);
    WeightAppend(a + b, Replies(n, p), d);
    WeightOne(p, d);
    RepliesWeigh(n, p, d);
  }

  lemma WeightOne(p: Packet, d: nat)
    ensures TotalWeight([p], d) == Weight(p.msg.kind, p.msg.ttl, d)
  {
    assert [p][1..] == [];
  }

  predicate AllHappen(n: Net, deliveries: seq<nat>)
    decreases |deliveries|
  {
    deliveries != [] ==> deliveries[0] < |n.flying| && AllHappen(Deliver(n, deliveries[0]), deliveries[1..])
  }

  /** The flood dies out: without new messages there are at most as many deliveries as the packets
      under way weigh. */
  lemma {:induction false} FloodingTerminates(n: Net, deliveries: seq<nat>, d: nat)
    requires Living(n) && Degree(n, d) && AllHappen(n, deliveries)
    ensures |deliveries| <= TotalWeight(n.flying, d)
    decreases |deliveries|
  {
    hide Living, Degree, TotalWeight, Deliver;
    if deliveries != [] {
      DeliveryFalls(n, deliveries[0], d);
      DeliverKeepsLiving(n, deliveries[0]);
      DeliverKeepsDegree(n, deliveries[0], d);
      FloodingTerminates(Deliver(n, deliveries[0]), deliveries[1..], d);
    }
  }

  lemma DeliverKeepsDegree(n: Net, i: nat, d: nat)
    requires Degree(n, d)
    ensures Degree(Deliver(n, i), d)
  {
  }

  /** A packet that arrives with nothing left wraps around and is relayed as if it were new. */
  lemma ZeroWraps(n: Net, p: Packet, w: nat)
    requires p.msg.ttl == 0 && Linked(n.peers, p.dest, w) && w != p.from
    ensures Packet(p.dest, w, p.msg.(ttl := 255)) in Replies(n, p)
  {
    RecipientsAre(PeersOf(n.peers, p.dest), Some(p.from), w);
    assert (0 - 1) % 0x100 == 255;
  }
}
