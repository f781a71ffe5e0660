/** The writing half of a peer (p2p-network/src/peer.cpp:29-38, 123-154): messages are queued, and one
    write to the socket at a time takes them off the queue. Each callback of the strand is one step. */
module SendPump {
  import opened Strings
  import opened Framing

  /** What the strand has done so far: `outstanding` writes have been started and not completed,
      `completed` are the packets whose writes succeeded, `accepted` those of all accepted sends. */
  datatype Pump = Pump(
    queue: seq<Message>,
    sending: bool,
    buffer: seq<Byte>,
    outstanding: nat,
    completed: seq<seq<Byte>>,
    accepted: seq<seq<Byte>>)

  function Fresh(): Pump {
    Pump([], false, [], 0, [], [])
  }

  predicate Sendable(m: Message) {
    |m.body| <= MAX_PKT_SIZE
  }

  predicate Queued(queue: seq<Message>) {
    forall i | 0 <= i < |queue| :: Sendable(queue[i])
  }

  /** do_write. */
  function Write(p: Pump): Pump
    requires Queued(p.queue)
  {
    if p.sending || p.queue == [] then p
    else p.(queue := p.queue[1..], buffer := Packet(p.queue[0]), sending := true, outstanding := p.outstanding + 1)
  }

  /** The callback of send; a message that is too big throws out of it. */
  function OnSend(p: Pump, m: Message): (r: Pump)
    requires Queued(p.queue)
    ensures Queued(r.queue)
  {
    if !Sendable(m) then p
    else Write(p.(queue := p.queue + [m], accepted := p.accepted + [Packet(m)]))
  }

  /** The completion of a write; after an error `sending_` stays set. */
  function OnWritten(p: Pump, ok: bool): (r: Pump)
    requires Queued(p.queue)
    ensures Queued(r.queue)
  {
    if p.outstanding == 0 then p
    else if ok then Write(p.(sending := false, outstanding := p.outstanding - 1, completed := p.completed + [p.buffer]))
    else p.(outstanding := p.outstanding - 1)
  }

  function Packets(queue: seq<Message>): seq<seq<Byte>>
    requires Queued(queue)
  {
    if queue == [] then [] else [Packet(queue[0])] + Packets(queue[1..])
  }

  /** The packet that is being written, or was when the connection failed. */
  function InFlight(p: Pump): seq<seq<Byte>> {
    if p.sending then [p.buffer] else []
  }

  ghost predicate Inv(p: Pump) {
    && Queued(p.queue)
    && p.outstanding <= (if p.sending then 1 else 0)
    && (p.queue != [] ==> p.sending)
    && p.accepted == p.completed + InFlight(p) + Packets(p.queue)
  }

  // ----- the object -----

  class Peer {
    const protocol: Protocol
    var sending: bool
    var sendBuffer: seq<Byte>
    ghost var outstanding: nat
    ghost var completed: seq<seq<Byte>>
    ghost var accepted: seq<seq<Byte>>

    ghost function State(): Pump
      reads this, protocol
    {
      Pump(protocol.sendQueue, sending, sendBuffer, outstanding, completed, accepted)
    }

    constructor (p: Protocol)
      requires p.sendQueue == []
      ensures State() == Fresh() && protocol == p
    {
      protocol := p;
      sending, sendBuffer := false, [];
      outstanding, completed, accepted := 0, [], [];
    }

    method DoWrite()
      requires Queued(protocol.sendQueue)
      modifies this, protocol
      ensures State() == Write(old(State()))
    {
      if sending {
        return;
      }
      var pending := protocol.HasPacket();
      if pending {
        sendBuffer := protocol.GetPacket();
        sending := true;
        outstanding := outstanding + 1;
      }
    }

    method Send(m: Message) returns (thrown: bool)
      requires Queued(protocol.sendQueue)
      modifies this, protocol
      ensures State() == OnSend(old(State()), m) && thrown == !Sendable(m)
    {
      var ok := protocol.Send(m);
      if !ok {
        return true;
      }
      accepted := accepted + [Packet(m)];
      DoWrite();
      thrown := false;
    }

    /** The completion handler of async_write. */
    method OnWriteCompleted(ok: bool)
      requires Queued(protocol.sendQueue) && outstanding > 0
      modifies this, protocol
      ensures State() == OnWritten(old(State()), ok)
    {
      outstanding := outstanding - 1;
      if ok {
        completed := completed + [sendBuffer];
        sending := false;
        var pending := protocol.HasPacket();
        if pending {
          DoWrite();
        }
      }
    }
  }

  // ----- every run -----

  datatype Event =
    | Send(m: Message)
    | Written(ok: bool)

  function Step(p: Pump, e: Event): (r: Pump)
    requires Queued(p.queue)
    ensures Queued(r.queue)
  {
    match e
    case Send(m) => OnSend(p, m)
    case Written(ok) => OnWritten(p, ok)
  }

  function Run(p: Pump, events: seq<Event>): (r: Pump)
    requires Queued(p.queue)
    ensures Queued(r.queue)
    decreases |events|
  {
    if events == [] then p else Run(Step(p, events[0]), events[1..])
  }

  lemma {:induction false} PacketsAppend(a: seq<Message>, b: seq<Message>)
    requires Queued(a) && Queued(b)
    ensures Queued(a + b) && Packets(a + b) == Packets(a) + Packets(b)
  {
    hide Packet;
    if a == [] {
      assert a + b == b;
    } else {
      PacketsAppend(a[1..], b);
      assert (a + b)[1..] == a[1..] + b;
      assert [Packet(a[0])] + (Packets(a[1..]) + Packets(b)) == [Packet(a[0])] + Packets(a[1..]) + Packets(b);
    }
  }

  lemma PacketsOne(m: Message)
    requires Sendable(m)
    ensures Packets([m]) == [Packet(m)]
  {
    assert [m][1..] == [];
  }

  /** Starting a write restores the invariant where only the idle flag is in the way. */
  lemma WriteKeeps(p: Pump)
    requires Queued(p.queue) && p.outstanding <= (if p.sending then 1 else 0)
    requires p.accepted == p.completed + InFlight(p) + Packets(p.queue)
    ensures Inv(Write(p))
  {
    hide Packet;
    if !p.sending && p.queue != [] {
      var r := Write(p);
      assert Packets(p.queue) == [r.buffer] + Packets(r.queue);
      assert p.completed + [] + ([r.buffer] + Packets(r.queue)) == p.completed + [r.buffer] + Packets(r.queue);
    }
  }

  lemma SendKeeps(p: Pump, m: Message)
    requires Inv(p)
    ensures Inv(OnSend(p, m))
  {
    hide Packets, Packet, Write;
    if Sendable(m) {
      PacketsAppend(p.queue, [m]);
      PacketsOne(m);
      var q := p.(queue := p.queue + [m], accepted := p.accepted + [Packet(m)]);
      assert p.completed + InFlight(p) + Packets(p.queue) + [Packet(m)]
             == p.completed + InFlight(p) + (Packets(p.queue) + [Packet(m)]);
      WriteKeeps(q);
    }
  }

  lemma WrittenKeeps(p: Pump, ok: bool)
    requires Inv(p)
    ensures Inv(OnWritten(p, ok))
  {
    hide Packets, Packet, Write;
    if p.outstanding > 0 && ok {
      var q := p.(sending := false, outstanding := p.outstanding - 1, completed := p.completed + [p.buffer]);
      assert p.completed + [p.buffer] + Packets(p.queue) == p.completed + [p.buffer] + [] + Packets(p.queue);
      WriteKeeps(q);
    }
  }

  /** In every run at most one write is outstanding, a queue that is not empty implies `sending_`, and
      the completed packets, the one in flight and the queued ones are those of all accepted sends, in
      order. */
  lemma {:induction false} RunConserves(p: Pump, events: seq<Event>)
    requires Inv(p)
    ensures Inv(Run(p, events))
    decreases |events|
  {
    hide Inv, OnSend, OnWritten;
    assert Queued(p.queue) by { InvQueued(p); }
    if events != [] {
      match events[0]
      case Send(m) => SendKeeps(p, m); RunConserves(Step(p, events[0]), events[1..]);
      case Written(ok) => WrittenKeeps(p, ok); RunConserves(Step(p, events[0]), events[1..]);
    }
  }

  lemma InvQueued(p: Pump)
    requires Inv(p)
    ensures Queued(p.queue)
  {
  }

  /** Without errors nothing is lost: as many completions as there are packets under way deliver all
      that was accepted. */
  lemma {:induction false} RunDrains(p: Pump)
    requires Inv(p) && p.outstanding == (if p.sending then 1 else 0)
    ensures var r := Run(p, Repeat(Written(true), |p.queue| + p.outstanding));
            r.completed == r.accepted == p.accepted && !r.sending && r.queue == []
    decreases |p.queue| + p.outstanding
  {
    hide Packets, Packet;
    var n := |p.queue| + p.outstanding;
    if n == 0 {
      NoPackets();
      assert p.accepted == p.completed;
    } else {
      WrittenKeeps(p, true);
      var r := OnWritten(p, true);
      RunDrains(r);
      assert Repeat(Written(true), n)[1..] == Repeat(Written(true), n - 1);
    }
  }

  lemma NoPackets()
    ensures Packets([]) == []
  {
  }

  /** After a failed write nothing is sent any more. */
  lemma {:induction false} FailureIsFinal(p: Pump, events: seq<Event>)
    requires Inv(p) && p.sending && p.outstanding == 0
    ensures var r := Run(p, events); r.completed == p.completed && r.outstanding == 0
    decreases |events|
  {
    hide Packets, Packet;
    if events != [] {
      match events[0]
      case Send(m) => SendKeeps(p, m); FailureIsFinal(Step(p, events[0]), events[1..]);
      case Written(ok) => FailureIsFinal(Step(p, events[0]), events[1..]);
    }
  }

  /** A message is accepted exactly when its body has at most 10240 bytes, and then comes last. */
  lemma AcceptedIff(p: Pump, m: Message)
    requires Queued(p.queue)
    ensures OnSend(p, m).accepted == if |m.body| <= 10240 then p.accepted + [Packet(m)] else p.accepted
    ensures |m.body| > 10240 ==> OnSend(p, m) == p
  {
    hide Packet;
  }

  /** A failed write is not counted as delivered, and neither is anything behind it. */
  lemma FailureStops(p: Pump, events: seq<Event>)
    requires Inv(p) && p.outstanding == 1
    ensures var r := Run(p, [Written(false)] + events);
            r.completed == p.completed && r.outstanding == 0 && r.sending
  {
    hide Packets, Packet, Run;
    var q := OnWritten(p, false);
    WrittenKeeps(p, false);
    FailureIsFinal(q, events);
    StillSending(q, events);
    assert ([Written(false)] + events)[1..] == events;
    RunFirst(p, Written(false), events);
  }

  lemma RunFirst(p: Pump, e: Event, events: seq<Event>)
    requires Queued(p.queue)
    ensures Run(p, [e] + events) == Run(Step(p, e), events)
  {
    hide Step;
    assert ([e] + events)[1..] == events;
  }

  lemma {:induction false} StillSending(p: Pump, events: seq<Event>)
    requires Inv(p) && p.sending && p.outstanding == 0
    ensures Run(p, events).sending
    decreases |events|
  {
    hide Packets, Packet;
    if events != [] {
      match events[0]
      case Send(m) => SendKeeps(p, m); StillSending(Step(p, events[0]), events[1..]);
      case Written(ok) => StillSending(Step(p, events[0]), events[1..]);
    }
  }

  // ----- from the pump to the reader -----

  /** The messages of the accepted sends. */
  function Accepted(events: seq<Event>): (ms: seq<Message>)
    ensures Queued(ms)
    decreases |events|
  {
    if events == [] then []
    else (if events[0].Send? && Sendable(events[0].m) then [events[0].m] else []) + Accepted(events[1..])
  }

  lemma StepAccepts(p: Pump, e: Event)
    requires Queued(p.queue)
    ensures Step(p, e).accepted == p.accepted + Packets(Accepted([e]))
  {
    hide Packet;
    assert [e][1..] == [];
    NoPackets();
    if e.Send? && Sendable(e.m) {
      PacketsOne(e.m);
      assert [e.m] + [] == [e.m];
    } else {
      assert p.accepted + [] == p.accepted;
    }
  }

  lemma {:induction false} RunAccepts(p: Pump, events: seq<Event>)
    requires Queued(p.queue)
    ensures Run(p, events).accepted == p.accepted + Packets(Accepted(events))
    decreases |events|
  {
    hide Packets, Step;
    if events == [] {
      NoPackets();
    } else {
      var e := events[0];
      StepAccepts(p, e);
      RunAccepts(Step(p, e), events[1..]);
      assert Accepted([e]) + Accepted(events[1..]) == Accepted(events) by { AcceptedHead(events); }
      PacketsAppend(Accepted([e]), Accepted(events[1..]));
      AppendAssociative(p.accepted, Packets(Accepted([e])), Packets(Accepted(events[1..])));
    }
  }

  lemma AcceptedHead(events: seq<Event>)
    requires events != []
    ensures Accepted([events[0]]) + Accepted(events[1..]) == Accepted(events)
  {
    assert [events[0]][1..] == [];
  }

  /** The bytes on the socket. */
  function Stream(packets: seq<seq<Byte>>): seq<Byte> {
    if packets == [] then [] else packets[0] + Stream(packets[1..])
  }

  function AllSized(ms: seq<Message>): (r: seq<Message>)
    requires Queued(ms)
    ensures |r| == |ms|
  {
    if ms == [] then [] else [Sized(ms[0])] + AllSized(ms[1..])
  }

  lemma {:induction false} StreamIsFrames(ms: seq<Message>)
    requires Queued(ms)
    ensures Stream(Packets(ms)) == Frames(AllSized(ms))
  {
    hide HeaderBytes;
    if ms != [] {
      StreamIsFrames(ms[1..]);
      assert Packet(ms[0]) == Frame(Sized(ms[0]));
      assert AllSized(ms)[1..] == AllSized(ms[1..]) && Packets(ms)[1..] == Packets(ms[1..]);
    }
  }

  lemma {:induction false} PacketsPrefix(ms: seq<Message>, n: nat)
    requires Queued(ms) && n <= |ms|
    ensures |Packets(ms)| == |ms| && Packets(ms[..n]) == Packets(ms)[..n]
  {
    hide Packet;
    if n > 0 {
      PacketsPrefix(ms[1..], n - 1);
      assert ms[..n][1..] == ms[1..][..n - 1];
    } else if ms != [] {
      PacketsPrefix(ms[1..], 0);
    }
  }

  /** What is completed are the packets of the first accepted messages. */
  lemma CompletedArePrefix(events: seq<Event>)
    ensures var r, ms := Run(Fresh(), events), Accepted(events);
            |r.completed| <= |ms| && r.completed == Packets(ms[..|r.completed|])
  {
    hide Packets, Run, Accepted, Packet;
    var r, ms := Run(Fresh(), events), Accepted(events);
    FreshInv();
    RunConserves(Fresh(), events);
    RunAccepts(Fresh(), events);
    assert Fresh().accepted + Packets(ms) == Packets(ms);
    PacketsPrefix(ms, 0);
    assert r.accepted[..|r.completed|] == r.completed;
    PacketsPrefix(ms, |r.completed|);
  }

  lemma FreshInv()
    ensures Inv(Fresh())
  {
    NoPackets();
  }

  /** A message without a body, whose arrival does not make the handler stop the reader. */
  predicate Welcome(m: Message, accepts: Framing.Event -> bool) {
    m.body == [] && accepts(Received(Hop(Sized(m).header), []))
  }

  /** A frame that the reader gets whole, and goes on after. */
  predicate Readable(f: Message, accepts: Framing.Event -> bool) {
    Framed(f) && accepts(Received(Hop(f.header), f.body))
  }

  lemma WelcomeIsReadable(m: Message, accepts: Framing.Event -> bool)
    requires Welcome(m, accepts)
    ensures Readable(Sized(m), accepts)
  {
  }

  lemma {:induction false} AllReadable(ms: seq<Message>, accepts: Framing.Event -> bool)
    requires Queued(ms) && forall i | 0 <= i < |ms| :: Welcome(ms[i], accepts)
    ensures var fs := AllSized(ms); forall i | 0 <= i < |fs| :: Readable(fs[i], accepts)
  {
    hide Welcome, Readable, Sized;
    if ms != [] {
      assert Welcome(ms[0], accepts);
      WelcomeIsReadable(ms[0], accepts);
      AllReadable(ms[1..], accepts);
      assert AllSized(ms) == [Sized(ms[0])] + AllSized(ms[1..]);
    }
  }

  /** After any run of a fresh pump whose messages have no bodies, a fresh reader at the other end that is fed
      with all completed writes has read exactly the first accepted messages, as many as there were
      completions, in order, each one hop older, and waits for the next. */
  lemma PumpReachesReader(events: seq<Event>, accepts: Framing.Event -> bool)
    requires forall e | e in events && e.Send? :: Welcome(e.m, accepts)
    ensures var r, ms := Run(Fresh(), events), Accepted(events);
            && |r.completed| <= |ms|
            && FeedAll(Start(), Stream(r.completed), accepts) ==
               Outcome(Start(), Hopped(AllSized(ms[..|r.completed|])), Going)
  {
    hide Run, Accepted, Packets, Stream, AllSized, FeedAll, Hopped, Framed, Sized, Welcome;
    var r, ms := Run(Fresh(), events), Accepted(events);
    CompletedArePrefix(events);
    var done := ms[..|r.completed|];
    AcceptedWelcome(events, accepts);
    StreamIsFrames(done);
    AllReadable(done, accepts);
    assert forall i | 0 <= i < |done| :: Readable(AllSized(done)[i], accepts);
    StreamIsRead(AllSized(done), accepts);
  }

  lemma {:induction false} AcceptedWelcome(events: seq<Event>, accepts: Framing.Event -> bool)
    requires forall e | e in events && e.Send? :: Welcome(e.m, accepts)
    ensures forall i | 0 <= i < |Accepted(events)| :: Welcome(Accepted(events)[i], accepts)
    decreases |events|
  {
    hide Welcome;
    if events != [] {
      assert forall e | e in events[1..] :: e in events;
      AcceptedWelcome(events[1..], accepts);
    }
  }
}
