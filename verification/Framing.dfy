/** Messages on the wire and the incremental frame reader (p2p-network/src/protocol.cpp,
    p2p-network/src/message.cpp). A frame is a packed header of six bytes and a body; the reader is fed
    with whatever chunks the socket delivers. */
module Framing {
  import opened Strings
  import opened LittleEndian

  const HEADER_SIZE: nat := 6
  const MAX_PKT_SIZE: nat := 10240
  const TWO32: int := 0x1_0000_0000

  type Size32 = n: int | 0 <= n < TWO32

  /** message_header (message.h): a little-endian size, a type and a time to live. */
  datatype Header = Header(size: Size32, kind: Byte, ttl: Byte)

  /** A message; its own size is that of its body. */
  datatype Message = Message(header: Header, body: seq<Byte>)

  function HeaderOf(b: seq<Byte>): Header
    requires |b| >= HEADER_SIZE
  {
    ValueBound(b[..4]);
    Width4();
    Header(Value(b[..4]), b[4], b[5])
  }

  function HeaderBytes(h: Header): (b: seq<Byte>)
    ensures |b| == HEADER_SIZE
  {
    Encoded(h.size, 4) + [h.kind, h.ttl]
  }

  /** A header is read as it was written, whatever follows. */
  lemma HeaderRoundTrip(h: Header, rest: seq<Byte>)
    ensures HeaderOf(HeaderBytes(h) + rest) == h
  {
    hide Encoded, Value;
    Width4();
    ValueOfEncoded(h.size, 4);
    assert (HeaderBytes(h) + rest)[..4] == Encoded(h.size, 4);
  }

  /** Every six bytes are a header, and are written as they were read. */
  lemma HeaderBytesOf(b: seq<Byte>)
    requires |b| == HEADER_SIZE
    ensures HeaderBytes(HeaderOf(b)) == b
  {
    hide Encoded, Value;
    EncodedOfValue(b[..4]);
    assert b == b[..4] + [b[4], b[5]];
  }

  /** `hop` decrements an unsigned byte. */
  function Hop(h: Header): Header {
    h.(ttl := (h.ttl - 1) % 0x100)
  }

  // ----- what the reader does, byte by byte -----

  /** The state of the reader: what is buffered, and the size at which it looks at the buffer again. */
  datatype Reader = Reader(buffer: seq<Byte>, total: nat)

  function Start(): Reader {
    Reader([], HEADER_SIZE)
  }

  /** What the handler is called with. `Received` has the header, one hop older, and the bytes that the
      buffer holds behind it; the message itself is made from them by copying, see `Delivers`. */
  datatype Event =
    | Received(header: Header, buffered: seq<Byte>)
    | TooBig

  /** Whether the reader wants more input; `Hung` is a loop that no longer advances. */
  datatype Status = Going | Stopped | Hung

  datatype Outcome = Outcome(reader: Reader, events: seq<Event>, status: Status)

  /** The handler's answer decides whether reading goes on. */
  function Handled(r: Reader, e: Event, accepts: Event -> bool): Outcome {
    Outcome(r, [e], if accepts(e) then Going else Stopped)
  }

  /** The branches of receive, after bytes have been added to the buffer (protocol.cpp:31-69). */
  function Look(r: Reader, accepts: Event -> bool): Outcome {
    if |r.buffer| == HEADER_SIZE then
      var h := HeaderOf(r.buffer);
      if h.size == 0 then Handled(r.(buffer := []), Received(Hop(h), []), accepts)
      else if h.size > MAX_PKT_SIZE then Outcome(r, [TooBig], Stopped)
      else Outcome(r.(total := h.size), [], Going)
    else if |r.buffer| == r.total && |r.buffer| > HEADER_SIZE then
      Handled(Start(), Received(Hop(HeaderOf(r.buffer)), r.buffer[HEADER_SIZE..]), accepts)
    else Outcome(r, [], Going)
  }

  /** One more byte. When the buffer already has the size that is waited for, no byte is taken, and
      unless that ends in an error the loop of receive repeats itself. */
  function Feed(r: Reader, b: Byte, accepts: Event -> bool): Outcome {
    if |r.buffer| == r.total then
      var o := Look(r, accepts);
      if o.status == Stopped then o else Outcome(o.reader, o.events, Hung)
    else Look(r.(buffer := r.buffer + [b]), accepts)
  }

  function FeedAll(r: Reader, input: seq<Byte>, accepts: Event -> bool): Outcome
    decreases |input|, 0
  {
    if input == [] then Outcome(r, [], Going)
    else Then(Feed(r, input[0], accepts), input[1..], accepts)
  }

  /** Further input, unless the reader has stopped. */
  function Then(o: Outcome, input: seq<Byte>, accepts: Event -> bool): Outcome
    decreases |input|, 1
  {
    if o.status == Going then
      var next := FeedAll(o.reader, input, accepts);
      Outcome(next.reader, o.events + next.events, next.status)
    else o
  }

  /** Framing does not depend on how the input is cut into chunks. */
  lemma {:induction false} ChunkingIsIrrelevant(r: Reader, a: seq<Byte>, b: seq<Byte>, accepts: Event -> bool)
    ensures FeedAll(r, a + b, accepts) == Then(FeedAll(r, a, accepts), b, accepts)
    decreases |a|
  {
    hide Feed;
    if a == [] {
      assert a + b == b;
      var next := FeedAll(r, b, accepts);
      assert [] + next.events == next.events;
    } else {
      assert (a + b)[1..] == a[1..] + b;
      var o := Feed(r, a[0], accepts);
      ChunkingIsIrrelevant(o.reader, a[1..], b, accepts);
      ThenTwice(o, a[1..], b, accepts);
    }
  }

  lemma ThenTwice(o: Outcome, a: seq<Byte>, b: seq<Byte>, accepts: Event -> bool)
    requires FeedAll(o.reader, a + b, accepts) == Then(FeedAll(o.reader, a, accepts), b, accepts)
    ensures Then(o, a + b, accepts) == Then(Then(o, a, accepts), b, accepts)
  {
    hide FeedAll;
    if o.status == Going {
      var first := FeedAll(o.reader, a, accepts);
      var second := FeedAll(first.reader, b, accepts);
      assert o.events + (first.events + second.events) == o.events + first.events + second.events;
    }
  }

  /** The states that the reader can be in between two bytes. */
  predicate Sound(r: Reader) {
    || (|r.buffer| < HEADER_SIZE && r.total == HEADER_SIZE)   // in a header
    || (HEADER_SIZE <= |r.buffer| < r.total)                  // in a body
    || (|r.buffer| >= HEADER_SIZE > r.total > 0)              // a size of 1..5: swallows everything
    || (|r.buffer| == HEADER_SIZE == r.total)                 // a size of 6: hangs; or too big: fails again
  }

  lemma StaysSound(r: Reader, b: Byte, accepts: Event -> bool)
    requires Sound(r)
    ensures Sound(Feed(r, b, accepts).reader)
  {
  }

  /** As long as no size is reached, bytes are only collected. */
  lemma {:induction false} Collects(r: Reader, input: seq<Byte>, accepts: Event -> bool)
    requires Sound(r) && |r.buffer| != r.total
    requires |r.buffer| < HEADER_SIZE ==> |r.buffer| + |input| < HEADER_SIZE
    requires |r.buffer| < r.total ==> |r.buffer| + |input| < r.total
    ensures FeedAll(r, input, accepts) == Outcome(r.(buffer := r.buffer + input), [], Going)
    decreases |input|
  {
    if input == [] {
      assert r.buffer + input == r.buffer;
    } else {
      var r' := r.(buffer := r.buffer + [input[0]]);
      assert r'.buffer + input[1..] == r.buffer + input;
      Collects(r', input[1..], accepts);
    }
  }

  // ----- receive -----

  class Protocol {
    var receiveBuffer: seq<Byte>
    var recvTotalSize: nat
    var sendQueue: seq<Message>

    ghost function State(): Reader
      reads this
    {
      Reader(receiveBuffer, recvTotalSize)
    }

    constructor ()
      ensures State() == Start() && sendQueue == []
    {
      receiveBuffer, recvTotalSize, sendQueue := [], HEADER_SIZE, [];
    }

    /** receive (18-74): takes as many bytes at once as the target allows. The subtraction of sizes wraps
        around, so that a target below what is buffered takes everything. The events are those that the
        handler was called with. */
    method Receive(input: seq<Byte>, accepts: Event -> bool) returns (events: seq<Event>, status: Status)
      requires Sound(State())
      modifies this`receiveBuffer, this`recvTotalSize
      ensures Outcome(State(), events, status) == FeedAll(old(State()), input, accepts)
      ensures Sound(State())
    {
      hide Look, FeedAll, Then, Sound;
      events, status := [], Going;
      var i := 0;
      FeedNone(State(), accepts);
      assert input[..0] == [];
      while i < |input|
        invariant i <= |input| && Sound(State())
        invariant Outcome(State(), events, Going) == FeedAll(old(State()), input[..i], accepts)
      {
        ghost var before := State();
        var available := |input| - i;
        var remaining := if recvTotalSize < |receiveBuffer| then available else recvTotalSize - |receiveBuffer|;
        if remaining > available {
          remaining := available;
        }
        receiveBuffer := receiveBuffer + input[i..i + remaining];
        var looked := Look(Reader(receiveBuffer, recvTotalSize), accepts);
        receiveBuffer, recvTotalSize := looked.reader.buffer, looked.reader.total;
        if remaining == 0 {
          NoByteTaken(before, input, i, old(State()), accepts, Outcome(before, events, Going));
          return events + looked.events, if looked.status == Stopped then Stopped else Hung;
        }
        TakesChunk(before, input, i, remaining, old(State()), accepts, Outcome(before, events, Going));
        events := events + looked.events;
        if looked.status != Going {
          status := looked.status;
          return;
        }
        i := i + remaining;
      }
      assert input[..i] == input;
    }

    /** send (76-81): a message that is too big is refused with an exception. */
    method Send(m: Message) returns (accepted: bool)
      modifies this`sendQueue
      ensures accepted == (|m.body| <= MAX_PKT_SIZE)
      ensures sendQueue == if accepted then old(sendQueue) + [m] else old(sendQueue)
    {
      accepted := |m.body| <= MAX_PKT_SIZE;
      if accepted {
        sendQueue := sendQueue + [m];
      }
    }

    method HasPacket() returns (r: bool)
      ensures r == (sendQueue != [])
    {
      r := sendQueue != [];
    }

    /** get_packet (88-100). */
    method GetPacket() returns (packet: seq<Byte>)
      requires sendQueue != [] && |sendQueue[0].body| < TWO32
      modifies this`sendQueue
      ensures packet == Packet(old(sendQueue)[0]) && sendQueue == old(sendQueue)[1..]
    {
      var m := sendQueue[0];
      packet := HeaderBytes(m.header.(size := |m.body|)) + m.body;
      sendQueue := sendQueue[1..];
    }
  }

  /** The bytes of a message on the wire: the size in the header is that of the body. */
  function Packet(m: Message): seq<Byte>
    requires |m.body| < TWO32
  {
    HeaderBytes(m.header.(size := |m.body|)) + m.body
  }

  lemma FeedNone(r: Reader, accepts: Event -> bool)
    ensures FeedAll(r, [], accepts) == Outcome(r, [], Going)
  {
  }

  lemma FeedOne(r: Reader, b: Byte, accepts: Event -> bool)
    ensures FeedAll(r, [b], accepts) == Feed(r, b, accepts)
  {
    hide Feed;
    var o := Feed(r, b, accepts);
    assert [b][1..] == [];
    FeedNone(o.reader, accepts);
    assert o.events + [] == o.events;
  }

  /** A chunk that reaches at most the next target. */
  lemma FeedChunk(r: Reader, chunk: seq<Byte>, accepts: Event -> bool)
    requires Sound(r) && |r.buffer| != r.total && chunk != []
    requires |r.buffer| < r.total ==> |r.buffer| + |chunk| <= r.total
    ensures FeedAll(r, chunk, accepts) == Look(r.(buffer := r.buffer + chunk), accepts)
    ensures Sound(FeedAll(r, chunk, accepts).reader)
  {
    hide FeedAll, Look;
    var n := |chunk| - 1;
    assert chunk == chunk[..n] + [chunk[n]];
    Collects(r, chunk[..n], accepts);
    ChunkingIsIrrelevant(r, chunk[..n], [chunk[n]], accepts);
    var r' := r.(buffer := r.buffer + chunk[..n]);
    FeedOne(r', chunk[n], accepts);
    assert r.buffer + chunk[..n] + [chunk[n]] == r.buffer + chunk;
    var o := Feed(r', chunk[n], accepts);
    assert [] + o.events == o.events;
    StaysSound(r', chunk[n], accepts);
  }

  lemma TakesChunk(r: Reader, input: seq<Byte>, i: nat, n: nat, start: Reader, accepts: Event -> bool, o: Outcome)
    requires Sound(r) && i + n <= |input| && n > 0 && o.reader == r && o.status == Going
    requires o == FeedAll(start, input[..i], accepts)
    requires |r.buffer| != r.total && (|r.buffer| < r.total ==> |r.buffer| + n <= r.total)
    ensures var looked := Look(r.(buffer := r.buffer + input[i..i + n]), accepts);
            && Sound(looked.reader)
            && Outcome(looked.reader, o.events + looked.events, looked.status)
               == FeedAll(start, input[..i + n], accepts)
            && (looked.status != Going ==>
                  Outcome(looked.reader, o.events + looked.events, looked.status) == FeedAll(start, input, accepts))
  {
    hide FeedAll, Look, Sound;
    var chunk := input[i..i + n];
    FeedChunk(r, chunk, accepts);
    assert input[..i + n] == input[..i] + chunk;
    ChunkingIsIrrelevant(start, input[..i], chunk, accepts);
    assert input == input[..i + n] + input[i + n..];
    ChunkingIsIrrelevant(start, input[..i + n], input[i + n..], accepts);
  }

  lemma NoByteTaken(r: Reader, input: seq<Byte>, i: nat, start: Reader, accepts: Event -> bool, o: Outcome)
    requires Sound(r) && i < |input| && o.reader == r && o.status == Going && o == FeedAll(start, input[..i], accepts)
    requires |r.buffer| == r.total
    ensures var looked := Look(r, accepts);
            && Sound(looked.reader) && r.buffer + input[i..i] == r.buffer
            && Outcome(looked.reader, o.events + looked.events, if looked.status == Stopped then Stopped else Hung) ==
               FeedAll(start, input, accepts)
  {
    hide FeedAll, Look, Sound;
    var b, rest := input[i], input[i + 1..];
    assert input == input[..i] + ([b] + rest);
    ChunkingIsIrrelevant(start, input[..i], [b] + rest, accepts);
    ChunkingIsIrrelevant(r, [b], rest, accepts);
    FeedOne(r, b, accepts);
    StaysSound(r, b, accepts);
  }

  // ----- the copy that the handler gets -----

  /** The messages that `message(header, buf)` can make of an event (message.cpp:12-17): it copies as many
      bytes as the header says. What the buffer does not hold comes from behind it, and can be anything. */
  predicate Delivers(e: Event, m: Message)
    requires e.Received?
  {
    && m.header == e.header && |m.body| == e.header.size
    && forall i | 0 <= i < |m.body| && i < |e.buffered| :: m.body[i] == e.buffered[i]
  }

  /** The copy reads nothing but the buffer. */
  predicate CopiesInside(e: Event)
    requires e.Received?
  {
    e.header.size <= |e.buffered|
  }

  /** An event with a body always declares six bytes more than are buffered. */
  predicate Declared(e: Event) {
    e.Received? ==> if e.header.size == 0 then e.buffered == [] else e.header.size == HEADER_SIZE + |e.buffered|
  }

  /** A body is collected up to the size that the header at its front declares. */
  predicate Targeted(r: Reader) {
    Sound(r) && (HEADER_SIZE < r.total ==> |r.buffer| >= HEADER_SIZE && r.total == HeaderOf(r.buffer).size)
  }

  lemma LookDeclares(r: Reader, accepts: Event -> bool)
    requires |r.buffer| == r.total > HEADER_SIZE ==> r.total == HeaderOf(r.buffer).size
    ensures forall e | e in Look(r, accepts).events :: Declared(e)
  {
    hide HeaderOf;
  }

  lemma FeedDeclares(r: Reader, b: Byte, accepts: Event -> bool)
    requires Targeted(r)
    ensures Targeted(Feed(r, b, accepts).reader)
    ensures forall e | e in Feed(r, b, accepts).events :: Declared(e)
  {
    hide HeaderOf;
    StaysSound(r, b, accepts);
    if |r.buffer| == r.total {
      LookDeclares(r, accepts);
    } else {
      var buffer := r.buffer + [b];
      if |r.buffer| >= HEADER_SIZE {
        SameHeader(r.buffer, [b]);
      }
      LookDeclares(r.(buffer := buffer), accepts);
    }
  }

  lemma SameHeader(a: seq<Byte>, b: seq<Byte>)
    requires |a| >= HEADER_SIZE
    ensures HeaderOf(a + b) == HeaderOf(a)
  {
    hide Value;
    assert (a + b)[..4] == a[..4];
  }

  lemma {:induction false} AllDeclare(r: Reader, input: seq<Byte>, accepts: Event -> bool)
    requires Targeted(r)
    ensures forall e | e in FeedAll(r, input, accepts).events :: Declared(e)
    decreases |input|
  {
    hide Feed, Targeted, Declared;
    if input != [] {
      FeedDeclares(r, input[0], accepts);
      var o := Feed(r, input[0], accepts);
      if o.status == Going {
        AllDeclare(o.reader, input[1..], accepts);
      }
    }
  }

  /** Whatever a fresh reader is fed with: the copy of a message stays inside the buffer exactly when its
      header declares no size; in every other case it reads the six bytes behind the buffer as well. */
  lemma CopyStaysInsideIff(input: seq<Byte>, accepts: Event -> bool, e: Event)
    requires e in FeedAll(Start(), input, accepts).events && e.Received?
    ensures CopiesInside(e) <==> e.header.size == 0
    ensures !CopiesInside(e) ==> e.header.size == |e.buffered| + HEADER_SIZE
  {
    hide FeedAll;
    AllDeclare(Start(), input, accepts);
  }

  /** So the handler's message is determined by what was received exactly when there is no size. */
  lemma DeliveryIsDeterminedIff(input: seq<Byte>, accepts: Event -> bool, e: Event)
    requires e in FeedAll(Start(), input, accepts).events && e.Received?
    ensures (forall m, n | Delivers(e, m) && Delivers(e, n) :: m == n) <==> e.header.size == 0
  {
    hide FeedAll;
    CopyStaysInsideIff(input, accepts, e);
    if e.header.size != 0 {
      var m := Message(e.header, e.buffered + Repeat(0, HEADER_SIZE));
      var n := Message(e.header, e.buffered + Repeat(1, HEADER_SIZE));
      assert m.body[|e.buffered|] != n.body[|e.buffered|];
      assert Delivers(e, m) && Delivers(e, n) && m != n;
    }
  }

  // ----- frames -----

  /** The frames that the reader takes apart as they were put together: the size in the header is that
      of the whole frame, or zero when there is no body. */
  predicate Framed(m: Message) {
    if m.body == [] then m.header.size == 0
    else m.header.size == HEADER_SIZE + |m.body| <= MAX_PKT_SIZE
  }

  function Frame(m: Message): seq<Byte> {
    HeaderBytes(m.header) + m.body
  }

  /** A frame gives one event, with its header, one hop older, and its body. */
  lemma FrameIsRead(m: Message, accepts: Event -> bool)
    requires Framed(m)
    ensures FeedAll(Start(), Frame(m), accepts) == Handled(Start(), Received(Hop(m.header), m.body), accepts)
  {
    hide FeedAll, HeaderBytes, HeaderOf, Handled, Feed;
    var header := HeaderBytes(m.header);
    HeaderRoundTrip(m.header, []);
    assert header + [] == header && [] + header == header;
    FeedChunk(Start(), header, accepts);
    if m.body == [] {
      assert Frame(m) == header;
    } else {
      ChunkingIsIrrelevant(Start(), header, m.body, accepts);
      var r := Reader(header, m.header.size);
      FeedChunk(r, m.body, accepts);
      HeaderRoundTrip(m.header, m.body);
      assert (header + m.body)[HEADER_SIZE..] == m.body;
      var o := FeedAll(r, m.body, accepts);
      assert [] + o.events == o.events;
    }
  }

  function Frames(ms: seq<Message>): seq<Byte> {
    if ms == [] then [] else Frame(ms[0]) + Frames(ms[1..])
  }

  function Hopped(ms: seq<Message>): seq<Event> {
    if ms == [] then [] else [Received(Hop(ms[0].header), ms[0].body)] + Hopped(ms[1..])
  }

  /** A stream of frames gives their headers, one hop older, and their bodies, with nothing left over. */
  lemma {:induction false} StreamIsRead(ms: seq<Message>, accepts: Event -> bool)
    requires forall i | 0 <= i < |ms| :: Framed(ms[i]) && accepts(Received(Hop(ms[i].header), ms[i].body))
    ensures FeedAll(Start(), Frames(ms), accepts) == Outcome(Start(), Hopped(ms), Going)
    decreases |ms|
  {
    hide FeedAll, Hop;
    if ms == [] {
      FeedNone(Start(), accepts);
    } else {
      FrameIsRead(ms[0], accepts);
      StreamIsRead(ms[1..], accepts);
      ChunkingIsIrrelevant(Start(), Frame(ms[0]), Frames(ms[1..]), accepts);
    }
  }

  /** What a header does to a fresh reader, by the size that it declares. The handler sees it with one hop
      less, which wraps around. */
  lemma HeaderDecides(h: Header, accepts: Event -> bool)
    ensures var hopped := Header(h.size, h.kind, if h.ttl == 0 then 255 else h.ttl - 1);
            FeedAll(Start(), HeaderBytes(h), accepts) ==
            if h.size == 0 then
              Outcome(Start(), [Received(hopped, [])], if accepts(Received(hopped, [])) then Going else Stopped)
            else if h.size > MAX_PKT_SIZE then Outcome(Reader(HeaderBytes(h), HEADER_SIZE), [TooBig], Stopped)
            else Outcome(Reader(HeaderBytes(h), h.size), [], Going)
  {
    hide FeedAll, HeaderBytes, HeaderOf;
    var header := HeaderBytes(h);
    HeaderRoundTrip(h, []);
    assert header + [] == header && [] + header == header;
    FeedChunk(Start(), header, accepts);
  }

  /** Behind any number of frames, a size above the maximum ends the connection, and whatever is read after
      that fails in the same way. */
  lemma OversizedFails(ms: seq<Message>, h: Header, rest: seq<Byte>, again: seq<Byte>, accepts: Event -> bool)
    requires forall i | 0 <= i < |ms| :: Framed(ms[i]) && accepts(Received(Hop(ms[i].header), ms[i].body))
    requires h.size > MAX_PKT_SIZE && again != []
    ensures var o := FeedAll(Start(), Frames(ms) + (HeaderBytes(h) + rest), accepts);
            && o.events == Hopped(ms) + [TooBig] && o.status == Stopped
            && FeedAll(o.reader, again, accepts) == Outcome(o.reader, [TooBig], Stopped)
  {
    hide FeedAll, HeaderBytes, HeaderOf, Hop, Framed, Frames, Hopped;
    StreamIsRead(ms, accepts);
    ChunkingIsIrrelevant(Start(), Frames(ms), HeaderBytes(h) + rest, accepts);
    HeaderDecides(h, accepts);
    ChunkingIsIrrelevant(Start(), HeaderBytes(h), rest, accepts);
    var r := Reader(HeaderBytes(h), HEADER_SIZE);
    HeaderRoundTrip(h, []);
    assert HeaderBytes(h) + [] == HeaderBytes(h);
    assert again == [again[0]] + again[1..];
    FeedOne(r, again[0], accepts);
    ChunkingIsIrrelevant(r, [again[0]], again[1..], accepts);
  }

  // ----- packets -----

  /** The message as get_packet writes it. */
  function Sized(m: Message): Message
    requires |m.body| < TWO32
  {
    m.(header := m.header.(size := |m.body|))
  }

  /** One message has been read, nothing is left over, and the handler gets that message, one hop older. */
  ghost predicate ReadsBack(o: Outcome, m: Message) {
    && o.reader == Start() && o.status == Going && |o.events| == 1 && o.events[0].Received?
    && forall x | Delivers(o.events[0], x) :: x == m.(header := Hop(m.header))
  }

  /** What get_packet writes is read back as the message exactly when the message has no body: the size
      that get_packet writes leaves out the header, but the reader counts it. */
  lemma PacketIsReadIff(m: Message, accepts: Event -> bool)
    requires |m.body| <= MAX_PKT_SIZE && accepts(Received(Hop(Sized(m).header), m.body))
    ensures ReadsBack(FeedAll(Start(), Packet(m), accepts), Sized(m)) <==> m.body == []
  {
    hide FeedAll, HeaderBytes, HeaderOf;
    if m.body == [] {
      assert Packet(m) == Frame(Sized(m));
      FrameIsRead(Sized(m), accepts);
    } else {
      BodyIsCut(m, accepts);
      var o := FeedAll(Start(), Packet(m), accepts);
      if |m.body| > HEADER_SIZE {
        DeliveryIsDeterminedIff(Packet(m), accepts, o.events[0]);
      }
    }
  }

  /** With a body, the reader swallows it, hangs on it, or takes its last six bytes for the next header: the
      handler then gets the front of the body and six bytes from behind the buffer. */
  lemma BodyIsCut(m: Message, accepts: Event -> bool)
    requires 0 < |m.body| <= MAX_PKT_SIZE
    ensures var o := FeedAll(Start(), Packet(m), accepts); var n := |m.body| - HEADER_SIZE;
            if n < 0 then o.events == [] && o.status == Going
            else if n == 0 then o.events == [] && o.status == Hung
            else
              var e := Received(Hop(Sized(m).header), m.body[..n]);
              o.events != [] && o.events[0] == e && !CopiesInside(e)
  {
    hide FeedAll, HeaderBytes, HeaderOf, Handled;
    var n := |m.body|;
    var h := Sized(m).header;
    var header := HeaderBytes(h);
    HeaderRoundTrip(h, []);
    assert header + [] == header && [] + header == header;
    FeedChunk(Start(), header, accepts);
    ChunkingIsIrrelevant(Start(), header, m.body, accepts);
    var r := Reader(header, n);
    if n < HEADER_SIZE {
      FeedChunk(r, m.body, accepts);
    } else if n == HEADER_SIZE {
      Hangs(r, m.body, accepts);
    } else {
      var k := n - HEADER_SIZE;
      assert m.body == m.body[..k] + m.body[k..];
      ChunkingIsIrrelevant(r, m.body[..k], m.body[k..], accepts);
      FeedChunk(r, m.body[..k], accepts);
      HeaderRoundTrip(h, m.body[..k]);
      FirstEvent(r, h, m.body[..k], accepts);
    }
  }

  lemma FirstEvent(r: Reader, h: Header, chunk: seq<Byte>, accepts: Event -> bool)
    requires |r.buffer| == HEADER_SIZE && chunk != [] && |r.buffer| + |chunk| == r.total
    requires HeaderOf(r.buffer + chunk) == h
    ensures var o := Look(r.(buffer := r.buffer + chunk), accepts);
            o.events != [] && o.events[0] == Received(Hop(h), chunk)
  {
    hide HeaderOf;
    assert (r.buffer + chunk)[HEADER_SIZE..] == chunk;
  }

  lemma Hangs(r: Reader, input: seq<Byte>, accepts: Event -> bool)
    requires |r.buffer| == HEADER_SIZE == r.total && HeaderOf(r.buffer).size == HEADER_SIZE && input != []
    ensures FeedAll(r, input, accepts).status == Hung && FeedAll(r, input, accepts).events == []
  {
  }
}
