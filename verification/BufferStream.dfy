/** The byte buffer with a cursor that messages and encoded blocks are written to and read from
    (p2p-network/include/buffer_stream.hpp). */
module BufferStream {
  import opened Strings
  import opened LittleEndian

  /** `buf_` and `n_`. */
  datatype Stream = Stream(buf: seq<Byte>, n: nat)

  predicate Sound(s: Stream) {
    s.n <= |s.buf|
  }

  /** What is still to be read. */
  function Unread(s: Stream): seq<Byte>
    requires Sound(s)
  {
    s.buf[s.n..]
  }

  /** write inserts at the cursor, and moves it behind what was inserted. */
  function Written(s: Stream, bytes: seq<Byte>): (r: Stream)
    requires Sound(s)
    ensures Sound(r)
  {
    Stream(s.buf[..s.n] + bytes + s.buf[s.n..], s.n + |bytes|)
  }

  lemma WrittenTwice(s: Stream, a: seq<Byte>, b: seq<Byte>)
    requires Sound(s)
    ensures Written(Written(s, a), b) == Written(s, a + b)
  {
    var r := Written(s, a);
    assert r.buf[..r.n] == s.buf[..s.n] + a;
    assert r.buf[r.n..] == s.buf[s.n..];
    assert s.buf[..s.n] + a + b + s.buf[s.n..] == s.buf[..s.n] + (a + b) + s.buf[s.n..];
  }

  lemma WrittenNothing(s: Stream)
    requires Sound(s)
    ensures Written(s, []) == s
  {
    assert s.buf[..s.n] + [] + s.buf[s.n..] == s.buf;
  }

  /** What has been written is found again once the cursor is moved back. */
  lemma ReadBack(s: Stream, bytes: seq<Byte>)
    requires Sound(s)
    ensures var r := Written(s, bytes).(n := s.n); Sound(r) && Unread(r) == bytes + s.buf[s.n..]
  {
    assert (s.buf[..s.n] + bytes + s.buf[s.n..])[s.n..] == bytes + s.buf[s.n..];
  }

  class BufferStream {
    var buf: seq<Byte>
    var n: nat

    ghost function State(): Stream
      reads this
    {
      Stream(buf, n)
    }

    constructor ()
      ensures State() == Stream([], 0)
    {
      buf, n := [], 0;
    }

    method Write(bytes: seq<Byte>)
      requires Sound(State())
      modifies this
      ensures State() == Written(old(State()), bytes)
    {
      buf := buf[..n] + bytes + buf[n..];
      n := n + |bytes|;
    }

    /** `write(val)` of an unsigned integer that is `k` bytes wide. */
    method WriteUint(val: nat, k: nat)
      requires Sound(State())
      modifies this
      ensures State() == Written(old(State()), Encoded(val, k))
    {
      Write(Encoded(val, k));
    }

    /** read throws at the end of the stream, and then leaves the cursor. */
    method Read(count: nat) returns (r: Option<seq<Byte>>)
      requires Sound(State())
      modifies this`n
      ensures r == if count <= |Unread(old(State()))| then Some(Unread(old(State()))[..count]) else None
      ensures State() == if r.Some? then old(State()).(n := old(n) + count) else old(State())
    {
      if |buf| - n < count {
        return None;
      }
      r := Some(buf[n..n + count]);
      assert buf[n..][..count] == buf[n..n + count];
      n := n + count;
    }

    method MoveTo(offset: nat) returns (ok: bool)
      requires Sound(State())
      modifies this`n
      ensures ok == (offset <= |buf|) && State() == if ok then old(State()).(n := offset) else old(State())
    {
      ok := offset <= |buf|;
      if ok {
        n := offset;
      }
    }
  }
}
