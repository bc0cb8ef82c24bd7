/** `BufferStream` (src/common/buffer_stream.cpp, and the identical local
    class in src/tests/archive.cpp): an in-memory byte queue backed by a
    `std::basic_stringstream<char>`. Bytes written are appended after
    everything written before; a read takes bytes from the front.

    The stream follows the standard stream state rules: a read that cannot
    deliver all the bytes asked for delivers what remains and puts the
    stream into the failed state, after which reads deliver nothing and
    writes are ignored. */
module ByteStreams {
  import opened ByteCodecs

  /** The bytes written but not yet read, and whether the fail bit is set. */
  datatype StreamState = StreamState(unread: seq<Byte>, failed: bool)

  /** The state after `write`. */
  function AfterWrite(s: StreamState, bytes: seq<Byte>): StreamState {
    if s.failed then s else StreamState(s.unread + bytes, false)
  }

  /** The bytes `read(numBytes)` delivers: as many as remain, up to
      `numBytes`, from the front; none once the stream has failed. */
  function Delivered(s: StreamState, numBytes: nat): (d: seq<Byte>)
    ensures |d| <= numBytes
  {
    if s.failed then []
    else if numBytes <= |s.unread| then s.unread[..numBytes]
    else s.unread
  }

  /** The state after `read(numBytes)`. */
  function AfterRead(s: StreamState, numBytes: nat): StreamState {
    if s.failed then s
    else if numBytes <= |s.unread| then StreamState(s.unread[numBytes..], false)
    else StreamState([], true)
  }

  /** A read of bytes that are all there delivers them in the order they
      were written and leaves the rest for later reads. */
  lemma ReadFront(s: StreamState, front: seq<Byte>, rest: seq<Byte>)
    requires !s.failed && s.unread == front + rest
    ensures Delivered(s, |front|) == front
    ensures AfterRead(s, |front|) == StreamState(rest, false)
  {
    assert s.unread[..|front|] == front;
    assert s.unread[|front|..] == rest;
  }

  /** Reading back after writing returns the written bytes unchanged: on a
      stream that holds nothing unread, a read of exactly the written length
      delivers exactly the written bytes and leaves the stream empty. */
  lemma WriteThenRead(s: StreamState, bytes: seq<Byte>)
    requires !s.failed && |s.unread| == 0
    ensures Delivered(AfterWrite(s, bytes), |bytes|) == bytes
    ensures AfterRead(AfterWrite(s, bytes), |bytes|) == StreamState([], false)
  {
    assert s.unread + bytes == bytes;
  }

  /** Two writes in a row leave the stream as one write of both byte
      strings would. */
  lemma AfterWriteConcat(s: StreamState, a: seq<Byte>, b: seq<Byte>)
    ensures AfterWrite(AfterWrite(s, a), b) == AfterWrite(s, a + b)
  {
    if !s.failed {
      assert (s.unread + a) + b == s.unread + (a + b);
    }
  }

  /** Two writes followed by reads of the same lengths give the bytes back in
      order: the queue is first in, first out. */
  lemma FirstInFirstOut(s: StreamState, a: seq<Byte>, b: seq<Byte>)
    requires !s.failed
    ensures Delivered(AfterWrite(AfterWrite(s, a), b), |s.unread| + |a|) == s.unread + a
    ensures Delivered(AfterRead(AfterWrite(AfterWrite(s, a), b), |s.unread| + |a|), |b|) == b
  {
    var t := AfterWrite(AfterWrite(s, a), b);
    assert t.unread == (s.unread + a) + b;
    ReadFront(t, s.unread + a, b);
    ReadFront(StreamState(b, false), b, []);
  }

  /** Asking for more bytes than remain delivers a short count and leaves
      the stream failed; asking for no more than remain delivers exactly
      the number asked for. */
  lemma ShortRead(s: StreamState, numBytes: nat)
    requires !s.failed
    ensures |Delivered(s, numBytes)| < numBytes <==> numBytes > |s.unread|
    ensures AfterRead(s, numBytes).failed <==> numBytes > |s.unread|
  {
  }

  class BufferStream {
    /** The bytes of `mBufferStream` between its read and write positions. */
    var unread: seq<Byte>
    /** The stream's fail bit. */
    var failed: bool

    function State(): StreamState
      reads this
    {
      StreamState(unread, failed)
    }

    /** The default constructor: an empty, good stream. */
    constructor ()
      ensures unread == [] && !failed
    {
      unread := [];
      failed := false;
    }

    /** `write(data, numBytes)`: appends the bytes. */
    method Write(bytes: seq<Byte>)
      modifies this
      ensures State() == AfterWrite(old(State()), bytes)
      ensures !old(failed) ==> unread == old(unread) + bytes
    {
      if !failed {
        unread := unread + bytes;
      }
    }

    /** `read(data, numBytes)`: the bytes delivered and their count, which
        is never more than `numBytes`. */
    method Read(numBytes: nat) returns (data: seq<Byte>, count: nat)
      modifies this
      ensures data == Delivered(old(State()), numBytes)
      ensures count == |data| <= numBytes
      ensures State() == AfterRead(old(State()), numBytes)
    {
      if failed {
        data := [];
      } else if numBytes <= |unread| {
        data := unread[..numBytes];
        unread := unread[numBytes..];
      } else {
        data := unread;
        unread := [];
        failed := true;
      }
      count := |data|;
    }
  }
}
