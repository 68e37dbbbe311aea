/** test_stream: the scripted stream the read tests give to the asio read operations in
    place of a socket. It holds the bytes to deliver, the position of the next one, and
    a cap on how many bytes one read may deliver. */
module TestStream {
  import opened HttpTypes

  /** The fields of a test_stream: `data` is data_, `length` is length_, `position` is
      position_ and `nextReadLength` is next_read_length_. */
  datatype StreamState = StreamState(data: seq<char>, length: nat, position: nat, nextReadLength: nat)

  /** The state every operation keeps: the length is that of the data, and the position
      never passes it. */
  predicate Valid(s: StreamState)
  {
    s.length == |s.data| && s.position <= s.length
  }

  /** What one read_some does: the bytes it copies, and the state after it. */
  datatype ReadResult = ReadResult(bytes: seq<char>, state: StreamState)

  /** The bytes from the position to the length (none when the position is past it, as
      adding an offset to an asio buffer clamps at its size). */
  function Remaining(s: StreamState): nat
  {
    if s.position <= s.length then s.length - s.position else 0
  }

  /** read_some into a buffer of `capacity` bytes: buffer_copy copies the smallest of the
      capacity, the bytes remaining and the cap, from the position on; the position
      advances by as many. */
  function Read(s: StreamState, capacity: nat): (r: ReadResult)
    requires Valid(s)
    ensures Valid(r.state)
    ensures |r.bytes| <= capacity && |r.bytes| <= s.nextReadLength && |r.bytes| <= s.length - s.position
    ensures |r.bytes| == capacity || |r.bytes| == s.nextReadLength || |r.bytes| == s.length - s.position
    ensures r.bytes == s.data[s.position..s.position + |r.bytes|]
    ensures r.state == s.(position := s.position + |r.bytes|)
    ensures r.bytes == [] <==> capacity == 0 || s.nextReadLength == 0 || s.position == s.length
  {
    var n := Min(capacity, Min(Remaining(s), s.nextReadLength));
    ReadResult(s.data[s.position..s.position + n], s.(position := s.position + n))
  }

  /** Every byte a sequence of reads with a fixed buffer delivers, up to the first read
      that delivers none. */
  function Drain(s: StreamState, capacity: nat): seq<char>
    requires Valid(s)
    decreases s.length - s.position
  {
    var r := Read(s, capacity);
    if r.bytes == [] then [] else r.bytes + Drain(r.state, capacity)
  }

  /** As long as neither the buffer nor the cap is zero, reading until a read delivers
      nothing delivers the rest of the data, in order, each byte once. */
  lemma {:induction false} DrainDeliversRest(s: StreamState, capacity: nat)
    requires Valid(s) && capacity > 0 && s.nextReadLength > 0
    ensures Drain(s, capacity) == s.data[s.position..]
    decreases s.length - s.position
  {
    var r := Read(s, capacity);
    if r.bytes != [] {
      DrainDeliversRest(r.state, capacity);
      assert s.data[s.position..] == r.bytes + s.data[r.state.position..];
    }
  }

  /** The asynchronous read of the read tests: after reset("GET"), one read into a
      100-byte buffer delivers "GET" and the next delivers nothing. */
  lemma ResetGetVector()
    ensures var s := StreamState("GET", 3, 0, 3);
            var r := Read(s, 100);
            r.bytes == "GET" && Read(r.state, 100).bytes == []
  {
  }

  class TestStream {
    var data: seq<char>
    var length: nat
    var position: nat
    var nextReadLength: nat

    function State(): StreamState
      reads this
    {
      StreamState(data, length, position, nextReadLength)
    }

    /** A fresh stream holds nothing and may deliver nothing. */
    constructor ()
      ensures State() == StreamState([], 0, 0, 0) && Valid(State())
    {
      data, length, position, nextReadLength := [], 0, 0, 0;
    }

    /** reset: the string becomes the data, read from its start, with a cap of its whole
        length. */
    method Reset(str: string)
      modifies this
      ensures State() == StreamState(str, |str|, 0, |str|) && Valid(State())
    {
      data := str;
      length := |str|;
      position := 0;
      nextReadLength := |str|;
    }

    /** set_next_read_length: changes the cap and nothing else. */
    method SetNextReadLength(n: nat)
      modifies this
      ensures State() == old(State()).(nextReadLength := n)
    {
      nextReadLength := n;
    }

    /** read_some: copies the next bytes into the front of the buffer, leaves the rest of
        the buffer as it was, and advances the position. */
    method ReadSome(buf: array<char>) returns (n: nat)
      requires Valid(State())
      modifies this, buf
      ensures var r := Read(old(State()), buf.Length);
              n == |r.bytes| && buf[..n] == r.bytes && buf[n..] == old(buf[n..]) && State() == r.state
    {
      n := Min(buf.Length, Min(Remaining(State()), nextReadLength));
      var p := position;
      forall i | 0 <= i < n {
        buf[i] := data[p + i];
      }
      position := position + n;
    }

    /** read_some with an error_code: always reports success. */
    method ReadSomeWithError(buf: array<char>) returns (ec: ErrorCode, n: nat)
      requires Valid(State())
      modifies this, buf
      ensures var r := Read(old(State()), buf.Length);
              ec == NoError && n == |r.bytes| && buf[..n] == r.bytes && buf[n..] == old(buf[n..]) &&
              State() == r.state
    {
      ec := NoError;
      n := ReadSome(buf);
    }

    /** async_read_some: reads at once and posts the completion (no error, count), which
        is returned here. */
    method AsyncReadSome(buf: array<char>) returns (ec: ErrorCode, n: nat)
      requires Valid(State())
      modifies this, buf
      ensures var r := Read(old(State()), buf.Length);
              ec == NoError && n == |r.bytes| && buf[..n] == r.bytes && buf[n..] == old(buf[n..]) &&
              State() == r.state
    {
      n := ReadSome(buf);
      ec := NoError;
    }
  }
}
