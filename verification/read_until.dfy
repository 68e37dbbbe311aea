/** The parts of Boost.Asio the client is built on, as seen from one connection: a
    stream socket that hands out the peer's bytes a bounded piece at a time, a
    `boost::asio::streambuf` that collects them, and the composed operations
    `async_read_until` (with a delimiter) and `async_read` (transfer all).

    A `Wire` is the state of one connection at a moment: `buf` is what the
    streambuf holds, `input` what the peer has sent and the socket has not yet
    delivered. The peer has closed once `input` has been delivered completely. */
module AsioModel {
  import opened HttpTypes

  /** How many bytes one read_some hands over at most (never zero). */
  type ReadSize = n: nat | n > 0 witness 1

  datatype Wire = Wire(buf: seq<char>, input: seq<char>)
  {
    /** Everything still to be read by the application, in order. */
    function Stream(): seq<char>
    {
      buf + input
    }
  }

  /** What a completion handler receives, and the connection after the operation. */
  datatype Completion = Completion(ec: ErrorCode, n: nat, wire: Wire)

  /** `d` occurs in `s` ending just before index `k`. */
  predicate EndsAt(s: seq<char>, d: seq<char>, k: int)
  {
    |d| <= k <= |s| && s[k - |d|..k] == d
  }

  /** `k` is the end of the first occurrence of `d` in `s`. */
  predicate FirstEnd(s: seq<char>, d: seq<char>, k: nat)
  {
    EndsAt(s, d, k) && forall j :: 0 <= j < k ==> !EndsAt(s, d, j)
  }

  predicate Absent(s: seq<char>, d: seq<char>)
  {
    forall j :: 0 <= j <= |s| ==> !EndsAt(s, d, j)
  }

  function FindEndFrom(s: seq<char>, d: seq<char>, k: nat): (r: Option<nat>)
    requires |d| <= k
    ensures r.Some? ==> k <= r.value && EndsAt(s, d, r.value)
    ensures r.Some? ==> forall j :: k <= j < r.value ==> !EndsAt(s, d, j)
    ensures r.None? ==> forall j :: k <= j ==> !EndsAt(s, d, j)
    decreases |s| + 1 - k
  {
    if k > |s| then None
    else if s[k - |d|..k] == d then Some(k)
    else FindEndFrom(s, d, k + 1)
  }

  /** The offset just past the first occurrence of `d` in `s`, if there is one. */
  function FindEnd(s: seq<char>, d: seq<char>): (r: Option<nat>)
    ensures r.Some? ==> FirstEnd(s, d, r.value)
    ensures r.None? ==> Absent(s, d)
  {
    FindEndFrom(s, d, |d|)
  }

  lemma FirstEndUnique(s: seq<char>, d: seq<char>, k: nat)
    requires FirstEnd(s, d, k)
    ensures FindEnd(s, d) == Some(k)
  {
  }

  lemma EndsAtPrefix(s: seq<char>, t: seq<char>, d: seq<char>, j: int)
    requires j <= |s|
    ensures EndsAt(s + t, d, j) == EndsAt(s, d, j)
  {
    if |d| <= j {
      assert (s + t)[j - |d|..j] == s[j - |d|..j];
    }
  }

  /** Bytes that arrive after the first occurrence do not move it. */
  lemma FindEndExtend(s: seq<char>, t: seq<char>, d: seq<char>)
    requires FindEnd(s, d).Some?
    ensures FindEnd(s + t, d) == FindEnd(s, d)
  {
    var k := FindEnd(s, d).value;
    forall j | 0 <= j <= k
      ensures EndsAt(s + t, d, j) == EndsAt(s, d, j)
    {
      EndsAtPrefix(s, t, d, j);
    }
    FirstEndUnique(s + t, d, k);
  }

  /** streambuf::consume(n): drops the first n bytes, or all of them if fewer are held. */
  function Consume(w: Wire, n: nat): Wire
  {
    Wire(w.buf[Min(n, |w.buf|)..], w.input)
  }

  lemma ConsumeStream(w: Wire, n: nat)
    requires n <= |w.buf|
    ensures Consume(w, n).Stream() == w.Stream()[n..]
  {
  }

  /** async_read_until(socket, streambuf, delim): the delimiter is searched for in the
      buffer first (an operation whose delimiter is already buffered completes without
      reading); otherwise read_some appends up to `rs` bytes and the search is repeated.
      A read that finds the peer closed ends the operation with end of stream and
      leaves the buffer as it is. */
  function ReadUntil(w: Wire, rs: ReadSize, d: seq<char>): (r: Completion)
    ensures r.wire.Stream() == w.Stream()
    ensures w.buf <= r.wire.buf
    ensures r.ec == NoError ==> FirstEnd(r.wire.buf, d, r.n)
    ensures r.ec != NoError ==>
              r.ec == EndOfStream && r.n == 0 && r.wire.input == [] && Absent(r.wire.buf, d)
    ensures FindEnd(w.buf, d).Some? ==> r.wire == w
    ensures r.wire != w ==> |r.wire.buf| < r.n + rs || r.ec != NoError
    decreases |w.input|
  {
    if FindEnd(w.buf, d).Some? then Completion(NoError, FindEnd(w.buf, d).value, w)
    else if w.input == [] then Completion(EndOfStream, 0, w)
    else
      var m := Min(rs, |w.input|);
      var w' := Wire(w.buf + w.input[..m], w.input[m..]);
      assert w'.Stream() == w.Stream() by {
        assert w.input == w.input[..m] + w.input[m..];
      }
      var r := ReadUntil(w', rs, d);
      assert r.ec == NoError ==> |w.buf| < r.n by {
        if r.ec == NoError && r.n <= |w.buf| && r.wire == w' {
          EndsAtPrefix(w.buf, w.input[..m], d, r.n);
        }
      }
      r
  }

  /** The operation succeeds exactly when the delimiter occurs in what the peer sends,
      and then it reports the first occurrence with all of it in the buffer. */
  lemma ReadUntilFindsFirstInStream(w: Wire, rs: ReadSize, d: seq<char>)
    ensures ReadUntil(w, rs, d).ec == NoError <==> FindEnd(w.Stream(), d).Some?
    ensures ReadUntil(w, rs, d).ec == NoError ==>
              FindEnd(w.Stream(), d) == Some(ReadUntil(w, rs, d).n) &&
              ReadUntil(w, rs, d).n <= |ReadUntil(w, rs, d).wire.buf|
  {
    var r := ReadUntil(w, rs, d);
    if r.ec == NoError {
      FirstEndUnique(r.wire.buf, d, r.n);
      FindEndExtend(r.wire.buf, r.wire.input, d);
    } else {
      assert r.wire.buf == w.Stream();
    }
  }

  /** Where the search for `d` resumes after a miss that searched from `from`: at the
      first position from which the rest of the buffer could still begin `d` (a partial
      match), or at the end of the buffer. */
  function ResumeAt(buf: seq<char>, d: seq<char>, from: nat): (k: nat)
    requires from <= |buf|
    ensures from <= k <= |buf|
    ensures buf[k..] <= d
    ensures forall j :: from <= j < k ==> !(buf[j..] <= d)
    decreases |buf| - from
  {
    if buf[from..] <= d then from else ResumeAt(buf, d, from + 1)
  }

  /** async_read_until continuing from a stored search position `from`: only occurrences
      of `d` that start at or after `from` are found, and after each miss the position
      moves to ResumeAt. A position past the end of the buffer finds nothing there. */
  function ReadUntilFrom(w: Wire, rs: ReadSize, d: seq<char>, from: nat): (r: Completion)
    ensures r.wire.Stream() == w.Stream()
    ensures w.buf <= r.wire.buf
    ensures r.ec == NoError ==> from + |d| <= r.n && EndsAt(r.wire.buf, d, r.n)
    ensures r.ec == NoError ==> forall j :: from + |d| <= j < r.n ==> !EndsAt(r.wire.buf, d, j)
    ensures r.ec != NoError ==> r.ec == EndOfStream && r.n == 0 && r.wire.input == []
    decreases |w.input|
  {
    var f := FindEndFrom(w.buf, d, from + |d|);
    if f.Some? then Completion(NoError, f.value, w)
    else if w.input == [] then Completion(EndOfStream, 0, w)
    else
      var next := if from <= |w.buf| then ResumeAt(w.buf, d, from) else from;
      var m := Min(rs, |w.input|);
      var w' := Wire(w.buf + w.input[..m], w.input[m..]);
      assert w'.Stream() == w.Stream() by {
        assert w.input == w.input[..m] + w.input[m..];
      }
      var r := ReadUntilFrom(w', rs, d, next);
      assert from <= |w.buf| ==> forall j :: from + |d| <= j < next + |d| ==> !EndsAt(r.wire.buf, d, j) by {
        if from <= |w.buf| {
          NoMatchBeforeResume(w.buf, r.wire.buf, d, from);
        }
      }
      r
  }

  /** A miss from `from` leaves no occurrence starting before the resume position, in the
      buffer or in anything it grows into. */
  lemma NoMatchBeforeResume(buf: seq<char>, big: seq<char>, d: seq<char>, from: nat)
    requires buf <= big && from <= |buf|
    requires FindEndFrom(buf, d, from + |d|).None?
    ensures forall j :: from + |d| <= j < ResumeAt(buf, d, from) + |d| ==> !EndsAt(big, d, j)
  {
    forall j | from + |d| <= j < ResumeAt(buf, d, from) + |d|
      ensures !EndsAt(big, d, j)
    {
      NoMatchAcross(buf, big, d, j - |d|);
    }
  }

  /** Resuming from a position before which the stream holds no occurrence of `d` reads
      exactly as read_until does from the start of the buffer. */
  lemma {:induction false} ReadUntilFromAgrees(w: Wire, rs: ReadSize, d: seq<char>, from: nat)
    requires from <= |w.buf|
    requires forall j :: j < from + |d| ==> !EndsAt(w.Stream(), d, j)
    ensures ReadUntilFrom(w, rs, d, from) == ReadUntil(w, rs, d)
    decreases |w.input|
  {
    var f := FindEndFrom(w.buf, d, from + |d|);
    forall j | j < from + |d|
      ensures !EndsAt(w.buf, d, j)
    {
      if j <= |w.buf| {
        assert !EndsAt(w.Stream(), d, j);
        EndsAtPrefix(w.buf, w.input, d, j);
      }
    }
    if f.Some? {
      FirstEndUnique(w.buf, d, f.value);
    } else if w.input != [] {
      var next := ResumeAt(w.buf, d, from);
      var m := Min(rs, |w.input|);
      var w' := Wire(w.buf + w.input[..m], w.input[m..]);
      assert w'.Stream() == w.Stream() by {
        assert w.input == w.input[..m] + w.input[m..];
      }
      forall j | j < next + |d|
        ensures !EndsAt(w'.Stream(), d, j)
      {
        if from + |d| <= j {
          NoMatchAcross(w.buf, w.Stream(), d, j - |d|);
        }
      }
      ReadUntilFromAgrees(w', rs, d, next);
    }
  }

  /** A position that holds neither an occurrence of `d` nor a partial one cannot start an
      occurrence once more bytes are appended. */
  lemma NoMatchAcross(buf: seq<char>, big: seq<char>, d: seq<char>, s: nat)
    requires buf <= big && s <= |buf|
    requires !EndsAt(buf, d, s + |d|) && !(buf[s..] <= d)
    ensures !EndsAt(big, d, s + |d|)
  {
  }

  /** async_read(socket, streambuf) with the default completion condition: reads until the
      peer closes, which ends the operation with end of stream and every byte buffered. */
  function ReadToEnd(w: Wire): (r: Completion)
    ensures r.ec == EndOfStream && r.wire.buf == w.Stream() && r.wire.input == []
    ensures r.n == |w.input|
  {
    Completion(EndOfStream, |w.input|, Wire(w.Stream(), []))
  }

  /** The stream socket of one connection. */
  class Socket {
    /** What the peer has sent that has not been delivered. */
    var input: seq<char>
    /** The most one read_some delivers. */
    const readSize: ReadSize

    constructor (input: seq<char>, readSize: ReadSize)
      ensures this.input == input && this.readSize == readSize
    {
      this.input := input;
      this.readSize := readSize;
    }

    /** read_some: the next bytes, at most `readSize` of them, or end of stream. */
    method ReadSome() returns (ec: ErrorCode, bytes: seq<char>)
      modifies this
      ensures old(input) == [] ==> ec == EndOfStream && bytes == [] && input == []
      ensures old(input) != [] ==>
                ec == NoError && bytes == old(input)[..Min(readSize, |old(input)|)] &&
                input == old(input)[Min(readSize, |old(input)|)..]
    {
      if input == [] {
        return EndOfStream, [];
      }
      var m := Min(readSize, |input|);
      ec, bytes := NoError, input[..m];
      input := input[m..];
    }
  }

  /** boost::asio::streambuf: the bytes received and not yet consumed. */
  class StreamBuf {
    var data: seq<char>

    constructor ()
      ensures data == []
    {
      data := [];
    }

    /** prepare + commit: bytes a read placed at the end of the input sequence. */
    method Commit(bytes: seq<char>)
      modifies this
      ensures data == old(data) + bytes
    {
      data := data + bytes;
    }

    /** consume(n): n bytes are removed from the front, all of them if fewer are held. */
    method Consume(n: nat)
      modifies this
      ensures data == old(data)[Min(n, |old(data)|)..]
    {
      if n <= |data| {
        data := data[n..];
      } else {
        data := [];
      }
    }
  }

  /** The state a socket and a buffer together make up. */
  function WireOf(s: Socket, b: StreamBuf): Wire
    reads s, b
  {
    Wire(b.data, s.input)
  }

  /** async_read_until's loop: search the buffer, and read while the delimiter is missing. */
  method AsyncReadUntil(s: Socket, b: StreamBuf, d: seq<char>) returns (ec: ErrorCode, n: nat)
    modifies s, b
    ensures Completion(ec, n, WireOf(s, b)) == ReadUntil(old(WireOf(s, b)), s.readSize, d)
  {
    while true
      invariant ReadUntil(WireOf(s, b), s.readSize, d) == ReadUntil(old(WireOf(s, b)), s.readSize, d)
      decreases |s.input|
    {
      var found := FindEnd(b.data, d);
      if found.Some? {
        return NoError, found.value;
      }
      var e, bytes := s.ReadSome();
      if e != NoError {
        return e, 0;
      }
      b.Commit(bytes);
    }
  }

  /** async_read with transfer_all on a socket: every byte up to the close, then end of stream. */
  method AsyncRead(s: Socket, b: StreamBuf) returns (ec: ErrorCode, n: nat)
    modifies s, b
    ensures Completion(ec, n, WireOf(s, b)) == ReadToEnd(old(WireOf(s, b)))
  {
    n := 0;
    while true
      invariant b.data + s.input == old(b.data + s.input)
      invariant n + |s.input| == old(|s.input|)
      decreases |s.input|
    {
      var e, bytes := s.ReadSome();
      if e != NoError {
        return e, n;
      }
      b.Commit(bytes);
      n := n + |bytes|;
    }
  }
}
