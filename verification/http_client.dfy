/** http_client: a stackless coroutine (boost::asio::coroutine) that connects, sends one
    request, reads the header, and then reads the body chunk by chunk, by its
    Content-Length, or up to the close of the connection. Each call of operator() resumes
    the coroutine after the yield where it stopped; the operation started at a yield
    calls operator() again when it completes. */
module HttpClient {
  import opened HttpTypes
  import opened AsioModel
  import opened ResponseHeader
  import ResponseParser

  /** Where the coroutine resumes: before its first statement, after one of its yields,
      or after it has finished (the coroutine's value -1). */
  datatype Pc =
    | Begin
    | AtConnect
    | AtRequest
    | AtHeader
    | AtChunkSize
    | AtChunkData
    | AtTrailer
    | AtSizedBody
    | AtBodyToClose
    | Finished

  /** The operation a resumption starts; its completion is the next resumption. */
  datatype Op =
    | Connect
    | WriteRequest
    | ReadHeader
    | ReadChunkSize
    | ReadChunkData(size: nat)
    | ReadTrailer
    | ReadSizedBody(size: nat)
    | ReadToClose

  /** One resumption: where the coroutine stops next, how many bytes it consumes from
      response_buf_ on the way, and the operation it starts (none when it stops for good). */
  datatype Transition = Transition(pc: Pc, consume: nat, op: Option<Op>)

  /** operator()(ec, bytes_transferred) resumed at `pc`. An error leaves before the
      coroutine is entered, so the position is kept and nothing is started. A resumption
      that leaves through the yield_break label marks the coroutine finished. The
      `while (keep_alive)` test is never reached: every branch of the body leaves through
      yield_break or loops inside the chunked branch. */
  function Step(pc: Pc, chunked: bool, contentLength: Option<nat>, chunkSize: nat,
                ec: ErrorCode, bytes: nat): (t: Transition)
    ensures ec != NoError ==> t == Transition(pc, 0, None)
    ensures t.op.None? <==> ec != NoError || pc.AtTrailer? || pc.AtSizedBody? || pc.AtBodyToClose? || pc.Finished?
    ensures t.op.Some? ==> t.pc != Finished
    ensures t.consume != 0 ==> ec == NoError && (pc.AtChunkData? || pc.AtSizedBody? || pc.AtBodyToClose?)
  {
    if ec != NoError then Transition(pc, 0, None)
    else match pc
      case Begin => Transition(AtConnect, 0, Some(Connect))
      case AtConnect => Transition(AtRequest, 0, Some(WriteRequest))
      case AtRequest => Transition(AtHeader, 0, Some(ReadHeader))
      case AtHeader =>
        if chunked then Transition(AtChunkSize, 0, Some(ReadChunkSize))
        else if contentLength.Some? then Transition(AtSizedBody, 0, Some(ReadSizedBody(contentLength.value)))
        else Transition(AtBodyToClose, 0, Some(ReadToClose))
      case AtChunkSize =>
        if chunkSize == 0 then Transition(AtTrailer, 0, Some(ReadTrailer))
        else Transition(AtChunkData, 0, Some(ReadChunkData(chunkSize)))
      case AtChunkData => Transition(AtChunkSize, bytes, Some(ReadChunkSize))
      case AtTrailer => Transition(Finished, 0, None)
      case AtSizedBody => Transition(Finished, bytes, None)
      case AtBodyToClose => Transition(Finished, bytes, None)
      case Finished => Transition(Finished, 0, None)
  }

  /** The operations a coroutine started at `pc` issues when it is resumed with the
      given completions, each paired with the header facts and chunk size it sees. */
  datatype Resumption = Resumption(ec: ErrorCode, bytes: nat, chunked: bool, contentLength: Option<nat>, chunkSize: nat)

  function OpsOf(pc: Pc, rs: seq<Resumption>): (ops: seq<Op>)
    ensures |ops| <= |rs|
    decreases |rs|
  {
    if rs == [] then []
    else
      var t := Step(pc, rs[0].chunked, rs[0].contentLength, rs[0].chunkSize, rs[0].ec, rs[0].bytes);
      if t.op.None? then [] else [t.op.value] + OpsOf(t.pc, rs[1..])
  }

  /** Positions from which neither a connect nor a request write is ever issued again. */
  predicate PastRequest(pc: Pc)
  {
    !pc.Begin? && !pc.AtConnect?
  }

  lemma {:induction false} NoRequestPastRequest(pc: Pc, rs: seq<Resumption>)
    requires PastRequest(pc)
    ensures forall i :: 0 <= i < |OpsOf(pc, rs)| ==> OpsOf(pc, rs)[i] != Connect && OpsOf(pc, rs)[i] != WriteRequest
    decreases |rs|
  {
    if rs != [] {
      var t := Step(pc, rs[0].chunked, rs[0].contentLength, rs[0].chunkSize, rs[0].ec, rs[0].bytes);
      if t.op.Some? {
        NoRequestPastRequest(t.pc, rs[1..]);
      }
    }
  }

  /** One connection, one request: from the start, the coroutine connects first and
      writes the request second, and issues neither again, whatever the completions. */
  lemma OneRequestPerSession(rs: seq<Resumption>)
    ensures var ops := OpsOf(Begin, rs);
            (|ops| > 0 ==> ops[0] == Connect) && (|ops| > 1 ==> ops[1] == WriteRequest) &&
            forall i :: 2 <= i < |ops| ==> ops[i] != Connect && ops[i] != WriteRequest
  {
    var ops := OpsOf(Begin, rs);
    if |ops| > 1 {
      var t0 := Step(Begin, rs[0].chunked, rs[0].contentLength, rs[0].chunkSize, rs[0].ec, rs[0].bytes);
      var rs1 := rs[1..];
      var t1 := Step(AtConnect, rs1[0].chunked, rs1[0].contentLength, rs1[0].chunkSize, rs1[0].ec, rs1[0].bytes);
      assert ops == [Connect, WriteRequest] + OpsOf(AtRequest, rs1[1..]);
      NoRequestPastRequest(AtRequest, rs1[1..]);
    }
  }

  /** After a failed completion the coroutine issues nothing more. */
  lemma ErrorEndsTheSession(pc: Pc, rs: seq<Resumption>)
    requires rs != [] && rs[0].ec != NoError
    ensures OpsOf(pc, rs) == []
  {
  }

  /** Which reading of the sized read and of the chunk boundary a session uses: the code
      as written, or the evidently intended one (a sized read completes once `size` bytes
      are buffered; the chunk's CRLF is consumed before the next size line is looked for). */
  datatype Variant = AsWritten | Intended

  /** What the session depends on besides the bytes of the response: the read size of
      the socket, the header parser, the outcome of connect, whether a request has been
      set (what async_request returns), and the outcome of the request write. */
  datatype Env = Env(rs: ReadSize, parse: ResponseParser.HeaderParser, connectEc: ErrorCode,
                     requestSet: bool, requestEc: ErrorCode)

  /** Whether starting `op` leads to a completion at all: the coroutine ignores what
      async_request returns, and with no request set no write is started, so its handler
      is never called. */
  predicate Completes(op: Op, env: Env)
  {
    op.WriteRequest? ==> env.requestSet
  }

  /** What the operations have left in the client besides the connection: response_ctx_,
      chunk_size_, the sizes read from size lines, and the bytes each body step consumed. */
  datatype Observed = Observed(ctx: ContextFields, chunkSize: nat, sizes: seq<nat>, body: seq<string>)

  const INITIAL_OBSERVED: Observed := Observed(INITIAL_FIELDS, 0, [], [])

  /** A completion: the handler's arguments, the bytes still owed to the buffer after the
      handler returns, and the state it leaves. */
  datatype Outcome = Outcome(ec: ErrorCode, bytes: nat, owed: nat, wire: Wire, obs: Observed)

  /** As written, the size read after a chunk is started inside the chunk-data handler:
      its first search sees the buffer before async_read_chunk_data consumes the chunk's
      CRLF, and a miss stores its search position in that buffer. The consume follows,
      so the completion, and every search after a read, work on the shortened buffer,
      the searches from the stored position. */
  function SizeAfterChunkAsWritten(w: Wire, rs: ReadSize, chunkSize: nat, owed: nat): (r: ResponseParser.SizeRead)
    ensures r.ec != NoError ==> |r.wire.Stream()| <= |w.Stream()|
    ensures r.ec == NoError ==> |r.wire.Stream()| < |w.Stream()|
  {
    var found := FindEnd(w.buf, CRLF);
    var w' := Consume(w, owed);
    if found.Some? && found.value <= |w'.buf| + 2 then
      ResponseParser.ChunkSizeCompletion(Completion(NoError, found.value, w'), chunkSize)
    else
      ResponseParser.ChunkSizeCompletion(ReadUntilFrom(w', rs, CRLF, ResumeAt(w.buf, CRLF, 0)), chunkSize)
  }

  /** The size read after a chunk as intended: the chunk's CRLF is gone before it starts. */
  function SizeAfterChunk(w: Wire, rs: ReadSize, chunkSize: nat, owed: nat): (r: ResponseParser.SizeRead)
    ensures r.ec != NoError ==> |r.wire.Stream()| <= |w.Stream()|
    ensures r.ec == NoError ==> |r.wire.Stream()| < |w.Stream()|
  {
    ResponseParser.ReadChunkSize(Consume(w, owed), rs, chunkSize)
  }

  /** The size read of the variant, started on `w` with `owed` bytes still to consume. */
  function SizeReadOf(v: Variant, w: Wire, rs: ReadSize, chunkSize: nat, owed: nat): (r: ResponseParser.SizeRead)
    ensures r.ec != NoError ==> |r.wire.Stream()| <= |w.Stream()|
    ensures r.ec == NoError ==> |r.wire.Stream()| < |w.Stream()|
  {
    match v
    case AsWritten => SizeAfterChunkAsWritten(w, rs, chunkSize, owed)
    case Intended => SizeAfterChunk(w, rs, chunkSize, owed)
  }

  /** The chunk-data read of the variant. */
  function DataReadOf(v: Variant, w: Wire, rs: ReadSize, size: nat): (r: ResponseParser.DataRead)
    ensures |r.wire.Stream()| <= |w.Stream()|
  {
    match v
    case AsWritten => ResponseParser.ReadChunkData(w, rs, size)
    case Intended => ResponseParser.ReadChunkDataAtLeast(w, rs, size)
  }

  /** The Content-Length read of the variant. */
  function SizedReadOf(v: Variant, w: Wire, rs: ReadSize, size: nat): (c: Completion)
    ensures |c.wire.Stream()| <= |w.Stream()|
  {
    match v
    case AsWritten => ResponseParser.ReadUntilWithSize(w, rs, size, 0)
    case Intended => ResponseParser.ReadAtLeast(w, rs, size)
  }

  /** The operation `op` started on `w` and run to its completion. */
  function Perform(v: Variant, op: Op, w: Wire, owed: nat, obs: Observed, env: Env): (o: Outcome)
    ensures |o.wire.Stream()| <= |w.Stream()|
    ensures o.ec == NoError && (op.ReadHeader? || op.ReadChunkSize? || op.ReadTrailer?) ==> |o.wire.Stream()| < |w.Stream()|
  {
    match op
    case Connect => Outcome(env.connectEc, 0, 0, Consume(w, owed), obs)
    case WriteRequest => Outcome(env.requestEc, 0, 0, Consume(w, owed), obs)
    case ReadHeader =>
      var r := ResponseParser.ReadHeader(Consume(w, owed), env.rs, obs.ctx, env.parse);
      Outcome(r.ec, r.n, 0, r.wire, obs.(ctx := r.ctx))
    case ReadChunkSize =>
      var r := SizeReadOf(v, w, env.rs, obs.chunkSize, owed);
      Outcome(r.ec, 0, 0, r.wire,
              obs.(chunkSize := r.chunkSize, sizes := if r.ec == NoError then obs.sizes + [r.chunkSize] else obs.sizes))
    case ReadChunkData(size) =>
      var r := DataReadOf(v, Consume(w, owed), env.rs, size);
      Outcome(r.ec, r.n, r.owed, r.wire, obs)
    case ReadTrailer =>
      var r := ResponseParser.ReadTrailer(Consume(w, owed), env.rs);
      Outcome(r.ec, 0, 0, r.wire, obs)
    case ReadSizedBody(size) =>
      var c := SizedReadOf(v, Consume(w, owed), env.rs, size);
      Outcome(c.ec, c.n, 0, c.wire, obs)
    case ReadToClose =>
      var c := ReadToEnd(Consume(w, owed));
      Outcome(c.ec, c.n, 0, c.wire, obs)
  }

  /** How far a resumption at `pc` with completion `ec` is from the end of the session
      when no byte is consumed on the way. */
  function Rank(pc: Pc, ec: ErrorCode): nat
  {
    if ec != NoError then 0
    else match pc
      case Begin => 5
      case AtConnect => 4
      case AtRequest => 3
      case AtHeader => 2
      case AtChunkSize => 2
      case AtChunkData => 1
      case AtTrailer => 1
      case AtSizedBody => 1
      case AtBodyToClose => 1
      case Finished => 0
  }

  /** How a session ends: the last completion's error code, where the coroutine stopped,
      the connection, and what was observed. A session that stops without an error short
      of `Finished` waits for a completion that never comes. */
  datatype Session = Session(ec: ErrorCode, pc: Pc, wire: Wire, obs: Observed)

  /** The bytes a resumption consumes as body: the chunk or the sized body it was told of. */
  function Delivered(pc: Pc, ec: ErrorCode, bytes: nat, w: Wire): seq<string>
  {
    if ec == NoError && (pc.AtChunkData? || pc.AtSizedBody? || pc.AtBodyToClose?) then [w.buf[..Min(bytes, |w.buf|)]]
    else []
  }

  /** The session from a resumption at `pc` with completion (ec, bytes) on: the coroutine
      resumes, and the operation it starts completes and resumes it again, until a
      resumption starts nothing or starts something that never completes. */
  function Run(v: Variant, pc: Pc, ec: ErrorCode, bytes: nat, owed: nat, w: Wire, obs: Observed, env: Env): (s: Session)
    decreases |w.Stream()|, Rank(pc, ec)
  {
    var t := Step(pc, obs.ctx.chunked, obs.ctx.contentLength, obs.chunkSize, ec, bytes);
    var w1 := Consume(w, t.consume);
    var obs1 := obs.(body := obs.body + Delivered(pc, ec, bytes, w));
    if t.op.None? || !Completes(t.op.value, env) then Session(ec, t.pc, Consume(w1, owed), obs1)
    else
      var o := Perform(v, t.op.value, w1, owed, obs1, env);
      assert |o.wire.Stream()| < |w.Stream()| || (|o.wire.Stream()| == |w.Stream()| && Rank(t.pc, o.ec) < Rank(pc, ec)) by {
        RunProgress(v, pc, ec, bytes, owed, w, obs, env);
      }
      Run(v, t.pc, o.ec, o.bytes, o.owed, o.wire, o.obs, env)
  }

  /** Each operation a resumption starts either consumes input or leaves the coroutine
      closer to its end. */
  lemma RunProgress(v: Variant, pc: Pc, ec: ErrorCode, bytes: nat, owed: nat, w: Wire, obs: Observed, env: Env)
    requires Step(pc, obs.ctx.chunked, obs.ctx.contentLength, obs.chunkSize, ec, bytes).op.Some?
    ensures var t := Step(pc, obs.ctx.chunked, obs.ctx.contentLength, obs.chunkSize, ec, bytes);
            var o := Perform(v, t.op.value, Consume(w, t.consume), owed, obs.(body := obs.body + Delivered(pc, ec, bytes, w)), env);
            |o.wire.Stream()| < |w.Stream()| || (|o.wire.Stream()| == |w.Stream()| && Rank(t.pc, o.ec) < Rank(pc, ec))
  {
    var t := Step(pc, obs.ctx.chunked, obs.ctx.contentLength, obs.chunkSize, ec, bytes);
    assert |Consume(w, t.consume).Stream()| <= |w.Stream()|;
  }

  /** A session from start() on. */
  function Session0(v: Variant, w: Wire, env: Env): Session
  {
    Run(v, Begin, NoError, 0, 0, w, INITIAL_OBSERVED, env)
  }

  /** http_client: the coroutine's position, chunk_size_, response_buf_ and response_ctx_. */
  class Client {
    var pc: Pc
    var chunkSize: nat
    const responseBuf: StreamBuf
    const responseCtx: ResponseContext

    constructor ()
      ensures pc == Begin && chunkSize == 0
      ensures fresh(responseBuf) && fresh(responseCtx)
      ensures responseBuf.data == [] && responseCtx.Fields() == INITIAL_FIELDS
    {
      pc := Begin;
      chunkSize := 0;
      responseBuf := new StreamBuf();
      responseCtx := new ResponseContext();
    }

    /** operator()(ec, bytes_transferred): the coroutine's own work between two yields. */
    method Resume(ec: ErrorCode, bytes: nat) returns (op: Option<Op>)
      modifies this, responseBuf
      ensures var t := Step(old(pc), responseCtx.chunked, responseCtx.contentLength, chunkSize, ec, bytes);
              pc == t.pc && op == t.op &&
              responseBuf.data == old(responseBuf.data)[Min(t.consume, |old(responseBuf.data)|)..]
      ensures chunkSize == old(chunkSize)
    {
      if ec != NoError {
        return None;
      }
      match pc
      case Begin =>
        pc := AtConnect;
        return Some(Connect);
      case AtConnect =>
        pc := AtRequest;
        return Some(WriteRequest);
      case AtRequest =>
        pc := AtHeader;
        return Some(ReadHeader);
      case AtHeader =>
        if responseCtx.chunked {
          pc := AtChunkSize;
          return Some(ReadChunkSize);
        } else if responseCtx.contentLength.Some? {
          pc := AtSizedBody;
          return Some(ReadSizedBody(responseCtx.contentLength.value));
        } else {
          pc := AtBodyToClose;
          return Some(ReadToClose);
        }
      case AtChunkSize =>
        if chunkSize == 0 {
          pc := AtTrailer;
          return Some(ReadTrailer);
        }
        pc := AtChunkData;
        return Some(ReadChunkData(chunkSize));
      case AtChunkData =>
        responseBuf.Consume(bytes);
        pc := AtChunkSize;
        return Some(ReadChunkSize);
      case AtTrailer =>
        pc := Finished;
        return None;
      case AtSizedBody =>
        responseBuf.Consume(bytes);
        pc := Finished;
        return None;
      case AtBodyToClose =>
        responseBuf.Consume(bytes);
        pc := Finished;
        return None;
      case Finished =>
        return None;
    }

    /** start(): the first resumption, with no error and no bytes. */
    method Start() returns (op: Option<Op>)
      modifies this, responseBuf
      ensures var t := Step(old(pc), responseCtx.chunked, responseCtx.contentLength, chunkSize, NoError, 0);
              pc == t.pc && op == t.op && responseBuf.data == old(responseBuf.data)
      ensures chunkSize == old(chunkSize)
    {
      op := Resume(NoError, 0);
    }
  }
}
