/** Whole sessions of http_client: what a response on the wire turns into — the body
    bytes the coroutine consumes, the chunk sizes it reads, and where it stops. */
module ClientSessions {
  import opened HttpTypes
  import opened AsioModel
  import opened ResponseHeader
  import CLib
  import Lines
  import ResponseParser
  import opened HttpClient

  /** One resumption that starts an operation, and the rest of the session after its
      completion. */
  lemma RunNext(v: Variant, pc: Pc, ec: ErrorCode, bytes: nat, owed: nat, w: Wire, obs: Observed, env: Env)
    requires Step(pc, obs.ctx.chunked, obs.ctx.contentLength, obs.chunkSize, ec, bytes).op.Some?
    requires Completes(Step(pc, obs.ctx.chunked, obs.ctx.contentLength, obs.chunkSize, ec, bytes).op.value, env)
    ensures var t := Step(pc, obs.ctx.chunked, obs.ctx.contentLength, obs.chunkSize, ec, bytes);
            var o := Perform(v, t.op.value, Consume(w, t.consume), owed,
                             obs.(body := obs.body + Delivered(pc, ec, bytes, w)), env);
            Run(v, pc, ec, bytes, owed, w, obs, env) == Run(v, t.pc, o.ec, o.bytes, o.owed, o.wire, o.obs, env)
  {
  }

  /** A resumption that starts nothing ends the session. */
  lemma RunLast(v: Variant, pc: Pc, ec: ErrorCode, bytes: nat, owed: nat, w: Wire, obs: Observed, env: Env)
    requires Step(pc, obs.ctx.chunked, obs.ctx.contentLength, obs.chunkSize, ec, bytes).op.None?
    ensures var t := Step(pc, obs.ctx.chunked, obs.ctx.contentLength, obs.chunkSize, ec, bytes);
            Run(v, pc, ec, bytes, owed, w, obs, env) ==
            Session(ec, t.pc, Consume(Consume(w, t.consume), owed), obs.(body := obs.body + Delivered(pc, ec, bytes, w)))
  {
  }

  /** The stream is a header block, ended by its first empty line, and then `payload`. */
  predicate Framed(s: string, head: string, payload: string)
  {
    s == head + payload && FindEnd(head, BLANK_LINE) == Some(|head|)
  }

  lemma FramedSplit(s: string, head: string, payload: string)
    requires Framed(s, head, payload)
    ensures FindEnd(s, BLANK_LINE) == Some(|head|) && s[..|head|] == head && s[|head|..] == payload
  {
    FindEndExtend(head, payload, BLANK_LINE);
  }

  /** The session up to the header: connect and the request write succeed, and the
      parser accepts the block that ends at the first empty line. */
  lemma HeaderSteps(v: Variant, w: Wire, env: Env, head: string, payload: string, f: ContextFields)
    requires env.connectEc == NoError && env.requestSet && env.requestEc == NoError
    requires Framed(w.Stream(), head, payload)
    requires env.parse(head, INITIAL_FIELDS) == (NoError, f)
    ensures var r := ResponseParser.ReadHeader(w, env.rs, INITIAL_FIELDS, env.parse);
            r.ec == NoError && r.n == |head| && r.wire.Stream() == payload &&
            Session0(v, w, env) == Run(v, AtHeader, NoError, |head|, 0, r.wire, INITIAL_OBSERVED.(ctx := f), env)
  {
    ConnectSteps(v, w, env);
    ReadHeaderStep(v, w, env, head, payload, f);
  }

  /** Connect and the request write succeed and leave the wire as it was. */
  lemma ConnectSteps(v: Variant, w: Wire, env: Env)
    requires env.connectEc == NoError && env.requestSet && env.requestEc == NoError
    ensures Session0(v, w, env) == Run(v, AtRequest, NoError, 0, 0, w, INITIAL_OBSERVED, env)
  {
    RequestStep(v, w, env);
  }

  /** start() resumes the coroutine without error; it starts the connect, whose
      completion is the next resumption. */
  lemma ConnectStep(v: Variant, w: Wire, env: Env)
    ensures Session0(v, w, env) == Run(v, AtConnect, env.connectEc, 0, 0, w, INITIAL_OBSERVED, env)
  {
    var obs := INITIAL_OBSERVED;
    assert Consume(w, 0) == w;
    assert Delivered(Begin, NoError, 0, w) == [];
    assert obs.(body := obs.body + []) == obs;
    assert Step(Begin, obs.ctx.chunked, obs.ctx.contentLength, 0, NoError, 0) == Transition(AtConnect, 0, Some(Connect));
    assert Perform(v, Connect, w, 0, obs, env) == Outcome(env.connectEc, 0, 0, w, obs);
    RunNext(v, Begin, NoError, 0, 0, w, obs, env);
  }

  /** After a successful connect the request write is started; its completion is the
      next resumption. */
  lemma RequestStep(v: Variant, w: Wire, env: Env)
    requires env.connectEc == NoError && env.requestSet
    ensures Session0(v, w, env) == Run(v, AtRequest, env.requestEc, 0, 0, w, INITIAL_OBSERVED, env)
  {
    var obs := INITIAL_OBSERVED;
    ConnectStep(v, w, env);
    assert Consume(w, 0) == w;
    assert Delivered(AtConnect, NoError, 0, w) == [];
    assert obs.(body := obs.body + []) == obs;
    assert Step(AtConnect, obs.ctx.chunked, obs.ctx.contentLength, 0, NoError, 0) == Transition(AtRequest, 0, Some(WriteRequest));
    assert Perform(v, WriteRequest, w, 0, obs, env) == Outcome(env.requestEc, 0, 0, w, obs);
    RunNext(v, AtConnect, NoError, 0, 0, w, obs, env);
  }

  /** The header read finds the block and hands it to the parser. */
  lemma ReadHeaderStep(v: Variant, w: Wire, env: Env, head: string, payload: string, f: ContextFields)
    requires Framed(w.Stream(), head, payload)
    requires env.parse(head, INITIAL_FIELDS) == (NoError, f)
    ensures var r := ResponseParser.ReadHeader(w, env.rs, INITIAL_FIELDS, env.parse);
            r.ec == NoError && r.n == |head| && r.wire.Stream() == payload &&
            Run(v, AtRequest, NoError, 0, 0, w, INITIAL_OBSERVED, env) ==
            Run(v, AtHeader, NoError, |head|, 0, r.wire, INITIAL_OBSERVED.(ctx := f), env)
  {
    HeaderOfFramed(w, env, head, payload, f);
    HeaderTransition(v, w, env);
  }

  /** Resumed after the request is written, the coroutine reads the header, whatever the
      header read's outcome. */
  lemma HeaderTransition(v: Variant, w: Wire, env: Env)
    ensures var r := ResponseParser.ReadHeader(w, env.rs, INITIAL_FIELDS, env.parse);
            Run(v, AtRequest, NoError, 0, 0, w, INITIAL_OBSERVED, env) ==
            Run(v, AtHeader, r.ec, r.n, 0, r.wire, INITIAL_OBSERVED.(ctx := r.ctx), env)
  {
    var obs := INITIAL_OBSERVED;
    var r := ResponseParser.ReadHeader(w, env.rs, INITIAL_FIELDS, env.parse);
    var t := Step(AtRequest, obs.ctx.chunked, obs.ctx.contentLength, obs.chunkSize, NoError, 0);
    var o := Perform(v, ReadHeader, Consume(w, 0), 0, obs.(body := obs.body + Delivered(AtRequest, NoError, 0, w)), env);
    assert t == Transition(AtHeader, 0, Some(ReadHeader)) by {
      StepAtRequest(v, w, obs, env);
    }
    assert o == Outcome(r.ec, r.n, 0, r.wire, obs.(ctx := r.ctx)) by {
      StepAtRequest(v, w, obs, env);
      PerformHeader(v, w, obs, env, r);
    }
    RunNext(v, AtRequest, NoError, 0, 0, w, obs, env);
  }

  lemma HeaderOfFramed(w: Wire, env: Env, head: string, payload: string, f: ContextFields)
    requires Framed(w.Stream(), head, payload)
    requires env.parse(head, INITIAL_FIELDS) == (NoError, f)
    ensures var r := ResponseParser.ReadHeader(w, env.rs, INITIAL_FIELDS, env.parse);
            r.ec == NoError && r.n == |head| && r.wire.Stream() == payload && r.ctx == f
  {
    FramedSplit(w.Stream(), head, payload);
    ResponseParser.ReadHeaderSplitsAtBlankLine(w, env.rs, INITIAL_FIELDS, env.parse);
  }

  lemma StepAtRequest(v: Variant, w: Wire, obs: Observed, env: Env)
    ensures Consume(w, 0) == w && Delivered(AtRequest, NoError, 0, w) == []
    ensures obs.(body := obs.body + []) == obs
    ensures Step(AtRequest, obs.ctx.chunked, obs.ctx.contentLength, obs.chunkSize, NoError, 0) ==
            Transition(AtHeader, 0, Some(ReadHeader))
  {
    assert obs.body + [] == obs.body;
  }

  lemma PerformHeader(v: Variant, w: Wire, obs: Observed, env: Env, r: ResponseParser.HeaderRead)
    requires r == ResponseParser.ReadHeader(w, env.rs, obs.ctx, env.parse)
    ensures Perform(v, ReadHeader, w, 0, obs, env) == Outcome(r.ec, r.n, 0, r.wire, obs.(ctx := r.ctx))
  {
    assert Consume(w, 0) == w;
  }

  /** A response framed by Content-Length, with the intended sized read: the body is
      delivered in one piece, exactly the announced bytes are consumed, and the session
      finishes with whatever follows still unread. */
  lemma SizedBodySession(w: Wire, env: Env, head: string, f: ContextFields, body: string, rest: string)
    requires env.connectEc == NoError && env.requestSet && env.requestEc == NoError
    requires Framed(w.Stream(), head, body + rest)
    requires env.parse(head, INITIAL_FIELDS) == (NoError, f)
    requires !f.chunked && f.contentLength == Some(|body|)
    ensures var s := Session0(Intended, w, env);
            s.ec == NoError && s.pc == Finished && s.obs.body == [body] &&
            s.wire.Stream() == rest && s.obs.ctx == f && s.obs.sizes == []
  {
    HeaderSteps(Intended, w, env, head, body + rest, f);
    var r := ResponseParser.ReadHeader(w, env.rs, INITIAL_FIELDS, env.parse);
    SizedBodyAfterHeader(r.wire, env, |head|, INITIAL_OBSERVED.(ctx := f), body, rest);
  }

  lemma SizedBodyAfterHeader(w: Wire, env: Env, n: nat, obs: Observed, body: string, rest: string)
    requires w.Stream() == body + rest
    requires obs.body == [] && obs.sizes == [] && obs.chunkSize == 0
    requires !obs.ctx.chunked && obs.ctx.contentLength == Some(|body|)
    ensures var s := Run(Intended, AtHeader, NoError, n, 0, w, obs, env);
            s.ec == NoError && s.pc == Finished && s.obs == obs.(body := [body]) && s.wire.Stream() == rest
  {
    var c := ResponseParser.ReadAtLeast(w, env.rs, |body|);
    ResponseParser.ReadAtLeastSucceedsIff(w, env.rs, |body|);
    assert c.ec == NoError && c.n == |body|;
    assert c.wire.buf[..|body|] == body;
    ConsumeStream(c.wire, |body|);
    assert c.wire.Stream()[|body|..] == rest;
    assert Step(AtHeader, obs.ctx.chunked, obs.ctx.contentLength, 0, NoError, n) ==
           Transition(AtSizedBody, 0, Some(ReadSizedBody(|body|)));
    assert Consume(w, 0) == w;
    assert Delivered(AtHeader, NoError, n, w) == [];
    assert obs.(body := obs.body + []) == obs;
    assert Perform(Intended, ReadSizedBody(|body|), w, 0, obs, env) == Outcome(NoError, |body|, 0, c.wire, obs);
    RunNext(Intended, AtHeader, NoError, n, 0, w, obs, env);
    assert Step(AtSizedBody, obs.ctx.chunked, obs.ctx.contentLength, 0, NoError, |body|) == Transition(Finished, |body|, None);
    RunLast(Intended, AtSizedBody, NoError, |body|, 0, c.wire, obs, env);
    assert Delivered(AtSizedBody, NoError, |body|, c.wire) == [body];
    assert Consume(Consume(c.wire, |body|), 0) == Consume(c.wire, |body|);
  }

  /** The same response read by the code as written, when the peer closes right after
      the body: match_size never sees more than Content-Length bytes, so the sized read
      ends with end of stream, no body is delivered, and the body stays in the buffer. */
  lemma SizedBodyAtCloseAsWritten(w: Wire, env: Env, head: string, f: ContextFields, body: string)
    requires env.connectEc == NoError && env.requestSet && env.requestEc == NoError
    requires Framed(w.Stream(), head, body)
    requires env.parse(head, INITIAL_FIELDS) == (NoError, f)
    requires !f.chunked && f.contentLength == Some(|body|)
    ensures var s := Session0(AsWritten, w, env);
            s.ec == EndOfStream && s.pc == AtSizedBody && s.obs.body == [] && s.wire == Wire(body, [])
  {
    HeaderSteps(AsWritten, w, env, head, body, f);
    var r := ResponseParser.ReadHeader(w, env.rs, INITIAL_FIELDS, env.parse);
    SizedBodyAtCloseAfterHeader(r.wire, env, |head|, INITIAL_OBSERVED.(ctx := f), body);
  }

  lemma SizedBodyAtCloseAfterHeader(w: Wire, env: Env, n: nat, obs: Observed, body: string)
    requires w.Stream() == body
    requires obs.body == [] && obs.chunkSize == 0
    requires !obs.ctx.chunked && obs.ctx.contentLength == Some(|body|)
    ensures var s := Run(AsWritten, AtHeader, NoError, n, 0, w, obs, env);
            s.ec == EndOfStream && s.pc == AtSizedBody && s.obs == obs && s.wire == Wire(body, [])
  {
    var c := ResponseParser.ReadUntilWithSize(w, env.rs, |body|, 0);
    ResponseParser.SizedReadAtClose(w, env.rs, |body|);
    assert Step(AtHeader, obs.ctx.chunked, obs.ctx.contentLength, 0, NoError, n) ==
           Transition(AtSizedBody, 0, Some(ReadSizedBody(|body|)));
    assert Consume(w, 0) == w;
    assert Delivered(AtHeader, NoError, n, w) == [];
    assert obs.(body := obs.body + []) == obs;
    assert Perform(AsWritten, ReadSizedBody(|body|), w, 0, obs, env) == Outcome(EndOfStream, 0, 0, c.wire, obs);
    RunNext(AsWritten, AtHeader, NoError, n, 0, w, obs, env);
    assert Step(AtSizedBody, obs.ctx.chunked, obs.ctx.contentLength, 0, EndOfStream, 0) == Transition(AtSizedBody, 0, None);
    RunLast(AsWritten, AtSizedBody, EndOfStream, 0, 0, c.wire, obs, env);
    assert Consume(Consume(c.wire, 0), 0) == c.wire;
    assert Delivered(AtSizedBody, EndOfStream, 0, c.wire) == [];
  }

  /** A response with neither chunked coding nor Content-Length, read up to the close:
      the read completes with end of stream, which the coroutine treats like any other
      error, so nothing is consumed and no body is delivered; the whole body is left in
      the buffer. */
  lemma ReadToCloseSession(v: Variant, w: Wire, env: Env, head: string, f: ContextFields, body: string)
    requires env.connectEc == NoError && env.requestSet && env.requestEc == NoError
    requires Framed(w.Stream(), head, body)
    requires env.parse(head, INITIAL_FIELDS) == (NoError, f)
    requires !f.chunked && f.contentLength.None?
    ensures var s := Session0(v, w, env);
            s.ec == EndOfStream && s.pc == AtBodyToClose && s.obs.body == [] && s.wire == Wire(body, [])
  {
    HeaderSteps(v, w, env, head, body, f);
    var r := ResponseParser.ReadHeader(w, env.rs, INITIAL_FIELDS, env.parse);
    ReadToCloseAfterHeader(v, r.wire, env, |head|, INITIAL_OBSERVED.(ctx := f));
  }

  lemma ReadToCloseAfterHeader(v: Variant, w: Wire, env: Env, n: nat, obs: Observed)
    requires !obs.ctx.chunked && obs.ctx.contentLength.None?
    ensures var s := Run(v, AtHeader, NoError, n, 0, w, obs, env);
            s.ec == EndOfStream && s.pc == AtBodyToClose && s.obs == obs && s.wire == Wire(w.Stream(), [])
  {
    var c := ReadToEnd(w);
    assert Step(AtHeader, obs.ctx.chunked, obs.ctx.contentLength, obs.chunkSize, NoError, n) ==
           Transition(AtBodyToClose, 0, Some(ReadToClose));
    assert Consume(w, 0) == w;
    assert Delivered(AtHeader, NoError, n, w) == [];
    assert obs.(body := obs.body + []) == obs;
    assert Perform(v, ReadToClose, w, 0, obs, env) == Outcome(EndOfStream, c.n, 0, c.wire, obs);
    RunNext(v, AtHeader, NoError, n, 0, w, obs, env);
    assert Step(AtBodyToClose, obs.ctx.chunked, obs.ctx.contentLength, obs.chunkSize, EndOfStream, c.n) ==
           Transition(AtBodyToClose, 0, None);
    RunLast(v, AtBodyToClose, EndOfStream, c.n, 0, c.wire, obs, env);
    assert Consume(Consume(c.wire, 0), 0) == c.wire;
    assert Delivered(AtBodyToClose, EndOfStream, c.n, c.wire) == [];
  }

  /** A failed connect ends the session at once: the coroutine stays where it
      yielded, nothing is written, read or observed, and the handler's error is the
      connect's. */
  lemma ConnectFailureEndsSession(v: Variant, w: Wire, env: Env)
    requires env.connectEc != NoError
    ensures Session0(v, w, env) == Session(env.connectEc, AtConnect, w, INITIAL_OBSERVED)
  {
    var obs := INITIAL_OBSERVED;
    ConnectStep(v, w, env);
    RunLast(v, AtConnect, env.connectEc, 0, 0, w, obs, env);
    assert Consume(Consume(w, 0), 0) == w;
    assert Delivered(AtConnect, env.connectEc, 0, w) == [];
    assert obs.(body := obs.body + []) == obs;
  }

  /** A failed request write ends the session after the connect, in the same way. */
  lemma RequestFailureEndsSession(v: Variant, w: Wire, env: Env)
    requires env.connectEc == NoError && env.requestSet && env.requestEc != NoError
    ensures Session0(v, w, env) == Session(env.requestEc, AtRequest, w, INITIAL_OBSERVED)
  {
    var obs := INITIAL_OBSERVED;
    RequestStep(v, w, env);
    RunLast(v, AtRequest, env.requestEc, 0, 0, w, obs, env);
    assert Consume(Consume(w, 0), 0) == w;
    assert Delivered(AtRequest, env.requestEc, 0, w) == [];
    assert obs.(body := obs.body + []) == obs;
  }

  /** With no request set, the coroutine yields on a request write that is never
      started: the session stays at the request with no error, and nothing is read,
      consumed or observed, whatever the write would have returned. */
  lemma MissingRequestHangs(v: Variant, w: Wire, env: Env)
    requires env.connectEc == NoError && !env.requestSet
    ensures Session0(v, w, env) == Session(NoError, AtRequest, w, INITIAL_OBSERVED)
  {
    var obs := INITIAL_OBSERVED;
    ConnectStep(v, w, env);
    assert Step(AtConnect, obs.ctx.chunked, obs.ctx.contentLength, 0, NoError, 0) == Transition(AtRequest, 0, Some(WriteRequest));
    assert Consume(Consume(w, 0), 0) == w;
    assert Delivered(AtConnect, NoError, 0, w) == [];
    assert obs.(body := obs.body + []) == obs;
  }

  /** One chunk of a chunked body: its data and the extension after its size. */
  datatype Chunk = Chunk(data: string, ext: string)

  /** A chunk the size line can carry: not empty (an empty chunk is the last chunk), an
      extension that starts with `;`, and a size line that fits the 32-byte array. */
  predicate WellFormed(c: Chunk)
  {
    c.data != [] && |c.data| <= CLib.LONG_MAX &&
    (c.ext == [] || c.ext[0] == ';') && '\r' !in c.ext && '\0' !in c.ext &&
    |CLib.HexString(|c.data|)| + |c.ext| < ResponseParser.MAX_CHUNK_SIZE_BYTES
  }

  predicate AllWellFormed(cs: seq<Chunk>)
  {
    forall i :: 0 <= i < |cs| ==> WellFormed(cs[i])
  }

  /** The chunks as a sender writes them: size in hexadecimal, extension, CRLF, data, CRLF. */
  function EncodeChunks(cs: seq<Chunk>): string
  {
    if cs == [] then []
    else CLib.HexString(|cs[0].data|) + cs[0].ext + CRLF + cs[0].data + CRLF + EncodeChunks(cs[1..])
  }

  /** The last chunk, the trailer's header lines and the empty line that closes it. */
  function LastChunk(trailer: seq<string>): string
  {
    "0" + CRLF + Lines.Join(trailer) + CRLF
  }

  function Datas(cs: seq<Chunk>): seq<string>
  {
    if cs == [] then [] else [cs[0].data] + Datas(cs[1..])
  }

  function Sizes(cs: seq<Chunk>): seq<nat>
  {
    if cs == [] then [] else [|cs[0].data|] + Sizes(cs[1..])
  }

  /** Once a size of zero has been read, the trailer is read and the session finishes. */
  lemma FinishAfterLastChunk(v: Variant, trailer: seq<string>, rest: string, w: Wire, obs: Observed, env: Env)
    requires Lines.AllPlain(trailer)
    requires obs.chunkSize == 0
    requires w.Stream() == Lines.Join(trailer) + CRLF + rest
    ensures var s := Run(v, AtChunkSize, NoError, 0, 0, w, obs, env);
            s.ec == NoError && s.pc == Finished && s.wire.Stream() == rest && s.obs == obs
  {
    var r := TrailerStep(v, trailer, rest, w, obs, env);
    assert Step(AtChunkSize, obs.ctx.chunked, obs.ctx.contentLength, 0, NoError, 0) == Transition(AtTrailer, 0, Some(ReadTrailer));
    assert Consume(w, 0) == w;
    assert obs.(body := obs.body + Delivered(AtChunkSize, NoError, 0, w)) == obs;
    RunNext(v, AtChunkSize, NoError, 0, 0, w, obs, env);
    assert Step(AtTrailer, obs.ctx.chunked, obs.ctx.contentLength, 0, NoError, 0) == Transition(Finished, 0, None);
    RunLast(v, AtTrailer, NoError, 0, 0, r.wire, obs, env);
    assert Consume(Consume(r.wire, 0), 0) == r.wire;
    assert obs.(body := obs.body + Delivered(AtTrailer, NoError, 0, r.wire)) == obs;
  }

  lemma TrailerStep(v: Variant, trailer: seq<string>, rest: string, w: Wire, obs: Observed, env: Env)
    returns (r: ResponseParser.TrailerRead)
    requires Lines.AllPlain(trailer)
    requires w.Stream() == Lines.Join(trailer) + CRLF + rest
    ensures r.ec == NoError && r.wire.Stream() == rest
    ensures Perform(v, ReadTrailer, w, 0, obs, env) == Outcome(NoError, 0, 0, r.wire, obs)
  {
    ResponseParser.TrailerOfLines(w, env.rs, trailer, rest);
    r := ResponseParser.ReadTrailer(w, env.rs);
    assert Consume(w, 0) == w;
  }

  /** The intended size read after a chunk: the chunk's CRLF is consumed, then the next
      size line is read. */
  lemma SizeLineAfterChunk(w: Wire, env: Env, data: string, size: nat, ext: string, after: string, chunkSize: nat)
    requires size <= CLib.LONG_MAX && (ext == [] || ext[0] == ';') && '\r' !in ext && '\0' !in ext
    requires |CLib.HexString(size)| + |ext| < ResponseParser.MAX_CHUNK_SIZE_BYTES
    requires |w.buf| >= |data| + 2 && w.buf[..|data| + 2] == data + CRLF
    requires w.Stream() == data + CRLF + CLib.HexString(size) + ext + CRLF + after
    ensures var r := SizeAfterChunk(Consume(w, |data|), env.rs, chunkSize, 2);
            r.ec == NoError && r.chunkSize == size && r.wire.Stream() == after
  {
    var w2 := Consume(Consume(w, |data|), 2);
    var line := CLib.HexString(size) + ext + CRLF + after;
    ConsumeLine(w, data, line);
    ResponseParser.ChunkSizeRoundTrip(w2, env.rs, chunkSize, size, ext, after);
  }

  /** Consuming a buffered line and then its CRLF leaves what follows them. */
  lemma ConsumeLine(w: Wire, data: string, tail: string)
    requires |w.buf| >= |data| + 2 && w.Stream() == data + CRLF + tail
    ensures Consume(Consume(w, |data|), 2).Stream() == tail
  {
    ConsumeStream(w, |data|);
    ConsumeStream(Consume(w, |data|), 2);
    assert w.Stream()[|data|..][2..] == (data + CRLF + tail)[|data| + 2..];
  }

  /** One chunk with the intended reads: its data is delivered, its CRLF consumed, and
      the next size line read. */
  lemma OneChunk(w: Wire, obs: Observed, env: Env, data: string, size: nat, ext: string, after: string)
    returns (w': Wire)
    requires data != [] && obs.chunkSize == |data|
    requires size <= CLib.LONG_MAX && (ext == [] || ext[0] == ';') && '\r' !in ext && '\0' !in ext
    requires |CLib.HexString(size)| + |ext| < ResponseParser.MAX_CHUNK_SIZE_BYTES
    requires w.Stream() == data + CRLF + CLib.HexString(size) + ext + CRLF + after
    ensures w'.Stream() == after
    ensures Run(Intended, AtChunkSize, NoError, 0, 0, w, obs, env) ==
            Run(Intended, AtChunkSize, NoError, 0, 0, w',
                obs.(body := obs.body + [data], chunkSize := size, sizes := obs.sizes + [size]), env)
  {
    assert w.Stream()[..|data| + 2] == data + CRLF;
    var d := ChunkDataStep(w, obs, env, data);
    w' := SizeStep(d, obs, env, data, size, ext, after);
  }

  /** The intended chunk-data read: the chunk and its CRLF are buffered, and the handler
      is told the chunk's size, with two bytes owed. */
  lemma ChunkDataStep(w: Wire, obs: Observed, env: Env, data: string) returns (d: Wire)
    requires obs.chunkSize == |data| && data != []
    requires |w.Stream()| >= |data| + 2 && w.Stream()[..|data| + 2] == data + CRLF
    ensures d.Stream() == w.Stream() && |d.buf| >= |data| + 2 && d.buf[..|data| + 2] == data + CRLF
    ensures Run(Intended, AtChunkSize, NoError, 0, 0, w, obs, env) ==
            Run(Intended, AtChunkData, NoError, |data|, 2, d, obs, env)
  {
    var n := |data|;
    var r := ResponseParser.ReadChunkDataAtLeast(w, env.rs, n);
    assert r.ec == NoError && r.n == n && r.owed == 2;
    assert Step(AtChunkSize, obs.ctx.chunked, obs.ctx.contentLength, n, NoError, 0) ==
           Transition(AtChunkData, 0, Some(ReadChunkData(n)));
    assert Consume(w, 0) == w;
    assert Delivered(AtChunkSize, NoError, 0, w) == [];
    assert obs.(body := obs.body + []) == obs;
    assert Perform(Intended, ReadChunkData(n), w, 0, obs, env) == Outcome(NoError, n, 2, r.wire, obs);
    RunNext(Intended, AtChunkSize, NoError, 0, 0, w, obs, env);
    d := r.wire;
  }

  /** Resumed after a chunk, the coroutine consumes the chunk and, the CRLF being
      consumed first, reads the next size line. */
  lemma SizeStep(d: Wire, obs: Observed, env: Env, data: string, size: nat, ext: string, after: string)
    returns (w': Wire)
    requires obs.chunkSize == |data| && data != []
    requires size <= CLib.LONG_MAX && (ext == [] || ext[0] == ';') && '\r' !in ext && '\0' !in ext
    requires |CLib.HexString(size)| + |ext| < ResponseParser.MAX_CHUNK_SIZE_BYTES
    requires |d.buf| >= |data| + 2 && d.buf[..|data| + 2] == data + CRLF
    requires d.Stream() == data + CRLF + CLib.HexString(size) + ext + CRLF + after
    ensures w'.Stream() == after
    ensures Run(Intended, AtChunkData, NoError, |data|, 2, d, obs, env) ==
            Run(Intended, AtChunkSize, NoError, 0, 0, w',
                obs.(body := obs.body + [data], chunkSize := size, sizes := obs.sizes + [size]), env)
  {
    var n := |data|;
    SizeLineAfterChunk(d, env, data, size, ext, after, n);
    var r := SizeAfterChunk(Consume(d, n), env.rs, n, 2);
    PrefixOfLine(d.buf, data);
    StepAfterChunk(obs, n);
    DeliveredChunk(d, data);
    PerformAfterChunk(d, obs, env, data, r);
    RunNext(Intended, AtChunkData, NoError, n, 2, d, obs, env);
    w' := r.wire;
  }

  lemma StepAfterChunk(obs: Observed, n: nat)
    ensures Step(AtChunkData, obs.ctx.chunked, obs.ctx.contentLength, n, NoError, n) ==
            Transition(AtChunkSize, n, Some(ReadChunkSize))
  {
  }

  lemma PrefixOfLine(buf: string, data: string)
    requires |buf| >= |data| + 2 && buf[..|data| + 2] == data + CRLF
    ensures buf[..|data|] == data
  {
    assert buf[..|data|] == buf[..|data| + 2][..|data|];
  }

  /** After a chunk, the intended size read is the one the size line completes. */
  lemma PerformAfterChunk(d: Wire, obs: Observed, env: Env, data: string, r: ResponseParser.SizeRead)
    requires obs.chunkSize == |data|
    requires r == SizeAfterChunk(Consume(d, |data|), env.rs, |data|, 2) && r.ec == NoError
    ensures Perform(Intended, ReadChunkSize, Consume(d, |data|), 2, obs.(body := obs.body + [data]), env) ==
            Outcome(NoError, 0, 0, r.wire, obs.(body := obs.body + [data], chunkSize := r.chunkSize, sizes := obs.sizes + [r.chunkSize]))
  {
    IntendedSizeRead(Consume(d, |data|), env.rs, |data|, 2);
    PerformSize(Intended, Consume(d, |data|), 2, obs.(body := obs.body + [data]), env, r);
  }

  lemma DeliveredChunk(d: Wire, data: string)
    requires |d.buf| >= |data| && d.buf[..|data|] == data
    ensures Delivered(AtChunkData, NoError, |data|, d) == [data]
  {
  }

  lemma IntendedSizeRead(w: Wire, rs: ReadSize, chunkSize: nat, owed: nat)
    ensures SizeReadOf(Intended, w, rs, chunkSize, owed) == SizeAfterChunk(w, rs, chunkSize, owed)
  {
  }

  /** A size read that succeeds records the size it read. */
  lemma PerformSize(v: Variant, w: Wire, owed: nat, obs: Observed, env: Env, r: ResponseParser.SizeRead)
    requires SizeReadOf(v, w, env.rs, obs.chunkSize, owed) == r && r.ec == NoError
    ensures Perform(v, ReadChunkSize, w, owed, obs, env) ==
            Outcome(NoError, 0, 0, r.wire, obs.(chunkSize := r.chunkSize, sizes := obs.sizes + [r.chunkSize]))
  {
  }

  /** The chunk loop with the intended reads: from a size line just read, every chunk is
      delivered in order, every size is recorded, and the trailer ends the session. */
  lemma {:induction false} ChunkLoop(cs: seq<Chunk>, trailer: seq<string>, rest: string, w: Wire, obs: Observed, env: Env)
    requires cs != [] && AllWellFormed(cs) && Lines.AllPlain(trailer)
    requires obs.chunkSize == |cs[0].data|
    requires w.Stream() == cs[0].data + CRLF + EncodeChunks(cs[1..]) + LastChunk(trailer) + rest
    ensures var s := Run(Intended, AtChunkSize, NoError, 0, 0, w, obs, env);
            s.ec == NoError && s.pc == Finished && s.wire.Stream() == rest &&
            s.obs.body == obs.body + Datas(cs) && s.obs.sizes == obs.sizes + Sizes(cs[1..]) + [0] &&
            s.obs.ctx == obs.ctx
    decreases |cs|
  {
    if |cs| == 1 {
      FinalChunk(cs, trailer, rest, w, obs, env);
    } else {
      var w', obs' := ChunkLoopStep(cs, trailer, rest, w, obs, env);
      ChunkLoop(cs[1..], trailer, rest, w', obs', env);
      DatasSizesCons(cs);
      AppendAssoc(obs.body, [cs[0].data], Datas(cs[1..]));
      AppendAssoc(obs.sizes, [|cs[1].data|], Sizes(cs[2..]));
    }
  }

  lemma DatasSizesCons(cs: seq<Chunk>)
    requires |cs| >= 2
    ensures Datas(cs) == [cs[0].data] + Datas(cs[1..])
    ensures cs[1..][1..] == cs[2..] && Sizes(cs[1..]) == [|cs[1].data|] + Sizes(cs[2..])
  {
    assert cs[1..][1..] == cs[2..];
  }

  lemma AppendAssoc<T>(a: seq<T>, b: seq<T>, c: seq<T>)
    ensures a + b + c == a + (b + c)
  {
  }

  /** One turn of the chunk loop, with what the next turn starts from. */
  lemma ChunkLoopStep(cs: seq<Chunk>, trailer: seq<string>, rest: string, w: Wire, obs: Observed, env: Env)
    returns (w': Wire, obs': Observed)
    requires |cs| >= 2 && AllWellFormed(cs)
    requires obs.chunkSize == |cs[0].data|
    requires w.Stream() == cs[0].data + CRLF + EncodeChunks(cs[1..]) + LastChunk(trailer) + rest
    ensures AllWellFormed(cs[1..]) && obs'.chunkSize == |cs[1].data|
    ensures w'.Stream() == cs[1..][0].data + CRLF + EncodeChunks(cs[1..][1..]) + LastChunk(trailer) + rest
    ensures obs' == obs.(body := obs.body + [cs[0].data], chunkSize := |cs[1].data|, sizes := obs.sizes + [|cs[1].data|])
    ensures Run(Intended, AtChunkSize, NoError, 0, 0, w, obs, env) ==
            Run(Intended, AtChunkSize, NoError, 0, 0, w', obs', env)
  {
    var c := cs[0];
    var next := cs[1];
    assert WellFormed(c) && WellFormed(next);
    var after := next.data + CRLF + EncodeChunks(cs[2..]) + LastChunk(trailer) + rest;
    NextSizeLine(cs, trailer, rest);
    w' := OneChunk(w, obs, env, c.data, |next.data|, next.ext, after);
    obs' := obs.(body := obs.body + [c.data], chunkSize := |next.data|, sizes := obs.sizes + [|next.data|]);
    assert AllWellFormed(cs[1..]) by {
      assert forall i :: 0 <= i < |cs[1..]| ==> cs[1..][i] == cs[i + 1];
    }
    assert cs[1..][1..] == cs[2..];
  }

  /** Behind a chunk that is followed by another comes that chunk's size line. */
  lemma NextSizeLine(cs: seq<Chunk>, trailer: seq<string>, rest: string)
    requires |cs| >= 2
    ensures cs[0].data + CRLF + EncodeChunks(cs[1..]) + LastChunk(trailer) + rest ==
            cs[0].data + CRLF + CLib.HexString(|cs[1].data|) + cs[1].ext + CRLF +
            (cs[1].data + CRLF + EncodeChunks(cs[2..]) + LastChunk(trailer) + rest)
  {
    assert cs[1..][1..] == cs[2..];
  }

  lemma SingleChunk(cs: seq<Chunk>)
    requires |cs| == 1
    ensures Datas(cs) == [cs[0].data] && Sizes(cs[1..]) == [] && EncodeChunks(cs[1..]) == []
  {
    assert cs[1..] == [];
  }

  /** The last chunk before the zero-size line: its data is delivered, the size zero is
      read, and the trailer ends the session. */
  lemma FinalChunk(cs: seq<Chunk>, trailer: seq<string>, rest: string, w: Wire, obs: Observed, env: Env)
    requires |cs| == 1 && AllWellFormed(cs) && Lines.AllPlain(trailer)
    requires obs.chunkSize == |cs[0].data|
    requires w.Stream() == cs[0].data + CRLF + EncodeChunks(cs[1..]) + LastChunk(trailer) + rest
    ensures var s := Run(Intended, AtChunkSize, NoError, 0, 0, w, obs, env);
            s.ec == NoError && s.pc == Finished && s.wire.Stream() == rest &&
            s.obs.body == obs.body + Datas(cs) && s.obs.sizes == obs.sizes + Sizes(cs[1..]) + [0] &&
            s.obs.ctx == obs.ctx
  {
    var c := cs[0];
    assert WellFormed(c);
    SingleChunk(cs);
    var after := Lines.Join(trailer) + CRLF + rest;
    assert w.Stream() == c.data + CRLF + CLib.HexString(0) + [] + CRLF + after by {
      assert CLib.HexString(0) == "0";
      LastChunkText(c.data, Lines.Join(trailer), rest);
    }
    var w' := OneChunk(w, obs, env, c.data, 0, [], after);
    var obs' := obs.(body := obs.body + [c.data], chunkSize := 0, sizes := obs.sizes + [0]);
    FinishAfterLastChunk(Intended, trailer, rest, w', obs', env);
  }

  lemma LastChunkText(data: string, join: string, rest: string)
    ensures data + CRLF + [] + ("0" + CRLF + join + CRLF) + rest == data + CRLF + "0" + [] + CRLF + (join + CRLF + rest)
  {
  }

  /** With nothing owed, the as-written size read is the plain one: no consume follows
      its first search, so the search position it stores is not stale. */
  lemma AsWrittenFirstSizeRead(w: Wire, rs: ReadSize, chunkSize: nat)
    ensures SizeAfterChunkAsWritten(w, rs, chunkSize, 0) == ResponseParser.ReadChunkSize(w, rs, chunkSize)
  {
    assert Consume(w, 0) == w;
    if FindEnd(w.buf, CRLF).None? {
      var p := ResumeAt(w.buf, CRLF, 0);
      forall j | j < p + 2
        ensures !EndsAt(w.Stream(), CRLF, j)
      {
        if 2 <= j {
          NoMatchAcross(w.buf, w.Stream(), CRLF, j - 2);
        }
      }
      ReadUntilFromAgrees(w, rs, CRLF, p);
    }
  }

  /** The first size read, right after the header, is the same for both variants: the
      size line is decoded and consumed. */
  lemma FirstSizeStep(v: Variant, w: Wire, env: Env, n: nat, obs: Observed, size: nat, ext: string, after: string)
    returns (w': Wire)
    requires obs.ctx.chunked
    requires size <= CLib.LONG_MAX && (ext == [] || ext[0] == ';') && '\r' !in ext && '\0' !in ext
    requires |CLib.HexString(size)| + |ext| < ResponseParser.MAX_CHUNK_SIZE_BYTES
    requires w.Stream() == CLib.HexString(size) + ext + CRLF + after
    ensures w'.Stream() == after && (w.input == [] ==> w'.input == [])
    ensures Run(v, AtHeader, NoError, n, 0, w, obs, env) ==
            Run(v, AtChunkSize, NoError, 0, 0, w', obs.(chunkSize := size, sizes := obs.sizes + [size]), env)
  {
    var r := FirstSizeRead(v, w, env, obs, size, ext, after);
    assert Step(AtHeader, obs.ctx.chunked, obs.ctx.contentLength, obs.chunkSize, NoError, n) ==
           Transition(AtChunkSize, 0, Some(ReadChunkSize));
    assert Consume(w, 0) == w;
    assert Delivered(AtHeader, NoError, n, w) == [];
    assert obs.(body := obs.body + []) == obs;
    RunNext(v, AtHeader, NoError, n, 0, w, obs, env);
    w' := r.wire;
  }

  lemma FirstSizeRead(v: Variant, w: Wire, env: Env, obs: Observed, size: nat, ext: string, after: string)
    returns (r: ResponseParser.SizeRead)
    requires size <= CLib.LONG_MAX && (ext == [] || ext[0] == ';') && '\r' !in ext && '\0' !in ext
    requires |CLib.HexString(size)| + |ext| < ResponseParser.MAX_CHUNK_SIZE_BYTES
    requires w.Stream() == CLib.HexString(size) + ext + CRLF + after
    ensures r.wire.Stream() == after && r.chunkSize == size
    ensures w.input == [] ==> r.wire.input == []
    ensures Perform(v, ReadChunkSize, w, 0, obs, env) ==
            Outcome(NoError, 0, 0, r.wire, obs.(chunkSize := size, sizes := obs.sizes + [size]))
  {
    ResponseParser.ChunkSizeRoundTrip(w, env.rs, obs.chunkSize, size, ext, after);
    r := ResponseParser.ReadChunkSize(w, env.rs, obs.chunkSize);
    if w.input == [] {
      BufferedSizeRead(w, env.rs, obs.chunkSize);
    }
    assert SizeReadOf(v, w, env.rs, obs.chunkSize, 0) == r by {
      AsWrittenFirstSizeRead(w, env.rs, obs.chunkSize);
      assert Consume(w, 0) == w;
    }
    PerformSize(v, w, 0, obs, env, r);
  }

  /** A size read on a connection with nothing more to read leaves nothing to read. */
  lemma BufferedSizeRead(w: Wire, rs: ReadSize, chunkSize: nat)
    requires w.input == []
    ensures ResponseParser.ReadChunkSize(w, rs, chunkSize).wire.input == []
  {
    var c := ReadUntil(w, rs, CRLF);
    assert |c.wire.buf| + |c.wire.input| == |w.buf|;
  }

  /** The chunked body leads with the first chunk's size line, or with the last chunk. */
  lemma FirstSizeLine(cs: seq<Chunk>, trailer: seq<string>, rest: string)
    requires cs != []
    ensures EncodeChunks(cs) + LastChunk(trailer) + rest ==
            CLib.HexString(|cs[0].data|) + cs[0].ext + CRLF +
            (cs[0].data + CRLF + EncodeChunks(cs[1..]) + LastChunk(trailer) + rest)
  {
  }

  lemma NoChunkLine(trailer: seq<string>, rest: string)
    ensures EncodeChunks([]) + LastChunk(trailer) + rest ==
            CLib.HexString(0) + [] + CRLF + (Lines.Join(trailer) + CRLF + rest)
  {
    assert CLib.HexString(0) == "0";
  }

  /** A chunked response with the intended reads: the body is the chunks' data in order,
      the sizes read are the chunks' sizes and then zero, the trailer is consumed, and
      the session finishes with whatever follows still unread. */
  lemma ChunkedSession(w: Wire, env: Env, head: string, f: ContextFields,
                       cs: seq<Chunk>, trailer: seq<string>, rest: string)
    requires env.connectEc == NoError && env.requestSet && env.requestEc == NoError
    requires Framed(w.Stream(), head, EncodeChunks(cs) + LastChunk(trailer) + rest)
    requires env.parse(head, INITIAL_FIELDS) == (NoError, f) && f.chunked
    requires AllWellFormed(cs) && Lines.AllPlain(trailer)
    ensures var s := Session0(Intended, w, env);
            s.ec == NoError && s.pc == Finished && s.wire.Stream() == rest &&
            s.obs.body == Datas(cs) && s.obs.sizes == Sizes(cs) + [0] && s.obs.ctx == f
  {
    HeaderSteps(Intended, w, env, head, EncodeChunks(cs) + LastChunk(trailer) + rest, f);
    var h := ResponseParser.ReadHeader(w, env.rs, INITIAL_FIELDS, env.parse);
    ChunkedAfterHeader(h.wire, env, |head|, INITIAL_OBSERVED.(ctx := f), cs, trailer, rest);
  }

  lemma ChunkedAfterHeader(w: Wire, env: Env, n: nat, obs: Observed,
                           cs: seq<Chunk>, trailer: seq<string>, rest: string)
    requires obs.ctx.chunked && obs.body == [] && obs.sizes == []
    requires w.Stream() == EncodeChunks(cs) + LastChunk(trailer) + rest
    requires AllWellFormed(cs) && Lines.AllPlain(trailer)
    ensures var s := Run(Intended, AtHeader, NoError, n, 0, w, obs, env);
            s.ec == NoError && s.pc == Finished && s.wire.Stream() == rest &&
            s.obs.body == Datas(cs) && s.obs.sizes == Sizes(cs) + [0] && s.obs.ctx == obs.ctx
  {
    if cs == [] {
      NoChunkLine(trailer, rest);
      var w' := FirstSizeStep(Intended, w, env, n, obs, 0, [], Lines.Join(trailer) + CRLF + rest);
      var obs1 := obs.(chunkSize := 0, sizes := obs.sizes + [0]);
      FinishAfterLastChunk(Intended, trailer, rest, w', obs1, env);
      var s := Run(Intended, AtChunkSize, NoError, 0, 0, w', obs1, env);
      assert s.obs == obs1;
      assert obs.sizes + [0] == Sizes(cs) + [0];
    } else {
      ChunksAfterHeader(w, env, n, obs, cs, trailer, rest);
    }
  }

  lemma ChunksAfterHeader(w: Wire, env: Env, n: nat, obs: Observed,
                          cs: seq<Chunk>, trailer: seq<string>, rest: string)
    requires cs != []
    requires obs.ctx.chunked && obs.body == [] && obs.sizes == []
    requires w.Stream() == EncodeChunks(cs) + LastChunk(trailer) + rest
    requires AllWellFormed(cs) && Lines.AllPlain(trailer)
    ensures var s := Run(Intended, AtHeader, NoError, n, 0, w, obs, env);
            s.ec == NoError && s.pc == Finished && s.wire.Stream() == rest &&
            s.obs.body == Datas(cs) && s.obs.sizes == Sizes(cs) + [0] && s.obs.ctx == obs.ctx
  {
    var c := cs[0];
    assert WellFormed(c);
    FirstSizeLine(cs, trailer, rest);
    var after := c.data + CRLF + EncodeChunks(cs[1..]) + LastChunk(trailer) + rest;
    var w' := FirstSizeStep(Intended, w, env, n, obs, |c.data|, c.ext, after);
    ChunkLoopFromFirst(cs, trailer, rest, w', obs.(chunkSize := |c.data|, sizes := obs.sizes + [|c.data|]), env);
  }

  /** The chunk loop entered from the first size line. */
  lemma ChunkLoopFromFirst(cs: seq<Chunk>, trailer: seq<string>, rest: string, w: Wire, obs: Observed, env: Env)
    requires cs != [] && AllWellFormed(cs) && Lines.AllPlain(trailer)
    requires obs.chunkSize == |cs[0].data| && obs.body == [] && obs.sizes == [|cs[0].data|]
    requires w.Stream() == cs[0].data + CRLF + EncodeChunks(cs[1..]) + LastChunk(trailer) + rest
    ensures var s := Run(Intended, AtChunkSize, NoError, 0, 0, w, obs, env);
            s.ec == NoError && s.pc == Finished && s.wire.Stream() == rest &&
            s.obs.body == Datas(cs) && s.obs.sizes == Sizes(cs) + [0] && s.obs.ctx == obs.ctx
  {
    ChunkLoop(cs, trailer, rest, w, obs, env);
    assert obs.sizes + Sizes(cs[1..]) == Sizes(cs);
    assert obs.body + Datas(cs) == Datas(cs);
  }

  /** The size read the code as written starts after a chunk whose CRLF is buffered: its
      first search finds that CRLF, so it decodes the empty line as size zero and then
      consumes two bytes of the real size line. The intended read decodes the real line. */
  lemma AsWrittenNextSizeIsZero(w: Wire, rs: ReadSize, chunkSize: nat, more: string)
    requires w.buf == CRLF + more && |more| >= 2
    ensures var r := SizeAfterChunkAsWritten(w, rs, chunkSize, 2);
            r.ec == NoError && r.chunkSize == 0 && r.wire == Wire(more[2..], w.input)
  {
    assert EndsAt(w.buf, CRLF, 2);
    assert FindEnd(w.buf, CRLF) == Some(2);
    var w' := Consume(w, 2);
    assert w'.buf == more;
    assert CLib.CString(w'.buf[..0]) == [];
    assert CLib.Strtol16([]) == CLib.Conversion(0, 0);
  }

  /** As written, a size read after a chunk whose buffer holds no CRLF searches on from a
      position stored before the owed two bytes were consumed, so it skips the first two
      bytes that arrive. With "ab" buffered and "\r\n5\r\n" arriving, a fresh read decodes
      the empty line as size 0 and leaves "5\r\n"; the as-written read misses that CRLF,
      decodes "\r\n5" as size 5 and consumes everything. */
  lemma StaleSearchSkipsLine(rs: ReadSize, chunkSize: nat)
    requires rs >= 5
    ensures var w := Wire("ab", "\r\n5\r\n");
            var plain := ResponseParser.ReadChunkSize(Consume(w, 2), rs, chunkSize);
            plain.ec == NoError && plain.chunkSize == 0 && plain.wire.Stream() == "5\r\n"
    ensures var stale := SizeAfterChunkAsWritten(Wire("ab", "\r\n5\r\n"), rs, chunkSize, 2);
            stale.ec == NoError && stale.chunkSize == 5 && stale.wire.Stream() == []
  {
    PlainSizeAfterAb(rs, chunkSize);
    StaleSizeAfterAb(rs, chunkSize);
  }

  lemma PlainSizeAfterAb(rs: ReadSize, chunkSize: nat)
    ensures var plain := ResponseParser.ReadChunkSize(Wire([], "\r\n5\r\n"), rs, chunkSize);
            plain.ec == NoError && plain.chunkSize == 0 && plain.wire.Stream() == "5\r\n"
  {
    var w' := Wire([], "\r\n5\r\n");
    assert w'.Stream() == [] + CRLF + "5\r\n";
    ResponseParser.ChunkSizeOfLine(w', rs, chunkSize, [], "5\r\n");
    assert CLib.CString([]) == [];
    assert CLib.Strtol16([]) == CLib.Conversion(0, 0);
  }

  lemma StaleSizeAfterAb(rs: ReadSize, chunkSize: nat)
    requires rs >= 5
    ensures var stale := SizeAfterChunkAsWritten(Wire("ab", "\r\n5\r\n"), rs, chunkSize, 2);
            stale.ec == NoError && stale.chunkSize == 5 && stale.wire.Stream() == []
  {
    var w := Wire("ab", "\r\n5\r\n");
    StaleRead(w, rs);
    var full := Wire("\r\n5\r\n", []);
    assert CLib.CString(full.buf[..3]) == "\r\n5" by {
      assert full.buf[..3] == "\r\n5";
      CLib.CStringOfTerminated("\r\n5", []);
    }
    CLib.Strtol16AfterLineBreak();
    ResponseParser.SmallRemainder(5, CLib.SIZE_MODULUS);
  }

  /** The as-written search in StaleSearchSkipsLine: no CRLF in "ab", so the search would
      resume at 2; after the consume and one read, the first CRLF from there ends at 5. */
  lemma StaleRead(w: Wire, rs: ReadSize)
    requires w == Wire("ab", "\r\n5\r\n") && rs >= 5
    ensures FindEnd(w.buf, CRLF).None?
    ensures ReadUntilFrom(Consume(w, 2), rs, CRLF, ResumeAt(w.buf, CRLF, 0)) ==
            Completion(NoError, 5, Wire("\r\n5\r\n", []))
  {
    NoLineBreakInAb();
    var w' := Consume(w, 2);
    assert w' == Wire([], "\r\n5\r\n");
    var full := Wire("\r\n5\r\n", []);
    assert ReadUntilFrom(full, rs, CRLF, 2) == Completion(NoError, 5, full) by {
      LineBreakEndsAtFive();
    }
    assert FindEndFrom(w'.buf, CRLF, 4).None?;
    assert Min(rs, |w'.input|) == 5;
    assert Wire(w'.buf + w'.input[..5], w'.input[5..]) == full;
  }

  /** "ab" holds no CRLF, and could not begin one from its end. */
  lemma NoLineBreakInAb()
    ensures FindEnd("ab", CRLF).None? && ResumeAt("ab", CRLF, 0) == 2
  {
    var ab := "ab";
    assert ab[0..2] != CRLF by { assert ab[0..2][0] != CRLF[0]; }
    assert FindEndFrom(ab, CRLF, 3).None?;
    assert !(ab[0..] <= CRLF) by { assert ab[0..][0] != CRLF[0]; }
    assert !(ab[1..] <= CRLF) by { assert ab[1..][0] != CRLF[0]; }
    assert ab[2..] == [];
  }

  /** Searching "\r\n5\r\n" for CRLF from offset 2 on finds the one ending at 5. */
  lemma LineBreakEndsAtFive()
    ensures FindEndFrom("\r\n5\r\n", CRLF, 4) == Some(5)
  {
    var s := "\r\n5\r\n";
    assert s[2..4] != CRLF by { assert s[2..4][0] != CRLF[0]; }
    assert s[3..5] == CRLF;
  }
}
