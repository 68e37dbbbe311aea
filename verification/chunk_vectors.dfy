/** The chunked body of the read tests, read by the coroutine after the header: as
    written, the size read started inside the chunk-data handler mistakes the first
    chunk's CRLF for an empty size line, and the session drops the second chunk; as
    intended, both chunks are delivered. */
module ChunkVectors {
  import opened HttpTypes
  import opened AsioModel
  import CLib
  import Lines
  import ResponseParser
  import opened HttpClient
  import opened ClientSessions

  /** The chunked body of the read tests: chunks "OK" and "0123456789abcdef" (the second
      with an extension), the last chunk, and one trailer line. */
  const TEST_CHUNK: string :=
    "2\r\n" + "OK\r\n" + "10;key=value\r\n" + "0123456789abcdef\r\n" + "0\r\n" + "trailer: val\r\n" + "\r\n"

  /** What follows the body on the wire in the read tests. */
  const MARKER: string := "**MARKER**"

  /** The same body as chunks and trailer lines. */
  const TEST_CHUNKS: seq<Chunk> := [Chunk("OK", []), Chunk("0123456789abcdef", ";key=value")]
  const TEST_TRAILER: seq<string> := ["trailer: val"]

  /** What is left after the as-written size read: the second size line without its first
      two bytes, read as if it were trailer lines. */
  const LEFT_AS_TRAILER: seq<string> := [";key=value", "0123456789abcdef", "0", "trailer: val"]

  /** The body of the read tests is the encoding of TEST_CHUNKS and TEST_TRAILER. */
  lemma TestChunkEncoding()
    ensures AllWellFormed(TEST_CHUNKS) && Lines.AllPlain(TEST_TRAILER)
    ensures EncodeChunks(TEST_CHUNKS) + LastChunk(TEST_TRAILER) == TEST_CHUNK
  {
    FirstChunkEncoding();
    SecondChunkEncoding();
    LastChunkEncoding();
    Regroup("2\r\n", "OK\r\n", "10;key=value\r\n", "0123456789abcdef\r\n", "0\r\n", "trailer: val\r\n", "\r\n");
  }

  lemma FirstChunkEncoding()
    ensures EncodeChunks(TEST_CHUNKS) == "2\r\n" + "OK\r\n" + EncodeChunks(TEST_CHUNKS[1..])
    ensures WellFormed(TEST_CHUNKS[0])
  {
    assert CLib.HexString(2) == "2";
  }

  lemma SecondChunkEncoding()
    ensures EncodeChunks(TEST_CHUNKS[1..]) == "10;key=value\r\n" + "0123456789abcdef\r\n"
    ensures WellFormed(TEST_CHUNKS[1])
  {
    ResponseParser.HexSixteen();
    assert TEST_CHUNKS[1..][1..] == [];
  }

  lemma LastChunkEncoding()
    ensures LastChunk(TEST_TRAILER) == "0\r\n" + "trailer: val\r\n" + "\r\n"
    ensures Lines.AllPlain(TEST_TRAILER)
  {
    assert TEST_TRAILER[1..] == [];
  }

  lemma Regroup(p1: string, p2: string, p3: string, p4: string, p5: string, p6: string, p7: string)
    ensures p1 + p2 + (p3 + p4) + (p5 + p6 + p7) == p1 + p2 + p3 + p4 + p5 + p6 + p7
  {
  }

  /** The intended reads deliver both chunks, read the sizes 2, 16 and 0, consume the
      trailer, and leave the marker. */
  lemma TestChunkIntended(w: Wire, env: Env, n: nat, obs: Observed)
    requires obs.ctx.chunked && obs.body == [] && obs.sizes == []
    requires w.Stream() == TEST_CHUNK + MARKER
    ensures var s := Run(Intended, AtHeader, NoError, n, 0, w, obs, env);
            s.ec == NoError && s.pc == Finished && s.wire.Stream() == MARKER &&
            s.obs.body == ["OK", "0123456789abcdef"] && s.obs.sizes == [2, 16, 0]
  {
    TestChunkEncoding();
    ChunkedAfterHeader(w, env, n, obs, TEST_CHUNKS, TEST_TRAILER, MARKER);
    TestChunkDatasSizes();
  }

  lemma TestChunkDatasSizes()
    ensures Datas(TEST_CHUNKS) == ["OK", "0123456789abcdef"]
    ensures Sizes(TEST_CHUNKS) + [0] == [2, 16, 0]
  {
    assert TEST_CHUNKS[1..][1..] == [];
  }

  /** The code as written, with the whole body buffered: the first chunk is delivered,
      the size read after it decodes the chunk's CRLF as size zero, the rest of the body
      is taken for trailer lines, and the session finishes without an error with the
      second chunk lost. */
  lemma TestChunkAsWritten(env: Env, n: nat, obs: Observed)
    requires obs.ctx.chunked && obs.body == [] && obs.sizes == []
    ensures var s := Run(AsWritten, AtHeader, NoError, n, 0, Wire(TEST_CHUNK + MARKER, []), obs, env);
            s.ec == NoError && s.pc == Finished && s.wire.Stream() == MARKER &&
            s.obs.body == ["OK"] && s.obs.sizes == [2, 0]
  {
    var w := Wire(TEST_CHUNK + MARKER, []);
    AsWrittenStream();
    var w1 := FirstSizeStep(AsWritten, w, env, n, obs, 2, [], "OK" + CRLF + AFTER_FIRST_CHUNK);
    AsWrittenAfterFirstSize(w1, obs.(chunkSize := 2, sizes := obs.sizes + [2]), env);
  }

  /** What follows the first chunk and its CRLF on the wire. */
  const AFTER_FIRST_CHUNK: string :=
    "10;key=value\r\n" + "0123456789abcdef\r\n" + "0\r\n" + "trailer: val\r\n" + "\r\n" + MARKER

  lemma AsWrittenAfterFirstSize(w: Wire, obs: Observed, env: Env)
    requires w.Stream() == "OK" + CRLF + AFTER_FIRST_CHUNK && w.input == []
    requires obs.chunkSize == 2 && obs.body == [] && obs.sizes == [2]
    ensures var s := Run(AsWritten, AtChunkSize, NoError, 0, 0, w, obs, env);
            s.ec == NoError && s.pc == Finished && s.wire.Stream() == MARKER &&
            s.obs.body == ["OK"] && s.obs.sizes == [2, 0]
  {
    assert w.buf == "OK" + CRLF + AFTER_FIRST_CHUNK;
    AsWrittenLeft();
    AsWrittenChunkThenTrailer(w, obs, env, "OK", AFTER_FIRST_CHUNK, LEFT_AS_TRAILER, MARKER);
  }

  /** As written, a buffered chunk followed by bytes that, two bytes on, read as trailer
      lines: the chunk is delivered, size zero is recorded, the bytes are consumed as a
      trailer, and the session finishes without an error. */
  lemma AsWrittenChunkThenTrailer(w: Wire, obs: Observed, env: Env, data: string, more: string,
                                  trailer: seq<string>, rest: string)
    requires data != [] && obs.chunkSize == |data| && |data| < CLib.SIZE_MODULUS && |more| >= 2
    requires w.buf == data + CRLF + more
    requires Lines.AllPlain(trailer) && more[2..] == Lines.Join(trailer) + CRLF + rest
    ensures var s := Run(AsWritten, AtChunkSize, NoError, 0, 0, w, obs, env);
            s.ec == NoError && s.pc == Finished && s.wire.Stream() == rest + w.input &&
            s.obs == obs.(body := obs.body + [data], chunkSize := 0, sizes := obs.sizes + [0])
  {
    var w3 := AsWrittenChunkBoundary(w, obs, env, data, more);
    var obs3 := obs.(body := obs.body + [data], chunkSize := 0, sizes := obs.sizes + [0]);
    AppendAssoc(Lines.Join(trailer) + CRLF, rest, w.input);
    FinishAfterLastChunk(AsWritten, trailer, rest + w.input, w3, obs3, env);
  }

  lemma AsWrittenStream()
    ensures TEST_CHUNK + MARKER ==
            CLib.HexString(2) + [] + CRLF +
            ("OK" + CRLF + AFTER_FIRST_CHUNK)
  {
    assert CLib.HexString(2) == "2";
    assert "2\r\n" == CLib.HexString(2) + [] + CRLF;
    assert "OK\r\n" == "OK" + CRLF;
    Regroup8("2\r\n", "OK\r\n", "10;key=value\r\n", "0123456789abcdef\r\n", "0\r\n", "trailer: val\r\n", "\r\n", MARKER);
  }

  lemma AsWrittenLeft()
    ensures |AFTER_FIRST_CHUNK| >= 2 && AFTER_FIRST_CHUNK[2..] == Lines.Join(LEFT_AS_TRAILER) + CRLF + MARKER
    ensures Lines.AllPlain(LEFT_AS_TRAILER)
  {
    assert "10;key=value\r\n" == "10" + ";key=value\r\n";
    DropFront("10", ";key=value\r\n", "0123456789abcdef\r\n", "0\r\n", "trailer: val\r\n", "\r\n", MARKER);
    LeftAsTrailerLines();
    Flatten(";key=value\r\n", "0123456789abcdef\r\n", "0\r\n", "trailer: val\r\n", CRLF, MARKER);
  }

  lemma LeftAsTrailerLines()
    ensures Lines.Join(LEFT_AS_TRAILER) ==
            ";key=value\r\n" + ("0123456789abcdef\r\n" + ("0\r\n" + ("trailer: val\r\n" + [])))
    ensures Lines.AllPlain(LEFT_AS_TRAILER)
  {
    JoinFour(";key=value", "0123456789abcdef", "0", "trailer: val");
    assert ";key=value" + CRLF == ";key=value\r\n";
    assert "0123456789abcdef" + CRLF == "0123456789abcdef\r\n";
    assert "0" + CRLF == "0\r\n";
    assert "trailer: val" + CRLF == "trailer: val\r\n";
    LeftAsTrailerPlain();
  }

  lemma LeftAsTrailerPlain()
    ensures Lines.AllPlain(LEFT_AS_TRAILER)
  {
    assert Lines.PlainLine(";key=value");
    assert Lines.PlainLine("0123456789abcdef");
    assert Lines.PlainLine("0");
    assert Lines.PlainLine("trailer: val");
  }

  lemma JoinFour(a: string, b: string, c: string, d: string)
    ensures Lines.Join([a, b, c, d]) == a + CRLF + (b + CRLF + (c + CRLF + (d + CRLF + [])))
  {
    assert [a, b, c, d][1..] == [b, c, d] && [b, c, d][1..] == [c, d] && [c, d][1..] == [d] && [d][1..] == [];
    assert Lines.Join([d]) == d + CRLF + [];
    assert Lines.Join([c, d]) == c + CRLF + Lines.Join([d]);
    assert Lines.Join([b, c, d]) == b + CRLF + Lines.Join([c, d]);
  }

  lemma Regroup8(a: string, b: string, c: string, d: string, e: string, f: string, g: string, h: string)
    ensures a + b + c + d + e + f + g + h == a + (b + (c + d + e + f + g + h))
  {
  }

  lemma DropFront(a: string, b: string, c: string, d: string, e: string, f: string, g: string)
    ensures (a + b + c + d + e + f + g)[|a|..] == b + c + d + e + f + g
  {
  }

  lemma Flatten(a: string, b: string, c: string, d: string, e: string, m: string)
    ensures a + (b + (c + (d + []))) + e + m == a + b + c + d + e + m
  {
  }

  /** A buffered chunk followed by more than its CRLF, read as written: the chunk is
      delivered, and the next size read decodes the chunk's CRLF as size zero and drops
      the two bytes that follow it. */
  lemma AsWrittenChunkBoundary(w: Wire, obs: Observed, env: Env, data: string, more: string)
    returns (w': Wire)
    requires data != [] && obs.chunkSize == |data| && |data| < CLib.SIZE_MODULUS && |more| >= 2
    requires w.buf == data + CRLF + more
    ensures w' == Wire(more[2..], w.input)
    ensures Run(AsWritten, AtChunkSize, NoError, 0, 0, w, obs, env) ==
            Run(AsWritten, AtChunkSize, NoError, 0, 0, w',
                obs.(body := obs.body + [data], chunkSize := 0, sizes := obs.sizes + [0]), env)
  {
    AsWrittenDataStep(w, obs, env);
    w' := AsWrittenSizeStep(w, obs, env, data, more);
  }

  /** As written, a chunk-data read with more than the chunk and its CRLF (a size_t sum)
      buffered completes at once. */
  lemma AsWrittenDataStep(w: Wire, obs: Observed, env: Env)
    requires 0 < obs.chunkSize < CLib.SIZE_MODULUS
    requires |w.buf| > (obs.chunkSize + 2) % CLib.SIZE_MODULUS
    ensures Run(AsWritten, AtChunkSize, NoError, 0, 0, w, obs, env) ==
            Run(AsWritten, AtChunkData, NoError, obs.chunkSize, 2, w, obs, env)
  {
    var n := obs.chunkSize;
    ResponseParser.ReadChunkDataBuffered(w, env.rs, n);
    assert Step(AtChunkSize, obs.ctx.chunked, obs.ctx.contentLength, n, NoError, 0) ==
           Transition(AtChunkData, 0, Some(ReadChunkData(n)));
    assert Consume(w, 0) == w;
    assert Delivered(AtChunkSize, NoError, 0, w) == [];
    assert obs.(body := obs.body + []) == obs;
    assert Perform(AsWritten, ReadChunkData(n), w, 0, obs, env) == Outcome(NoError, n, 2, w, obs);
    RunNext(AsWritten, AtChunkSize, NoError, 0, 0, w, obs, env);
  }

  lemma AsWrittenSizeStep(w: Wire, obs: Observed, env: Env, data: string, more: string)
    returns (w': Wire)
    requires data != [] && obs.chunkSize == |data| && |more| >= 2
    requires w.buf == data + CRLF + more
    ensures w' == Wire(more[2..], w.input)
    ensures Run(AsWritten, AtChunkData, NoError, |data|, 2, w, obs, env) ==
            Run(AsWritten, AtChunkSize, NoError, 0, 0, w',
                obs.(body := obs.body + [data], chunkSize := 0, sizes := obs.sizes + [0]), env)
  {
    var n := |data|;
    var d := Consume(w, n);
    BufferAfterChunk(w, data, more);
    ClientSessions.AsWrittenNextSizeIsZero(d, env.rs, n, more);
    var r := SizeAfterChunkAsWritten(d, env.rs, n, 2);
    StepAfterChunk(obs, n);
    DeliveredChunk(w, data);
    AsWrittenPerform(d, obs.(body := obs.body + [data]), env, r);
    RunNext(AsWritten, AtChunkData, NoError, n, 2, w, obs, env);
    w' := r.wire;
  }

  /** The buffer after the as-written handler consumes the chunk: its CRLF and more. */
  lemma BufferAfterChunk(w: Wire, data: string, more: string)
    requires w.buf == data + CRLF + more
    ensures w.buf[..|data|] == data && Consume(w, |data|).buf == CRLF + more
  {
    assert w.buf[..|data|] == data;
    assert w.buf[|data|..] == CRLF + more;
  }

  lemma AsWrittenPerform(d: Wire, obs: Observed, env: Env, r: ResponseParser.SizeRead)
    requires r == SizeAfterChunkAsWritten(d, env.rs, obs.chunkSize, 2) && r.ec == NoError
    ensures Perform(AsWritten, ReadChunkSize, d, 2, obs, env) ==
            Outcome(NoError, 0, 0, r.wire, obs.(chunkSize := r.chunkSize, sizes := obs.sizes + [r.chunkSize]))
  {
    assert SizeReadOf(AsWritten, d, env.rs, obs.chunkSize, 2) == r;
    PerformSize(AsWritten, d, 2, obs, env, r);
  }
}
