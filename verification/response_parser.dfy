/** The asynchronous readers of a response: the header block, a chunk-size line, chunk
    data (through the `match_size` completion condition) and the trailer of a chunked
    body (section 4.1 of RFC 7230). Each reader is a function of the connection state
    it starts from, and a method over a socket and a streambuf proved equal to it. */
module ResponseParser {
  import opened HttpTypes
  import opened AsioModel
  import opened ResponseHeader
  import CLib
  import Lines

  /** The size of the array a chunk-size line is copied into, terminator included. */
  const MAX_CHUNK_SIZE_BYTES: nat := 32

  /** parse_response_header(buf, size, ctx) is declared, not defined, among the files this
      model covers; it is a parameter: the header block and the context before parsing
      go in, the error code it returns and the context after parsing come out. */
  type HeaderParser = (string, ContextFields) -> (ErrorCode, ContextFields)

  /** What async_read_header's handler receives and the state it leaves. */
  datatype HeaderRead = HeaderRead(ec: ErrorCode, n: nat, wire: Wire, ctx: ContextFields)

  /** async_read_header: reads through the first empty line, lets the parser read the
      block, and consumes the block only when the parser reports no error. */
  function ReadHeader(w: Wire, rs: ReadSize, ctx: ContextFields, parse: HeaderParser): (r: HeaderRead)
    ensures r.ec != NoError ==> r.wire.Stream() == w.Stream()
    ensures r.ec == NoError ==> 4 <= r.n <= |w.Stream()| && r.wire.Stream() == w.Stream()[r.n..]
  {
    var c := ReadUntil(w, rs, BLANK_LINE);
    if c.ec != NoError then HeaderRead(c.ec, c.n, c.wire, ctx)
    else
      var (e, f) := parse(c.wire.buf[..c.n], ctx);
      if e == NoError then
        ConsumeStream(c.wire, c.n);
        HeaderRead(NoError, c.n, Consume(c.wire, c.n), f)
      else HeaderRead(e, c.n, c.wire, f)
  }

  /** The parser is shown the stream up to and including the first empty line; after a
      successful parse the body starts right after it, and otherwise nothing is consumed. */
  lemma ReadHeaderSplitsAtBlankLine(w: Wire, rs: ReadSize, ctx: ContextFields, parse: HeaderParser)
    ensures FindEnd(w.Stream(), BLANK_LINE).None? ==>
              ReadHeader(w, rs, ctx, parse) == HeaderRead(EndOfStream, 0, Wire(w.Stream(), []), ctx)
    ensures FindEnd(w.Stream(), BLANK_LINE).Some? ==>
              var k := FindEnd(w.Stream(), BLANK_LINE).value;
              var r := ReadHeader(w, rs, ctx, parse);
              r.n == k && (r.ec, r.ctx) == parse(w.Stream()[..k], ctx) &&
              r.wire.Stream() == (if r.ec == NoError then w.Stream()[k..] else w.Stream())
  {
    if FindEnd(w.Stream(), BLANK_LINE).None? {
      HeaderWithoutBlankLine(w, rs, ctx, parse);
    } else {
      HeaderAtBlankLine(w, rs, ctx, parse, FindEnd(w.Stream(), BLANK_LINE).value);
    }
  }

  lemma HeaderWithoutBlankLine(w: Wire, rs: ReadSize, ctx: ContextFields, parse: HeaderParser)
    requires FindEnd(w.Stream(), BLANK_LINE).None?
    ensures ReadHeader(w, rs, ctx, parse) == HeaderRead(EndOfStream, 0, Wire(w.Stream(), []), ctx)
  {
    ReadUntilFindsFirstInStream(w, rs, BLANK_LINE);
    assert ReadUntil(w, rs, BLANK_LINE).wire == Wire(w.Stream(), []);
  }

  lemma HeaderAtBlankLine(w: Wire, rs: ReadSize, ctx: ContextFields, parse: HeaderParser, k: nat)
    requires FindEnd(w.Stream(), BLANK_LINE) == Some(k)
    ensures var r := ReadHeader(w, rs, ctx, parse);
            r.n == k && (r.ec, r.ctx) == parse(w.Stream()[..k], ctx) &&
            r.wire.Stream() == (if r.ec == NoError then w.Stream()[k..] else w.Stream())
  {
    var c := ReadUntil(w, rs, BLANK_LINE);
    assert c.ec == NoError && c.n == k && k <= |c.wire.buf| by {
      ReadUntilFindsFirstInStream(w, rs, BLANK_LINE);
    }
    assert c.wire.buf[..k] == w.Stream()[..k] by {
      assert c.wire.buf[..k] == c.wire.Stream()[..k];
    }
    HeaderOfCompletion(w, rs, ctx, parse, c);
  }

  /** A header read whose search succeeded hands the parser the buffer up to the match. */
  lemma HeaderOfCompletion(w: Wire, rs: ReadSize, ctx: ContextFields, parse: HeaderParser, c: Completion)
    requires c == ReadUntil(w, rs, BLANK_LINE) && c.ec == NoError
    ensures ReadHeader(w, rs, ctx, parse).n == c.n
    ensures (ReadHeader(w, rs, ctx, parse).ec, ReadHeader(w, rs, ctx, parse).ctx) == parse(c.wire.buf[..c.n], ctx)
  {
  }

  /** The header block of the read tests: three header lines and the empty line. */
  const TEST_HEADER: string :=
    "HTTP/1.0 200 OK\r\n" + "Content-Type: text/plain\r\n" + "Content-Length: 7\r\n" + "\r\n"

  /** With the block of the read tests in front of "*BODY*\n", the parser is shown the
      64 bytes of the block and the body is what is left. */
  lemma ReadHeaderOfTestVector(w: Wire, rs: ReadSize, parse: HeaderParser)
    requires w.Stream() == TEST_HEADER + "*BODY*\n"
    requires parse(TEST_HEADER, INITIAL_FIELDS).0 == NoError
    ensures ReadHeader(w, rs, INITIAL_FIELDS, parse).ec == NoError
    ensures ReadHeader(w, rs, INITIAL_FIELDS, parse).n == 64
    ensures ReadHeader(w, rs, INITIAL_FIELDS, parse).wire.Stream() == "*BODY*\n"
  {
    var lines := ["HTTP/1.0 200 OK", "Content-Type: text/plain", "Content-Length: 7"];
    TestHeaderLines(lines);
    assert w.Stream() == Lines.Join(lines) + CRLF + "*BODY*\n";
    Lines.BlankLineEnd(lines, "*BODY*\n");
    ReadHeaderSplitsAtBlankLine(w, rs, INITIAL_FIELDS, parse);
    assert w.Stream()[..64] == TEST_HEADER;
  }

  lemma TestHeaderLines(lines: seq<string>)
    requires lines == ["HTTP/1.0 200 OK", "Content-Type: text/plain", "Content-Length: 7"]
    ensures Lines.AllPlain(lines) && TEST_HEADER == Lines.Join(lines) + CRLF
  {
    TestHeaderText(lines[0], lines[1], lines[2]);
    TestHeaderPlain(lines[0], lines[1], lines[2]);
    JoinOfThree(lines[0], lines[1], lines[2]);
    assert lines == [lines[0], lines[1], lines[2]];
  }

  lemma TestHeaderText(a: string, b: string, c: string)
    requires a == "HTTP/1.0 200 OK" && b == "Content-Type: text/plain" && c == "Content-Length: 7"
    ensures TEST_HEADER == (a + CRLF) + (b + CRLF) + (c + CRLF) + CRLF
  {
    assert a + CRLF == "HTTP/1.0 200 OK\r\n";
    assert b + CRLF == "Content-Type: text/plain\r\n";
    assert c + CRLF == "Content-Length: 7\r\n";
  }

  lemma TestHeaderPlain(a: string, b: string, c: string)
    requires a == "HTTP/1.0 200 OK" && b == "Content-Type: text/plain" && c == "Content-Length: 7"
    ensures Lines.AllPlain([a, b, c])
  {
    assert Lines.PlainLine(a) && Lines.PlainLine(b) && Lines.PlainLine(c);
  }

  /** async_read_header over a socket and a streambuf; the parser's result is written
      into the context. */
  method AsyncReadHeader(s: Socket, b: StreamBuf, ctx: ResponseContext, parse: HeaderParser)
    returns (ec: ErrorCode, n: nat)
    modifies s, b, ctx
    ensures HeaderRead(ec, n, WireOf(s, b), ctx.Fields()) ==
              ReadHeader(old(WireOf(s, b)), s.readSize, old(ctx.Fields()), parse)
    ensures ctx.tmpKey == old(ctx.tmpKey)
  {
    ec, n := AsyncReadUntil(s, b, BLANK_LINE);
    if ec != NoError {
      return;
    }
    var (e, f) := parse(b.data[..n], ctx.Fields());
    ctx.SetFields(f);
    if e == NoError {
      b.Consume(n);
    }
    ec := e;
  }

  /** What async_read_chunk_size's handler receives (the error code; the size is written
      into the caller's variable) and the state it leaves. */
  datatype SizeRead = SizeRead(ec: ErrorCode, chunkSize: nat, wire: Wire)

  /** The completion handler of async_read_chunk_size, given where async_read_until ended:
      a line of more than 31 characters is malformed; otherwise the line is copied into a
      32-byte array, terminated, and decoded by strtol; the size variable is set even when
      what follows the digits makes the line malformed; a well-formed line is consumed. */
  function ChunkSizeCompletion(c: Completion, chunkSize: nat): (r: SizeRead)
    requires c.ec == NoError ==> 2 <= c.n <= |c.wire.buf| + 2
    ensures r.chunkSize < CLib.SIZE_MODULUS || r.chunkSize == chunkSize
    ensures r.ec == NoError ==> c.ec == NoError && c.n - 2 < MAX_CHUNK_SIZE_BYTES
    ensures r.ec == NoError ==> r.wire == Consume(c.wire, c.n)
    ensures r.ec != NoError ==> r.wire == c.wire
  {
    if c.ec != NoError then SizeRead(c.ec, chunkSize, c.wire)
    else if c.n - 2 > MAX_CHUNK_SIZE_BYTES - 1 then SizeRead(Malformed, chunkSize, c.wire)
    else LineVerdict(CLib.CString(c.wire.buf[..c.n - 2]), c.wire, c.n)
  }

  /** The size strtol reads from the line as a C string, and whether what follows the
      digits is the end of the string or a `;`; only then is the line consumed. */
  function LineVerdict(line: seq<char>, w: Wire, n: nat): (r: SizeRead)
    ensures r.chunkSize < CLib.SIZE_MODULUS
    ensures r.ec == NoError || r.ec == Malformed
    ensures r.wire == if r.ec == NoError then Consume(w, n) else w
  {
    var conv := CLib.Strtol16(line);
    var size := conv.value % CLib.SIZE_MODULUS;
    if conv.end == |line| || line[conv.end] == ';' then SizeRead(NoError, size, Consume(w, n))
    else SizeRead(Malformed, size, w)
  }

  /** async_read_chunk_size: reads through the first CRLF and decodes the line before it. */
  function ReadChunkSize(w: Wire, rs: ReadSize, chunkSize: nat): (r: SizeRead)
    ensures r.ec != NoError ==> r.wire.Stream() == w.Stream()
    ensures r.ec == NoError ==>
              FindEnd(w.Stream(), CRLF).Some? &&
              FindEnd(w.Stream(), CRLF).value <= MAX_CHUNK_SIZE_BYTES + 1 &&
              r.wire.Stream() == w.Stream()[FindEnd(w.Stream(), CRLF).value..]
  {
    ReadUntilFindsFirstInStream(w, rs, CRLF);
    var c := ReadUntil(w, rs, CRLF);
    assert c.ec == NoError ==> Consume(c.wire, c.n).Stream() == w.Stream()[c.n..] by {
      if c.ec == NoError {
        ConsumeStream(c.wire, c.n);
      }
    }
    ChunkSizeCompletion(c, chunkSize)
  }

  /** A size line written as the hexadecimal numeral of the size, optionally followed by
      a chunk extension, is read back as that size and consumed with its CRLF. */
  lemma ChunkSizeRoundTrip(w: Wire, rs: ReadSize, chunkSize: nat, size: nat, ext: string, rest: string)
    requires size <= CLib.LONG_MAX
    requires ext == [] || ext[0] == ';'
    requires '\r' !in ext && '\0' !in ext
    requires |CLib.HexString(size)| + |ext| < MAX_CHUNK_SIZE_BYTES
    requires w.Stream() == CLib.HexString(size) + ext + CRLF + rest
    ensures ReadChunkSize(w, rs, chunkSize).ec == NoError
    ensures ReadChunkSize(w, rs, chunkSize).chunkSize == size
    ensures ReadChunkSize(w, rs, chunkSize).wire.Stream() == rest
  {
    var line := CLib.HexString(size) + ext;
    HexLineIsPlain(size, ext);
    Lines.PlainHoldsNoLineBreak(line);
    Lines.LineEnd(line, rest);
    assert w.Stream() == line + CRLF + rest;
    ReadUntilFindsFirstInStream(w, rs, CRLF);
    var c := ReadUntil(w, rs, CRLF);
    assert c.wire.buf[..c.n - 2] == line by {
      assert c.wire.buf[..c.n] == c.wire.Stream()[..c.n] == w.Stream()[..|line| + 2];
    }
    ChunkSizeCompletionOfLine(c, chunkSize, size, ext);
    ConsumeStream(c.wire, c.n);
    assert w.Stream()[|line| + 2..] == rest;
  }

  lemma HexLineIsPlain(size: nat, ext: string)
    requires '\r' !in ext && '\0' !in ext
    ensures '\r' !in CLib.HexString(size) + ext && '\0' !in CLib.HexString(size) + ext
  {
    var h := CLib.HexString(size);
    assert forall x :: 0 <= x < |h| ==> CLib.IsHexDigit(h[x]);
  }

  /** The handler decodes a buffered size line written as a hexadecimal numeral and an
      optional extension, and consumes it. */
  lemma ChunkSizeCompletionOfLine(c: Completion, chunkSize: nat, size: nat, ext: string)
    requires size <= CLib.LONG_MAX
    requires ext == [] || ext[0] == ';'
    requires '\r' !in ext && '\0' !in ext
    requires |CLib.HexString(size)| + |ext| < MAX_CHUNK_SIZE_BYTES
    requires c.ec == NoError && c.n == |CLib.HexString(size)| + |ext| + 2 && c.n <= |c.wire.buf|
    requires c.wire.buf[..c.n - 2] == CLib.HexString(size) + ext
    ensures ChunkSizeCompletion(c, chunkSize) == SizeRead(NoError, size, Consume(c.wire, c.n))
  {
    var line := CLib.HexString(size) + ext;
    assert CLib.CString(c.wire.buf[..c.n - 2]) == line by {
      HexLineIsPlain(size, ext);
      CLib.CStringOfTerminated(line, []);
    }
    assert LineVerdict(line, c.wire, c.n) == SizeRead(NoError, size, Consume(c.wire, c.n)) by {
      VerdictOfNumeral(size, ext, c.wire, c.n);
    }
    CompletionOfLine(c, chunkSize, line);
  }

  /** A completion whose line fits is decided by the line's text alone. */
  lemma CompletionOfLine(c: Completion, chunkSize: nat, line: string)
    requires c.ec == NoError && 2 <= c.n <= |c.wire.buf| && c.n - 2 < MAX_CHUNK_SIZE_BYTES
    requires CLib.CString(c.wire.buf[..c.n - 2]) == line
    ensures ChunkSizeCompletion(c, chunkSize) == LineVerdict(line, c.wire, c.n)
  {
  }

  /** A numeral followed by nothing or by an extension is well formed and reads as its
      value. */
  lemma VerdictOfNumeral(size: nat, ext: string, w: Wire, n: nat)
    requires size <= CLib.LONG_MAX
    requires ext == [] || ext[0] == ';'
    ensures LineVerdict(CLib.HexString(size) + ext, w, n) == SizeRead(NoError, size, Consume(w, n))
  {
    var line := CLib.HexString(size) + ext;
    CLib.Strtol16OfHexString(size, ext);
    var conv := CLib.Strtol16(line);
    assert conv.end == |line| || line[conv.end] == ';';
    SmallRemainder(size, CLib.SIZE_MODULUS);
  }

  lemma SmallRemainder(x: int, m: int)
    requires 0 <= x < m
    ensures x % m == x
  {
  }

  /** A line longer than 31 characters is rejected as malformed and left in the buffer,
      and the size variable keeps its value. */
  lemma ChunkSizeLineTooLong(w: Wire, rs: ReadSize, chunkSize: nat, line: string, rest: string)
    requires Absent(line, CRLF) && |line| >= MAX_CHUNK_SIZE_BYTES
    requires w.Stream() == line + CRLF + rest
    ensures ReadChunkSize(w, rs, chunkSize).ec == Malformed
    ensures ReadChunkSize(w, rs, chunkSize).chunkSize == chunkSize
    ensures ReadChunkSize(w, rs, chunkSize).wire.Stream() == w.Stream()
  {
    Lines.LineEnd(line, rest);
    ReadUntilFindsFirstInStream(w, rs, CRLF);
  }

  /** Any size line that fits decides the read by strtol alone: the size variable takes the
      converted value modulo 2^64 whatever follows the digits; the line is consumed with
      its CRLF iff the conversion stops at the end of the C string or at a `;`, and
      otherwise the read is malformed and nothing is consumed. */
  lemma ChunkSizeOfLine(w: Wire, rs: ReadSize, chunkSize: nat, line: string, rest: string)
    requires Absent(line, CRLF) && |line| < MAX_CHUNK_SIZE_BYTES
    requires w.Stream() == line + CRLF + rest
    ensures var c := CLib.CString(line);
            var conv := CLib.Strtol16(c);
            var r := ReadChunkSize(w, rs, chunkSize);
            && r.chunkSize == conv.value % CLib.SIZE_MODULUS
            && (r.ec == NoError <==> conv.end == |c| || c[conv.end] == ';')
            && (r.ec == NoError ==> r.wire.Stream() == rest)
            && (r.ec != NoError ==> r.ec == Malformed && r.wire.Stream() == w.Stream())
  {
    Lines.LineEnd(line, rest);
    ReadUntilFindsFirstInStream(w, rs, CRLF);
    var c := ReadUntil(w, rs, CRLF);
    assert c.wire.buf[..c.n - 2] == line by {
      assert c.wire.buf[..c.n] == c.wire.Stream()[..c.n] == w.Stream()[..|line| + 2];
    }
    CompletionOfLine(c, chunkSize, CLib.CString(line));
    ConsumeStream(c.wire, c.n);
    assert w.Stream()[|line| + 2..] == rest;
  }

  /** Size lines beyond the tests' lower-case numerals: upper case and a leading zero are
      read as hexadecimal, "-1" becomes 2^64 - 1 as the conversion to size_t makes it,
      and "2x" is malformed yet still sets the size variable to 2. */
  lemma ChunkSizeUnusualLines(w: Wire, rs: ReadSize, chunkSize: nat, rest: string)
    ensures w.Stream() == "FF\r\n" + rest ==>
              ReadChunkSize(w, rs, chunkSize).ec == NoError && ReadChunkSize(w, rs, chunkSize).chunkSize == 255
    ensures w.Stream() == "0a\r\n" + rest ==>
              ReadChunkSize(w, rs, chunkSize).ec == NoError && ReadChunkSize(w, rs, chunkSize).chunkSize == 10
    ensures w.Stream() == "-1\r\n" + rest ==>
              ReadChunkSize(w, rs, chunkSize).ec == NoError &&
              ReadChunkSize(w, rs, chunkSize).chunkSize == CLib.SIZE_MODULUS - 1
    ensures w.Stream() == "2x\r\n" + rest ==>
              ReadChunkSize(w, rs, chunkSize).ec == Malformed && ReadChunkSize(w, rs, chunkSize).chunkSize == 2 &&
              ReadChunkSize(w, rs, chunkSize).wire.Stream() == w.Stream()
    ensures w.Stream() == "\r5\r\n" + rest ==>
              ReadChunkSize(w, rs, chunkSize).ec == NoError && ReadChunkSize(w, rs, chunkSize).chunkSize == 5 &&
              ReadChunkSize(w, rs, chunkSize).wire.Stream() == rest
  {
    if w.Stream() == "FF\r\n" + rest {
      SizeLineUpper(w, rs, chunkSize, rest);
    }
    if w.Stream() == "0a\r\n" + rest {
      SizeLineLeadingZero(w, rs, chunkSize, rest);
    }
    if w.Stream() == "-1\r\n" + rest {
      SizeLineMinusOne(w, rs, chunkSize, rest);
    }
    if w.Stream() == "2x\r\n" + rest {
      SizeLineTrailingX(w, rs, chunkSize, rest);
    }
    if w.Stream() == "\r5\r\n" + rest {
      SizeLineLoneCarriageReturn(w, rs, chunkSize, rest);
    }
  }

  lemma SizeLineLoneCarriageReturn(w: Wire, rs: ReadSize, chunkSize: nat, rest: string)
    requires w.Stream() == "\r5\r\n" + rest
    ensures ReadChunkSize(w, rs, chunkSize).ec == NoError && ReadChunkSize(w, rs, chunkSize).chunkSize == 5
    ensures ReadChunkSize(w, rs, chunkSize).wire.Stream() == rest
  {
    var s := "\r5";
    assert Absent(s, CRLF) by {
      assert s[0..2] != CRLF by { assert s[0..2][1] != CRLF[1]; }
    }
    assert w.Stream() == s + CRLF + rest;
    assert CLib.CString(s) == s by {
      CLib.CStringOfTerminated(s, []);
    }
    CLib.Strtol16AfterCarriageReturn();
    ChunkSizeOfLine(w, rs, chunkSize, s, rest);
    SmallRemainder(5, CLib.SIZE_MODULUS);
  }

  lemma SizeLineUpper(w: Wire, rs: ReadSize, chunkSize: nat, rest: string)
    requires w.Stream() == "FF\r\n" + rest
    ensures ReadChunkSize(w, rs, chunkSize).ec == NoError && ReadChunkSize(w, rs, chunkSize).chunkSize == 255
  {
    assert "FF\r\n" + rest == "FF" + [] + CRLF + rest;
    assert CLib.HexValue("FF") == 255 by {
      assert "FF"[..1] == "F" && "F"[..0] == [];
    }
    PlainLineVerdict(w, rs, chunkSize, "FF", [], rest);
  }

  lemma SizeLineLeadingZero(w: Wire, rs: ReadSize, chunkSize: nat, rest: string)
    requires w.Stream() == "0a\r\n" + rest
    ensures ReadChunkSize(w, rs, chunkSize).ec == NoError && ReadChunkSize(w, rs, chunkSize).chunkSize == 10
  {
    assert "0a\r\n" + rest == "0a" + [] + CRLF + rest;
    assert CLib.HexValue("0a") == 10 by {
      assert "0a"[..1] == "0" && "0"[..0] == [];
    }
    PlainLineVerdict(w, rs, chunkSize, "0a", [], rest);
  }

  lemma SizeLineTrailingX(w: Wire, rs: ReadSize, chunkSize: nat, rest: string)
    requires w.Stream() == "2x\r\n" + rest
    ensures ReadChunkSize(w, rs, chunkSize).ec == Malformed && ReadChunkSize(w, rs, chunkSize).chunkSize == 2
    ensures ReadChunkSize(w, rs, chunkSize).wire.Stream() == w.Stream()
  {
    assert "2x\r\n" + rest == "2" + "x" + CRLF + rest;
    assert CLib.HexValue("2") == 2 by {
      assert "2"[..0] == [];
    }
    PlainLineVerdict(w, rs, chunkSize, "2", "x", rest);
  }

  lemma SizeLineMinusOne(w: Wire, rs: ReadSize, chunkSize: nat, rest: string)
    requires w.Stream() == "-1\r\n" + rest
    ensures ReadChunkSize(w, rs, chunkSize).ec == NoError
    ensures ReadChunkSize(w, rs, chunkSize).chunkSize == CLib.SIZE_MODULUS - 1
  {
    var s := "-1";
    assert CLib.CString(s) == s by {
      CLib.CStringOfTerminated(s, []);
    }
    CLib.Strtol16MinusOne();
    ChunkSizeOfLine(w, rs, chunkSize, s, rest);
    assert -1 % CLib.SIZE_MODULUS == CLib.SIZE_MODULUS - 1;
  }

  /** A size line made of a hex run `h` and a tail `t` that strtol stops at. */
  lemma PlainLineVerdict(w: Wire, rs: ReadSize, chunkSize: nat, h: string, t: string, rest: string)
    requires h != [] && CLib.AllHex(h) && CLib.HexValue(h) <= CLib.LONG_MAX
    requires t == [] || !CLib.IsHexDigit(t[0])
    requires h != "0"
    requires '\r' !in h + t && '\0' !in h + t && |h + t| < MAX_CHUNK_SIZE_BYTES
    requires w.Stream() == h + t + CRLF + rest
    ensures ReadChunkSize(w, rs, chunkSize).chunkSize == CLib.HexValue(h)
    ensures ReadChunkSize(w, rs, chunkSize).ec == (if t == [] || t[0] == ';' then NoError else Malformed)
    ensures ReadChunkSize(w, rs, chunkSize).ec != NoError ==> ReadChunkSize(w, rs, chunkSize).wire.Stream() == w.Stream()
  {
    Lines.PlainHoldsNoLineBreak(h + t);
    ChunkSizeOfLine(w, rs, chunkSize, h + t, rest);
    CLib.CStringOfTerminated(h + t, []);
    CLib.Strtol16OfHexRun(h, t);
    SmallRemainder(CLib.HexValue(h), CLib.SIZE_MODULUS);
    if t != [] {
      assert (h + t)[|h|] == t[0];
    }
  }

  /** The size lines of the read tests: "ff" is 255, "2" is 2 and "10;key=value" is 16. */
  lemma ChunkSizeTestVectors(w: Wire, rs: ReadSize, chunkSize: nat, rest: string)
    ensures w.Stream() == "ff\r\n" ==> ReadChunkSize(w, rs, chunkSize).chunkSize == 255
    ensures w.Stream() == "2\r\n" + rest ==> ReadChunkSize(w, rs, chunkSize).chunkSize == 2
    ensures w.Stream() == "10;key=value\r\n" + rest ==>
              ReadChunkSize(w, rs, chunkSize).chunkSize == 16 &&
              ReadChunkSize(w, rs, chunkSize).wire.Stream() == rest
  {
    if w.Stream() == "ff\r\n" {
      SizeLineFF(w, rs, chunkSize);
    }
    if w.Stream() == "2\r\n" + rest {
      SizeLine2(w, rs, chunkSize, rest);
    }
    if w.Stream() == "10;key=value\r\n" + rest {
      SizeLine10(w, rs, chunkSize, rest);
    }
  }

  lemma SizeLineFF(w: Wire, rs: ReadSize, chunkSize: nat)
    requires w.Stream() == "ff\r\n"
    ensures ReadChunkSize(w, rs, chunkSize).chunkSize == 255
  {
    assert CLib.HexString(255) == "ff";
    SizeLineVector(w, rs, chunkSize, 255, "ff", [], []);
  }

  lemma SizeLine2(w: Wire, rs: ReadSize, chunkSize: nat, rest: string)
    requires w.Stream() == "2\r\n" + rest
    ensures ReadChunkSize(w, rs, chunkSize).chunkSize == 2
  {
    assert CLib.HexString(2) == "2";
    SizeLineVector(w, rs, chunkSize, 2, "2", [], rest);
  }

  lemma SizeLine10(w: Wire, rs: ReadSize, chunkSize: nat, rest: string)
    requires w.Stream() == "10;key=value\r\n" + rest
    ensures ReadChunkSize(w, rs, chunkSize).chunkSize == 16
    ensures ReadChunkSize(w, rs, chunkSize).wire.Stream() == rest
  {
    HexSixteen();
    assert "10;key=value\r\n" + rest == "10" + ";key=value" + "\r\n" + rest;
    SizeLineVector(w, rs, chunkSize, 16, "10", ";key=value", rest);
  }

  lemma HexSixteen()
    ensures CLib.HexString(16) == "10"
  {
    assert CLib.HexString(1) == "1";
  }

  lemma SizeLineVector(w: Wire, rs: ReadSize, chunkSize: nat, size: nat, digits: string, ext: string, rest: string)
    requires CLib.HexString(size) == digits && size <= CLib.LONG_MAX
    requires (ext == [] || ext[0] == ';') && '\r' !in ext && '\0' !in ext
    requires |digits| + |ext| < MAX_CHUNK_SIZE_BYTES
    requires w.Stream() == digits + ext + "\r\n" + rest
    ensures ReadChunkSize(w, rs, chunkSize).chunkSize == size
    ensures ReadChunkSize(w, rs, chunkSize).wire.Stream() == rest
  {
    ChunkSizeRoundTrip(w, rs, chunkSize, size, ext, rest);
  }

  /** async_read_chunk_size over a socket and a streambuf, with the 32-byte array the line
      is copied into. */
  method AsyncReadChunkSize(s: Socket, b: StreamBuf, chunkSize: nat) returns (ec: ErrorCode, newSize: nat)
    modifies s, b
    ensures SizeRead(ec, newSize, WireOf(s, b)) == ReadChunkSize(old(WireOf(s, b)), s.readSize, chunkSize)
  {
    ghost var w := WireOf(s, b);
    var e, n := AsyncReadUntil(s, b, CRLF);
    ghost var c := Completion(e, n, WireOf(s, b));
    assert c == ReadUntil(w, s.readSize, CRLF);
    ec, newSize := ChunkSizeHandler(s, b, e, n, chunkSize);
  }

  /** The completion handler of async_read_chunk_size's read, on the streambuf. */
  method ChunkSizeHandler(s: Socket, b: StreamBuf, e: ErrorCode, n: nat, chunkSize: nat)
    returns (ec: ErrorCode, newSize: nat)
    requires e == NoError ==> 2 <= n <= |b.data|
    modifies b
    ensures SizeRead(ec, newSize, WireOf(s, b)) == ChunkSizeCompletion(Completion(e, n, old(WireOf(s, b))), chunkSize)
  {
    if e != NoError || n - 2 > MAX_CHUNK_SIZE_BYTES - 1 {
      ec := if e != NoError then e else Malformed;
      newSize := chunkSize;
    } else {
      ec, newSize := DecodeSizeLine(s, b, n, chunkSize);
    }
  }

  /** The part of the handler that copies a short enough line, decodes it, checks what
      follows the digits and consumes the line when it is well formed. */
  method DecodeSizeLine(s: Socket, b: StreamBuf, n: nat, chunkSize: nat) returns (ec: ErrorCode, newSize: nat)
    requires 2 <= n <= |b.data| && n - 2 <= MAX_CHUNK_SIZE_BYTES - 1
    modifies b
    ensures SizeRead(ec, newSize, WireOf(s, b)) == ChunkSizeCompletion(Completion(NoError, n, old(WireOf(s, b))), chunkSize)
  {
    ghost var w := WireOf(s, b);
    var tmp := CopyLine(b.data[..n - 2]);
    var conv := CLib.Strtol16(CLib.CString(tmp[..]));
    newSize := conv.value % CLib.SIZE_MODULUS;
    DecodedLine(w, n, chunkSize, tmp[..]);
    if tmp[conv.end] == '\0' || tmp[conv.end] == ';' {
      b.Consume(n);
      ec := NoError;
    } else {
      ec := Malformed;
    }
  }

  /** What the handler computes on the terminated copy of the line is what the
      completion function computes on the line. */
  lemma DecodedLine(w: Wire, n: nat, chunkSize: nat, tmp: seq<char>)
    requires 2 <= n <= |w.buf| && n - 2 <= MAX_CHUNK_SIZE_BYTES - 1
    requires n - 2 < |tmp| && tmp == w.buf[..n - 2] + ['\0'] + tmp[n - 1..]
    ensures ChunkSizeCompletion(Completion(NoError, n, w), chunkSize) == LineVerdict(CLib.CString(tmp), w, n)
    ensures var conv := CLib.Strtol16(CLib.CString(tmp));
            conv.end < |tmp| &&
            ((tmp[conv.end] == '\0' || tmp[conv.end] == ';') <==>
             (conv.end == |CLib.CString(tmp)| || CLib.CString(tmp)[conv.end] == ';'))
  {
    var conv := CLib.Strtol16(CLib.CString(tmp));
    EndPointerCheck(w.buf[..n - 2], tmp, conv.end);
  }

  /** The memcpy into the chunk-size array and the terminator after the copied line. */
  method CopyLine(line: seq<char>) returns (tmp: array<char>)
    requires |line| < MAX_CHUNK_SIZE_BYTES
    ensures fresh(tmp) && tmp.Length == MAX_CHUNK_SIZE_BYTES
    ensures tmp[..] == line + ['\0'] + tmp[|line| + 1..]
  {
    tmp := new char[MAX_CHUNK_SIZE_BYTES];
    forall i | 0 <= i < |line| {
      tmp[i] := line[i];
    }
    tmp[|line|] := '\0';
    assert tmp[..] == tmp[..|line|] + [tmp[|line|]] + tmp[|line| + 1..];
  }

  /** strtol's end pointer in the terminated copy points at the terminator or at `;`
      exactly when, in the line itself, it is at the end of the C string or at `;`;
      and strtol sees the same C string in both. */
  lemma EndPointerCheck(line: seq<char>, tmp: seq<char>, e: nat)
    requires |line| < |tmp| && tmp == line + ['\0'] + tmp[|line| + 1..]
    requires e <= |CLib.CString(tmp)|
    ensures CLib.CString(tmp) == CLib.CString(line)
    ensures e < |tmp|
    ensures (tmp[e] == '\0' || tmp[e] == ';') <==>
            (e == |CLib.CString(line)| || CLib.CString(line)[e] == ';')
  {
    CLib.CStringOfTerminated(line, tmp[|line| + 1..]);
    var c := CLib.CString(line);
    if e < |c| {
      assert tmp[e] == line[e] == c[e];
    } else if |c| < |line| {
      assert tmp[e] == line[e];
    }
  }

  /** match_size's call operator on the range [begin, end) handed to it: it counts the
      range and reports a match at begin + size when more than `size` bytes are present,
      and otherwise no match at end. */
  method MatchSize(range: seq<char>, size: nat) returns (pos: nat, matched: bool)
    ensures matched <==> |range| > size
    ensures matched ==> pos == size
    ensures !matched ==> pos == |range|
  {
    var i := 0;
    var ite := 0;
    while ite != |range|
      invariant ite <= |range| && i == ite
      invariant i <= size
    {
      if i == size {
        return ite, true;
      }
      i, ite := i + 1, ite + 1;
    }
    return |range|, false;
  }

  /** async_read_until with match_size(size), as asio runs a match condition: the
      condition sees the buffer from the search position `from`; a match ends the
      operation at from + size; no match moves the search position to the end of the
      buffer and reads more. The count therefore restarts after every read. */
  function ReadUntilWithSize(w: Wire, rs: ReadSize, size: nat, from: nat): (r: Completion)
    requires from <= |w.buf|
    ensures r.wire.Stream() == w.Stream() && w.buf <= r.wire.buf
    ensures r.ec == NoError ==> size <= r.n < |r.wire.buf|
    ensures r.ec != NoError ==> r.ec == EndOfStream && r.n == 0 && r.wire.input == []
    decreases |w.input|
  {
    if |w.buf| - from > size then Completion(NoError, from + size, w)
    else if w.input == [] then Completion(EndOfStream, 0, w)
    else
      var m := Min(rs, |w.input|);
      var w' := Wire(w.buf + w.input[..m], w.input[m..]);
      assert w'.Stream() == w.Stream() by {
        assert w.input == w.input[..m] + w.input[m..];
      }
      ReadUntilWithSize(w', rs, size, |w.buf|)
  }

  /** async_read_until_with_size over a socket and a streambuf. */
  method AsyncReadUntilWithSize(s: Socket, b: StreamBuf, size: nat) returns (ec: ErrorCode, n: nat)
    modifies s, b
    ensures Completion(ec, n, WireOf(s, b)) == ReadUntilWithSize(old(WireOf(s, b)), s.readSize, size, 0)
  {
    var from: nat := 0;
    while true
      invariant from <= |b.data|
      invariant ReadUntilWithSize(WireOf(s, b), s.readSize, size, from) ==
                ReadUntilWithSize(old(WireOf(s, b)), s.readSize, size, 0)
      decreases |s.input|
    {
      var pos, matched := MatchSize(b.data[from..], size);
      if matched {
        return NoError, from + pos;
      }
      from := from + pos;
      var e, bytes := s.ReadSome();
      if e != NoError {
        return e, 0;
      }
      b.Commit(bytes);
    }
  }

  /** When the peer closes after at most `size` bytes, match_size never matches: the
      operation ends with end of stream and every byte is left in the buffer, even when
      exactly `size` bytes, all that was asked for, have arrived. */
  lemma SizedReadAtClose(w: Wire, rs: ReadSize, size: nat)
    requires |w.Stream()| <= size
    ensures ReadUntilWithSize(w, rs, size, 0) == Completion(EndOfStream, 0, Wire(w.Stream(), []))
  {
  }

  /** Ten bytes arriving four at a time never satisfy match_size(7): each read restarts
      the count, and no single read brings more than seven. */
  lemma CountRestartsAfterEachRead()
    ensures ReadUntilWithSize(Wire([], "abcdefghij"), 4, 7, 0).ec == EndOfStream
  {
    TenBytesByFours(Wire([], "abcdefghij"));
  }

  /** The same for any ten bytes: the reads bring four, four and two, and after each the
      count of bytes since the search position is at most seven. */
  lemma TenBytesByFours(w: Wire)
    requires w.buf == [] && |w.input| == 10
    ensures ReadUntilWithSize(w, 4, 7, 0).ec == EndOfStream
  {
    var w1 := SizedReadStep(w, 4, 7, 0);
    var w2 := SizedReadStep(w1, 4, 7, 0);
    assert |w2.buf| == 8 && |w2.input| == 2;
    var w3 := SizedReadStep(w2, 4, 7, 4);
    assert |w3.buf| == 10 && w3.input == [];
  }

  /** One read of a sized read that has not matched: up to `rs` more bytes are appended
      and the search goes on from the old end of the buffer. */
  lemma SizedReadStep(w: Wire, rs: ReadSize, size: nat, from: nat) returns (w': Wire)
    requires from <= |w.buf| && |w.buf| - from <= size && w.input != []
    ensures w' == Wire(w.buf + w.input[..Min(rs, |w.input|)], w.input[Min(rs, |w.input|)..])
    ensures ReadUntilWithSize(w, rs, size, from) == ReadUntilWithSize(w', rs, size, |w.buf|)
  {
    w' := Wire(w.buf + w.input[..Min(rs, |w.input|)], w.input[Min(rs, |w.input|)..]);
  }

  /** The evidently intended sized read: it completes as soon as `size` bytes are
      buffered, with exactly `size` bytes reported. */
  function ReadAtLeast(w: Wire, rs: ReadSize, size: nat): (r: Completion)
    ensures r.wire.Stream() == w.Stream() && w.buf <= r.wire.buf
    ensures r.ec == NoError ==> r.n == size && size <= |r.wire.buf|
    ensures r.ec != NoError ==>
              r.ec == EndOfStream && r.n == 0 && r.wire.input == [] && |r.wire.buf| < size
    decreases |w.input|
  {
    if |w.buf| >= size then Completion(NoError, size, w)
    else if w.input == [] then Completion(EndOfStream, 0, w)
    else
      var m := Min(rs, |w.input|);
      var w' := Wire(w.buf + w.input[..m], w.input[m..]);
      assert w'.Stream() == w.Stream() by {
        assert w.input == w.input[..m] + w.input[m..];
      }
      ReadAtLeast(w', rs, size)
  }

  /** The intended read succeeds exactly when the peer sends at least `size` bytes, and
      then the first `size` bytes of the stream are at the front of the buffer. */
  lemma ReadAtLeastSucceedsIff(w: Wire, rs: ReadSize, size: nat)
    ensures ReadAtLeast(w, rs, size).ec == NoError <==> size <= |w.Stream()|
    ensures ReadAtLeast(w, rs, size).ec == NoError ==>
              ReadAtLeast(w, rs, size).wire.buf[..size] == w.Stream()[..size]
  {
    var r := ReadAtLeast(w, rs, size);
    if r.ec == NoError {
      assert r.wire.buf[..size] == r.wire.Stream()[..size];
    }
  }

  /** The read test's two reads of one byte each from "12": the first delivers "1", and
      after it is consumed the second delivers "2". */
  lemma ReadAtLeastTwice(rs: ReadSize)
    ensures var r1 := ReadAtLeast(Wire([], "12"), rs, 1);
            r1.ec == NoError && r1.wire.buf[..1] == "1" &&
            var r2 := ReadAtLeast(Consume(r1.wire, 1), rs, 1);
            r2.ec == NoError && r2.wire.buf[..1] == "2"
  {
    var r1 := ReadAtLeast(Wire([], "12"), rs, 1);
    ReadAtLeastSucceedsIff(Wire([], "12"), rs, 1);
    ConsumeStream(r1.wire, 1);
    var w2 := Consume(r1.wire, 1);
    assert w2.Stream() == "2";
    ReadAtLeastSucceedsIff(w2, rs, 1);
  }

  /** What async_read_chunk_data's handler receives, the state it sees, and the bytes
      consumed after the handler returns. */
  datatype DataRead = DataRead(ec: ErrorCode, n: nat, wire: Wire, owed: nat)

  /** The completion of async_read_chunk_data: the handler is told two bytes fewer than
      were matched, and two bytes are consumed once it returns. */
  function ChunkDataCompletion(c: Completion): (r: DataRead)
    ensures r.wire == c.wire
    ensures r.ec == NoError ==>
              r.owed == 2 && r.n < CLib.SIZE_MODULUS && (r.n + 2) % CLib.SIZE_MODULUS == c.n % CLib.SIZE_MODULUS
    ensures r.ec == NoError && 2 <= c.n < CLib.SIZE_MODULUS ==> r.n + 2 == c.n
    ensures r.ec != NoError ==> r.owed == 0
  {
    if c.ec != NoError then DataRead(c.ec, c.n, c.wire, 0)
    else DataRead(NoError, (c.n - 2) % CLib.SIZE_MODULUS, c.wire, 2)
  }

  /** async_read_chunk_data as written, on top of match_size; `chunk_size + 2` is a size_t
      sum, so it wraps for the two largest chunk sizes. */
  function ReadChunkData(w: Wire, rs: ReadSize, chunkSize: nat): (r: DataRead)
    ensures r.wire.Stream() == w.Stream()
    ensures r.ec == NoError ==> r.owed == 2 && r.n < CLib.SIZE_MODULUS
    ensures r.ec == NoError && chunkSize + 2 < CLib.SIZE_MODULUS && |r.wire.buf| <= CLib.SIZE_MODULUS ==>
              chunkSize <= r.n && r.n + 2 < |r.wire.buf|
  {
    ChunkDataCompletion(ReadUntilWithSize(w, rs, (chunkSize + 2) % CLib.SIZE_MODULUS, 0))
  }

  /** When more than chunk_size + 2 bytes (as a size_t) are buffered before the read, the
      handler is told chunk_size and the chunk is at the front of the buffer; for the sizes
      2^64 - 2 and 2^64 - 1 the sum wraps to 0 or 1, so two buffered bytes are enough. */
  lemma ReadChunkDataBuffered(w: Wire, rs: ReadSize, chunkSize: nat)
    requires chunkSize < CLib.SIZE_MODULUS
    requires |w.buf| > (chunkSize + 2) % CLib.SIZE_MODULUS
    ensures ReadChunkData(w, rs, chunkSize) == DataRead(NoError, chunkSize, w, 2)
  {
    var size := (chunkSize + 2) % CLib.SIZE_MODULUS;
    assert ReadUntilWithSize(w, rs, size, 0) == Completion(NoError, size, w);
    if chunkSize + 2 < CLib.SIZE_MODULUS {
      SmallRemainder(chunkSize + 2, CLib.SIZE_MODULUS);
      SmallRemainder(chunkSize, CLib.SIZE_MODULUS);
    } else {
      assert size == chunkSize + 2 - CLib.SIZE_MODULUS;
      assert size - 2 == chunkSize - CLib.SIZE_MODULUS;
    }
  }

  /** async_read_chunk_data with the intended sized read. */
  function ReadChunkDataAtLeast(w: Wire, rs: ReadSize, chunkSize: nat): (r: DataRead)
    ensures r.wire.Stream() == w.Stream()
    ensures r.ec == NoError <==> chunkSize + 2 <= |w.Stream()|
    ensures r.ec == NoError ==>
              r.n == chunkSize && r.owed == 2 && chunkSize + 2 <= |r.wire.buf| &&
              r.wire.buf[..chunkSize + 2] == w.Stream()[..chunkSize + 2]
  {
    ReadAtLeastSucceedsIff(w, rs, chunkSize + 2);
    var c := ReadAtLeast(w, rs, chunkSize + 2);
    if c.ec != NoError then DataRead(c.ec, c.n, c.wire, 0)
    else DataRead(NoError, chunkSize, c.wire, 2)
  }

  /** What async_read_trailer's handler receives and the state it leaves. */
  datatype TrailerRead = TrailerRead(ec: ErrorCode, wire: Wire)

  /** async_read_trailer: reads and consumes one line at a time and stops after a line
      that is only CRLF. */
  function ReadTrailer(w: Wire, rs: ReadSize): (r: TrailerRead)
    ensures r.ec != NoError ==> r.ec == EndOfStream && r.wire.input == []
    ensures |r.wire.Stream()| <= |w.Stream()|
    ensures r.ec == NoError ==> |r.wire.Stream()| + 2 <= |w.Stream()|
    decreases |w.Stream()|
  {
    var c := ReadUntil(w, rs, CRLF);
    if c.ec != NoError then TrailerRead(c.ec, c.wire)
    else
      var w' := Consume(c.wire, c.n);
      ConsumeStream(c.wire, c.n);
      if c.n == 2 then TrailerRead(NoError, w') else ReadTrailer(w', rs)
  }

  /** Where the trailer ends in a stream: right after a leading CRLF, or else after the
      first empty line. */
  function TrailerEnd(s: string): (e: Option<nat>)
    ensures e.Some? ==> 2 <= e.value <= |s|
  {
    if |s| >= 2 && s[..2] == CRLF then Some(2) else FindEnd(s, BLANK_LINE)
  }

  /** The trailer reader consumes exactly through the end of the trailer, and fails with
      end of stream when the stream has none. */
  lemma {:induction false} ReadTrailerConsumesTrailer(w: Wire, rs: ReadSize)
    ensures var r := ReadTrailer(w, rs);
            (r.ec == NoError <==> TrailerEnd(w.Stream()).Some?) &&
            (r.ec == NoError ==> r.wire.Stream() == w.Stream()[TrailerEnd(w.Stream()).value..])
    decreases |w.Stream()|
  {
    var c := ReadUntil(w, rs, CRLF);
    ReadUntilFindsFirstInStream(w, rs, CRLF);
    if c.ec != NoError {
      NoLineNoTrailer(w.Stream());
    } else if c.n == 2 {
      ReadTrailerStep(w, rs);
      FirstLineOfTrailer(w.Stream(), c.n);
    } else {
      ReadTrailerConsumesTrailer(Consume(c.wire, c.n), rs);
      ContentLineThenTrailer(w, rs);
    }
  }

  /** After a line with content the trailer reader goes on from the next line, and the
      trailer's end moves by the length of the line. */
  lemma ContentLineThenTrailer(w: Wire, rs: ReadSize)
    requires ReadUntil(w, rs, CRLF).ec == NoError && ReadUntil(w, rs, CRLF).n != 2
    requires var c := ReadUntil(w, rs, CRLF);
             var w' := Consume(c.wire, c.n);
             var r' := ReadTrailer(w', rs);
             (r'.ec == NoError <==> TrailerEnd(w'.Stream()).Some?) &&
             (r'.ec == NoError ==> r'.wire.Stream() == w'.Stream()[TrailerEnd(w'.Stream()).value..])
    ensures var r := ReadTrailer(w, rs);
            (r.ec == NoError <==> TrailerEnd(w.Stream()).Some?) &&
            (r.ec == NoError ==> r.wire.Stream() == w.Stream()[TrailerEnd(w.Stream()).value..])
  {
    var c := ReadUntil(w, rs, CRLF);
    ReadUntilFindsFirstInStream(w, rs, CRLF);
    ReadTrailerStep(w, rs);
    var r' := ReadTrailer(Consume(c.wire, c.n), rs);
    TrailerShift(w.Stream(), c.n, r'.ec == NoError, r'.wire.Stream());
  }

  /** The trailer of a stream whose first line has content is the trailer of the rest,
      moved by the length of that line. */
  lemma TrailerShift(s: string, n: nat, ok: bool, left: string)
    requires 2 < n && FirstEnd(s, CRLF, n)
    requires ok <==> TrailerEnd(s[n..]).Some?
    requires ok ==> left == s[n..][TrailerEnd(s[n..]).value..]
    ensures ok <==> TrailerEnd(s).Some?
    ensures ok ==> left == s[TrailerEnd(s).value..]
  {
    FirstLineOfTrailer(s, n);
    TrailerAfterLine(s, n);
  }

  lemma ReadTrailerStep(w: Wire, rs: ReadSize)
    requires ReadUntil(w, rs, CRLF).ec == NoError
    ensures var c := ReadUntil(w, rs, CRLF);
            Consume(c.wire, c.n).Stream() == w.Stream()[c.n..] &&
            ReadTrailer(w, rs) ==
              if c.n == 2 then TrailerRead(NoError, Consume(c.wire, c.n))
              else ReadTrailer(Consume(c.wire, c.n), rs)
  {
    var c := ReadUntil(w, rs, CRLF);
    ConsumeStream(c.wire, c.n);
  }

  /** A stream without CRLF holds no trailer. */
  lemma NoLineNoTrailer(s: string)
    requires FindEnd(s, CRLF).None?
    ensures TrailerEnd(s).None?
  {
    var b := FindEnd(s, BLANK_LINE);
    if b.Some? {
      var k := b.value;
      assert s[k - 2..k] == s[k - 4..k][2..];
      assert EndsAt(s, CRLF, k);
    }
  }

  /** A trailer that starts with an empty line ends after it; otherwise it ends at the
      first empty line. */
  lemma FirstLineOfTrailer(s: string, n: nat)
    requires FirstEnd(s, CRLF, n)
    ensures n == 2 ==> TrailerEnd(s) == Some(2)
    ensures n != 2 ==> TrailerEnd(s) == FindEnd(s, BLANK_LINE)
  {
    if n != 2 && |s| >= 2 && s[..2] == CRLF {
      assert EndsAt(s, CRLF, 2);
    }
  }

  /** Skipping a line of content moves the trailer's end by the length of that line. */
  lemma TrailerAfterLine(s: string, n: nat)
    requires 2 < n && FirstEnd(s, CRLF, n)
    ensures TrailerEnd(s[n..]).Some? <==> FindEnd(s, BLANK_LINE).Some?
    ensures TrailerEnd(s[n..]).Some? ==> FindEnd(s, BLANK_LINE).value == n + TrailerEnd(s[n..]).value
  {
    var t := s[n..];
    if |t| >= 2 && t[..2] == CRLF {
      NoBlankLineInFirstLine(s, n);
      BlankLineAfterFirstLine(s, n);
      FirstEndUnique(s, BLANK_LINE, n + 2);
    } else {
      NoBlankLineNearFirstLine(s, n);
      assert TrailerEnd(t) == FindEnd(t, BLANK_LINE);
      if FindEnd(t, BLANK_LINE).Some? {
        BlankLineLater(s, n, FindEnd(t, BLANK_LINE).value);
      } else {
        NoBlankLineLater(s, n);
      }
    }
  }

  /** When no CRLF follows the first line directly, no empty line ends before two bytes
      into the rest. */
  lemma NoBlankLineNearFirstLine(s: string, n: nat)
    requires 2 < n && FirstEnd(s, CRLF, n)
    requires !(|s[n..]| >= 2 && s[n..][..2] == CRLF)
    ensures forall j :: 0 <= j < n + 4 ==> !EndsAt(s, BLANK_LINE, j)
  {
    NoBlankLineInFirstLine(s, n);
    BlankLineAfterFirstLine(s, n);
  }

  /** When the rest has an empty line and none ends within two bytes past the first
      line, the first empty line of the stream is that of the rest. */
  lemma BlankLineLater(s: string, n: nat, e: nat)
    requires n <= |s| && FindEnd(s[n..], BLANK_LINE) == Some(e)
    requires forall j :: 0 <= j < n + 4 ==> !EndsAt(s, BLANK_LINE, j)
    ensures FindEnd(s, BLANK_LINE) == Some(n + e)
  {
    BlankLineShift(s, n, n + e);
    forall j | n + 4 <= j < n + e
      ensures !EndsAt(s, BLANK_LINE, j)
    {
      BlankLineShift(s, n, j);
    }
    FirstEndUnique(s, BLANK_LINE, n + e);
  }

  /** When the rest has no empty line and none ends within two bytes past the first
      line, the stream has none. */
  lemma NoBlankLineLater(s: string, n: nat)
    requires n <= |s| && FindEnd(s[n..], BLANK_LINE).None?
    requires forall j :: 0 <= j < n + 4 ==> !EndsAt(s, BLANK_LINE, j)
    ensures FindEnd(s, BLANK_LINE).None?
  {
    if FindEnd(s, BLANK_LINE).Some? {
      var k := FindEnd(s, BLANK_LINE).value;
      BlankLineShift(s, n, k);
      assert false;
    }
  }

  /** No empty line ends inside or one past a first line that has content: its CRLF
      would have to end at or before the first CRLF. */
  lemma NoBlankLineInFirstLine(s: string, n: nat)
    requires 2 < n && FirstEnd(s, CRLF, n)
    ensures forall j :: 0 <= j < n + 2 ==> !EndsAt(s, BLANK_LINE, j)
    ensures !EndsAt(s, BLANK_LINE, n + 3)
  {
    forall j | 0 <= j < n + 2
      ensures !EndsAt(s, BLANK_LINE, j)
    {
      if EndsAt(s, BLANK_LINE, j) {
        assert s[j - 2..j] == s[j - 4..j][2..];
        assert EndsAt(s, CRLF, j);
        assert s[j - 4..j - 2] == s[j - 4..j][..2];
        assert EndsAt(s, CRLF, j - 2);
      }
    }
    assert s[n - 1] == s[n - 2..n][1];
    if n + 3 <= |s| {
      assert s[n - 1..n + 3][0] == s[n - 1];
    }
  }

  /** An empty line ends two bytes after the first CRLF exactly when CRLF follows it. */
  lemma BlankLineAfterFirstLine(s: string, n: nat)
    requires 2 <= n && EndsAt(s, CRLF, n)
    ensures EndsAt(s, BLANK_LINE, n + 2) <==> |s[n..]| >= 2 && s[n..][..2] == CRLF
  {
    if n + 2 <= |s| {
      assert s[n - 2..n + 2] == s[n - 2..n] + s[n..n + 2];
      assert s[n..][..2] == s[n..n + 2];
    }
  }

  /** Beyond the first line, the empty lines of a stream are those of the rest. */
  lemma BlankLineShift(s: string, n: nat, j: int)
    requires n <= |s| && n + 4 <= j
    ensures EndsAt(s, BLANK_LINE, j) == EndsAt(s[n..], BLANK_LINE, j - n)
  {
    assert s == s[..n] + s[n..];
    Lines.EndsAtShift(s[..n], s[n..], BLANK_LINE, j);
  }

  /** A trailer of plain header lines closed by an empty line is consumed exactly. */
  lemma TrailerOfLines(w: Wire, rs: ReadSize, lines: seq<string>, rest: string)
    requires Lines.AllPlain(lines)
    requires w.Stream() == Lines.Join(lines) + CRLF + rest
    ensures ReadTrailer(w, rs).ec == NoError && ReadTrailer(w, rs).wire.Stream() == rest
  {
    ReadTrailerConsumesTrailer(w, rs);
    TrailerEndOfLines(lines, rest);
    assert w.Stream()[|Lines.Join(lines)| + 2..] == rest;
  }

  lemma TrailerEndOfLines(lines: seq<string>, rest: string)
    requires Lines.AllPlain(lines)
    ensures TrailerEnd(Lines.Join(lines) + CRLF + rest) == Some(|Lines.Join(lines)| + 2)
  {
    var s := Lines.Join(lines) + CRLF + rest;
    if lines == [] {
      assert s[..2] == CRLF;
    } else {
      Lines.BlankLineEnd(lines, rest);
      assert s[0] == lines[0][0];
      assert s[0] != '\r';
    }
  }

  /** The read test's trailer: two header lines, the empty line, then "**MARKER**". */
  lemma ReadTrailerTestVector(w: Wire, rs: ReadSize)
    requires w.Stream() == "Key: Value\r\n" + "Key: Value\r\n" + "\r\n" + "**MARKER**"
    ensures ReadTrailer(w, rs).ec == NoError && ReadTrailer(w, rs).wire.Stream() == "**MARKER**"
  {
    var key := "Key: Value";
    assert key + CRLF == "Key: Value\r\n";
    KeyValuePlain(key);
    JoinOfTwo(key, key, "**MARKER**");
    TrailerOfLines(w, rs, [key, key], "**MARKER**");
  }

  lemma KeyValuePlain(key: string)
    requires key == "Key: Value"
    ensures Lines.AllPlain([key, key])
  {
    assert Lines.PlainLine(key);
  }

  /** Two lines joined, then the empty line and what follows. */
  lemma JoinOfTwo(a: string, b: string, rest: string)
    ensures Lines.Join([a, b]) + CRLF + rest == (a + CRLF) + (b + CRLF) + CRLF + rest
  {
    var l := [a, b];
    assert l[1..] == [b] && l[1..][1..] == [];
    assert Lines.Join(l[1..]) == b + CRLF;
  }

  /** Three lines joined, then the empty line. */
  lemma JoinOfThree(a: string, b: string, c: string)
    ensures Lines.Join([a, b, c]) + CRLF == (a + CRLF) + (b + CRLF) + (c + CRLF) + CRLF
  {
    var l := [a, b, c];
    assert l[1..] == [b, c];
    JoinOfTwo(b, c, []);
    assert Lines.Join(l[1..]) == (b + CRLF) + (c + CRLF);
  }

  /** async_read_trailer over a socket and a streambuf; each further line starts the
      operation again. */
  method AsyncReadTrailer(s: Socket, b: StreamBuf) returns (ec: ErrorCode)
    modifies s, b
    ensures TrailerRead(ec, WireOf(s, b)) == ReadTrailer(old(WireOf(s, b)), s.readSize)
  {
    while true
      invariant ReadTrailer(WireOf(s, b), s.readSize) == ReadTrailer(old(WireOf(s, b)), s.readSize)
      decreases |b.data| + |s.input|
    {
      ghost var before := WireOf(s, b);
      var e, n := AsyncReadUntil(s, b, CRLF);
      if e != NoError {
        return e;
      }
      ConsumeStream(WireOf(s, b), n);
      b.Consume(n);
      if n == 2 {
        return NoError;
      }
      assert |WireOf(s, b).Stream()| < |before.Stream()|;
    }
  }
}
