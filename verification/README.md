# http-client: a verified model of the response reader and the client coroutine

This project models, in Dafny, the core of an HTTP/1.x client built on Boost.Asio. It covers these parts:

- **The response parser.** These are free functions that read from a socket into a shared `streambuf`:
  - reading the response header up to the first blank line;
  - reading a chunk-size line and decoding it with `strtol`, with the `MAX_CHUNK_SIZE_BYTES` limit of 32;
  - the `match_size` completion condition and `async_read_until_with_size`;
  - reading chunk data;
  - reading the chunked trailer line by line until an empty line.
- **The response context.** The header callbacks `accept_header_key`, `accept_header_value`, `accept_content_type` and `accept_transfer_coding` fill it.
- **The client coroutine.** This is `http_client::start` and `operator()`. The model has three parts:
  - a program-counter datatype and a step function;
  - a class whose `Resume` method updates the coroutine position and consumes `response_buf_`;
  - a whole-session function `Run` that drives the coroutine against a byte stream, where the connect outcome, whether a request is set, the write outcome and the header parser are parameters.
- **Request serialisation.** This covers GET and POST requests, the POST setters including the swapping rvalue overloads, and `simple_http_request`, which appends the serialised request to its buffer.
- **`test_stream`.** This is the scripted stream the read tests use.
- **`connection_manager`.** This covers `start`, `stop` and `stop_all` over the set of clients.

## How the asynchronous reads are modelled

A `Wire` is the connection as the reader sees it: `buf`, the bytes already in the `streambuf`, and `input`, the bytes the peer will still send.

Every read has a pure specification function. `ReadUntil` and `ReadToEnd` also have a method over the `Socket` and `StreamBuf` classes, `AsyncReadUntil` and `AsyncRead`, which is proved equal to it:

- `ReadUntil` follows `async_read_until`.
  - It searches the buffered bytes when the read starts.
  - Otherwise it reads `readSize` bytes at a time until the delimiter appears, or ends with end-of-stream.
- `ReadToEnd` follows `async_read`.
- `ReadUntilFrom` follows `async_read_until` after a miss, when the search resumes from a stored position. It has no method of its own. From a position before which the stream holds no delimiter it gives the `ReadUntil` result (`ReadUntilFromAgrees`).

The parser operations have pure functions too:

- `ReadHeader`, `ReadChunkSize`, `ReadUntilWithSize`, `ReadChunkData` and `ReadTrailer` are pure functions of a `Wire`.
- `AsyncReadHeader`, `AsyncReadChunkSize`, `AsyncReadUntilWithSize` and `AsyncReadTrailer` are methods, each proved equal to its function. `ReadChunkData` has no method: it is one `ReadUntilWithSize` followed by the pure `ChunkDataCompletion`.
- The chunk-size handler copies the line into a fixed 32-byte `array` and decodes it with a model of `strtol(…, 16)` (`CLib.Strtol16`), as the source does.

The session function `HttpClient.Run` follows the coroutine through one whole exchange.

- It records what the client sees in an `Observed` value:
  - the response context;
  - the chunk sizes read;
  - the bytes each data completion makes available to the client (`body`).
- It takes a `Variant` parameter. `AsWritten` follows the source as written. This includes the size read that the chunk-data handler starts before its own `consume(2)`: Asio stores that read's search position in the unconsumed buffer (`SizeAfterChunkAsWritten`, `AsioModel.ReadUntilFrom`). `Intended` corrects the two defects listed under Findings.
- The lemmas in `ClientSessions` and `ChunkVectors` state what a whole session does. They cover:
  - sized bodies;
  - read-to-close bodies;
  - chunked bodies of any number of well-formed chunks;
  - transport failures.

A read-to-close body always ends the session with an end-of-stream error, and its bytes are never consumed (`ReadToCloseSession`). The source marks this spot "Ignore EOF" as unfinished work at include/network/protocols/http/http_client.hpp:88-90. The model keeps that behaviour and does not list it as a finding.

The request setters of `http_post_request` exist only on POST requests. In the model, `Request` covers both request kinds, so each setter requires `form.Post?`.

## Model

| member | source | states |
|---|---|---|
| CLib.CString | include/network/protocols/http/response_parser.hpp:60-62 | the C string a char buffer denotes is its longest NUL-free prefix, ending at the first NUL |
| CLib.CStringOfTerminated | include/network/protocols/http/response_parser.hpp:61-62 | writing a NUL after the copied line makes the C string exactly that line, whatever follows in the buffer |
| CLib.Strtol16 | include/network/protocols/http/response_parser.hpp:64 | base-16 strtol: the value is clamped to the range of long, the end pointer stays inside the string, and no conversion gives 0 with the end at the start |
| CLib.HexString | include/network/protocols/http/response_parser.hpp:64 | a non-empty run of hex digits whose value is n, with no leading zero unless n is 0 |
| CLib.Strtol16OfHexString | include/network/protocols/http/response_parser.hpp:64 | strtol base 16 inverts HexString for every n up to LONG_MAX, stopping at the end of the string or at a ';' |
| CLib.Strtol16OfHexRun | include/network/protocols/http/response_parser.hpp:64 | strtol base 16 on any run of hex digits (either case, leading zeros allowed) converts exactly that run, clamped to LONG_MAX, and stops at the first character that is not a hex digit, unless the run is the 0 of a 0x prefix |
| CLib.Strtol16MinusOne | include/network/protocols/http/response_parser.hpp:64 | strtol reads "-1" as -1 and consumes all of it |
| CLib.Strtol16AfterCarriageReturn | include/network/protocols/http/response_parser.hpp:64 | a lone carriage return is leading white space too: "\r5" reads as 5 |
| CLib.Strtol16AfterLineBreak | include/network/protocols/http/response_parser.hpp:64 | strtol skips leading white space: "\r\n5" reads as 5, ending at the end of the string |
| Lines.LineEnd | include/network/protocols/http/response_parser.hpp:50 | a line followed by CRLF ends exactly after that CRLF iff no CRLF occurs inside it; a lone carriage return, even the line's last character, does not end it |
| Lines.NoBlankLineInside | include/network/protocols/http/response_parser.hpp:23 | a block of plain CRLF-terminated lines has no blank line before its end |
| Lines.BlankLineEnd | include/network/protocols/http/response_parser.hpp:23 | the first "\r\n\r\n" after plain lines is the one that closes the block |
| AsioModel.FindEnd | include/network/protocols/http/response_parser.hpp:23 | returns the end of the first occurrence of the delimiter, or reports it absent |
| AsioModel.FirstEndUnique | include/network/protocols/http/response_parser.hpp:23 | any first occurrence is the one FindEnd returns |
| AsioModel.FindEndExtend | include/network/protocols/http/response_parser.hpp:23 | bytes arriving later do not move a match already in the buffer |
| AsioModel.ConsumeStream | include/network/protocols/http/response_parser.hpp:35 | consuming n buffered bytes removes exactly the first n bytes of the stream |
| AsioModel.ReadUntil | include/network/protocols/http/response_parser.hpp:23 | read_until never loses or reorders bytes; on success the count ends the first delimiter in the buffer; on failure the input is exhausted with no delimiter; a match already buffered reads nothing |
| AsioModel.ReadUntilFindsFirstInStream | include/network/protocols/http/response_parser.hpp:50 | read_until succeeds iff the delimiter occurs in the whole stream, and then returns its first end |
| AsioModel.ResumeAt | include/network/protocols/http/response_parser.hpp:50 | after a miss, the next search starts at the first position whose rest of the buffer could still begin the delimiter, or at the end of the buffer |
| AsioModel.ReadUntilFrom | include/network/protocols/http/response_parser.hpp:50 | read_until resumed from a stored position reports the first occurrence that starts at or after that position, never loses or reorders bytes, and fails only at end-of-stream with the input exhausted |
| AsioModel.ReadUntilFromAgrees | include/network/protocols/http/response_parser.hpp:50 | resuming from a position before which the stream holds no occurrence gives exactly the read_until result |
| AsioModel.ReadToEnd | include/network/protocols/http/http_client.hpp:87 | async_read into a streambuf buffers the whole rest of the stream and ends with end-of-stream |
| AsioModel.Socket.ReadSome | include/network/protocols/http/http_socket.hpp:62 | a read on the connection's TCP socket delivers the next at most readSize bytes in order, or end-of-stream once the peer has closed and nothing remains (the scripted test_stream instead reports 0 bytes without error there) |
| AsioModel.StreamBuf.Commit | include/network/protocols/http/response_parser.hpp:23 | received bytes are appended to the buffer |
| AsioModel.StreamBuf.Consume | include/network/protocols/http/response_parser.hpp:35 | consume drops the first n bytes, or all of them when fewer are buffered |
| AsioModel.AsyncReadUntil | include/network/protocols/http/response_parser.hpp:23 | the socket-and-buffer read ends in exactly the state ReadUntil specifies |
| AsioModel.AsyncRead | include/network/protocols/http/http_client.hpp:87 | the socket-and-buffer read ends in exactly the state ReadToEnd specifies |
| ResponseHeader.KeyLessIrreflexive | include/network/protocols/http/response_header.hpp:19 | the multimap key order never puts a key before itself |
| ResponseHeader.KeyLessTransitive | include/network/protocols/http/response_header.hpp:19 | the multimap key order is transitive |
| ResponseHeader.KeyLessTotal | include/network/protocols/http/response_header.hpp:19 | of two different keys, one is ordered before the other |
| ResponseHeader.UpperBound | include/network/protocols/http/response_header.hpp:41 | the insertion point follows every entry whose key is not greater and precedes every greater one |
| ResponseHeader.Insert | include/network/protocols/http/response_header.hpp:41 | multimap insert adds exactly one (key, value) entry and keeps every existing one |
| ResponseHeader.InsertValues | include/network/protocols/http/response_header.hpp:41 | the new value comes after every earlier value under the same key, and other keys keep their values |
| ResponseHeader.BeforeSemicolon | include/network/protocols/http/response_header.hpp:51-52 | the part of a coding before the first ';' |
| ResponseHeader.ChunkedIsFirstToken | include/network/protocols/http/response_header.hpp:50-59 | the coding counts as chunked iff its C string, cut at the first ';', is exactly "chunked" |
| ResponseHeader.ResponseContext.constructor | include/network/protocols/http/response_header.hpp:21-29 | a new context has HTTP/1.0, status 0, no content type or length, not chunked, no keep-alive, no headers and an empty pending key |
| ResponseHeader.ResponseContext.SetFields | include/network/protocols/http/response_header.hpp:21-29 | the header parser replaces the context fields and leaves the pending key alone |
| ResponseHeader.ResponseContext.AcceptHeaderKey | include/network/protocols/http/response_header.hpp:31-35 | the key becomes the pending key; no field changes |
| ResponseHeader.ResponseContext.AcceptHeaderValue | include/network/protocols/http/response_header.hpp:37-42 | adds exactly the entry (pending key, value), empties the pending key and changes no other field |
| ResponseHeader.ResponseContext.AcceptContentType | include/network/protocols/http/response_header.hpp:44-48 | a null type changes nothing; otherwise only the content type is set |
| ResponseHeader.ResponseContext.AcceptTransferCoding | include/network/protocols/http/response_header.hpp:50-59 | chunked becomes true iff the coding is chunked, false otherwise (overwriting an earlier true); nothing else changes |
| ResponseParser.ReadHeader | include/network/protocols/http/response_parser.hpp:21-40 | on success at least the four bytes of the blank line are consumed and the rest of the stream stays; on any error nothing is consumed |
| ResponseParser.ReadHeaderSplitsAtBlankLine | include/network/protocols/http/response_parser.hpp:23-38 | without a blank line the read fails at end of stream; with one, the parser sees exactly the bytes up to the first blank line, and they are consumed iff it succeeds |
| ResponseParser.TestHeaderLines | test/read_test.cpp:99-102 | the test header is three plain lines followed by a blank line |
| ResponseParser.ReadHeaderOfTestVector | test/read_test.cpp:125-146 | the test header reads 64 bytes and leaves "*BODY*\n" in the stream |
| ResponseParser.AsyncReadHeader | include/network/protocols/http/response_parser.hpp:21-40 | the asynchronous header read ends in exactly the state ReadHeader specifies and leaves the pending key alone |
| ResponseParser.ChunkSizeCompletion | include/network/protocols/http/response_parser.hpp:50-73 | a size line is accepted only when shorter than MAX_CHUNK_SIZE_BYTES; acceptance consumes exactly the line, rejection consumes nothing; the size stays within size_t or keeps its old value |
| ResponseParser.LineVerdict | include/network/protocols/http/response_parser.hpp:64-70 | the decoded size always fits size_t, the only failure is MALFORMED, and the line is consumed iff it is accepted |
| ResponseParser.ReadChunkSize | include/network/protocols/http/response_parser.hpp:48-74 | success means a CRLF occurs, the line fits the limit, and exactly the line with its CRLF is consumed; on error nothing is consumed |
| ResponseParser.ChunkSizeRoundTrip | include/network/protocols/http/response_parser.hpp:48-74 | any size written in hex, with an optional ';' extension, on a line under the limit reads back as that size and consumes exactly its line |
| ResponseParser.ChunkSizeCompletionOfLine | include/network/protocols/http/response_parser.hpp:56-72 | a completed hex size line decodes to its size and consumes the line |
| ResponseParser.VerdictOfNumeral | include/network/protocols/http/response_parser.hpp:64-70 | a hex numeral optionally followed by ';' is accepted with its value |
| ResponseParser.ChunkSizeLineTooLong | include/network/protocols/http/response_parser.hpp:56-58 | a line of MAX_CHUNK_SIZE_BYTES characters or more fails MALFORMED, with chunk_size and the buffer unchanged |
| ResponseParser.ChunkSizeOfLine | include/network/protocols/http/response_parser.hpp:48-74 | for every size line under the limit (every line a CRLF search can return: one holding no CRLF, lone carriage returns allowed), chunk_size becomes strtol's value modulo 2^64 whatever follows the digits; the line is consumed with its CRLF iff strtol stops at the end of the C string or at ';', and otherwise the read fails MALFORMED and consumes nothing |
| ResponseParser.ChunkSizeUnusualLines | include/network/protocols/http/response_parser.hpp:64-70 | "FF" reads 255 and "0a" reads 10; "-1" is accepted as 2^64 - 1; "2x" fails MALFORMED, sets chunk_size to 2 and consumes nothing; "\r5" reads 5 and is consumed |
| ResponseParser.PlainLineVerdict | include/network/protocols/http/response_parser.hpp:64-70 | a line made of a hex run and a tail strtol stops at sets the run's value, and is accepted iff the tail is empty or opens with ';' |
| ResponseParser.SizeLineFF | test/read_test.cpp:259-275 | "ff\r\n" decodes to 255 |
| ResponseParser.SizeLine2 | test/read_test.cpp:205-210 | "2\r\n" decodes to 2 |
| ResponseParser.SizeLine10 | test/read_test.cpp:222-228 | "10;key=value\r\n" decodes to 16 and consumes exactly that line |
| ResponseParser.ChunkSizeTestVectors | test/read_test.cpp:195-275 | the three size lines of the read tests decode to 255, 2 and 16 |
| ResponseParser.AsyncReadChunkSize | include/network/protocols/http/response_parser.hpp:48-74 | the asynchronous size read ends in exactly the state ReadChunkSize specifies |
| ResponseParser.ChunkSizeHandler | include/network/protocols/http/response_parser.hpp:50-73 | the completion handler produces exactly the ChunkSizeCompletion verdict, chunk size and buffer |
| ResponseParser.DecodeSizeLine | include/network/protocols/http/response_parser.hpp:60-72 | copying, NUL-terminating, strtol and the end-pointer check produce exactly the ChunkSizeCompletion result |
| ResponseParser.DecodedLine | include/network/protocols/http/response_parser.hpp:60-68 | the fixed buffer's C string is the line, and the end-pointer test on the buffer agrees with the test on the line |
| ResponseParser.CopyLine | include/network/protocols/http/response_parser.hpp:60-62 | the 32-byte buffer starts with the line followed by a NUL |
| ResponseParser.EndPointerCheck | include/network/protocols/http/response_parser.hpp:63-68 | the end pointer stays inside the buffer, and it points at NUL or ';' iff the parse stopped at the end of the line or at ';' |
| ResponseParser.MatchSize | include/network/protocols/http/response_parser.hpp:85-95 | the condition matches iff the searched range holds strictly more than size bytes; a match is at offset size, a miss returns the end |
| ResponseParser.ReadUntilWithSize | include/network/protocols/http/response_parser.hpp:101-108 | as written: a success reports at least size bytes with at least one more buffered; a failure is end-of-stream with the input exhausted; no bytes are lost |
| ResponseParser.AsyncReadUntilWithSize | include/network/protocols/http/response_parser.hpp:105-108 | the asynchronous sized read ends in exactly the state ReadUntilWithSize specifies |
| ResponseParser.SizedReadAtClose | include/network/protocols/http/response_parser.hpp:85-95 | a stream holding no more than size bytes fails with end-of-stream even when it holds exactly size bytes |
| ResponseParser.SizedReadStep | include/network/protocols/http/response_parser.hpp:105-108 | after each read the count restarts at the newly received bytes |
| ResponseParser.CountRestartsAfterEachRead | include/network/protocols/http/response_parser.hpp:87-92 | ten bytes read four at a time never satisfy size 7, so the read fails at end of stream |
| ResponseParser.ReadAtLeast | include/network/protocols/http/response_parser.hpp:101-108 | corrected sized read: success means exactly size bytes are reported and buffered; failure means the stream ended with fewer |
| ResponseParser.ReadAtLeastSucceedsIff | include/network/protocols/http/response_parser.hpp:101-108 | the corrected read succeeds iff the stream holds at least size bytes, and then buffers the stream's first size bytes |
| ResponseParser.ReadAtLeastTwice | test/read_test.cpp:277-309 | corrected: reading "12" one byte at a time delivers "1" and then "2" |
| ResponseParser.ChunkDataCompletion | include/network/protocols/http/response_parser.hpp:116-126 | on success the client is told the matched count minus 2 as a size_t (so equal to it minus 2 modulo 2^64, and exactly that for counts from 2 up), and two bytes remain owed to a later consume; on error nothing is owed |
| ResponseParser.ReadChunkData | include/network/protocols/http/response_parser.hpp:114-127 | chunk data loses no bytes and reports a size_t; when chunk_size + 2 does not wrap, it reports at least chunk_size bytes with more than chunk_size + 2 buffered |
| ResponseParser.ReadChunkDataBuffered | include/network/protocols/http/response_parser.hpp:114-127 | when more than chunk_size + 2 bytes (a size_t sum) are already buffered, the read reports exactly chunk_size and reads nothing; for chunk sizes 2^64 - 2 and 2^64 - 1 the sum wraps to 0 or 1 |
| ResponseParser.ReadChunkDataAtLeast | include/network/protocols/http/response_parser.hpp:114-127 | corrected chunk data read: succeeds iff chunk_size + 2 bytes remain, and then reports exactly chunk_size with the stream's bytes buffered |
| ResponseParser.ReadTrailer | include/network/protocols/http/response_parser.hpp:129-152 | the trailer read never adds bytes to the stream; a success consumes at least the final CRLF; a failure is end-of-stream with the input exhausted |
| ResponseParser.ReadTrailerConsumesTrailer | include/network/protocols/http/response_parser.hpp:133-152 | the trailer read succeeds iff the stream has a trailer end, and then consumes exactly up to it |
| ResponseParser.ReadTrailerStep | include/network/protocols/http/response_parser.hpp:141-148 | a line of exactly two bytes ends the read; any other line is consumed and the read starts over |
| ResponseParser.FirstLineOfTrailer | include/network/protocols/http/response_parser.hpp:143 | a trailer ends at its first line when that line is empty, and otherwise at the first blank line |
| ResponseParser.TrailerAfterLine | include/network/protocols/http/response_parser.hpp:141-147 | after a non-empty line, the rest has a trailer end iff the whole stream has a blank line, at matching offsets |
| ResponseParser.TrailerOfLines | include/network/protocols/http/response_parser.hpp:129-152 | plain lines followed by an empty line are consumed exactly, leaving what follows |
| ResponseParser.ReadTrailerTestVector | test/read_test.cpp:166-181 | the test trailer is consumed and "**MARKER**" remains |
| ResponseParser.AsyncReadTrailer | include/network/protocols/http/response_parser.hpp:133-152 | the asynchronous trailer read ends in exactly the state ReadTrailer specifies |
| HttpClient.Step | include/network/protocols/http/http_client.hpp:49-101 | any error keeps the position and issues nothing; an operation is issued iff there is no error and the position is not trailer, sized body, read-to-close or finished; only data and body completions consume |
| HttpClient.OpsOf | include/network/protocols/http/http_client.hpp:59-95 | a run of resumptions issues at most one operation per resumption |
| HttpClient.NoRequestPastRequest | include/network/protocols/http/http_client.hpp:62-94 | once past the request, the coroutine never connects or writes again |
| HttpClient.OneRequestPerSession | include/network/protocols/http/http_client.hpp:59-94 | a session connects first, then writes one request, and never connects or writes again, because the keep-alive loop test is unreachable |
| HttpClient.ErrorEndsTheSession | include/network/protocols/http/http_client.hpp:56-57 | a resumption with an error issues no further operation |
| HttpClient.SizeAfterChunkAsWritten | include/network/protocols/http/http_client.hpp:75-77 | as written: the next size read searches before the owed CRLF is consumed and, after a miss, resumes from the position stored in the unconsumed buffer; it always consumes input when it succeeds |
| HttpClient.SizeAfterChunk | include/network/protocols/http/http_client.hpp:69-77 | corrected: the owed CRLF is consumed before the next size read, which always consumes input when it succeeds |
| HttpClient.Perform | include/network/protocols/http/http_client.hpp:60-92 | no operation adds bytes to the stream, and a successful header, size or trailer read always consumes some |
| HttpClient.Client.constructor | include/network/protocols/http/http_client.hpp:38-42 | a new client starts at the beginning, with chunk size 0, an empty buffer and a default context |
| HttpClient.Client.Resume | include/network/protocols/http/http_client.hpp:49-101 | a resumption moves to the position Step gives, issues its operation, and consumes the bytes Step names from the response buffer |
| HttpClient.Client.Start | include/network/protocols/http/http_client.hpp:44-47 | start resumes with no error and no bytes, so the first operation is connect |
| ClientSessions.RunNext | include/network/protocols/http/http_client.hpp:49-101 | a resumption that issues an operation continues the session with that operation's outcome |
| ClientSessions.RunLast | include/network/protocols/http/http_client.hpp:56-57 | a resumption that issues nothing ends the session in the stepped state |
| ClientSessions.ConnectFailureEndsSession | include/network/protocols/http/http_client.hpp:56-60 | a failed connect ends the session there with that error and nothing read |
| ClientSessions.RequestFailureEndsSession | include/network/protocols/http/http_client.hpp:56-63 | a failed request write ends the session there with that error and nothing read |
| ClientSessions.MissingRequestHangs | include/network/protocols/http/http_request.hpp:120-127 | with no request set, async_request starts no write and the coroutine ignores the false it returns, so the session stays at the request without an error, having read and consumed nothing |
| ClientSessions.ConnectSteps | include/network/protocols/http/http_client.hpp:60-63 | a successful connect leads to the request write |
| ClientSessions.HeaderSteps | include/network/protocols/http/http_client.hpp:60-65 | a successful connect and write lead to the header read, which consumes exactly the header |
| ClientSessions.HeaderTransition | include/network/protocols/http/http_client.hpp:63-65 | a completed write resumes with the header read's outcome |
| ClientSessions.SizedBodySession | include/network/protocols/http/http_client.hpp:80-85 | corrected: with a Content-Length, the session finishes without error, delivers exactly that many body bytes, consumes them and leaves the rest |
| ClientSessions.SizedBodyAtCloseAsWritten | include/network/protocols/http/http_client.hpp:80-85 | as written: a body of exactly Content-Length bytes followed by the close ends in end-of-stream, with the body delivered to nobody and left buffered |
| ClientSessions.ReadToCloseSession | include/network/protocols/http/http_client.hpp:86-92 | without chunking or a length, the session reads to the close and ends with end-of-stream, the body buffered and not consumed |
| ClientSessions.FinishAfterLastChunk | include/network/protocols/http/http_client.hpp:70-73 | a zero size leads to the trailer read, which finishes the session after consuming the trailer |
| ClientSessions.OneChunk | include/network/protocols/http/http_client.hpp:69-77 | corrected: one chunk delivers its data, consumes it and its CRLF, and reads the next size |
| ClientSessions.ChunkLoop | include/network/protocols/http/http_client.hpp:68-78 | corrected: any number of well-formed chunks and a plain trailer deliver each chunk's data in order, record every size and a final 0, and leave exactly the bytes after the trailer |
| ClientSessions.ChunkedSession | include/network/protocols/http/http_client.hpp:65-79 | corrected: a chunked response is decoded to its chunks' data and sizes, and the session finishes without error |
| ClientSessions.AsWrittenNextSizeIsZero | include/network/protocols/http/http_client.hpp:75-77 | as written: right after a chunk, the size read sees the chunk's own CRLF, reads size 0, and the owed CRLF then removes two bytes of the next line |
| ClientSessions.AsWrittenFirstSizeRead | include/network/protocols/http/http_client.hpp:65-69 | with nothing owed, the as-written size read is exactly the plain one |
| ClientSessions.StaleSearchSkipsLine | include/network/protocols/http/response_parser.hpp:120-123 | as written: with "ab" buffered and "\r\n5\r\n" arriving, the size read misses the first CRLF because its search position predates the consume, and reads size 5 where a fresh read gives 0 |
| ChunkVectors.TestChunkEncoding | test/read_test.cpp:187-193 | the chunked test body is the encoding of chunks "OK" and "0123456789abcdef" (with extension ";key=value") and the trailer "trailer: val" |
| ChunkVectors.TestChunkIntended | test/read_test.cpp:195-255 | corrected: the client reads the test body as the parser test does, delivering "OK" and "0123456789abcdef" with sizes 2, 16, 0, and leaves "**MARKER**" |
| ChunkVectors.TestChunkAsWritten | include/network/protocols/http/http_client.hpp:68-78 | as written: the client delivers only "OK", reads sizes 2 then 0, and treats the rest of the body as trailer |
| ChunkVectors.AsWrittenChunkBoundary | include/network/protocols/http/http_client.hpp:75-77 | as written: after any buffered chunk the next size read yields 0 and two more bytes are dropped |
| HttpRequest.Decimal | include/network/protocols/http/http_request.hpp:81 | decimal digits of n with no leading zero, a single digit iff n < 10 |
| HttpRequest.DecimalRoundTrip | include/network/protocols/http/http_request.hpp:81 | the Content-Length digits read back as the number written |
| HttpRequest.DecimalInjective | include/network/protocols/http/http_request.hpp:81 | different lengths are written as different digits |
| HttpRequest.BodyPart | include/network/protocols/http/http_request.hpp:85-92 | a GET, or a POST without data, has an empty body |
| HttpRequest.SerializeIsHeaderBlock | include/network/protocols/http/http_request.hpp:36-45 | a request is its header lines, then a blank line, then its body |
| HttpRequest.HeaderLinesPlain | include/network/protocols/http/http_request.hpp:79-83 | when the fields hold no carriage return, every header line is a plain line |
| HttpRequest.RequestFraming | include/network/protocols/http/http_request.hpp:36-45 | the first blank line of a request is where the body starts, and a POST's Content-Length states the body's length |
| HttpRequest.GetRequestVector | test/http_request_test.cpp:34-46 | GET / for localhost serialises to the request line, the Host line and a blank line |
| HttpRequest.PostRequestVector | test/http_request_test.cpp:50-64 | POST / for localhost without data has Content-Length 0 and the default form content type |
| HttpRequest.Request.Get | include/network/protocols/http/http_request.hpp:62-64 | method, URI and host name are the constructor arguments |
| HttpRequest.Request.Post | include/network/protocols/http/http_request.hpp:75-77 | method, URI and host name are the constructor arguments, with no content type or data yet |
| HttpRequest.Request.SetContentType | include/network/protocols/http/http_request.hpp:98-100 | the content type is replaced and nothing else |
| HttpRequest.Request.SwapContentType | include/network/protocols/http/http_request.hpp:94-96 | the content type is replaced and the argument receives the previous one |
| HttpRequest.Request.SetPostData | include/network/protocols/http/http_request.hpp:106-108 | the post data is replaced and nothing else |
| HttpRequest.Request.SwapPostData | include/network/protocols/http/http_request.hpp:102-104 | the post data is replaced and the argument receives the previous data |
| HttpRequest.SimpleRequest.constructor | include/network/protocols/http/http_request.hpp:114-117 | no request and an empty buffer |
| HttpRequest.SimpleRequest.SetRequest | include/network/protocols/http/http_request.hpp:129-137 | the request is replaced and the buffer kept |
| HttpRequest.SimpleRequest.PrepareRequestBuf | include/network/protocols/http/http_request.hpp:145-149 | the serialised request is appended to the buffer without replacing it |
| HttpRequest.SimpleRequest.AsyncRequest | include/network/protocols/http/http_request.hpp:119-127 | a write starts iff a request is set; then the serialisation is appended; otherwise the buffer is untouched |
| TestStream.Read | include/network/protocols/http/test_stream.hpp:44-52 | a read copies min(capacity, remaining, cap) bytes from the position, advances the position by as many, keeps position ≤ length, and delivers nothing exactly at the end, with no capacity, or with a zero cap |
| TestStream.DrainDeliversRest | include/network/protocols/http/test_stream.hpp:44-52 | reading until a read returns nothing delivers the rest of the data in order, each byte once |
| TestStream.ResetGetVector | test/read_test.cpp:84-97 | after reset("GET") a 100-byte read delivers "GET" and the next read nothing |
| TestStream.TestStream.constructor | include/network/protocols/http/test_stream.hpp:17-23 | a new stream has no data, position 0 and cap 0 |
| TestStream.TestStream.Reset | include/network/protocols/http/test_stream.hpp:30-37 | the data is the string, the position 0 and the cap the string's length |
| TestStream.TestStream.SetNextReadLength | include/network/protocols/http/test_stream.hpp:39-42 | only the cap changes |
| TestStream.TestStream.ReadSome | include/network/protocols/http/test_stream.hpp:44-52 | the caller's buffer starts with the bytes Read delivers, its other bytes are untouched, and the stream moves to Read's state |
| TestStream.TestStream.ReadSomeWithError | include/network/protocols/http/test_stream.hpp:54-60 | the same read, always reporting success |
| TestStream.TestStream.AsyncReadSome | include/network/protocols/http/test_stream.hpp:62-68 | the same read, completing with no error and the count |
| ConnectionManager.AscendingLists | include/network/protocols/http/connection_manager.hpp:28 | set iteration visits every member once, in ascending order |
| ConnectionManager.StopEvents | include/network/protocols/http/connection_manager.hpp:28-30 | one stop event per client, in the order given |
| ConnectionManager.Manager.constructor | include/network/protocols/http/connection_manager.hpp:17-18 | no clients and nothing recorded |
| ConnectionManager.Manager.StartClient | include/network/protocols/http/connection_manager.hpp:34-39 | the client joins the set, then set_connection_manager and start are recorded on it |
| ConnectionManager.Manager.StopClient | include/network/protocols/http/connection_manager.hpp:20-24 | only that client leaves the set (if present), and stop is recorded on it either way |
| ConnectionManager.Manager.StopAll | include/network/protocols/http/connection_manager.hpp:26-32 | stop is recorded on every member in set order, and the set ends empty |
| ConnectionManager.StopAllStopsEachOnce | include/network/protocols/http/connection_manager.hpp:26-32 | stop_all stops a client iff it is a member, and no client twice |

## Left out

- Boost.Asio internals are replaced by explicit contracts over a `Wire`. These include scheduling through `io_service::post`, handler storage, and `async_write`. The contracts are `ReadUntil`, `ReadUntilFrom`, `ReadToEnd` and `ReadUntilWithSize`. They make two assumptions. First, a read finding its delimiter already buffered completes without reading. Second, the segmentation is fixed: each `read_some` delivers min(`readSize`, bytes remaining), with one `readSize` for the whole connection (`Socket.ReadSome` and the `rs` parameter of `ReadUntil`, `ReadUntilFrom` and `ReadUntilWithSize`). A peer that sends 4 bytes and then 6 cannot be expressed. The as-written sized read depends on the segmentation. So `CountRestartsAfterEachRead`, `StaleSearchSkipsLine` and the as-written `from + size` counts hold for that fixed segmentation. `SizedReadAtClose` holds for every segmentation: a stream of at most size bytes never puts more than size bytes in any searched range.
- The `test_stream` zero-byte reads are not connected to read_until. Past its data, `test_stream` completes a `read_some` with 0 bytes and no error. Asio's read_until loop stops on a zero-byte read. After a miss its stored search position is not `not_found`, so it completes with success and n equal to that position, which is the end of the buffer for `match_size`. The second read of test/read_test.cpp:277-309 passes this way: "2" is buffered, the match fails, and the zero-byte read completes it with n = 1. The model's `Socket` never completes with 0 bytes and no error, so this path is not modelled.
- `parse_response_header` is only declared. It is a parameter of the model (`HeaderParser`), and no status-line grammar is assumed. `async_read_body` has no definition and is not modelled.
- The outcomes of connect and of the request write, and whether a request has been set, are parameters of a session (`Env.connectEc`, `Env.requestEc`, `Env.requestSet`). include/network/protocols/http/http_socket.hpp and include/network/protocols/http/test_socket.hpp (DNS, TCP, posting handlers) are not part of this model.
- `shared_from_this` and the capture of the client in its handlers are memory management and are not modelled.
- The asynchronous write draining `request_buf_` is not modelled. `AsyncRequest` states what is appended before the write starts.
- `get_request` is a plain field read, and it is modelled by reading the `request` field.
- `std::set<http_client_ptr>` orders clients by pointer value. The model orders them by an integer client id, and `StopAll` visits them in ascending id order.
- The calls that connection_manager.hpp makes on a client are recorded as events rather than performed. include/network/protocols/http/http_client_base.hpp declares none of them.
- include/network/protocols/http/response_status.hpp only registers an error category. The model uses the error datatype `ErrorCode`.
- `keep_alive` is never read: every body branch leaves the loop first, so the `do … while` test is unreachable, and `OneRequestPerSession` states exactly that.
- ChunkVectors.TestChunkAsWritten: states the as-written chunked run only when the whole test body is already buffered. `AsWrittenChunkBoundary` states the general per-chunk effect.
- HttpClient.Perform: the `body` it records is what each data completion makes available to the client, and it is not a byte-exact model of what the client later discards.
- CLib.Strtol16: `errno` is not modelled. Overflow clamps to LONG_MAX or LONG_MIN, and the conversion to `size_t` is taken modulo 2^64.
- Integer widths: sizes are unbounded naturals except on the chunk path. The chunk size is reduced modulo 2^64 as the assignment to `size_t` does. The as-written chunk-data read computes `chunk_size + 2` and `bytes_transferred - 2` modulo 2^64. Content-Length and buffer offsets do not wrap.
- ResponseParser.ReadChunkDataAtLeast: the corrected chunk-data read adds 2 to the chunk size without the `size_t` wrap.
- HttpClient.SizeAfterChunkAsWritten: when fewer bytes arrive than the consume removed, the stored search position lies past the end of the buffer, which Asio leaves undefined. The model finds nothing there and keeps that position.
- ChunkVectors.AsWrittenChunkBoundary: requires the chunk to be shorter than 2^64 bytes, as a buffered `size_t` count always is.

## Findings

| source | as written | input that shows it | evidently intended | confidence | as-written member | corrected member |
|---|---|---|---|---|---|---|
| include/network/protocols/http/response_parser.hpp:85-95 | `match_size` matches only when the searched range holds more than `size` bytes, and Asio restarts the count at each newly read range. A sized body therefore needs one byte beyond Content-Length, all within one read. The source's own test (test/read_test.cpp:277-309) passes only because `test_stream` ends with a zero-byte read that completes without error; Asio then reports success with n equal to the stored search position. A TCP socket ends with end-of-stream instead. | Content-Length 7 and a body of exactly 7 bytes, then the close: the read ends with end-of-stream and the body is never delivered (`ClientSessions.SizedBodyAtCloseAsWritten`). Ten bytes read four at a time never satisfy size 7 (`ResponseParser.CountRestartsAfterEachRead`). | complete once at least `size` bytes are buffered, reporting `size` | not executed | ResponseParser.SizedReadAtClose | ResponseParser.ReadAtLeastSucceedsIff |
| include/network/protocols/http/http_client.hpp:75-77 | `async_read_chunk_data` calls the client's handler before `buf.consume(2)` (response_parser.hpp:122-123). The client then starts the next size read while the chunk's CRLF is still buffered. | the chunked test body "2\r\nOK\r\n10;key=value\r\n0123456789abcdef\r\n0\r\n…": the client delivers "OK", then reads size 0 from the empty line, then reads the rest of the body as trailer (`ChunkVectors.TestChunkAsWritten`) | consume the chunk's CRLF before the next size line is read, so that the body decodes to "OK" and "0123456789abcdef" with sizes 2, 16, 0 | not executed | ClientSessions.AsWrittenNextSizeIsZero | ClientSessions.ChunkedSession |
