/** Values shared by every part of the model: optional values, the error codes that
    completion handlers receive, and the line terminators of HTTP/1.x. */
module HttpTypes {

  /** boost::optional<T>; `None` also stands for a null `const char *`. */
  datatype Option<T> = None | Some(value: T)

  /** The boost::system::error_code a completion handler receives.
      `NoError` is the default-constructed code, the one `if (ec)` treats as false;
      `Malformed` is HTTP_RESPONSE_MALFORMED; `EndOfStream` and `TransportFailure` are
      failures of the transport, which this layer hands on unchanged. */
  datatype ErrorCode = NoError | Malformed | EndOfStream | TransportFailure(code: nat)

  function Min(a: nat, b: nat): nat
  {
    if a <= b then a else b
  }

  const CRLF: string := "\r\n"

  /** The end of a header block: the CRLF of the last header line and an empty line. */
  const BLANK_LINE: string := "\r\n\r\n"
}
