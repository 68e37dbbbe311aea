/** The request side of the client: http_request and its GET and POST forms, written
    out as the text of an HTTP/1.1 request (section 3 of RFC 7230: a request line, header
    lines each ended by CRLF, an empty line, then the body), and simple_http_request,
    which appends that text to the buffer the request write sends. */
module HttpRequest {
  import opened HttpTypes
  import opened AsioModel
  import Lines

  /** What distinguishes the request forms: a GET writes no header lines of its own and
      no body; a POST writes Content-Length and Content-Type and sends its data. */
  datatype Form = Get | Post(contentType: Option<string>, postData: Option<string>)

  /** A request as operator<< sees it. */
  datatype RequestValue = RequestValue(verb: string, uri: string, hostname: string, form: Form)

  const DEFAULT_CONTENT_TYPE: string := "application/x-www-form-urlencoded"

  /** The decimal digit of d. */
  function DigitChar(d: nat): (c: char)
    requires d < 10
    ensures '0' <= c <= '9' && (c as int) - ('0' as int) == d
  {
    (('0' as int) + d) as char
  }

  predicate AllDigits(s: string)
  {
    forall i :: 0 <= i < |s| ==> '0' <= s[i] <= '9'
  }

  /** How an ostream writes a size_t: its decimal digits, without leading zeros. */
  function Decimal(n: nat): (s: string)
    ensures s != [] && AllDigits(s)
    ensures |s| > 1 ==> s[0] != '0'
    ensures n < 10 <==> |s| == 1
  {
    if n < 10 then [DigitChar(n)] else Decimal(n / 10) + [DigitChar(n % 10)]
  }

  /** The value of a string of decimal digits. */
  function DecimalValue(s: string): nat
    requires AllDigits(s)
  {
    if s == [] then 0 else DecimalValue(s[..|s| - 1]) * 10 + ((s[|s| - 1] as int) - ('0' as int))
  }

  /** Reading the digits back gives the number written. */
  lemma {:induction false} DecimalRoundTrip(n: nat)
    ensures DecimalValue(Decimal(n)) == n
  {
    var s := Decimal(n);
    if n >= 10 {
      DecimalRoundTrip(n / 10);
      assert s[..|s| - 1] == Decimal(n / 10);
    }
  }

  /** Different numbers are written differently. */
  lemma DecimalInjective(m: nat, n: nat)
    ensures Decimal(m) == Decimal(n) ==> m == n
  {
    DecimalRoundTrip(m);
    DecimalRoundTrip(n);
  }

  /** write_header: nothing for a GET; for a POST the length of the data (0 when there is
      none) and the content type (the form encoding when none is set). */
  function HeaderPart(f: Form): string
  {
    match f
    case Get => []
    case Post(contentType, postData) =>
      "Content-Length: " + Decimal(if postData.Some? then |postData.value| else 0) + CRLF +
      "Content-Type: " + (if contentType.Some? then contentType.value else DEFAULT_CONTENT_TYPE) + CRLF
  }

  /** write_body: nothing for a GET; for a POST its data, if any, byte for byte. */
  function BodyPart(f: Form): (body: string)
    ensures f.Get? || f.postData.None? ==> body == []
  {
    if f.Post? && f.postData.Some? then f.postData.value else []
  }

  /** The request line, ended by CRLF. */
  function RequestLine(r: RequestValue): string
  {
    r.verb + " " + r.uri + " HTTP/1.1\r\n"
  }

  /** The Host line, ended by CRLF. */
  function HostLine(r: RequestValue): string
  {
    "Host: " + r.hostname + CRLF
  }

  /** operator<<: the request line, the Host line, the form's header lines, the empty
      line and the body. */
  function Serialize(r: RequestValue): string
  {
    RequestLine(r) + HostLine(r) + HeaderPart(r.form) + CRLF + BodyPart(r.form)
  }

  /** The header lines a form adds, without their CRLFs. */
  function FormLines(f: Form): seq<string>
  {
    match f
    case Get => []
    case Post(contentType, postData) =>
      ["Content-Length: " + Decimal(if postData.Some? then |postData.value| else 0),
       "Content-Type: " + (if contentType.Some? then contentType.value else DEFAULT_CONTENT_TYPE)]
  }

  /** All header lines of a request, without their CRLFs. */
  function HeaderLines(r: RequestValue): (lines: seq<string>)
    ensures |lines| >= 2
  {
    [r.verb + " " + r.uri + " HTTP/1.1", "Host: " + r.hostname] + FormLines(r.form)
  }

  /** No field of the request holds a carriage return. */
  predicate NoCarriageReturn(r: RequestValue)
  {
    '\r' !in r.verb && '\r' !in r.uri && '\r' !in r.hostname &&
    (r.form.Post? && r.form.contentType.Some? ==> '\r' !in r.form.contentType.value)
  }

  /** write_header writes the form's lines, each ended by CRLF. */
  lemma HeaderPartIsJoin(f: Form)
    ensures HeaderPart(f) == Lines.Join(FormLines(f))
  {
    if f.Post? {
      var l := FormLines(f);
      assert l[1..] == [l[1]] && l[1..][1..] == [];
      assert Lines.Join([l[1]]) == l[1] + CRLF + [];
      assert Lines.Join(l) == l[0] + CRLF + Lines.Join(l[1..]);
      Assoc(l[0] + CRLF, l[1], CRLF);
    }
  }

  lemma JoinTwoThen(a: string, b: string, more: seq<string>)
    ensures Lines.Join([a, b] + more) == a + CRLF + (b + CRLF + Lines.Join(more))
  {
    var l := [a, b] + more;
    assert l[1..] == [b] + more && l[1..][1..] == more;
  }

  lemma Assoc(a: string, b: string, c: string)
    ensures a + b + c == a + (b + c)
  {
  }

  lemma Regroup5(a: string, b: string, c: string, d: string, e: string)
    ensures a + b + c + d + e == a + (b + c) + d + e
  {
  }

  /** The text written is the header lines, each ended by CRLF, the empty line, and the
      body. */
  lemma SerializeIsHeaderBlock(r: RequestValue)
    ensures Serialize(r) == Lines.Join(HeaderLines(r)) + CRLF + BodyPart(r.form)
  {
    var l1, l2 := r.verb + " " + r.uri + " HTTP/1.1", "Host: " + r.hostname;
    assert RequestLine(r) == l1 + CRLF;
    HeaderPartIsJoin(r.form);
    JoinTwoThen(l1, l2, FormLines(r.form));
    Regroup5(l1 + CRLF, l2 + CRLF, Lines.Join(FormLines(r.form)), CRLF, BodyPart(r.form));
  }

  lemma DefaultContentTypePlain()
    ensures '\r' !in DEFAULT_CONTENT_TYPE
  {
    forall i | 0 <= i < |DEFAULT_CONTENT_TYPE|
      ensures DEFAULT_CONTENT_TYPE[i] != '\r'
    {
    }
  }

  /** Every header line of a request without carriage returns in its fields is a plain
      line. */
  lemma HeaderLinesPlain(r: RequestValue)
    requires NoCarriageReturn(r)
    ensures Lines.AllPlain(HeaderLines(r))
  {
    var lines := HeaderLines(r);
    assert '\r' !in " HTTP/1.1" && '\r' !in "Host: ";
    if r.form.Post? {
      var d := Decimal(if r.form.postData.Some? then |r.form.postData.value| else 0);
      assert '\r' !in d by {
        forall i | 0 <= i < |d| ensures d[i] != '\r' { }
      }
      assert '\r' !in "Content-Length: " && '\r' !in "Content-Type: ";
      DefaultContentTypePlain();
    }
    assert forall i :: 0 <= i < |lines| ==> Lines.PlainLine(lines[i]);
  }

  /** A reader of the request finds the end of its header block exactly where the body
      begins, and for a POST the Content-Length line states the length of that body. */
  lemma RequestFraming(r: RequestValue)
    requires NoCarriageReturn(r)
    ensures var s := Serialize(r);
            FindEnd(s, BLANK_LINE) == Some(|s| - |BodyPart(r.form)|) &&
            s[|s| - |BodyPart(r.form)|..] == BodyPart(r.form)
    ensures r.form.Post? ==>
              HeaderLines(r)[2] == "Content-Length: " + Decimal(|BodyPart(r.form)|) &&
              DecimalValue(Decimal(|BodyPart(r.form)|)) == |BodyPart(r.form)|
  {
    SerializeIsHeaderBlock(r);
    HeaderLinesPlain(r);
    Lines.BlankLineEnd(HeaderLines(r), BodyPart(r.form));
    DecimalRoundTrip(|BodyPart(r.form)|);
  }

  /** The GET request of the request tests. */
  lemma GetRequestVector()
    ensures Serialize(RequestValue("GET", "/", "localhost", Get)) ==
            "GET / HTTP/1.1\r\n" + "Host: localhost\r\n" + "\r\n"
  {
    var r := RequestValue("GET", "/", "localhost", Get);
    assert RequestLine(r) == "GET / HTTP/1.1\r\n";
    assert HostLine(r) == "Host: localhost\r\n";
  }

  /** The POST request of the request tests: no data, so Content-Length 0 and the form
      encoding as content type. */
  lemma PostRequestVector()
    ensures Serialize(RequestValue("POST", "/", "localhost", Post(None, None))) ==
            "POST / HTTP/1.1\r\n" + "Host: localhost\r\n" + "Content-Length: 0\r\n" +
            "Content-Type: " + "application/x-www-form-urlencoded" + "\r\n" + "\r\n"
  {
    var r := RequestValue("POST", "/", "localhost", Post(None, None));
    PostLinesVector(r);
    PostHeaderVector();
    Regroup5("POST / HTTP/1.1\r\n", "Host: localhost\r\n", "Content-Length: 0\r\n",
             "Content-Type: " + "application/x-www-form-urlencoded" + "\r\n", "\r\n");
  }

  lemma PostLinesVector(r: RequestValue)
    requires r == RequestValue("POST", "/", "localhost", Post(None, None))
    ensures RequestLine(r) == "POST / HTTP/1.1\r\n" && HostLine(r) == "Host: localhost\r\n"
    ensures BodyPart(r.form) == []
  {
  }

  lemma PostHeaderVector()
    ensures HeaderPart(Post(None, None)) ==
            "Content-Length: 0\r\n" + ("Content-Type: " + "application/x-www-form-urlencoded" + "\r\n")
  {
    assert Decimal(0) == "0";
    ContentLengthZero();
  }

  lemma ContentLengthZero()
    ensures "Content-Length: " + "0" + CRLF == "Content-Length: 0\r\n"
  {
  }

  /** http_request with its two derived forms: the form is fixed at construction; the
      setters exist on a POST only. */
  class Request {
    const verb: string
    const uri: string
    const hostname: string
    var form: Form

    function Value(): RequestValue
      reads this
    {
      RequestValue(verb, uri, hostname, form)
    }

    /** http_get_request: remembers method, URI and host name. */
    constructor Get(verb: string, uri: string, hostname: string)
      ensures Value() == RequestValue(verb, uri, hostname, Form.Get)
    {
      this.verb, this.uri, this.hostname := verb, uri, hostname;
      form := Form.Get;
    }

    /** http_post_request: remembers method, URI and host name; neither content type nor
        data is set. */
    constructor Post(verb: string, uri: string, hostname: string)
      ensures Value() == RequestValue(verb, uri, hostname, Form.Post(None, None))
    {
      this.verb, this.uri, this.hostname := verb, uri, hostname;
      form := Form.Post(None, None);
    }

    /** set_content_type taking a const reference: copies. */
    method SetContentType(contentType: Option<string>)
      requires form.Post?
      modifies this
      ensures form == old(form).(contentType := contentType)
    {
      form := form.(contentType := contentType);
    }

    /** set_content_type taking an rvalue: swaps, so the argument comes back holding the
        previous content type. */
    method SwapContentType(contentType: Option<string>) returns (previous: Option<string>)
      requires form.Post?
      modifies this
      ensures form == old(form).(contentType := contentType)
      ensures previous == old(form.contentType)
    {
      previous := form.contentType;
      form := form.(contentType := contentType);
    }

    /** set_post_data taking a const reference: copies. */
    method SetPostData(postData: Option<string>)
      requires form.Post?
      modifies this
      ensures form == old(form).(postData := postData)
    {
      form := form.(postData := postData);
    }

    /** set_post_data taking an rvalue: swaps. */
    method SwapPostData(postData: Option<string>) returns (previous: Option<string>)
      requires form.Post?
      modifies this
      ensures form == old(form).(postData := postData)
      ensures previous == old(form.postData)
    {
      previous := form.postData;
      form := form.(postData := postData);
    }
  }

  /** simple_http_request: holds a (possibly null) request and the buffer the request
      write sends. */
  class SimpleRequest {
    var request: Option<Request>
    var requestBuf: string

    constructor ()
      ensures request == None && requestBuf == []
    {
      request := None;
      requestBuf := [];
    }

    method SetRequest(request: Option<Request>)
      modifies this
      ensures this.request == request && requestBuf == old(requestBuf)
    {
      this.request := request;
    }

    /** prepare_request_buf: appends the text of the request to what the buffer holds. */
    method PrepareRequestBuf()
      requires request.Some?
      modifies this
      ensures request == old(request)
      ensures requestBuf == old(requestBuf) + Serialize(request.value.Value())
    {
      requestBuf := requestBuf + Serialize(request.value.Value());
    }

    /** async_request: without a request, reports false and starts nothing; otherwise
        appends the request's text to the buffer and reports that the write was started. */
    method AsyncRequest() returns (started: bool)
      modifies this
      ensures request == old(request)
      ensures started <==> request.Some?
      ensures !started ==> requestBuf == old(requestBuf)
      ensures started ==> requestBuf == old(requestBuf) + Serialize(request.value.Value())
    {
      if request.None? {
        return false;
      }
      PrepareRequestBuf();
      started := true;
    }
  }
}
