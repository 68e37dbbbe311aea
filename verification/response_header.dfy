/** The context a response header is parsed into: status, content type and length,
    the transfer coding, and every header line in a multimap keyed by field name. */
module ResponseHeader {
  import opened HttpTypes
  import CLib

  datatype ProtocolVersion = Http10 | Http11

  /** std::less<std::string>: lexicographic order on characters, a proper prefix first. */
  predicate KeyLess(a: string, b: string)
    decreases |a|
  {
    if a == [] then b != []
    else if b == [] then false
    else if a[0] != b[0] then a[0] < b[0]
    else KeyLess(a[1..], b[1..])
  }

  lemma {:induction false} KeyLessIrreflexive(a: string)
    ensures !KeyLess(a, a)
  {
    if a != [] {
      KeyLessIrreflexive(a[1..]);
    }
  }

  lemma {:induction false} KeyLessTransitive(a: string, b: string, c: string)
    requires KeyLess(a, b) && KeyLess(b, c)
    ensures KeyLess(a, c)
  {
    if a != [] && a[0] == b[0] && b[0] == c[0] {
      KeyLessTransitive(a[1..], b[1..], c[1..]);
    }
  }

  lemma {:induction false} KeyLessTotal(a: string, b: string)
    requires a != b
    ensures KeyLess(a, b) || KeyLess(b, a)
  {
    if a != [] && b != [] && a[0] == b[0] {
      assert a == [a[0]] + a[1..] && b == [b[0]] + b[1..];
      KeyLessTotal(a[1..], b[1..]);
    }
  }

  type Entry = (string, string)

  /** The order a std::multimap keeps: keys never decrease. */
  predicate SortedByKey(hs: seq<Entry>)
  {
    forall i, j :: 0 <= i < j < |hs| ==> !KeyLess(hs[j].0, hs[i].0)
  }

  /** std::multimap<std::string, std::string>, as the sequence its iterators visit. */
  type HeaderList = hs: seq<Entry> | SortedByKey(hs) witness []

  /** The position multimap::insert gives a new entry with key `k`: after every entry
      whose key is not greater than `k`. */
  function UpperBound(hs: HeaderList, k: string): (i: nat)
    ensures i <= |hs|
    ensures forall j :: 0 <= j < i ==> !KeyLess(k, hs[j].0)
    ensures forall j :: i <= j < |hs| ==> KeyLess(k, hs[j].0)
  {
    if hs == [] then 0
    else if KeyLess(k, hs[0].0) then
      assert forall j :: 0 <= j < |hs| ==> KeyLess(k, hs[j].0) by {
        forall j | 0 < j < |hs|
          ensures KeyLess(k, hs[j].0)
        {
          if hs[j].0 != hs[0].0 {
            KeyLessTotal(hs[j].0, hs[0].0);
            KeyLessTransitive(k, hs[0].0, hs[j].0);
          }
        }
      }
      0
    else
      var tail: HeaderList := hs[1..];
      1 + UpperBound(tail, k)
  }

  /** multimap::insert: the map gains exactly the one entry and stays ordered; among
      equal keys the new entry comes last. */
  function Insert(hs: HeaderList, k: string, v: string): (r: HeaderList)
    ensures multiset(r) == multiset(hs) + multiset{(k, v)}
  {
    var i := UpperBound(hs, k);
    var r := hs[..i] + [(k, v)] + hs[i..];
    assert hs == hs[..i] + hs[i..];
    forall x, y | 0 <= x < y < |r|
      ensures !KeyLess(r[y].0, r[x].0)
    {
      if x < i && y == i {
      } else if x == i && y > i {
        KeyLessIrreflexive(k);
        if KeyLess(r[y].0, k) {
          KeyLessTransitive(k, r[y].0, k);
        }
      }
    }
    r
  }

  /** The values stored under key `k`, in the order equal_range visits them. */
  function ValuesOf(hs: seq<Entry>, k: string): seq<string>
  {
    if hs == [] then [] else (if hs[0].0 == k then [hs[0].1] else []) + ValuesOf(hs[1..], k)
  }

  lemma {:induction false} ValuesOfAppend(a: seq<Entry>, b: seq<Entry>, k: string)
    ensures ValuesOf(a + b, k) == ValuesOf(a, k) + ValuesOf(b, k)
  {
    if a != [] {
      assert (a + b)[0] == a[0] && (a + b)[1..] == a[1..] + b;
      ValuesOfAppend(a[1..], b, k);
    } else {
      assert a + b == b;
    }
  }

  lemma {:induction false} ValuesOfNone(hs: seq<Entry>, k: string)
    requires forall j :: 0 <= j < |hs| ==> hs[j].0 != k
    ensures ValuesOf(hs, k) == []
  {
    if hs != [] {
      assert hs[0].0 != k;
      assert forall j :: 0 <= j < |hs[1..]| ==> hs[1..][j] == hs[j + 1];
      ValuesOfNone(hs[1..], k);
    }
  }

  /** Inserting under `k` appends the value to the values already stored under `k` and
      leaves the values under every other key as they were. */
  lemma InsertValues(hs: HeaderList, k: string, v: string, other: string)
    requires other != k
    ensures ValuesOf(Insert(hs, k, v), k) == ValuesOf(hs, k) + [v]
    ensures ValuesOf(Insert(hs, k, v), other) == ValuesOf(hs, other)
  {
    var i := UpperBound(hs, k);
    assert hs == hs[..i] + hs[i..];
    ValuesOfAppend(hs[..i] + [(k, v)], hs[i..], k);
    ValuesOfAppend(hs[..i], [(k, v)], k);
    ValuesOfAppend(hs[..i], hs[i..], k);
    forall j | 0 <= j < |hs[i..]|
      ensures hs[i..][j].0 != k
    {
      KeyLessIrreflexive(k);
    }
    ValuesOfNone(hs[i..], k);
    ValuesOfAppend(hs[..i] + [(k, v)], hs[i..], other);
    ValuesOfAppend(hs[..i], [(k, v)], other);
    ValuesOfAppend(hs[..i], hs[i..], other);
  }

  /** The text before the first `;` (the transfer coding without its parameters). */
  function BeforeSemicolon(s: string): (r: string)
    ensures r <= s && ';' !in r
    ensures |r| < |s| ==> s[|r|] == ';'
  {
    if s == [] || s[0] == ';' then [] else [s[0]] + BeforeSemicolon(s[1..])
  }

  /** accept_transfer_coding's test on a C string: it begins with "chunked", followed by
      `;` or by the terminator. */
  predicate IsChunkedCoding(s: string)
  {
    var c := CLib.CString(s);
    |c| >= 7 && c[..7] == "chunked" && (|c| == 7 || c[7] == ';')
  }

  /** The test accepts exactly the codings whose name, up to any parameters, is "chunked"
      (section 4.1 of RFC 7230 names the coding; `;` opens its parameters). */
  lemma ChunkedIsFirstToken(s: string)
    ensures IsChunkedCoding(s) <==> BeforeSemicolon(CLib.CString(s)) == "chunked"
  {
    var c := CLib.CString(s);
    var r := BeforeSemicolon(c);
    if IsChunkedCoding(s) {
      assert forall x :: 0 <= x < 7 ==> c[x] == "chunked"[x] && c[x] != ';';
      assert r[..7] == c[..7];
    }
  }

  /** The fields of http_response_context that the header parser sets and callers read. */
  datatype ContextFields = ContextFields(
    protocolVersion: ProtocolVersion,
    statusCode: int,
    contentType: Option<string>,
    contentLength: Option<nat>,
    chunked: bool,
    headers: HeaderList,
    keepAlive: bool)

  /** The fields a freshly constructed context holds. */
  const INITIAL_FIELDS: ContextFields := ContextFields(Http10, 0, None, None, false, [], false)

  /** http_response_context: filled in by the header parser through the accept_* calls. */
  class ResponseContext {
    var protocolVersion: ProtocolVersion
    var statusCode: int
    var contentType: Option<string>
    var contentLength: Option<nat>
    var chunked: bool
    var headers: HeaderList
    var keepAlive: bool
    /** The field name of the header line whose value has not arrived yet. */
    var tmpKey: string

    function Fields(): ContextFields
      reads this
    {
      ContextFields(protocolVersion, statusCode, contentType, contentLength, chunked, headers, keepAlive)
    }

    constructor ()
      ensures Fields() == INITIAL_FIELDS && tmpKey == ""
    {
      protocolVersion := Http10;
      statusCode := 0;
      contentType := None;
      contentLength := None;
      chunked := false;
      headers := [];
      keepAlive := false;
      tmpKey := "";
    }

    /** Replaces every field the parser sets (the parser's result is written back). */
    method SetFields(f: ContextFields)
      modifies this
      ensures Fields() == f && tmpKey == old(tmpKey)
    {
      protocolVersion, statusCode, contentType := f.protocolVersion, f.statusCode, f.contentType;
      contentLength, chunked, headers, keepAlive := f.contentLength, f.chunked, f.headers, f.keepAlive;
    }

    /** Remembers a field name until its value arrives. */
    method AcceptHeaderKey(key: string)
      modifies this
      ensures tmpKey == CLib.CString(key)
      ensures Fields() == old(Fields())
    {
      tmpKey := CLib.CString(key);
    }

    /** Files the value under the remembered name; the name is swapped out, so the
        next value without a new name is filed under the empty name. */
    method AcceptHeaderValue(value: string)
      modifies this
      ensures headers == Insert(old(headers), old(tmpKey), CLib.CString(value))
      ensures tmpKey == ""
      ensures Fields() == old(Fields()).(headers := headers)
    {
      var key := tmpKey;
      tmpKey := "";
      headers := Insert(headers, key, CLib.CString(value));
    }

    /** A null pointer leaves the content type as it was. */
    method AcceptContentType(contentType: Option<string>)
      modifies this
      ensures contentType.None? ==> Fields() == old(Fields())
      ensures contentType.Some? ==>
                Fields() == old(Fields()).(contentType := Some(CLib.CString(contentType.value)))
      ensures tmpKey == old(tmpKey)
    {
      if contentType.Some? {
        this.contentType := Some(CLib.CString(contentType.value));
      }
    }

    method AcceptTransferCoding(transferCoding: string)
      modifies this
      ensures chunked == IsChunkedCoding(transferCoding)
      ensures Fields() == old(Fields()).(chunked := chunked)
      ensures tmpKey == old(tmpKey)
    {
      var c := CLib.CString(transferCoding);
      if |c| >= 7 && c[..7] == "chunked" {
        if |c| == 7 || c[7] == ';' {
          chunked := true;
          return;
        }
      }
      chunked := false;
    }
  }
}
