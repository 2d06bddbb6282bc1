/** The requests the parser can recover, how they are printed, and what its line functions make of the printed lines.
    Which requests of RFC 9112 (sections 3, 5 and 6) these are is the subject of module HttpRfc. */
module HttpMessage {
  import opened Common
  import opened HttpText
  import opened HttpSpec

  datatype Header = Header(name: string, pad: string, value: string)

  datatype Body =
    | Plain(data: string)
    | Multipart(boundary: string, partHeader: string, data: string)

  datatype Message = Message(
    verb: Method,
    path: string,
    query: Option<seq<(string, string)>>,
    version11: bool,
    headers: seq<Header>,
    body: Body)

  // ---------------------------------------------------------------------------------------------
  // Printing
  // ---------------------------------------------------------------------------------------------

  function VerbText(verb: Method): string {
    match verb
    case Get => "GET"
    case Post => "POST"
    case Put => "PUT"
    case Delete => "DELETE"
    case Options => "OPTIONS"
    case _ => ""
  }

  function PairText(pair: (string, string)): string { pair.0 + "=" + pair.1 }

  function QueryText(pairs: seq<(string, string)>): string {
    if pairs == [] then ""
    else if |pairs| == 1 then PairText(pairs[0])
    else PairText(pairs[0]) + "&" + QueryText(pairs[1..])
  }

  function TargetText(m: Message): string {
    m.path + if m.query.Some? then "?" + QueryText(m.query.value) else ""
  }

  function VersionText(m: Message): string { if m.version11 then "HTTP/1.1" else "HTTP/1.0" }

  function RequestLine(m: Message): string { VerbText(m.verb) + " " + TargetText(m) + " " + VersionText(m) }

  function HeaderText(h: Header): string { h.name + ":" + h.pad + h.value }

  function HeadersText(hs: seq<Header>): string {
    if hs == [] then "" else HeaderText(hs[0]) + CRLF + HeadersText(hs[1..])
  }

  /** Everything of a multipart body before the part data. */
  function PartIntro(b: Body): string
    requires b.Multipart?
  {
    Delim(b.boundary) + CRLF + b.partHeader + "\r\n\r\n"
  }

  function BodyText(b: Body): string {
    match b
    case Plain(data) => data
    case Multipart(boundary, _, data) => PartIntro(b) + data + Closing(boundary) + CRLF
  }

  function HeadText(m: Message): string { RequestLine(m) + CRLF + HeadersText(m.headers) + CRLF }

  function Print(m: Message): string { HeadText(m) + BodyText(m.body) }

  // ---------------------------------------------------------------------------------------------
  // What the parser supports
  // ---------------------------------------------------------------------------------------------

  predicate CarriesBody(verb: Method) { verb.Post? || verb.Put? }

  predicate WellFormedPair(pair: (string, string)) {
    && '=' !in pair.0 && '&' !in pair.0 && ' ' !in pair.0 && '\r' !in pair.0
    && '&' !in pair.1 && ' ' !in pair.1 && '\r' !in pair.1
  }

  predicate ReadableTarget(m: Message) {
    && '?' !in m.path && ' ' !in m.path && '\r' !in m.path
    && (m.query.Some? ==> forall i | 0 <= i < |m.query.value| :: WellFormedPair(m.query.value[i]))
  }

  predicate ReadableLine(m: Message) { VerbText(m.verb) != "" && ReadableTarget(m) }

  predicate SupportedLine(m: Message) { ReadableLine(m) && |RequestLine(m)| <= MAX_LINE }

  predicate SupportedHeader(h: Header) {
    && ':' !in h.name && '\r' !in h.name && '\r' !in h.pad && '\r' !in h.value
    && (h.name == "" || !Blank(h.name[|h.name| - 1]))
    && (forall i | 0 <= i < |h.pad| :: Blank(h.pad[i]))
    && (h.value == "" || !Blank(h.value[0]))
  }

  /** The boundary that `CheckContentType` reads from a header value; `Some("")` when the value is not multipart. */
  function BoundaryOf(contentType: string): Option<string> {
    if Find(contentType, "multipart/form-data", 0).None? then Some("")
    else
      match Find(contentType, "boundary=", 0)
      case Some(i) => Some(Unquote(contentType[i + 9..]))
      case None => None
  }

  /** The header map after these lines: a later line replaces an earlier one of the same name. */
  function HeaderMap(headers: map<string, string>, hs: seq<Header>): map<string, string>
    decreases |hs|
  {
    if hs == [] then headers else HeaderMap(headers[hs[0].name := hs[0].value], hs[1..])
  }

  function QueryMap(query: map<string, string>, pairs: seq<(string, string)>): map<string, string>
    decreases |pairs|
  {
    if pairs == [] then query else QueryMap(query[pairs[0].0 := pairs[0].1], pairs[1..])
  }

  function Lookup(headers: map<string, string>, field: string): string { if field in headers then headers[field] else "" }

  /** A part header's own blank line is the first one in it. */
  predicate EndsAtBlankLine(header: string) { Find(header + "\r\n\r\n", "\r\n\r\n", 0) == Some(|header|) }

  predicate SupportedBody(m: Message) {
    && (forall i | 0 <= i < |m.headers| && m.headers[i].name == "Content-Type" ::
          BoundaryOf(m.headers[i].value) == Some(if m.body.Multipart? then m.body.boundary else ""))
    && (CarriesBody(m.verb) ==> Stoi(Lookup(HeaderMap(map[], m.headers), "Content-Length")) == Some(|BodyText(m.body)|))
    && (!CarriesBody(m.verb) ==> m.body == Plain(""))
    && (m.body.Multipart? ==>
          && m.body.boundary != "" && m.body.partHeader != ""
          && (exists i :: 0 <= i < |m.headers| && m.headers[i].name == "Content-Type")
          && EndsAtBlankLine(m.body.partHeader))
  }

  predicate Supported(m: Message) {
    && SupportedLine(m)
    && (forall i | 0 <= i < |m.headers| :: SupportedHeader(m.headers[i]))
    && SupportedBody(m)
  }

  // ---------------------------------------------------------------------------------------------
  // The request line is parsed back
  // ---------------------------------------------------------------------------------------------

  lemma AddPairText(query: map<string, string>, pair: (string, string))
    requires WellFormedPair(pair)
    ensures AddPair(query, PairText(pair)) == query[pair.0 := pair.1]
  {
    FindCharIs(pair.0, '=', pair.1);
    assert PairText(pair) == pair.0 + ['='] + pair.1;
    assert PairText(pair)[..|pair.0|] == pair.0 && PairText(pair)[|pair.0| + 1..] == pair.1;
  }

  lemma {:induction false} AddPairsText(query: map<string, string>, pairs: seq<(string, string)>)
    requires forall i | 0 <= i < |pairs| :: WellFormedPair(pairs[i])
    ensures AddPairs(query, QueryText(pairs)) == QueryMap(query, pairs)
    decreases |pairs|
  {
    if pairs == [] {
    } else {
      var first := PairText(pairs[0]);
      assert WellFormedPair(pairs[0]);
      AddPairText(query, pairs[0]);
      assert '&' !in first;
      if |pairs| == 1 {
        FindCharNone(first, '&');
        assert pairs[1..] == [];
      } else {
        var rest := QueryText(pairs[1..]);
        FindCharIs(first, '&', rest);
        assert QueryText(pairs) == first + ['&'] + rest;
        assert QueryText(pairs)[..|first|] == first && QueryText(pairs)[|first| + 1..] == rest;
        AddPairsText(query[pairs[0].0 := pairs[0].1], pairs[1..]);
      }
    }
  }

  lemma {:induction false} QueryTextClean(pairs: seq<(string, string)>)
    requires forall i | 0 <= i < |pairs| :: WellFormedPair(pairs[i])
    ensures ' ' !in QueryText(pairs) && '\r' !in QueryText(pairs)
    decreases |pairs|
  {
    if pairs != [] {
      assert WellFormedPair(pairs[0]);
      QueryTextClean(pairs[1..]);
    }
  }

  /** What the request line says. */
  function LineRequest(m: Message): Request {
    EMPTY_REQUEST.(verb := m.verb, version := VersionText(m), path := m.path,
                  query := if m.query.Some? then QueryMap(map[], m.query.value) else map[])
  }

  lemma SetTargetText(m: Message, request: Request)
    requires ReadableTarget(m) && request.query == map[]
    ensures SetTarget(request, TargetText(m)) == request.(path := m.path, query := LineRequest(m).query)
    ensures ' ' !in TargetText(m) && '\r' !in TargetText(m)
  {
    if m.query.Some? {
      var q := QueryText(m.query.value);
      QueryTextClean(m.query.value);
      FindCharIs(m.path, '?', q);
      assert TargetText(m) == m.path + ['?'] + q;
      assert TargetText(m)[..|m.path|] == m.path && TargetText(m)[|m.path| + 1..] == q;
      AddPairsText(map[], m.query.value);
    } else {
      assert TargetText(m) == m.path;
      FindCharNone(m.path, '?');
    }
  }

  lemma VerbParsed(m: Message)
    requires ReadableLine(m)
    ensures ' ' !in VerbText(m.verb) && '\r' !in VerbText(m.verb)
    ensures MethodOf(VerbText(m.verb)) == m.verb && !m.verb.Invalid?
  {
  }

  /** A space splits a text that has none in front of it. */
  lemma SpaceSplits(a: string, b: string)
    requires ' ' !in a
    ensures var t := a + " " + b;
            FindChar(t, ' ') == Some(|a|) && t[..|a|] == a && t[|a| + 1..] == b
  {
    FindCharIs(a, ' ', b);
    assert a + " " + b == a + [' '] + b;
  }

  /** The request line splits at its two spaces. */
  lemma RequestLineSplits(m: Message)
    requires ReadableLine(m)
    ensures var rest := TargetText(m) + " " + VersionText(m);
            && FindChar(RequestLine(m), ' ') == Some(|VerbText(m.verb)|)
            && RequestLine(m)[..|VerbText(m.verb)|] == VerbText(m.verb)
            && RequestLine(m)[|VerbText(m.verb)| + 1..] == rest
            && FindChar(rest, ' ') == Some(|TargetText(m)|)
            && rest[..|TargetText(m)|] == TargetText(m) && rest[|TargetText(m)| + 1..] == VersionText(m)
  {
    VerbParsed(m);
    SetTargetText(m, EMPTY_REQUEST);
    SpaceSplits(TargetText(m), VersionText(m));
    SpaceSplits(VerbText(m.verb), TargetText(m) + " " + VersionText(m));
    LineJoins(VerbText(m.verb), TargetText(m), VersionText(m));
  }

  lemma LineJoins(a: string, b: string, c: string)
    ensures a + " " + b + " " + c == a + " " + (b + " " + c)
  {
  }

  lemma VersionParsed(m: Message)
    ensures VersionOf(VersionText(m)) == Some(VersionText(m)) && '\r' !in VersionText(m)
  {
    assert VersionText(m)[..7] == "HTTP/1.";
  }

  lemma LineProcessed(request: Request, line: string, name: string, target: string, version: string)
    requires FindChar(line, ' ') == Some(|name|) && line[..|name|] == name && !MethodOf(name).Invalid?
    requires var rest := line[|name| + 1..];
             FindChar(rest, ' ') == Some(|target|) && rest[..|target|] == target && rest[|target| + 1..] == version
    requires VersionOf(version) == Some(version)
    ensures ProcessLine(request, line) ==
              (SetTarget(request.(verb := MethodOf(name)), target).(version := version), true)
  {
  }

  /** The request line gives back verb, path, query and version. */
  lemma RequestLineParsed(m: Message)
    requires ReadableLine(m)
    ensures ProcessLine(EMPTY_REQUEST, RequestLine(m)) == (LineRequest(m), true)
  {
    VerbParsed(m);
    VersionParsed(m);
    RequestLineSplits(m);
    LineProcessed(EMPTY_REQUEST, RequestLine(m), VerbText(m.verb), TargetText(m), VersionText(m));
    SetTargetText(m, EMPTY_REQUEST.(verb := m.verb));
  }

  lemma RequestLineClean(m: Message)
    requires ReadableLine(m)
    ensures '\r' !in RequestLine(m)
  {
    VerbParsed(m);
    VersionParsed(m);
    SetTargetText(m, EMPTY_REQUEST);
  }

  // ---------------------------------------------------------------------------------------------
  // Header lines are parsed back
  // ---------------------------------------------------------------------------------------------

  /** A line without carriage returns ends at its own CRLF. */
  lemma FindCrlf(buffer: string, pos: nat, line: string, rest: string, end: nat)
    requires pos <= |buffer| && buffer[pos..] == line + CRLF + rest && '\r' !in line && end == pos + |line|
    ensures end + 2 <= |buffer| && Find(buffer, CRLF, pos) == Some(end)
    ensures buffer[pos..end] == line && buffer[end + 2..] == rest
  {
    Assoc(line, CRLF, rest);
    Drop(buffer, pos, line, CRLF + rest, end);
    Drop(buffer, end, CRLF, rest, end + 2);
    forall i | pos <= i < end ensures !MatchAt(buffer, CRLF, i) {
      assert buffer[i] == buffer[pos..end][i - pos];
      assert buffer[i..i + 2][0] == buffer[i];
    }
    FindIs(buffer, CRLF, pos, end);
  }

  lemma HeaderLineParsed(request: Request, h: Header)
    requires SupportedHeader(h)
    ensures FindChar(HeaderText(h), ':') == Some(|h.name|)
    ensures AddHeaderLine(request, HeaderText(h), |h.name|) == request.(headers := request.headers[h.name := h.value])
    ensures HeaderText(h) != "" && '\r' !in HeaderText(h)
  {
    FindCharIs(h.name, ':', h.pad + h.value);
    assert HeaderText(h) == h.name + [':'] + (h.pad + h.value);
    assert HeaderText(h)[..|h.name|] == h.name && HeaderText(h)[|h.name| + 1..] == h.pad + h.value;
    TrimPad(h.pad, h.value);
  }

  lemma HeaderLineValue(c: Context, line: string, end: nat, ok: bool, isErr: bool)
    requires c.pos < end <= |c.buffer| && Find(c.buffer, CRLF, c.pos) == Some(end) && c.buffer[c.pos..end] == line
    requires FindChar(line, ':').Some?
    ensures HeaderLine(c, ok, isErr) ==
              (Pass(c.(pos := end + 2, request := AddHeaderLine(c.request, line, FindChar(line, ':').value)), ok, isErr), true)
  {
  }

  /** The context after the header lines `hs` have been read. */
  function AfterHeaders(c: Context, hs: seq<Header>): Context {
    c.(pos := c.pos + |HeadersText(hs)|, request := c.request.(headers := HeaderMap(c.request.headers, hs)))
  }

  /** The header loop reads the lines that are there and goes on with what follows them. */
  lemma {:induction false} HeaderLinesRead(c: Context, hs: seq<Header>, rest: string, ok: bool, isErr: bool)
    requires c.pos <= |c.buffer| && c.buffer[c.pos..] == HeadersText(hs) + rest
    requires forall i | 0 <= i < |hs| :: SupportedHeader(hs[i])
    ensures AfterHeaders(c, hs).pos <= |c.buffer| && c.buffer[AfterHeaders(c, hs).pos..] == rest
    ensures HeaderLines(c, ok, isErr) == HeaderLines(AfterHeaders(c, hs), ok, isErr)
    decreases |hs|
  {
    if hs == [] {
      assert HeadersText(hs) + rest == rest;
    } else {
      var next := FirstHeaderRead(c, hs, rest, ok, isErr);
      HeaderLinesRead(next, hs[1..], rest, ok, isErr);
    }
  }

  lemma HeadersSplit(hs: seq<Header>, rest: string)
    requires hs != []
    ensures HeadersText(hs) + rest == HeaderText(hs[0]) + CRLF + (HeadersText(hs[1..]) + rest)
    ensures |HeadersText(hs)| == |HeaderText(hs[0])| + 2 + |HeadersText(hs[1..])|
  {
  }

  lemma FirstHeaderRead(c: Context, hs: seq<Header>, rest: string, ok: bool, isErr: bool) returns (next: Context)
    requires c.pos <= |c.buffer| && hs != [] && c.buffer[c.pos..] == HeadersText(hs) + rest && SupportedHeader(hs[0])
    ensures next.buffer == c.buffer && next.pos <= |c.buffer| && c.buffer[next.pos..] == HeadersText(hs[1..]) + rest
    ensures AfterHeaders(next, hs[1..]) == AfterHeaders(c, hs)
    ensures HeaderLines(c, ok, isErr) == HeaderLines(next, ok, isErr)
  {
    var line := HeaderText(hs[0]);
    HeadersSplit(hs, rest);
    HeaderLineParsed(c.request, hs[0]);
    next := OneHeaderRead(c, line, HeadersText(hs[1..]) + rest, ok, isErr);
  }

  lemma OneHeaderRead(c: Context, line: string, rest: string, ok: bool, isErr: bool) returns (next: Context)
    requires c.pos <= |c.buffer| && c.buffer[c.pos..] == line + CRLF + rest && '\r' !in line
    requires line != "" && FindChar(line, ':').Some?
    ensures next == c.(pos := c.pos + |line| + 2, request := AddHeaderLine(c.request, line, FindChar(line, ':').value))
    ensures next.pos <= |c.buffer| && c.buffer[next.pos..] == rest
    ensures HeaderLines(c, ok, isErr) == HeaderLines(next, ok, isErr)
  {
    var end := c.pos + |line|;
    FindCrlf(c.buffer, c.pos, line, rest, end);
    HeaderLineValue(c, line, end, ok, isErr);
    next := c.(pos := end + 2, request := AddHeaderLine(c.request, line, FindChar(line, ':').value));
  }

  lemma {:induction false} HeaderMapAppend(headers: map<string, string>, a: seq<Header>, b: seq<Header>)
    ensures HeaderMap(headers, a + b) == HeaderMap(HeaderMap(headers, a), b)
    decreases |a|
  {
    if a == [] {
      assert a + b == b;
    } else {
      assert (a + b)[1..] == a[1..] + b;
      HeaderMapAppend(headers[a[0].name := a[0].value], a[1..], b);
    }
  }

  lemma {:induction false} HeadersTextAppend(a: seq<Header>, b: seq<Header>)
    ensures HeadersText(a + b) == HeadersText(a) + HeadersText(b)
    decreases |a|
  {
    if a == [] {
      assert a + b == b;
    } else {
      assert (a + b)[1..] == a[1..] + b;
      HeadersTextAppend(a[1..], b);
    }
  }

  /** A field of the map comes from one of the lines. */
  lemma {:induction false} FieldComesFromLine(headers: map<string, string>, hs: seq<Header>, field: string)
    ensures field in HeaderMap(headers, hs) <==> field in headers || exists i :: 0 <= i < |hs| && hs[i].name == field
    ensures field in HeaderMap(headers, hs) ==>
              (field in headers && HeaderMap(headers, hs)[field] == headers[field])
              || exists i :: 0 <= i < |hs| && hs[i].name == field && hs[i].value == HeaderMap(headers, hs)[field]
    decreases |hs|
  {
    if hs != [] {
      var next := headers[hs[0].name := hs[0].value];
      FieldComesFromLine(next, hs[1..], field);
      assert forall i | 0 <= i < |hs| - 1 :: hs[1..][i] == hs[i + 1];
      if exists i :: 0 <= i < |hs[1..]| && hs[1..][i].name == field {
        var i :| 0 <= i < |hs[1..]| && hs[1..][i].name == field;
        assert hs[i + 1].name == field;
      }
      if exists i :: 0 < i < |hs| && hs[i].name == field {
        var i :| 0 < i < |hs| && hs[i].name == field;
        assert hs[1..][i - 1].name == field;
      }
    }
  }
}
