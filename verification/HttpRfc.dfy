/** Which requests of RFC 9112 the parser recovers. `RfcWellFormed` asks for no more than the standard does of a request
    whose query is a list of pairs and whose body is framed by Content-Length: method and field names are tokens in any
    case, lines have any length, field values may be padded on both sides. The parser recovers such a request exactly
    when it `Fits`. */
module HttpRfc {
  import opened Common
  import opened HttpText
  import opened HttpSpec
  import opened HttpMessage
  import opened HttpRoundTrip
  import opened HttpTheorems
  import opened HttpCuts

  /** A field line: white space around the value is not part of it (section 5 of RFC 9112). */
  datatype Field = Field(name: string, lead: string, value: string, trail: string)

  datatype RfcRequest = RfcRequest(
    name: string,  // the method token
    path: string,
    query: Option<seq<(string, string)>>,
    version11: bool,
    fields: seq<Field>,
    body: Body)

  function LowerChar(c: char): char { if 'A' <= c <= 'Z' then 'a' + (c - 'A') else c }

  function Lower(s: string): string { seq(|s|, i requires 0 <= i < |s| => LowerChar(s[i])) }

  /** `tchar` of section 5.6.2 of RFC 9110. */
  predicate TokenChar(c: char) {
    'a' <= c <= 'z' || 'A' <= c <= 'Z' || Digit(c)
    || c == '!' || c == '#' || c == '$' || c == '%' || c == '&' || c == '\'' || c == '*' || c == '+' || c == '-'
    || c == '.' || c == '^' || c == '_' || c == '`' || c == '|' || c == '~'
  }

  predicate Token(s: string) { s != "" && forall i :: 0 <= i < |s| ==> TokenChar(s[i]) }

  predicate Blanks(s: string) { forall i :: 0 <= i < |s| ==> Blank(s[i]) }

  predicate RfcField(f: Field) {
    && Token(f.name) && Blanks(f.lead) && Blanks(f.trail)
    && '\r' !in f.value && '\n' !in f.value
    && (f.value == "" ==> f.trail == "")
    && (f.value != "" ==> !Blank(f.value[0]) && !Blank(f.value[|f.value| - 1]))
  }

  predicate Numeral(s: string) { s != "" && forall i :: 0 <= i < |s| ==> Digit(s[i]) }

  /** The number a decimal numeral denotes. */
  function Decimal(s: string): int {
    if s == "" then 0 else 10 * Decimal(s[..|s| - 1]) + (s[|s| - 1] as int - '0' as int)
  }

  predicate Called(f: Field, lower: string) { Lower(f.name) == lower }

  /** At most one field of this name, in whatever case. */
  predicate AtMostOne(fields: seq<Field>, lower: string) {
    forall i, j :: 0 <= i < j < |fields| ==> !Called(fields[i], lower) || !Called(fields[j], lower)
  }

  predicate HasField(fields: seq<Field>, lower: string) {
    exists i :: 0 <= i < |fields| && Called(fields[i], lower)
  }

  /** The length is announced; without a length there is no body (section 6.3 of RFC 9112). */
  predicate RfcFraming(r: RfcRequest) {
    && AtMostOne(r.fields, "content-length") && AtMostOne(r.fields, "content-type")
    && (forall i :: 0 <= i < |r.fields| && Called(r.fields[i], "content-length") ==>
          Numeral(r.fields[i].value) && Decimal(r.fields[i].value) == |BodyText(r.body)|)
    && (HasField(r.fields, "content-length") || BodyText(r.body) == "")
    && (r.body.Multipart? ==>
          && r.body.boundary != "" && r.body.partHeader != "" && HasField(r.fields, "content-type")
          && EndsAtBlankLine(r.body.partHeader))
  }

  predicate RfcWellFormed(r: RfcRequest) {
    && Token(r.name)
    && '?' !in r.path && ' ' !in r.path && '\r' !in r.path
    && (r.query.Some? ==> forall i | 0 <= i < |r.query.value| :: WellFormedPair(r.query.value[i]))
    && (forall i :: 0 <= i < |r.fields| ==> RfcField(r.fields[i]))
    && RfcFraming(r)
  }

  /** The header lines as the parser sees them: what trails a value belongs to it. */
  function Lines(fields: seq<Field>): seq<Header> {
    seq(|fields|, i requires 0 <= i < |fields| => Header(fields[i].name, fields[i].lead, fields[i].value + fields[i].trail))
  }

  function AsMessage(r: RfcRequest): Message {
    Message(MethodOf(r.name), r.path, r.query, r.version11, Lines(r.fields), r.body)
  }

  function RfcLine(r: RfcRequest): string {
    r.name + " " + TargetText(AsMessage(r)) + " " + VersionText(AsMessage(r))
  }

  function RfcRest(r: RfcRequest): string { HeadersText(Lines(r.fields)) + CRLF + BodyText(r.body) }

  function RfcPrint(r: RfcRequest): string { RfcLine(r) + CRLF + RfcRest(r) }

  function ParsedFields(fields: seq<Field>): map<string, string> { HeaderMap(map[], Lines(fields)) }

  // ---------------------------------------------------------------------------------------------
  // What the parser asks for
  // ---------------------------------------------------------------------------------------------

  predicate IsLast(fields: seq<Field>, i: nat) {
    i < |fields| && forall j :: i < j < |fields| ==> fields[j].name != fields[i].name
  }

  /** Lines of one spelling agree in value, and nothing trails the value of the last of them. */
  predicate FieldsFit(fields: seq<Field>) {
    && (forall i, j :: 0 <= i < j < |fields| && fields[i].name == fields[j].name ==> fields[i].value == fields[j].value)
    && (forall i :: 0 <= i < |fields| && IsLast(fields, i) ==> fields[i].trail == "")
  }

  predicate SpelledExactly(fields: seq<Field>, name: string) {
    exists i :: 0 <= i < |fields| && fields[i].name == name
  }

  /** POST and PUT need a Content-Length in just this spelling and a length that fits an `int`; with another method a
      body is not read. */
  predicate BodyFits(r: RfcRequest) {
    if r.name == "POST" || r.name == "PUT" then
      SpelledExactly(r.fields, "Content-Length") && |BodyText(r.body)| <= 2147483647
    else BodyText(r.body) == ""
  }

  predicate LineFits(r: RfcRequest) {
    r.name in ["GET", "POST", "PUT", "DELETE", "OPTIONS"] && |RfcLine(r)| <= 1024
  }

  ghost predicate Contains(s: string, pat: string) { exists i: nat :: MatchAt(s, pat, i) }

  /** `boundary=` stands first at `i`. */
  ghost predicate ParameterAt(value: string, i: nat) {
    MatchAt(value, "boundary=", i) && forall j: nat :: j < i ==> !MatchAt(value, "boundary=", j)
  }

  /** A boundary as it stands in the field: bare, in quotes, or behind a quote that is not closed. */
  predicate Quoting(text: string, boundary: string) {
    || (text == boundary && (boundary == "" || boundary[0] != '"'))
    || text == "\"" + boundary + "\""
    || (text == "\"" + boundary && (boundary == "" || boundary[|boundary| - 1] != '"'))
  }

  /** What stands behind the first `boundary=` of a multipart Content-Type, up to its end, is the boundary. */
  ghost predicate NamesBoundary(value: string, boundary: string) {
    && Contains(value, "multipart/form-data")
    && exists i: nat :: ParameterAt(value, i) && Quoting(value[i + 9..], boundary)
  }

  /** The Content-Type in just this spelling names the boundary; that of a plain body is not multipart, or names none. */
  ghost predicate BoundaryFits(r: RfcRequest) {
    var value := Lookup(ParsedFields(r.fields), "Content-Type");
    if r.body.Multipart? then NamesBoundary(value, r.body.boundary)
    else !Contains(value, "multipart/form-data") || NamesBoundary(value, "")
  }

  ghost predicate Fits(r: RfcRequest) {
    LineFits(r) && FieldsFit(r.fields) && BodyFits(r) && BoundaryFits(r)
  }

  /** Every field line is found under its name with its value, and nothing else is. */
  ghost predicate FieldsRecovered(fields: seq<Field>, headers: map<string, string>) {
    && (forall i :: 0 <= i < |fields| ==> fields[i].name in headers && headers[fields[i].name] == fields[i].value)
    && (forall name :: name in headers ==> SpelledExactly(fields, name))
  }

  /** The request is given back as it was meant. */
  ghost predicate RfcRecovered(r: RfcRequest, request: Request) {
    && VerbText(request.verb) == r.name && request.path == r.path && request.version == VersionText(AsMessage(r))
    && request.query == (if r.query.Some? then QueryMap(map[], r.query.value) else map[])
    && FieldsRecovered(r.fields, request.headers)
    && request.contentLength == |BodyText(r.body)|
    && match r.body
       case Plain(data) =>
         request.body == data && request.file == "" && request.boundary == "" && request.partHeader == ""
       case Multipart(boundary, partHeader, data) =>
         request.boundary == boundary && request.partHeader == partHeader
         && (if |BodyText(r.body)| <= 1048576 then request.body == data && request.file == ""
             else request.file == data && request.body == "")
  }

  ghost predicate Answered(r: RfcRequest, out: Outcome) {
    out.Done? && out.ok && !out.isErr && RfcRecovered(r, out.ctx.request)
  }

  // ---------------------------------------------------------------------------------------------
  // The map the header lines leave
  // ---------------------------------------------------------------------------------------------

  lemma {:induction false} LastLineWins(headers: map<string, string>, hs: seq<Header>, i: nat)
    requires i < |hs| && forall j :: i < j < |hs| ==> hs[j].name != hs[i].name
    ensures hs[i].name in HeaderMap(headers, hs) && HeaderMap(headers, hs)[hs[i].name] == hs[i].value
    decreases |hs|
  {
    var next := headers[hs[0].name := hs[0].value];
    if i == 0 {
      NotOverwritten(next, hs[1..], hs[0].name);
    } else {
      LastLineWins(next, hs[1..], i - 1);
    }
  }

  lemma {:induction false} NotOverwritten(headers: map<string, string>, hs: seq<Header>, name: string)
    requires name in headers && forall j :: 0 <= j < |hs| ==> hs[j].name != name
    ensures name in HeaderMap(headers, hs) && HeaderMap(headers, hs)[name] == headers[name]
    decreases |hs|
  {
    if hs != [] {
      NotOverwritten(headers[hs[0].name := hs[0].value], hs[1..], name);
    }
  }

  lemma {:induction false} LastOf(fields: seq<Field>, i: nat) returns (j: nat)
    requires i < |fields|
    ensures i <= j && IsLast(fields, j) && fields[j].name == fields[i].name
    decreases |fields| - i
  {
    if IsLast(fields, i) {
      j := i;
    } else {
      var k :| i < k < |fields| && fields[k].name == fields[i].name;
      j := LastOf(fields, k);
    }
  }

  lemma ParsedAtLast(fields: seq<Field>, j: nat)
    requires IsLast(fields, j)
    ensures fields[j].name in ParsedFields(fields)
    ensures ParsedFields(fields)[fields[j].name] == fields[j].value + fields[j].trail
  {
    LastLineWins(map[], Lines(fields), j);
  }

  lemma ParsedNames(fields: seq<Field>, name: string)
    ensures name in ParsedFields(fields) <==> SpelledExactly(fields, name)
  {
    FieldComesFromLine(map[], Lines(fields), name);
    assert forall i :: 0 <= i < |fields| ==> Lines(fields)[i].name == fields[i].name;
  }

  lemma NothingTrails(value: string, trail: string)
    ensures value + trail == value <==> trail == ""
  {
    assert |value + trail| == |value| + |trail|;
    assert value + "" == value;
  }

  lemma FittingFieldsRecovered(fields: seq<Field>)
    requires FieldsFit(fields)
    ensures FieldsRecovered(fields, ParsedFields(fields))
  {
    forall i | 0 <= i < |fields|
      ensures fields[i].name in ParsedFields(fields) && ParsedFields(fields)[fields[i].name] == fields[i].value
    {
      var j := LastOf(fields, i);
      ParsedAtLast(fields, j);
      NothingTrails(fields[j].value, fields[j].trail);
    }
    forall name | name in ParsedFields(fields) ensures SpelledExactly(fields, name) {
      ParsedNames(fields, name);
    }
  }

  lemma RecoveredFieldsFit(fields: seq<Field>)
    requires FieldsRecovered(fields, ParsedFields(fields))
    ensures FieldsFit(fields)
  {
    forall i | 0 <= i < |fields| && IsLast(fields, i) ensures fields[i].trail == "" {
      ParsedAtLast(fields, i);
      NothingTrails(fields[i].value, fields[i].trail);
    }
  }

  // ---------------------------------------------------------------------------------------------
  // The length
  // ---------------------------------------------------------------------------------------------

  lemma {:induction false} NumeralEnds(s: string, t: string, acc: nat)
    requires (forall i :: 0 <= i < |s| ==> Digit(s[i])) && (t == "" || !Digit(t[0]))
    ensures DigitsValue(s + t, acc) == DigitsValue(s, acc)
    decreases |s|
  {
    if s == "" {
      assert s + t == t;
    } else {
      assert (s + t)[1..] == s[1..] + t;
      NumeralEnds(s[1..], t, 10 * acc + (s[0] - '0') as nat);
    }
  }

  /** Reading from the left gives what the numeral denotes. */
  lemma {:induction false} DigitsAreDecimal(s: string, i: nat)
    requires i <= |s| && (forall j :: 0 <= j < |s| ==> Digit(s[j])) && Decimal(s[..i]) >= 0
    ensures Decimal(s) >= 0 && DigitsValue(s[i..], Decimal(s[..i])) == Decimal(s)
    decreases |s| - i
  {
    if i == |s| {
      assert s[..i] == s;
    } else {
      assert s[..i + 1][..i] == s[..i] && s[..i + 1][i] == s[i] && s[i..][1..] == s[i + 1..];
      DigitsAreDecimal(s, i + 1);
    }
  }

  lemma StoiOfNumeral(s: string, t: string)
    requires Numeral(s) && Blanks(t)
    ensures Stoi(s + t) == if Decimal(s) <= INT_MAX then Some(Decimal(s)) else None
  {
    DigitsAreDecimal(s, 0);
    assert s[0..] == s && s[..0] == "";
    NumeralEnds(s, t, 0);
    assert (s + t)[0] == s[0] && Digit(s[0]);
    assert SkipSpaces(s + t) == s + t;
  }

  lemma UnquoteIs(text: string, boundary: string)
    ensures Unquote(text) == boundary <==> Quoting(text, boundary)
  {
    if text != "" && text[0] == '"' {
      assert text == "\"" + text[1..];
      if |text| > 1 && text[|text| - 1] == '"' {
        assert text[1..] == text[1..][..|text| - 2] + "\"";
        assert "\"" + text[1..][..|text| - 2] + "\"" == text;
      }
    }
  }

  lemma FindSome(s: string, pat: string)
    ensures Find(s, pat, 0).Some? <==> Contains(s, pat)
  {
    FindIsFirst(s, pat, 0);
  }

  /** The parser reads the boundary that the field names, and no other. */
  lemma BoundaryRead(value: string, boundary: string)
    ensures BoundaryOf(value) == Some(boundary) <==>
            (if boundary != "" then NamesBoundary(value, boundary)
             else !Contains(value, "multipart/form-data") || NamesBoundary(value, ""))
  {
    FindSome(value, "multipart/form-data");
    FindIsFirst(value, "boundary=", 0);
    var at := Find(value, "boundary=", 0);
    if at.Some? {
      assert ParameterAt(value, at.value);
      UnquoteIs(value[at.value + 9..], boundary);
      assert forall i: nat | ParameterAt(value, i) :: i == at.value;
    }
  }

  lemma LowerOfContentLength()
    ensures Lower("Content-Length") == "content-length"
  {
  }

  /** Reading the length: it works exactly when the spelling and the size fit. */
  lemma LengthRead(r: RfcRequest)
    requires RfcWellFormed(r)
    ensures var n := Stoi(Lookup(ParsedFields(r.fields), "Content-Length"));
      && (n.Some? <==> SpelledExactly(r.fields, "Content-Length") && |BodyText(r.body)| <= 2147483647)
      && (n.Some? ==> n.value == |BodyText(r.body)|)
  {
    ParsedNames(r.fields, "Content-Length");
    if SpelledExactly(r.fields, "Content-Length") {
      var i :| 0 <= i < |r.fields| && r.fields[i].name == "Content-Length";
      LowerOfContentLength();
      var j := LastOf(r.fields, i);
      assert Called(r.fields[j], "content-length") && RfcField(r.fields[j]);
      ParsedAtLast(r.fields, j);
      StoiOfNumeral(r.fields[j].value, r.fields[j].trail);
    } else {
      assert Stoi("") == None;
    }
  }

  // ---------------------------------------------------------------------------------------------
  // The request line
  // ---------------------------------------------------------------------------------------------

  lemma TokenIsClean(s: string)
    requires Token(s)
    ensures ' ' !in s && '\r' !in s && ':' !in s && !Blank(s[|s| - 1])
  {
    assert TokenChar(s[|s| - 1]);
  }

  lemma RfcLineSplits(r: RfcRequest)
    requires RfcWellFormed(r)
    ensures FindChar(RfcLine(r), ' ') == Some(|r.name|) && RfcLine(r)[..|r.name|] == r.name
    ensures '\r' !in RfcLine(r)
  {
    var m := AsMessage(r);
    TokenIsClean(r.name);
    SetTargetText(m, EMPTY_REQUEST);
    VersionParsed(m);
    SpaceSplits(r.name, TargetText(m) + " " + VersionText(m));
    LineJoins(r.name, TargetText(m), VersionText(m));
  }

  lemma KnownMethod(name: string)
    ensures MethodOf(name).Invalid? <==> name !in ["GET", "POST", "PUT", "DELETE", "OPTIONS"]
    ensures !MethodOf(name).Invalid? ==> VerbText(MethodOf(name)) == name
    ensures CarriesBody(MethodOf(name)) <==> name == "POST" || name == "PUT"
  {
  }

  /** A HEAD request, or another with a method the parser does not know, and a line over 1024 bytes never get an answer. */
  lemma UnfitLineSpins(r: RfcRequest)
    requires RfcWellFormed(r) && !LineFits(r)
    ensures Feed(START, RfcPrint(r)) == Spins
  {
    var c := START.(buffer := START.buffer + RfcPrint(r));
    assert c.buffer == RfcPrint(r) && c.buffer[0..] == c.buffer;
    RfcLineSplits(r);
    FindCrlf(c.buffer, 0, RfcLine(r), RfcRest(r), |RfcLine(r)|);
    assert !LineFits(r);
    if |RfcLine(r)| <= MAX_LINE {
      KnownMethod(r.name);
      UnknownMethodRefused(EMPTY_REQUEST, RfcLine(r), |r.name|);
    }
    RefusedLineSpins(c, RfcLine(r));
  }

  lemma RefusedLineSpins(c: Context, line: string)
    requires c.state.ExpectRequestLine? && Valid(c) && c.pos == 0
    requires Find(c.buffer, CRLF, 0) == Some(|line|) && c.buffer[..|line|] == line && c.buffer != ""
    requires |line| <= MAX_LINE ==> !ProcessLine(c.request, line).1
    ensures Loop(c, false, false) == Spins
  {
    assert SameProgress(c, LinePass(c, false, false).ctx);
  }

  predicate SameProgress(c: Context, d: Context) { c.state == d.state && c.buffer == d.buffer && c.pos == d.pos }

  lemma UnknownMethodRefused(request: Request, line: string, space: nat)
    requires FindChar(line, ' ') == Some(space) && MethodOf(line[..space]).Invalid?
    ensures !ProcessLine(request, line).1
  {
  }

  // ---------------------------------------------------------------------------------------------
  // The head
  // ---------------------------------------------------------------------------------------------

  lemma LinesReadable(fields: seq<Field>, i: nat)
    requires i < |fields| && RfcField(fields[i])
    ensures SupportedHeader(Lines(fields)[i])
  {
    TokenIsClean(fields[i].name);
  }

  /** The context behind the blank line. */
  ghost predicate HeadRead(r: RfcRequest, c: Context) {
    && c.pos <= |c.buffer| && c.buffer[c.pos..] == BodyText(r.body)
    && c.state.ExpectHeaders? && c.received == 0
    && c.request == LineRequest(AsMessage(r)).(headers := ParsedFields(r.fields))
  }

  lemma HeadIsRead(r: RfcRequest, c: Context) returns (d: Context)
    requires RfcWellFormed(r) && c.state.ExpectHeaders? && c.received == 0 && c.request == LineRequest(AsMessage(r))
    requires c.pos <= |c.buffer| && c.buffer[c.pos..] == RfcRest(r)
    ensures HeadRead(r, d) && d.buffer == c.buffer && c.pos < d.pos && HeaderLines(c, false, false) == BlankLine(d, false)
  {
    var hs, rest := Lines(r.fields), CRLF + BodyText(r.body);
    forall i | 0 <= i < |hs| ensures SupportedHeader(hs[i]) {
      LinesReadable(r.fields, i);
    }
    Assoc(HeadersText(hs), CRLF, BodyText(r.body));
    HeaderLinesRead(c, hs, rest, false, false);
    var e := AfterHeaders(c, hs);
    BlankFound(e, BodyText(r.body), false);
    d := e.(pos := e.pos + 2);
  }

  function HeadLength(r: RfcRequest): Option<int> {
    if CarriesBody(MethodOf(r.name)) then Stoi(Lookup(ParsedFields(r.fields), "Content-Length")) else Some(0)
  }

  function HeadBoundary(r: RfcRequest): Option<string> { BoundaryOf(Lookup(ParsedFields(r.fields), "Content-Type")) }

  function MeantBoundary(r: RfcRequest): string { if r.body.Multipart? then r.body.boundary else "" }

  lemma BoundaryFitsIff(r: RfcRequest)
    requires r.body.Multipart? ==> r.body.boundary != ""
    ensures BoundaryFits(r) <==> HeadBoundary(r) == Some(MeantBoundary(r))
  {
    BoundaryRead(Lookup(ParsedFields(r.fields), "Content-Type"), MeantBoundary(r));
  }

  predicate LengthSmall(r: RfcRequest) { HeadLength(r).Some? ==> 0 <= HeadLength(r).value <= INT_MAX }

  lemma HeadLengthIs(r: RfcRequest)
    requires RfcWellFormed(r)
    ensures LengthSmall(r)
    ensures HeadLength(r).Some? ==>
              HeadLength(r).value == if CarriesBody(MethodOf(r.name)) then |BodyText(r.body)| else 0
    ensures CarriesBody(MethodOf(r.name)) && HeadLength(r).Some? ==>
              SpelledExactly(r.fields, "Content-Length") && |BodyText(r.body)| <= INT_MAX
  {
    LengthRead(r);
  }

  lemma BlankOutcome(r: RfcRequest, d: Context)
    requires HeadRead(r, d) && LengthSmall(r)
    ensures var p := BlankLine(d, false); var n := HeadLength(r);
            if n.None? then p == Pass(d, false, true)
            else if n.value > 0 then
              p == Pass(d.(request := d.request.(contentLength := n.value), state := ExpectBody), false, false)
            else p == Pass(d.(request := d.request.(contentLength := 0), state := GotAll), true, false)
  {
    assert d.request.GetHeader("Content-Length") == Lookup(ParsedFields(r.fields), "Content-Length");
  }

  /** After the pass over the head: an error for good, or the state, length and boundary it has read. */
  lemma HeadOutcome(r: RfcRequest, d: Context)
    requires HeadRead(r, d) && LengthSmall(r)
    ensures var p := CheckContentType(BlankLine(d, false)); var n := HeadLength(r); var boundary := HeadBoundary(r);
      && p.ctx.pos == d.pos && p.ctx.buffer == d.buffer && p.ctx.received == 0
      && (p.isErr <==> n.None? || boundary.None?)
      && (!p.isErr ==>
            && p.ctx.state == (if n.value > 0 then ExpectBody else GotAll)
            && p.ctx.request == d.request.(contentLength := n.value, boundary := boundary.value))
  {
    BlankOutcome(r, d);
    var b := BlankLine(d, false);
    assert b.ctx.request.GetHeader("Content-Type") == Lookup(ParsedFields(r.fields), "Content-Type");
    if HeadBoundary(r).Some? {
      CheckIs(b, HeadBoundary(r).value);
    } else {
      NoBoundaryIsError(b);
    }
  }

  lemma NoBoundaryIsError(p: Pass)
    requires p.ctx.pos <= |p.ctx.buffer| && p.ctx.request.partHeader == ""
    requires BoundaryOf(p.ctx.request.GetHeader("Content-Type")) == None
    ensures CheckContentType(p) == p.(ok := false, isErr := true)
  {
  }

  // ---------------------------------------------------------------------------------------------
  // What the rest of a call keeps
  // ---------------------------------------------------------------------------------------------

  lemma {:induction false} LinesKeepError(c: Context, ok: bool)
    requires c.pos <= |c.buffer|
    ensures HeaderLines(c, ok, true).isErr
    decreases |c.buffer| - c.pos
  {
    if c.pos < |c.buffer| {
      var (p, goesOn) := HeaderLine(c, ok, true);
      if goesOn {
        LinesKeepError(p.ctx, p.ok);
      }
    }
  }

  lemma {:induction false} PartsKeepError(c: Context, ok: bool)
    requires Valid(c) && c.state.ExpectBody? && c.request.boundary != ""
    ensures MultipartBody(c, ok, true).isErr
    decreases |c.buffer| - c.pos
  {
    if c.pos < |c.buffer| && c.request.partHeader == "" {
      var (p, goesOn) := PartHead(c, ok, true);
      if goesOn {
        PartsKeepError(p.ctx, p.ok);
      }
    }
  }

  lemma PassKeepsError(c: Context, ok: bool)
    requires Valid(c)
    ensures OnePass(c, ok, true).isErr
  {
    match c.state
    case ExpectRequestLine =>
    case ExpectHeaders => LinesKeepError(c, ok);
    case ExpectBody => if c.request.boundary != "" { PartsKeepError(c, ok); }
    case GotAll =>
  }

  /** An error stays: the call never answers without it. */
  lemma {:induction false} ErrorStays(c: Context, ok: bool)
    requires Valid(c)
    ensures var out := Loop(c, ok, true); out.Done? ==> out.isErr
    decreases Rank(c.state), |c.buffer| - c.pos
  {
    if c.pos < |c.buffer| && !c.state.GotAll? {
      PassKeepsError(c, ok);
      var p := OnePass(c, ok, true);
      if Advances(c, p.ctx) {
        ErrorStays(p.ctx, p.ok);
      }
    }
  }

  /** Headers, boundary and length are settled with the head. */
  predicate SameHead(r: Request, s: Request) {
    r.headers == s.headers && r.boundary == s.boundary && r.contentLength == s.contentLength
  }

  lemma {:induction false} PartsKeepHead(c: Context, ok: bool)
    requires Valid(c) && c.state.ExpectBody? && c.request.boundary != ""
    ensures SameHead(MultipartBody(c, ok, false).ctx.request, c.request)
    ensures !MultipartBody(c, ok, false).isErr
    decreases |c.buffer| - c.pos
  {
    if c.pos < |c.buffer| && c.request.partHeader == "" {
      var (p, goesOn) := PartHead(c, ok, false);
      if goesOn {
        PartsKeepHead(p.ctx, p.ok);
      }
    }
  }

  lemma {:induction false} BodyKeepsHead(c: Context, ok: bool)
    requires Valid(c) && (c.state.ExpectBody? || c.state.GotAll?)
    ensures var out := Loop(c, ok, false); out.Done? ==> SameHead(out.ctx.request, c.request)
    decreases Rank(c.state), |c.buffer| - c.pos
  {
    if c.pos < |c.buffer| && c.state.ExpectBody? {
      var p := OnePass(c, ok, false);
      if c.request.boundary != "" {
        PartsKeepHead(c, ok);
      }
      if Advances(c, p.ctx) {
        BodyKeepsHead(p.ctx, p.ok);
      }
    }
  }

  // ---------------------------------------------------------------------------------------------
  // Recovered if and only if it fits
  // ---------------------------------------------------------------------------------------------

  /** The request holds what the head says. */
  ghost predicate ReadsHead(r: RfcRequest, request: Request) {
    && HeadLength(r) == Some(request.contentLength) && HeadBoundary(r) == Some(request.boundary)
    && request.headers == ParsedFields(r.fields)
  }

  ghost predicate ErrorOrHead(r: RfcRequest, p: Pass) {
    p.isErr || (ReadsHead(r, p.ctx.request) && (p.ctx.state.ExpectBody? || p.ctx.state.GotAll?))
  }

  lemma HeadPass(r: RfcRequest, c: Context, d: Context)
    requires LengthSmall(r) && c.state.ExpectHeaders? && Valid(c) && c.pos < d.pos && d.buffer == c.buffer
    requires HeadRead(r, d) && HeaderLines(c, false, false) == BlankLine(d, false)
    ensures var p := CheckContentType(BlankLine(d, false));
            Valid(p.ctx) && ErrorOrHead(r, p) && Loop(c, false, false) == Loop(p.ctx, p.ok, p.isErr)
  {
    HeadOutcome(r, d);
    assert OnePass(c, false, false) == CheckContentType(BlankLine(d, false));
  }

  lemma FirstPasses(r: RfcRequest) returns (p: Pass)
    requires RfcWellFormed(r) && LineFits(r)
    ensures Valid(p.ctx) && ErrorOrHead(r, p) && Feed(START, RfcPrint(r)) == Loop(p.ctx, p.ok, p.isErr)
  {
    var m := AsMessage(r);
    KnownMethod(r.name);
    var c := START.(buffer := START.buffer + RfcPrint(r));
    assert c.buffer == RfcPrint(r) && c.buffer[0..] == c.buffer;
    assert RequestLine(m) == RfcLine(r);
    var c' := LineRun(m, RfcRest(r), c);
    assert m.headers[..0] == [];
    var d := HeadIsRead(r, c');
    HeadLengthIs(r);
    HeadPass(r, c', d);
    p := CheckContentType(BlankLine(d, false));
  }

  lemma AnswerReadsHead(r: RfcRequest, p: Pass, out: Outcome)
    requires Valid(p.ctx) && out == Loop(p.ctx, p.ok, p.isErr) && ErrorOrHead(r, p)
    requires out.Done? && !out.isErr
    ensures ReadsHead(r, out.ctx.request)
  {
    if p.isErr {
      ErrorStays(p.ctx, p.ok);
    } else {
      BodyKeepsHead(p.ctx, p.ok);
    }
  }

  /** What an answer without error has read from the head. */
  lemma AnsweredReads(r: RfcRequest, out: Outcome)
    requires RfcWellFormed(r) && LineFits(r) && out == Feed(START, RfcPrint(r)) && out.Done? && !out.isErr
    ensures ReadsHead(r, out.ctx.request)
  {
    var p := FirstPasses(r);
    AnswerReadsHead(r, p, out);
  }

  lemma RecoveredLength(r: RfcRequest)
    requires RfcWellFormed(r) && LineFits(r) && HeadLength(r) == Some(|BodyText(r.body)|)
    ensures BodyFits(r)
  {
    HeadLengthIs(r);
    KnownMethod(r.name);
  }

  /** What fits, in terms of what the parser reads. */
  predicate FitsAsRead(r: RfcRequest) {
    LineFits(r) && FieldsFit(r.fields) && BodyFits(r) && HeadBoundary(r) == Some(MeantBoundary(r))
  }

  lemma UnfitIsNotAnswered(r: RfcRequest)
    requires RfcWellFormed(r) && LineFits(r) && Answered(r, Feed(START, RfcPrint(r)))
    ensures FitsAsRead(r)
  {
    AnsweredReads(r, Feed(START, RfcPrint(r)));
    RecoveredFieldsFit(r.fields);
    RecoveredLength(r);
  }

  lemma BodyLengthOfMessage(r: RfcRequest)
    ensures BodyText(r.body) == "" ==> r.body == Plain("")
  {
    if r.body.Multipart? {
      assert |BodyText(r.body)| >= |Closing(r.body.boundary)| >= 4;
    }
  }

  lemma OnlyFieldRead(fields: seq<Field>, i: nat, lower: string)
    requires i < |fields| && Called(fields[i], lower) && AtMostOne(fields, lower)
    ensures Lookup(ParsedFields(fields), fields[i].name) == Lines(fields)[i].value
  {
    var j := LastOf(fields, i);
    ParsedAtLast(fields, j);
    assert Called(fields[j], lower);
  }

  lemma ContentTypeUnique(r: RfcRequest, i: nat)
    requires RfcFraming(r) && i < |r.fields| && r.fields[i].name == "Content-Type"
    ensures Lookup(ParsedFields(r.fields), "Content-Type") == Lines(r.fields)[i].value
  {
    assert Lower("Content-Type") == "content-type";
    OnlyFieldRead(r.fields, i, "content-type");
  }

  lemma FittingBodyIsSupported(r: RfcRequest)
    requires RfcWellFormed(r) && FitsAsRead(r)
    ensures SupportedBody(AsMessage(r))
  {
    var m := AsMessage(r);
    KnownMethod(r.name);
    LengthRead(r);
    BodyLengthOfMessage(r);
    forall i | 0 <= i < |m.headers| && m.headers[i].name == "Content-Type"
      ensures BoundaryOf(m.headers[i].value) == Some(if m.body.Multipart? then m.body.boundary else "")
    {
      ContentTypeUnique(r, i);
    }
    if r.body.Multipart? {
      MultipartHasType(r);
    }
  }

  lemma FittingIsSupported(r: RfcRequest)
    requires RfcWellFormed(r) && FitsAsRead(r)
    ensures Supported(AsMessage(r)) && Print(AsMessage(r)) == RfcPrint(r)
  {
    var m := AsMessage(r);
    KnownMethod(r.name);
    forall i | 0 <= i < |m.headers| ensures SupportedHeader(m.headers[i]) {
      LinesReadable(r.fields, i);
    }
    FittingBodyIsSupported(r);
    PrintJoins(RequestLine(m), CRLF, HeadersText(m.headers), BodyText(r.body));
  }

  lemma PrintJoins(line: string, crlf: string, headers: string, body: string)
    ensures line + crlf + headers + crlf + body == line + crlf + (headers + crlf + body)
  {
    Assoc(line + crlf, headers, crlf);
    Assoc(line + crlf, headers + crlf, body);
  }

  lemma UnspelledTypeHasNoBoundary(fields: seq<Field>)
    requires !SpelledExactly(fields, "Content-Type")
    ensures BoundaryOf(Lookup(ParsedFields(fields), "Content-Type")) == Some("")
  {
    ParsedNames(fields, "Content-Type");
    NoContentType();
  }

  lemma MultipartHasType(r: RfcRequest)
    requires RfcWellFormed(r) && FitsAsRead(r) && r.body.Multipart?
    ensures exists i :: 0 <= i < |r.fields| && Lines(r.fields)[i].name == "Content-Type"
  {
    assert SpelledExactly(r.fields, "Content-Type") by {
      if !SpelledExactly(r.fields, "Content-Type") {
        UnspelledTypeHasNoBoundary(r.fields);
      }
    }
    var i :| 0 <= i < |r.fields| && r.fields[i].name == "Content-Type";
    assert Lines(r.fields)[i].name == "Content-Type";
  }

  lemma RecoveredAsMeant(r: RfcRequest, request: Request)
    requires LineFits(r) && FieldsFit(r.fields) && Recovered(AsMessage(r), request)
    ensures RfcRecovered(r, request)
  {
    KnownMethod(r.name);
    FittingFieldsRecovered(r.fields);
  }

  lemma FittingIsAnswered(r: RfcRequest)
    requires RfcWellFormed(r) && FitsAsRead(r)
    ensures Answered(r, Feed(START, RfcPrint(r)))
  {
    var m := AsMessage(r);
    FittingIsSupported(r);
    assert Print(m)[0..|Print(m)|] == RfcPrint(r);
    LegalFeed(m, AtLine, START, AtEnd);
    FinalIsRecovered(m);
    RecoveredAsMeant(r, FinalRequest(m));
  }

  lemma FitsIffAsRead(r: RfcRequest)
    requires RfcWellFormed(r)
    ensures Fits(r) <==> FitsAsRead(r)
  {
    BoundaryFitsIff(r);
  }

  /** A request of RFC 9112 framed by Content-Length and sent in one piece is answered true without error and given
      back as it was meant, exactly when it fits: a known method, a line of at most 1024 bytes, the spellings
      `Content-Length` and `Content-Type`, a length that fits an `int`, no conflicting or trailed field lines, the
      boundary as the last parameter, and a body only with POST and PUT. */
  lemma AnsweredIffFits(r: RfcRequest)
    requires RfcWellFormed(r)
    ensures Answered(r, Feed(START, RfcPrint(r))) <==> Fits(r)
  {
    FitsIffAsRead(r);
    if !LineFits(r) {
      UnfitLineSpins(r);
    } else if FitsAsRead(r) {
      FittingIsAnswered(r);
    } else if Answered(r, Feed(START, RfcPrint(r))) {
      UnfitIsNotAnswered(r);
    }
  }
}
