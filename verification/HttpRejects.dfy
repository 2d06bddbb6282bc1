/** What the parser takes for a request line, a query, a field line and a length, exactly, and what becomes of a line that
    is none. */
module HttpRejects {
  import opened Common
  import opened HttpText
  import opened HttpSpec
  import opened HttpMessage
  import opened HttpRoundTrip
  import opened HttpTheorems
  import opened HttpRfc

  lemma {:induction false} FindCharFirst(s: string, c: char)
    ensures var r := FindChar(s, c);
      if r.Some? then s == s[..r.value] + [c] + s[r.value + 1..] && c !in s[..r.value] else c !in s
  {
    if s != [] && s[0] != c {
      FindCharFirst(s[1..], c);
      var r := FindChar(s[1..], c);
      if r.Some? {
        assert s[..r.value + 1] == [s[0]] + s[1..][..r.value];
      }
    }
  }

  // ---- The request line ----

  /** A known method, a target and a version of HTTP/1, with one space between them. */
  predicate AcceptedAs(line: string, name: string, target: string, version: string) {
    && line == name + " " + target + " " + version && ' ' !in name && ' ' !in target
    && name in ["GET", "POST", "PUT", "DELETE", "OPTIONS"] && version in ["HTTP/1.0", "HTTP/1.1"]
  }

  lemma VersionIs(text: string)
    ensures VersionOf(text) == if text == "HTTP/1.0" || text == "HTTP/1.1" then Some(text) else None
  {
    if |text| == 8 {
      assert text == text[..7] + [text[7]];
      assert "HTTP/1.0" == "HTTP/1." + ['0'] && "HTTP/1.1" == "HTTP/1." + ['1'];
      assert "HTTP/1.0"[..7] == "HTTP/1." && "HTTP/1.1"[..7] == "HTTP/1.";
    }
  }

  lemma MethodIs(name: string)
    ensures MethodOf(name).Invalid? <==> name !in ["GET", "POST", "PUT", "DELETE", "OPTIONS"]
    ensures name in ["GET", "POST", "PUT", "DELETE", "OPTIONS"] ==> VerbText(MethodOf(name)) == name
  {
  }

  lemma AcceptedLineIsRead(request: Request, line: string, name: string, target: string, version: string)
    requires AcceptedAs(line, name, target, version)
    ensures ProcessLine(request, line).1
    ensures var r := ProcessLine(request, line).0; VerbText(r.verb) == name && r.version == version
  {
    MethodIs(name);
    VersionIs(version);
    LineJoins(name, target, version);
    SpaceSplits(name, target + " " + version);
    SpaceSplits(target, version);
    LineProcessed(request, line, name, target, version);
  }

  /** The pieces of an accepted line. */
  lemma LinePieces(request: Request, line: string) returns (name: string, rest: string, target: string, version: string)
    requires ProcessLine(request, line).1
    ensures FindChar(line, ' ') == Some(|name|) && |name| < |line| && name == line[..|name|] && rest == line[|name| + 1..]
    ensures FindChar(rest, ' ') == Some(|target|) && |target| < |rest| && target == rest[..|target|]
        && version == rest[|target| + 1..]
    ensures !MethodOf(name).Invalid? && VersionOf(version).Some?
  {
    var i := FindChar(line, ' ').value;
    name, rest := line[..i], line[i + 1..];
    var j := FindChar(rest, ' ').value;
    target, version := rest[..j], rest[j + 1..];
  }

  lemma ReadLineIsAccepted(request: Request, line: string)
    requires ProcessLine(request, line).1
    ensures exists name, target, version :: AcceptedAs(line, name, target, version)
  {
    var name, rest, target, version := LinePieces(request, line);
    FindCharFirst(line, ' ');
    FindCharFirst(rest, ' ');
    TwoSpaces(line, name, rest, target, version);
    PiecesAccepted(line, name, target, version);
  }

  lemma PiecesAccepted(line: string, name: string, target: string, version: string)
    requires line == name + " " + target + " " + version && ' ' !in name && ' ' !in target
    requires !MethodOf(name).Invalid? && VersionOf(version).Some?
    ensures AcceptedAs(line, name, target, version)
  {
    MethodIs(name);
    VersionIs(version);
  }

  lemma TwoSpaces(line: string, name: string, rest: string, target: string, version: string)
    requires line == name + [' '] + rest && rest == target + [' '] + version
    ensures line == name + " " + target + " " + version
  {
  }

  /** The request line is accepted if and only if it is one of HTTP/1 with a known method, and then method and version are
      the line's. */
  lemma LineAcceptedIff(request: Request, line: string)
    ensures ProcessLine(request, line).1 <==> exists name, target, version :: AcceptedAs(line, name, target, version)
    ensures forall name, target, version :: AcceptedAs(line, name, target, version) ==>
              VerbText(ProcessLine(request, line).0.verb) == name && ProcessLine(request, line).0.version == version
  {
    if ProcessLine(request, line).1 {
      ReadLineIsAccepted(request, line);
    }
    forall name, target, version | AcceptedAs(line, name, target, version)
      ensures ProcessLine(request, line).1
      ensures VerbText(ProcessLine(request, line).0.verb) == name && ProcessLine(request, line).0.version == version
    {
      AcceptedLineIsRead(request, line, name, target, version);
    }
  }

  // ---- Queries and fields ----

  /** An item of a query without `=` is dropped, wherever it stands. */
  lemma BareItemDropped(query: map<string, string>, item: string, rest: string)
    requires '=' !in item && '&' !in item
    ensures AddPairs(query, item) == query && AddPairs(query, item + "&" + rest) == AddPairs(query, rest)
  {
    FindCharNone(item, '=');
    FindCharNone(item, '&');
    FindCharIs(item, '&', rest);
    assert item + "&" + rest == item + ['&'] + rest;
    assert (item + "&" + rest)[..|item|] == item && (item + "&" + rest)[|item| + 1..] == rest;
  }

  lemma {:induction false} TrimRightPad(s: string, pad: string)
    requires (forall i | 0 <= i < |pad| :: Blank(pad[i])) && (s == [] || !Blank(s[|s| - 1]))
    ensures TrimRight(s + pad) == s
    decreases |pad|
  {
    if pad == [] {
      assert s + pad == s;
    } else {
      assert (s + pad)[..|s + pad| - 1] == s + pad[..|pad| - 1];
      TrimRightPad(s, pad[..|pad| - 1]);
    }
  }

  /** Blanks around the colon belong neither to the name nor to the value. */
  lemma FieldLineRead(request: Request, name: string, before: string, behind: string, value: string)
    requires ':' !in name && ':' !in before && (name == "" || !Blank(name[|name| - 1])) && (value == "" || !Blank(value[0]))
    requires (forall i | 0 <= i < |before| :: Blank(before[i])) && (forall i | 0 <= i < |behind| :: Blank(behind[i]))
    ensures var line := name + before + ":" + behind + value;
      && FindChar(line, ':') == Some(|name + before|)
      && AddHeaderLine(request, line, |name + before|) == request.(headers := request.headers[name := value])
  {
    var line, key := name + before + ":" + behind + value, name + before;
    assert line == key + [':'] + (behind + value);
    FindCharIs(key, ':', behind + value);
    assert line[..|key|] == key && line[|key| + 1..] == behind + value;
    TrimRightPad(name, before);
    TrimPad(behind, value);
  }

  // ---- Lengths ----

  lemma {:induction false} SkipSpacesIs(spaces: string, s: string)
    requires (forall i | 0 <= i < |spaces| :: Space(spaces[i])) && (s == "" || !Space(s[0]))
    ensures SkipSpaces(spaces + s) == s
  {
    if spaces == "" {
      assert spaces + s == s;
    } else {
      assert (spaces + s)[1..] == spaces[1..] + s;
      SkipSpacesIs(spaces[1..], s);
    }
  }

  lemma StoiSkips(spaces: string, text: string)
    requires (forall i | 0 <= i < |spaces| :: Space(spaces[i])) && (text == "" || !Space(text[0]))
    ensures Stoi(spaces + text) == Stoi(text)
  {
    SkipSpacesIs(spaces, text);
  }

  function InInt(n: int): Option<int> { if -2147483648 <= n <= 2147483647 then Some(n) else None }

  /** The text begins with a number, `n`, or with no digit at all. */
  predicate Begins(text: string, isNumber: bool, n: int) {
    (isNumber <==> text != "" && Digit(text[0])) && DigitsValue(text, 0) == n
  }

  lemma StoiSigned(text: string, number: string, isNumber: bool, n: int)
    requires text != "" && (text[0] == '+' || text[0] == '-') && text[1..] == number && Begins(number, isNumber, n)
    ensures Stoi(text) == if isNumber then InInt(if text[0] == '-' then -n else n) else None
  {
    assert SkipSpaces(text) == text;
  }

  lemma StoiPlain(number: string, isNumber: bool, n: int)
    requires number == "" || (!Space(number[0]) && number[0] != '+' && number[0] != '-')
    requires Begins(number, isNumber, n)
    ensures Stoi(number) == if isNumber then InInt(n) else None
  {
    assert SkipSpaces(number) == number;
  }

  /** A numeral, up to the first character that is no digit, begins with the number it denotes. */
  lemma NumberBegins(digits: string, tail: string)
    requires (forall i | 0 <= i < |digits| :: Digit(digits[i])) && (tail == "" || !Digit(tail[0]))
    ensures Begins(digits + tail, digits != "", Decimal(digits))
  {
    NumeralEnds(digits, tail, 0);
    DigitsAreDecimal(digits, 0);
    assert digits[0..] == digits && digits[..0] == "";
    if digits == "" { assert digits + tail == tail; }
  }

  /** A length is read behind white space; without a digit there, or when it does not fit an `int`, it is an error. */
  lemma LengthReadAs(spaces: string, number: string, isNumber: bool, n: int)
    requires (forall i | 0 <= i < |spaces| :: Space(spaces[i])) && Begins(number, isNumber, n)
    requires number == "" || (!Space(number[0]) && number[0] != '+' && number[0] != '-')
    ensures Stoi(spaces + number) == if isNumber then InInt(n) else None
  {
    StoiSkips(spaces, number);
    StoiPlain(number, isNumber, n);
  }

  /** The same behind a sign. */
  lemma SignedLengthReadAs(spaces: string, sign: char, number: string, isNumber: bool, n: int)
    requires (forall i | 0 <= i < |spaces| :: Space(spaces[i])) && (sign == '+' || sign == '-')
    requires Begins(number, isNumber, n)
    ensures Stoi(spaces + ([sign] + number)) == if isNumber then InInt(if sign == '-' then -n else n) else None
  {
    StoiSkips(spaces, [sign] + number);
    StoiSigned([sign] + number, number, isNumber, n);
  }

  /** A negative length that fits an `int` becomes a huge unsigned 64-bit length, and a body is awaited. */
  lemma NegativeLength(c: Context, digits: string, isErr: bool)
    requires CarriesBody(c.request.verb) && Numeral(digits) && 0 < Decimal(digits) <= 2147483648
    requires Lookup(c.request.headers, "Content-Length") == ['-'] + digits
    ensures var p := BlankLine(c, isErr);
      && p.ctx.request.contentLength == 0x1_0000_0000_0000_0000 - Decimal(digits) && p.ctx.state == ExpectBody && !p.ok
  {
    NegativeNumber(digits);
    LengthTaken(c, -Decimal(digits), isErr);
  }

  lemma NegativeNumber(digits: string)
    requires Numeral(digits) && 0 < Decimal(digits) <= 2147483648
    ensures Stoi(['-'] + digits) == Some(-Decimal(digits))
  {
    NumberBegins(digits, "");
    assert digits + "" == digits;
    Minus(['-'] + digits, digits, Decimal(digits));
  }

  lemma Minus(text: string, number: string, n: int)
    requires text != "" && text[0] == '-' && text[1..] == number && Begins(number, true, n) && 0 < n <= 2147483648
    ensures Stoi(text) == Some(-n)
  {
    StoiSigned(text, number, true, n);
  }

  lemma LengthTaken(c: Context, n: int, isErr: bool)
    requires CarriesBody(c.request.verb) && -2147483648 <= n < 0
    requires Stoi(Lookup(c.request.headers, "Content-Length")) == Some(n)
    ensures var p := BlankLine(c, isErr);
      p.ctx.request.contentLength == 0x1_0000_0000_0000_0000 + n && p.ctx.state == ExpectBody && !p.ok
  {
    assert c.request.GetHeader("Content-Length") == Lookup(c.request.headers, "Content-Length");
  }

  // ---- A line without a colon ----

  lemma {:induction false} HeadersFlags(c: Context, ok: bool)
    requires c.pos <= |c.buffer|
    ensures HeaderLines(c, ok, true) == HeaderLines(c, ok, false).(isErr := true)
    decreases |c.buffer| - c.pos
  {
    if c.pos < |c.buffer| {
      var (p, goesOn) := HeaderLine(c, ok, false);
      if goesOn && !p.isErr {
        HeadersFlags(p.ctx, p.ok);
      } else if goesOn {
        LinesKeepError(p.ctx, p.ok);
      }
    }
  }

  lemma {:induction false} PartsFlags(c: Context, ok: bool)
    requires Valid(c) && c.state.ExpectBody? && c.request.boundary != ""
    ensures MultipartBody(c, ok, true) == MultipartBody(c, ok, false).(isErr := true)
    decreases |c.buffer| - c.pos
  {
    if c.pos < |c.buffer| && c.request.partHeader == "" {
      var (p, goesOn) := PartHead(c, ok, false);
      if goesOn {
        PartsFlags(p.ctx, p.ok);
      }
    }
  }

  /** An error noted before changes nothing else about a pass. */
  lemma PassFlags(c: Context, ok: bool)
    requires Valid(c)
    ensures OnePass(c, ok, true) == OnePass(c, ok, false).(isErr := true)
  {
    match c.state
    case ExpectRequestLine =>
    case ExpectHeaders => HeadersFlags(c, ok);
    case ExpectBody => if c.request.boundary != "" { PartsFlags(c, ok); }
    case GotAll =>
  }

  /** A call that would answer true does so with the error noted before, too. */
  lemma {:induction false} LoopFlags(c: Context, ok: bool)
    requires Valid(c)
    requires var out := Loop(c, ok, false); out.Done? && out.ok
    ensures Loop(c, ok, true) == Loop(c, ok, false).(isErr := true)
    decreases Rank(c.state), |c.buffer| - c.pos
  {
    if c.pos < |c.buffer| && !c.state.GotAll? {
      PassFlags(c, ok);
      var p := OnePass(c, ok, false);
      if p.isErr {
        ErrorStays(p.ctx, p.ok);
      } else {
        LoopFlags(p.ctx, p.ok);
      }
    }
  }

  predicate BadLine(s: string) { s != "" && ':' !in s && '\r' !in s }

  lemma BadLineStep(c: Context, bad: string, end: nat, ok: bool, isErr: bool)
    requires c.pos < end && end + 2 <= |c.buffer| && Find(c.buffer, CRLF, c.pos) == Some(end)
    requires c.buffer[c.pos..end] == bad && FindChar(bad, ':') == None
    ensures HeaderLine(c, ok, isErr) == (Pass(c.(pos := end + 2), false, true), true)
  {
  }

  lemma HeadersGoOn(c: Context, ok: bool, isErr: bool, p: Pass)
    requires c.pos < |c.buffer| && HeaderLine(c, ok, isErr) == (p, true)
    ensures HeaderLines(c, ok, isErr) == HeaderLines(p.ctx, p.ok, p.isErr)
  {
  }

  lemma BadLineRead(c: Context, bad: string, rest: string, ok: bool, isErr: bool)
    requires c.pos <= |c.buffer| && c.buffer[c.pos..] == bad + CRLF + rest && BadLine(bad)
    ensures var d := c.(pos := c.pos + |bad| + 2);
      d.pos <= |c.buffer| && c.buffer[d.pos..] == rest && HeaderLines(c, ok, isErr) == HeaderLines(d, false, true)
  {
    FindCrlf(c.buffer, c.pos, bad, rest, c.pos + |bad|);
    FindCharNone(bad, ':');
    BadLineStep(c, bad, c.pos + |bad|, ok, isErr);
    HeadersGoOn(c, ok, isErr, Pass(c.(pos := c.pos + |bad| + 2), false, true));
  }

  /** The head with a bad line among its field lines, and what follows it. */
  function BadHead(m: Message, i: nat, bad: string, rest: string): string
    requires i <= |m.headers|
  {
    HeadersText(m.headers[..i]) + (bad + CRLF + (HeadersText(m.headers[i..]) + rest))
  }

  /** The field lines are read as if the bad line were not there, but for the error. */
  lemma AroundBadLine(c: Context, before: seq<Header>, bad: string, behind: seq<Header>, rest: string) returns (d: Context)
    requires (forall i | 0 <= i < |before| :: SupportedHeader(before[i])) && BadLine(bad)
    requires forall i | 0 <= i < |behind| :: SupportedHeader(behind[i])
    requires c.pos <= |c.buffer| && c.buffer[c.pos..] == HeadersText(before) + (bad + CRLF + (HeadersText(behind) + rest))
    ensures c.pos < d.pos <= |d.buffer| && d.buffer[d.pos..] == rest
    ensures HeaderLines(c, false, false) == HeaderLines(d, false, true)
    ensures d == c.(pos := d.pos,
                    request := c.request.(headers := HeaderMap(HeaderMap(c.request.headers, before), behind)))
  {
    var c1 := AfterHeaders(c, before);
    HeaderLinesRead(c, before, bad + CRLF + (HeadersText(behind) + rest), false, false);
    BadLineRead(c1, bad, HeadersText(behind) + rest, false, false);
    d := BehindBadLine(c1, bad, behind, rest);
  }

  lemma BehindBadLine(c: Context, bad: string, behind: seq<Header>, rest: string) returns (d: Context)
    requires forall i | 0 <= i < |behind| :: SupportedHeader(behind[i])
    requires c.pos + |bad| + 2 <= |c.buffer| && c.buffer[c.pos + |bad| + 2..] == HeadersText(behind) + rest
    ensures c.pos < d.pos <= |d.buffer| && d.buffer[d.pos..] == rest
    ensures HeaderLines(c.(pos := c.pos + |bad| + 2), false, true) == HeaderLines(d, false, true)
    ensures d == c.(pos := d.pos, request := c.request.(headers := HeaderMap(c.request.headers, behind)))
  {
    var c2 := c.(pos := c.pos + |bad| + 2);
    HeaderLinesRead(c2, behind, rest, false, true);
    d := AfterHeaders(c2, behind);
  }

  lemma TwoParts(hs: seq<Header>, i: nat)
    requires i <= |hs|
    ensures HeaderMap(HeaderMap(map[], hs[..i]), hs[i..]) == HeaderMap(map[], hs)
  {
    HeaderMapAppend(map[], hs[..i], hs[i..]);
    assert hs[..i] + hs[i..] == hs;
  }

  lemma BadHeadRead(m: Message, i: nat, bad: string, rest: string, c: Context) returns (d: Context)
    requires Supported(m) && i <= |m.headers| && BadLine(bad)
    requires c.state.ExpectHeaders? && c.pos <= |c.buffer| && c.buffer[c.pos..] == BadHead(m, i, bad, rest)
    requires c.request == LineRequest(m)
    ensures c.pos < d.pos <= |d.buffer| && d.buffer[d.pos..] == rest
    ensures HeaderLines(c, false, false) == HeaderLines(d, false, true)
    ensures d == c.(pos := d.pos, request := LineRequest(m).(headers := HeaderMap(map[], m.headers)))
  {
    d := AroundBadLine(c, m.headers[..i], bad, m.headers[i..], rest);
    TwoParts(m.headers, i);
  }

  /** A field line without a colon does not keep a request from being answered: with the whole request in one chunk the call
      answers true, with the error noted, and the request is the one without that line. */
  lemma BadLineIgnored(m: Message, i: nat, bad: string, extra: string)
    requires Supported(m) && i <= |m.headers| && BadLine(bad)
    ensures var out := Feed(START, RequestLine(m) + CRLF + BadHead(m, i, bad, CRLF + (BodyText(m.body) + extra)));
      out.Done? && out.ok && out.isErr && Recovered(m, out.ctx.request)
  {
    var rest := CRLF + (BodyText(m.body) + extra);
    var text := RequestLine(m) + CRLF + BadHead(m, i, bad, rest);
    var c0 := START.(buffer := START.buffer + text);
    assert c0.buffer == text && c0.buffer[0..] == c0.buffer;
    var c := LineRun(m, BadHead(m, i, bad, rest), c0);
    assert m.headers[..0] == [];
    var d := BadHeadRead(m, i, bad, rest, c);
    HeadersFlags(d, false);
    BadHeadDone(m, extra, c, d);
  }

  lemma BadHeadDone(m: Message, extra: string, c: Context, d: Context)
    requires Supported(m) && Valid(c) && c.state.ExpectHeaders? && c.received == 0
    requires d == c.(pos := d.pos, request := LineRequest(m).(headers := HeaderMap(map[], m.headers)))
    requires c.pos < d.pos <= |d.buffer| && d.buffer[d.pos..] == CRLF + (BodyText(m.body) + extra)
    requires HeaderLines(c, false, false) == HeaderLines(d, false, false).(isErr := true)
    ensures var out := Loop(c, false, false); out.Done? && out.ok && out.isErr && Recovered(m, out.ctx.request)
  {
    assert m.headers[..|m.headers|] == m.headers;
    HeadChecked(m, d, BodyText(m.body) + extra, false);
    var p := CheckContentType(HeaderLines(d, false, false));
    HeadAdvance(m, AtEnd, extra, p);
    ErrorPassedOn(c, p);
    LoopFlags(p.ctx, p.ok);
    FinalIsRecovered(m);
  }

  lemma ErrorPassedOn(c: Context, p: Pass)
    requires Valid(c) && c.state.ExpectHeaders? && Valid(p.ctx) && Rank(p.ctx.state) <= Rank(c.state)
    requires p.ctx.buffer == c.buffer && c.pos < p.ctx.pos && !p.isErr
    requires p == CheckContentType(HeaderLines(c, false, false).(isErr := false))
    requires HeaderLines(c, false, false).isErr
    ensures Loop(c, false, false) == Loop(p.ctx, p.ok, true)
  {
    assert OnePass(c, false, false) == p.(isErr := true);
    PassGoesOn(c, false, p.(isErr := true));
  }

  /** When the chunk ends in the head behind such a line, the call answers with an error and starts afresh. */
  lemma BadLineRefused(m: Message, i: nat, j: nat, bad: string)
    requires Supported(m) && i <= j <= |m.headers| && BadLine(bad)
    ensures Feed(START, RequestLine(m) + CRLF + (HeadersText(m.headers[..i]) + (bad + CRLF + HeadersText(m.headers[i..j]))))
         == Done(START, false, true)
  {
    var rest := HeadersText(m.headers[..i]) + (bad + CRLF + HeadersText(m.headers[i..j]));
    var c0 := START.(buffer := START.buffer + (RequestLine(m) + CRLF + rest));
    assert c0.buffer == RequestLine(m) + CRLF + rest && c0.buffer[0..] == c0.buffer;
    var c := LineRun(m, rest, c0);
    assert m.headers[..0] == [];
    assert HeadersText(m.headers[i..j]) + "" == HeadersText(m.headers[i..j]);
    var d := AroundBadLine(c, m.headers[..i], bad, m.headers[i..j], "");
    RefusedAtEnd(c, d);
  }

  lemma RefusedAtEnd(c: Context, d: Context)
    requires Valid(c) && c.state.ExpectHeaders? && c.pos < |c.buffer|
    requires d.state == c.state && d.buffer == c.buffer && d.pos == |d.buffer| && d.request.partHeader == ""
    requires HeaderLines(c, false, false) == HeaderLines(d, false, true)
    ensures Loop(c, false, false) == Done(START, false, true)
  {
    var p := CheckContentType(Pass(d, false, true));
    assert OnePass(c, false, false) == p;
    assert p.ctx.pos == |p.ctx.buffer| && !p.ok && p.isErr;
  }

  // ---- An upload without a part ----

  /** A body that begins with the closing delimiter completes the upload at once, with nothing collected and nothing behind
      the delimiter looked at. */
  lemma UploadWithoutPart(c: Context, rest: string)
    requires Valid(c) && c.state.ExpectBody? && c.request.boundary != "" && c.request.partHeader == ""
    requires c.buffer[c.pos..] == "--" + c.request.boundary + "--" + rest
    ensures Loop(c, false, false) == Done(c.(state := GotAll), true, false)
  {
    var delim := Delim(c.request.boundary);
    Assoc(delim, "--", rest);
    DelimAtStart(c.buffer, c.pos, delim, "--" + rest);
    Drop(c.buffer, c.pos, delim, "--" + rest, c.pos + |delim|);
    Drop(c.buffer, c.pos + |delim|, "--", rest, c.pos + |delim| + 2);
    ClosedUpload(c, c.pos + |delim|);
  }

  lemma ClosedUpload(c: Context, after: nat)
    requires Valid(c) && c.state.ExpectBody? && c.request.boundary != "" && c.request.partHeader == ""
    requires c.pos < |c.buffer| && Find(c.buffer, Delim(c.request.boundary), c.pos) == Some(c.pos)
    requires after == c.pos + |Delim(c.request.boundary)| && MatchAt(c.buffer, "--", after)
    ensures Loop(c, false, false) == Done(c.(state := GotAll), true, false)
  {
    assert PartHead(c, false, false) == (Pass(c.(state := GotAll), true, false), false);
    LastPass(c, false, Pass(c.(state := GotAll), true, false));
  }

  /** What stands before the first delimiter of an upload is skipped, but not counted as received. */
  lemma PreambleNotCounted(c: Context, at: nat, header: string, rest: string)
    requires c.pos <= at <= |c.buffer| && Find(c.buffer, Delim(c.request.boundary), c.pos) == Some(at)
    requires c.buffer[at..] == PartText(Delim(c.request.boundary), header, rest) && EndsAtBlankLine(header)
    ensures PartHead(c, false, false) ==
      (Pass(c.(buffer := rest, pos := 0, received := c.received + (|Delim(c.request.boundary)| + 4 + |header| + 4),
               request := c.request.(partHeader := header)), false, false), true)
  {
    FoundHere(c.buffer, at, Delim(c.request.boundary), header, rest);
    HeadReadAt(c.(pos := at), c, header, rest);
    SameDelimiter(c, c.(pos := at), at);
  }

  lemma HeadReadAt(d: Context, c: Context, header: string, rest: string)
    requires d == c.(pos := d.pos) && d.pos <= |d.buffer|
    requires d.buffer[d.pos..] == PartText(Delim(d.request.boundary), header, rest) && EndsAtBlankLine(header)
    ensures PartHead(d, false, false) ==
      (Pass(c.(buffer := rest, pos := 0, received := c.received + (|Delim(c.request.boundary)| + 4 + |header| + 4),
               request := c.request.(partHeader := header)), false, false), true)
  {
    PartHeadRead(d, header, rest, false);
  }

  lemma FoundHere(buffer: string, at: nat, delim: string, header: string, rest: string)
    requires at <= |buffer| && buffer[at..] == PartText(delim, header, rest)
    ensures Find(buffer, delim, at) == Some(at)
  {
    var behind := PartTextBegins(delim, header, rest);
    DelimAtStart(buffer, at, delim, behind);
  }

  lemma PartTextBegins(delim: string, header: string, rest: string) returns (behind: string)
    ensures PartText(delim, header, rest) == delim + behind
  {
    behind := CRLF + (header + ("\r\n\r\n" + rest));
  }

  lemma SameHeadFrom(c: Context, d: Context, start: nat, delimLength: nat)
    requires d == c.(pos := d.pos) && c.pos <= start <= |c.buffer| && d.pos <= start
    requires PartHeadFrom(d, start, delimLength, false, false).1
    ensures PartHeadFrom(c, start, delimLength, false, false) == PartHeadFrom(d, start, delimLength, false, false)
  {
  }

  lemma SameDelimiter(c: Context, d: Context, at: nat)
    requires d == c.(pos := d.pos) && c.pos <= d.pos <= |c.buffer|
    requires Find(c.buffer, Delim(c.request.boundary), c.pos) == Find(c.buffer, Delim(c.request.boundary), d.pos) == Some(at)
    requires PartHead(d, false, false).1
    ensures PartHead(c, false, false) == PartHead(d, false, false)
  {
    var n := |Delim(c.request.boundary)|;
    SameHeadFrom(c, d, PartStart(c.buffer, at + n), n);
  }
}
