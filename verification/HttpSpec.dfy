/** What `HttpContext::parseRequest` does to the parser state, as functions on values. */
module HttpSpec {
  import opened Common
  import opened HttpText

  datatype Method = Invalid | Get | Post | Head | Put | Delete | Options

  datatype ParseState = ExpectRequestLine | ExpectHeaders | ExpectBody | GotAll

  datatype Request = Request(
    verb: Method,
    version: string,
    path: string,
    query: map<string, string>,
    headers: map<string, string>,
    body: string,
    contentLength: nat,
    boundary: string,
    partHeader: string,
    file: string)  // what writeToFile received
  {
    function GetHeader(field: string): string { if field in headers then headers[field] else "" }

    predicate Large() { contentLength > LARGE_FILE_THRESHOLD }

    /** Part data goes to the file of a large upload and to the body otherwise. */
    function Collect(data: string): Request {
      if Large() then this.(file := file + data) else this.(body := body + data)
    }
  }

  datatype Context = Context(state: ParseState, request: Request, buffer: string, pos: nat, received: nat)

  /** `Spins`: the loop goes round for ever without consuming a byte. */
  datatype Outcome = Done(ctx: Context, ok: bool, isErr: bool) | Spins

  const LARGE_FILE_THRESHOLD: nat := 0x10_0000
  const MAX_LINE: nat := 1024
  const TWO64: nat := 0x1_0000_0000_0000_0000

  const EMPTY_REQUEST: Request := Request(Invalid, "Unknown", "", map[], map[], "", 0, "", "", "")
  const START: Context := Context(ExpectRequestLine, EMPTY_REQUEST, "", 0, 0)

  /** Unsigned 64-bit subtraction. */
  function Sub64(a: int, b: int): nat { (a - b) % TWO64 }

  function Min(a: nat, b: nat): nat { if a <= b then a else b }

  /** The parse position lies in the buffer, and at its start once a part header has been read. */
  predicate Valid(c: Context) {
    && c.pos <= |c.buffer|
    && (c.state.ExpectRequestLine? || c.state.ExpectHeaders? ==> c.request.partHeader == "")
    && (c.state.ExpectBody? && c.request.partHeader != "" ==> c.pos == 0 && c.request.boundary != "")
  }

  // ---------------------------------------------------------------------------------------------
  // The request line
  // ---------------------------------------------------------------------------------------------

  function MethodOf(text: string): Method {
    if text == "GET" then Get
    else if text == "POST" then Post
    else if text == "PUT" then Put
    else if text == "DELETE" then Delete
    else if text == "OPTIONS" then Options
    else Invalid
  }

  function AddPair(query: map<string, string>, pair: string): map<string, string> {
    match FindChar(pair, '=')
    case None => query
    case Some(i) => query[pair[..i] := pair[i + 1..]]
  }

  /** `setQueryParameters`: pairs separated by `&`; a pair without `=` is dropped, a later key replaces an earlier one. */
  function AddPairs(query: map<string, string>, text: string): map<string, string>
    decreases |text|
  {
    match FindChar(text, '&')
    case None => AddPair(query, text)
    case Some(i) => AddPairs(AddPair(query, text[..i]), text[i + 1..])
  }

  function SetTarget(request: Request, target: string): Request {
    match FindChar(target, '?')
    case None => request.(path := target)
    case Some(q) => request.(path := target[..q], query := AddPairs(request.query, target[q + 1..]))
  }

  function VersionOf(text: string): Option<string> {
    if |text| != 8 || text[..7] != "HTTP/1." then None
    else if text[7] == '1' then Some("HTTP/1.1")
    else if text[7] == '0' then Some("HTTP/1.0")
    else None
  }

  /** `processRequestLine` on the bytes before the CRLF. */
  function ProcessLine(request: Request, line: string): (r: (Request, bool))
    ensures r.0.partHeader == request.partHeader
  {
    match FindChar(line, ' ')
    case None => (request, false)
    case Some(s1) =>
      var r1 := request.(verb := MethodOf(line[..s1]));
      if r1.verb.Invalid? then (r1, false)
      else
        var rest := line[s1 + 1..];
        match FindChar(rest, ' ')
        case None => (r1, false)
        case Some(s2) =>
          var r2 := SetTarget(r1, rest[..s2]);
          match VersionOf(rest[s2 + 1..])
          case None => (r2, false)
          case Some(version) => (r2.(version := version), true)
  }

  /** One pass of the loop: the context after it, and the `ok` and `isErr` flags. */
  datatype Pass = Pass(ctx: Context, ok: bool, isErr: bool)

  function LinePass(c: Context, ok: bool, isErr: bool): (r: Pass)
    requires Valid(c) && c.state.ExpectRequestLine?
    ensures Valid(r.ctx)
  {
    match Find(c.buffer, CRLF, c.pos)
    case Some(crlf) =>
      if crlf - c.pos > MAX_LINE then Pass(c, false, true)
      else
        var (request, good) := ProcessLine(c.request, c.buffer[c.pos..crlf]);
        if good then Pass(c.(request := request, pos := crlf + 2, state := ExpectHeaders), false, isErr)
        else Pass(c.(request := request), false, isErr)
    case None => if |c.buffer| - c.pos > MAX_LINE then Pass(c, false, true) else Pass(c, ok, isErr)
  }

  // ---------------------------------------------------------------------------------------------
  // Header lines
  // ---------------------------------------------------------------------------------------------

  function AddHeaderLine(request: Request, line: string, colon: nat): Request
    requires colon < |line|
  {
    request.(headers := request.headers[TrimRight(line[..colon]) := TrimLeft(line[colon + 1..])])
  }

  /** The blank line that ends the head. */
  function BlankLine(c: Context, isErr: bool): Pass {
    if c.request.verb.Post? || c.request.verb.Put? then
      var text := c.request.GetHeader("Content-Length");
      match Stoi(text)
      case None => Pass(c, false, true)
      case Some(n) =>
        var c' := c.(request := c.request.(contentLength := n % TWO64));
        if c'.request.contentLength > 0 then Pass(c'.(state := ExpectBody), false, isErr)
        else Pass(c'.(state := GotAll), true, isErr)
    else Pass(c.(state := GotAll), true, isErr)
  }

  /** One header line, or the blank line; the flag says whether the header loop goes on. */
  function HeaderLine(c: Context, ok: bool, isErr: bool): (r: (Pass, bool))
    requires c.pos <= |c.buffer|
    ensures r.0.ctx.buffer == c.buffer && r.0.ctx.request.partHeader == c.request.partHeader
    ensures c.pos <= r.0.ctx.pos <= |c.buffer|
    ensures r.1 ==> c.pos < r.0.ctx.pos && r.0.ctx.state == c.state
    ensures !r.1 ==> r.0.ctx.state == c.state || (c.pos < r.0.ctx.pos && !r.0.ctx.state.ExpectRequestLine?)
  {
    match Find(c.buffer, CRLF, c.pos)
    case None => (Pass(c, ok, isErr), false)
    case Some(crlf) =>
      if crlf == c.pos then (BlankLine(c.(pos := c.pos + 2), isErr), false)
      else
        var line := c.buffer[c.pos..crlf];
        match FindChar(line, ':')
        case Some(colon) => (Pass(c.(pos := crlf + 2, request := AddHeaderLine(c.request, line, colon)), ok, isErr), true)
        case None => (Pass(c.(pos := crlf + 2), false, true), true)
  }

  function HeaderLines(c: Context, ok: bool, isErr: bool): (r: Pass)
    requires c.pos <= |c.buffer|
    ensures r.ctx.pos <= |r.ctx.buffer| && r.ctx.buffer == c.buffer && c.pos <= r.ctx.pos
    ensures r.ctx.state == c.state || (c.pos < r.ctx.pos && !r.ctx.state.ExpectRequestLine?)
    ensures r.ctx.request.partHeader == c.request.partHeader
    decreases |c.buffer| - c.pos
  {
    if c.pos >= |c.buffer| then Pass(c, ok, isErr)
    else
      var (p, goesOn) := HeaderLine(c, ok, isErr);
      if goesOn then HeaderLines(p.ctx, p.ok, p.isErr) else p
  }

  function Unquote(s: string): string {
    if s != [] && s[0] == '"' then
      var t := s[1..];
      if t != [] && t[|t| - 1] == '"' then t[..|t| - 1] else t
    else s
  }

  /** Boundary handling after the header lines seen so far. */
  function CheckContentType(p: Pass): (r: Pass)
    requires p.ctx.pos <= |p.ctx.buffer| && p.ctx.request.partHeader == ""
    ensures Valid(r.ctx)
  {
    var contentType := p.ctx.request.GetHeader("Content-Type");
    if Find(contentType, "multipart/form-data", 0).None? then p
    else
      match Find(contentType, "boundary=", 0)
      case Some(i) =>
        p.(ctx := p.ctx.(request := p.ctx.request.(boundary := Unquote(contentType[i + 9..]))))
      case None => p.(ok := false, isErr := true)
  }

  // ---------------------------------------------------------------------------------------------
  // The body
  // ---------------------------------------------------------------------------------------------

  function PlainBody(c: Context, isErr: bool): (r: Pass)
    requires Valid(c) && c.state.ExpectBody? && c.request.boundary == ""
    ensures Valid(r.ctx)
  {
    var n := Min(|c.buffer| - c.pos, Sub64(c.request.contentLength, c.received));
    var c' := c.(request := c.request.(body := c.request.body + c.buffer[c.pos..c.pos + n]),
                 pos := c.pos + n, received := c.received + n);
    if c'.received >= c'.request.contentLength then Pass(c'.(state := GotAll), true, isErr)
    else Pass(c', false, isErr)
  }

  function Delim(boundary: string): string { "--" + boundary }

  function Closing(boundary: string): string { "--" + boundary + "--" }

  /** The part header: everything up to its blank line is dropped from the buffer. The flag says whether the inner
      loop goes on. */
  function PartHead(c: Context, ok: bool, isErr: bool): (r: (Pass, bool))
    requires c.pos <= |c.buffer|
    ensures r.0.ctx.pos <= |r.0.ctx.buffer|
    ensures r.1 ==> |r.0.ctx.buffer| < |c.buffer| - c.pos && r.0.ctx.pos == 0 && r.0.ctx.state == c.state
    ensures !r.1 ==> r.0.ctx == c || (r.0.ctx.state.GotAll? && r.0.ctx.pos == c.pos && r.0.ctx.buffer == c.buffer)
  {
    var delim := Delim(c.request.boundary);
    match Find(c.buffer, delim, c.pos)
    case None => (Pass(c, false, isErr), false)
    case Some(at) =>
      var after := at + |delim|;
      if MatchAt(c.buffer, "--", after) then (Pass(c.(state := GotAll), true, isErr), false)
      else
        PartHeadFrom(c, PartStart(c.buffer, after), |delim|, ok, isErr)
  }

  function PartStart(buffer: string, after: nat): (start: nat)
    requires after <= |buffer|
    ensures after <= start <= |buffer|
  {
    if MatchAt(buffer, CRLF, after) then after + 2 else after
  }

  function PartHeadFrom(c: Context, start: nat, delimLength: nat, ok: bool, isErr: bool): (r: (Pass, bool))
    requires c.pos <= start <= |c.buffer|
    ensures r.0.ctx.pos <= |r.0.ctx.buffer|
    ensures r.1 ==> |r.0.ctx.buffer| < |c.buffer| - c.pos && r.0.ctx.pos == 0 && r.0.ctx.state == c.state
    ensures !r.1 ==> r.0.ctx == c
  {
    match Find(c.buffer, "\r\n\r\n", start)
    case None => (Pass(c, false, isErr), false)
    case Some(end) =>
      var header := c.buffer[start..end];
      (Pass(c.(buffer := c.buffer[end + 4..], pos := 0, received := c.received + (delimLength + 4 + |header| + 4),
               request := c.request.(partHeader := header)), ok, isErr), true)
  }

  /** Part data, up to the closing delimiter that the content length points at. The parse position is 0 here. */
  function PartData(c: Context, isErr: bool): (r: Pass)
    requires c.pos == 0
    ensures r.ctx.pos == 0 && |r.ctx.buffer| <= |c.buffer|
    ensures r.ctx.state == c.state || r.ctx.state.GotAll?
  {
    var closing := Closing(c.request.boundary);
    var found := Find(c.buffer, closing, 0);
    if found.None? || c.received + found.value + |closing| < c.request.contentLength then
      var end := Min(Sub64(Sub64(c.request.contentLength, |closing|), c.received), |c.buffer|);
      Pass(c.(request := c.request.Collect(c.buffer[..end]), received := c.received + end, buffer := c.buffer[end..]), false, isErr)
    else
      Pass(c.(request := c.request.Collect(c.buffer[..found.value]), buffer := c.buffer[found.value + |closing|..],
              state := GotAll), true, isErr)
  }

  function MultipartBody(c: Context, ok: bool, isErr: bool): (r: Pass)
    requires Valid(c) && c.state.ExpectBody? && c.request.boundary != ""
    ensures r.ctx.pos <= |r.ctx.buffer| && |r.ctx.buffer| - r.ctx.pos <= |c.buffer| - c.pos
    ensures Valid(r.ctx) && (r.ctx.state == c.state || r.ctx.state.GotAll?)
    decreases |c.buffer| - c.pos
  {
    if c.pos >= |c.buffer| then Pass(c, ok, isErr)
    else if c.request.partHeader == "" then
      var (p, goesOn) := PartHead(c, ok, isErr);
      if goesOn then MultipartBody(p.ctx, p.ok, p.isErr) else p
    else PartData(c, isErr)
  }

  // ---------------------------------------------------------------------------------------------
  // The outer loop
  // ---------------------------------------------------------------------------------------------

  function OnePass(c: Context, ok: bool, isErr: bool): (r: Pass)
    requires Valid(c)
    ensures Valid(r.ctx)
  {
    match c.state
    case ExpectRequestLine => LinePass(c, ok, isErr)
    case ExpectHeaders => CheckContentType(HeaderLines(c, ok, isErr))
    case ExpectBody => if c.request.boundary == "" then PlainBody(c, isErr) else MultipartBody(c, ok, isErr)
    case GotAll => Pass(c, true, isErr)
  }

  function Rank(state: ParseState): nat {
    match state
    case ExpectRequestLine => 3
    case ExpectHeaders => 2
    case ExpectBody => 1
    case GotAll => 0
  }

  /** The pass moved to a later state or consumed bytes. */
  predicate Advances(c: Context, c': Context) {
    Rank(c'.state) < Rank(c.state) || (c'.state == c.state && |c'.buffer| - c'.pos < |c.buffer| - c.pos)
  }

  /** `while (parsed_pos_ < buffer_.size())` with its switch, then the reset after an error. */
  function Loop(c: Context, ok: bool, isErr: bool): Outcome
    requires Valid(c)
    decreases Rank(c.state), |c.buffer| - c.pos
  {
    if c.pos >= |c.buffer| then Done(if isErr && !ok then START else c, ok, isErr)
    else if c.state.GotAll? then Done(c, true, isErr)
    else
      var p := OnePass(c, ok, isErr);
      if Advances(c, p.ctx) then Loop(p.ctx, p.ok, p.isErr) else Spins
  }

  /** `parseRequest`: append the chunk, then run the loop. */
  function Feed(c: Context, chunk: string): Outcome
    requires Valid(c)
  {
    Loop(c.(buffer := c.buffer + chunk), false, false)
  }
}
