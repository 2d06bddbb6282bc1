/** Printing a supported request and feeding it to the parser in chunks gives the request back.

    A chunk may end after any CRLF of the head, anywhere in a plain body, and anywhere in the part data of a
    multipart body: the places `Phase` names. */
module HttpRoundTrip {
  import opened Common
  import opened HttpText
  import opened HttpSpec
  import opened HttpMessage

  datatype Phase =
    | AtLine
    | AtHeader(i: nat)   // after the request line and `i` header lines
    | AtBody(k: nat)     // after the head and `k` bytes of the body
    | AtData(k: nat)     // multipart: after the part header and `k` bytes of its data
    | AtEnd

  predicate LegalCut(m: Message, p: Phase) {
    match p
    case AtLine => true
    case AtHeader(i) => i <= |m.headers|
    case AtBody(k) => CarriesBody(m.verb) && (if m.body.Plain? then k < |m.body.data| else k == 0)
    case AtData(k) => m.body.Multipart? && k <= |m.body.data|
    case AtEnd => true
  }

  /** How many bytes of the printed message precede the cut. */
  function Offset(m: Message, p: Phase): nat
    requires LegalCut(m, p)
  {
    match p
    case AtLine => 0
    case AtHeader(i) => |RequestLine(m)| + 2 + |HeadersText(m.headers[..i])|
    case AtBody(k) => |HeadText(m)| + k
    case AtData(k) => |HeadText(m)| + |PartIntro(m.body)| + k
    case AtEnd => |Print(m)|
  }

  // ---------------------------------------------------------------------------------------------
  // What the parser has recovered at each cut
  // ---------------------------------------------------------------------------------------------

  function HeadersSoFar(m: Message, i: nat): map<string, string>
    requires i <= |m.headers|
  {
    HeaderMap(map[], m.headers[..i])
  }

  /** The request after the line and `i` headers: the boundary is known once a Content-Type line has been read. */
  function RequestSoFar(m: Message, i: nat): Request
    requires i <= |m.headers|
  {
    LineRequest(m).(headers := HeadersSoFar(m, i),
                    boundary := if m.body.Multipart? && "Content-Type" in HeadersSoFar(m, i) then m.body.boundary else "")
  }

  function HeadRequest(m: Message): Request {
    RequestSoFar(m, |m.headers|).(contentLength := |BodyText(m.body)|)
  }

  /** The part header has been read and `k` bytes of data collected. */
  function PartRequest(m: Message, k: nat): Request
    requires m.body.Multipart? && k <= |m.body.data|
  {
    HeadRequest(m).(partHeader := m.body.partHeader).Collect(m.body.data[..k])
  }

  /** The request that went in. */
  function FinalRequest(m: Message): Request {
    if m.body.Multipart? then PartRequest(m, |m.body.data|) else HeadRequest(m).(body := m.body.data)
  }

  /** The context between calls: parsed up to cut `p`, with nothing unparsed; the unparsed text is `t`. */
  predicate Ready(m: Message, p: Phase, c: Context, t: string)
    requires LegalCut(m, p)
  {
    && c.pos <= |c.buffer| && c.buffer[c.pos..] == t
    && match p
       case AtLine => c.state.ExpectRequestLine? && c.request == EMPTY_REQUEST && c.received == 0 && c.pos == 0
       case AtHeader(i) => c.state.ExpectHeaders? && c.request == RequestSoFar(m, i) && c.received == 0
       case AtBody(k) =>
         && c.state.ExpectBody? && c.received == k
         && c.request == HeadRequest(m).(body := if m.body.Plain? then m.body.data[..k] else "")
       case AtData(k) =>
         && c.state.ExpectBody? && c.pos == 0 && c.received == |PartIntro(m.body)| + 2 + k
         && c.request == PartRequest(m, k)
       case AtEnd => c.state.GotAll? && c.request == FinalRequest(m)
  }

  /** The call consumed its chunk up to cut `q`: it answers true exactly at the end. */
  predicate Reaches(m: Message, q: Phase, out: Outcome)
    requires LegalCut(m, q)
  {
    && out.Done? && !out.isErr && out.ok == q.AtEnd?
    && (if q.AtEnd? then out.ctx.state.GotAll? && out.ctx.request == FinalRequest(m) else Ready(m, q, out.ctx, ""))
  }

  /** A pass that uses up the buffer, or gets everything, is the last one. */
  lemma LastPass(c: Context, ok: bool, p: Pass)
    requires Valid(c) && c.pos < |c.buffer| && !c.state.GotAll? && OnePass(c, ok, false) == p && Advances(c, p.ctx)
    requires !p.isErr && (if p.ctx.state.GotAll? then p.ok else p.ctx.pos == |p.ctx.buffer|)
    ensures Loop(c, ok, false) == Done(p.ctx, p.ok, false)
  {
  }

  // ---------------------------------------------------------------------------------------------
  // Content types
  // ---------------------------------------------------------------------------------------------

  lemma ContentTypeSoFar(m: Message, i: nat)
    requires Supported(m) && i <= |m.headers|
    ensures var hs := HeadersSoFar(m, i);
            "Content-Type" in hs ==> BoundaryOf(hs["Content-Type"]) == Some(if m.body.Multipart? then m.body.boundary else "")
    ensures m.body.Multipart? && i == |m.headers| ==> "Content-Type" in HeadersSoFar(m, i)
  {
    FieldComesFromLine(map[], m.headers[..i], "Content-Type");
    assert forall j | 0 <= j < i :: m.headers[..i][j] == m.headers[j];
    if i == |m.headers| { assert m.headers[..i] == m.headers; }
  }

  lemma NoContentType()
    ensures Find("", "multipart/form-data", 0) == None
  {
  }

  lemma CheckIs(p: Pass, boundary: string)
    requires p.ctx.pos <= |p.ctx.buffer| && p.ctx.request.partHeader == ""
    requires BoundaryOf(p.ctx.request.GetHeader("Content-Type")) == Some(boundary)
    requires boundary == "" ==> p.ctx.request.boundary == ""
    ensures CheckContentType(p) == p.(ctx := p.ctx.(request := p.ctx.request.(boundary := boundary)))
  {
  }

  lemma BoundarySoFar(m: Message, i: nat)
    requires Supported(m) && i <= |m.headers|
    ensures BoundaryOf(RequestSoFar(m, i).GetHeader("Content-Type")) == Some(RequestSoFar(m, i).boundary)
  {
    ContentTypeSoFar(m, i);
    NoContentType();
  }

  /** The check after the header lines stores the boundary and reports no error. */
  lemma CheckRead(m: Message, i: nat, p: Pass)
    requires Supported(m) && i <= |m.headers| && p.ctx.pos <= |p.ctx.buffer|
    requires p.ctx.request.headers == HeadersSoFar(m, i) && p.ctx.request.partHeader == ""
    requires p.ctx.request.boundary == "" || p.ctx.request.boundary == RequestSoFar(m, i).boundary
    ensures CheckContentType(p) == p.(ctx := p.ctx.(request := p.ctx.request.(boundary := RequestSoFar(m, i).boundary)))
  {
    BoundarySoFar(m, i);
    SameHeader(p.ctx.request, RequestSoFar(m, i), "Content-Type");
    CheckIs(p, RequestSoFar(m, i).boundary);
  }

  lemma SameHeader(r: Request, s: Request, field: string)
    requires r.headers == s.headers
    ensures r.GetHeader(field) == s.GetHeader(field)
  {
  }

  // ---------------------------------------------------------------------------------------------
  // A plain body
  // ---------------------------------------------------------------------------------------------

  /** The next cut of a plain body after `k` bytes. */
  function BodyCut(m: Message, k: nat): Phase
    requires m.body.Plain? && k <= |m.body.data|
  {
    if k == |m.body.data| then AtEnd else AtBody(k)
  }

  lemma LengthFits(m: Message)
    requires Supported(m) && CarriesBody(m.verb)
    ensures |BodyText(m.body)| <= INT_MAX
  {
  }

  /** One pass over a plain body of which `left` bytes are missing, with `taken` of them in the buffer. */
  lemma PlainPass(c: Context, left: nat, taken: string, extra: string)
    requires Valid(c) && c.state.ExpectBody? && c.request.boundary == "" && c.request.contentLength < TWO64
    requires c.request.contentLength == c.received + left && |taken| <= left && (extra != "" ==> |taken| == left)
    requires c.buffer[c.pos..] == taken + extra
    ensures PlainBody(c, false) ==
              Pass(c.(request := c.request.(body := c.request.body + taken), pos := c.pos + |taken|,
                      received := c.received + |taken|, state := if |taken| == left then GotAll else ExpectBody),
                   |taken| == left, false)
  {
    Drop(c.buffer, c.pos, taken, extra, c.pos + |taken|);
    SmallDifference(c.request.contentLength, c.received);
  }

  /** A chunk inside the body, or one that ends it and goes on with `extra` bytes, of which none is taken. */
  lemma PlainRun(m: Message, k: nat, n: nat, extra: string, c: Context, ok: bool)
    requires Supported(m) && m.body.Plain? && k < n <= |m.body.data| && (extra != "" ==> n == |m.body.data|)
    requires Ready(m, AtBody(k), c, m.body.data[k..n] + extra)
    ensures Valid(c) && Reaches(m, BodyCut(m, n), Loop(c, ok, false))
  {
    LengthFits(m);
    var data := m.body.data;
    PlainPass(c, |data| - k, data[k..n], extra);
    SliceJoins(data, k, n);
    LastPass(c, ok, PlainBody(c, false));
  }

  lemma SliceJoins(s: string, k: nat, n: nat)
    requires k <= n <= |s|
    ensures s[..k] + s[k..n] == s[..n] && |s[k..n]| == n - k && (n == |s| ==> s[..n] == s)
  {
  }

  // ---------------------------------------------------------------------------------------------
  // Multipart data
  // ---------------------------------------------------------------------------------------------

  lemma SmallDifference(a: nat, b: nat)
    requires b <= a < TWO64
    ensures Sub64(a, b) == a - b
  {
  }

  /** The content length leaves `left` data bytes before the closing delimiter. */
  predicate Left(c: Context, left: nat) {
    && c.pos == 0 && c.request.contentLength < TWO64
    && c.request.contentLength == c.received + |Closing(c.request.boundary)| + left
  }

  lemma LeftExact(c: Context, left: nat)
    requires Left(c, left)
    ensures Sub64(Sub64(c.request.contentLength, |Closing(c.request.boundary)|), c.received) == left
  {
    SmallDifference(c.request.contentLength, |Closing(c.request.boundary)|);
    SmallDifference(c.request.contentLength - |Closing(c.request.boundary)|, c.received);
  }

  /** Where the content length puts the closing delimiter: exactly the uncollected data away. Nothing underflows. */
  lemma DataLeft(m: Message, k: nat, c: Context, t: string)
    requires Supported(m) && m.body.Multipart? && k <= |m.body.data| && Ready(m, AtData(k), c, t)
    ensures Left(c, |m.body.data| - k) && c.request.boundary == m.body.boundary && c.buffer == t
  {
    LengthFits(m);
    ContentTypeSoFar(m, |m.headers|);
    BodyLength(m.body);
  }

  lemma BodyLength(b: Body)
    requires b.Multipart?
    ensures |BodyText(b)| == |PartIntro(b)| + |b.data| + |Closing(b.boundary)| + 2
  {
  }

  lemma PieceCollected(c: Context, left: nat)
    requires Left(c, left) && |c.buffer| <= left
    ensures PartData(c, false) ==
              Pass(c.(request := c.request.Collect(c.buffer), received := c.received + |c.buffer|, buffer := ""), false, false)
  {
    LeftExact(c, left);
    assert c.buffer[..|c.buffer|] == c.buffer;
  }

  lemma LookAlikeCollected(c: Context, left: nat)
    requires Left(c, left) && left <= |c.buffer|
    requires Find(c.buffer, Closing(c.request.boundary), 0).Some?
        && Find(c.buffer, Closing(c.request.boundary), 0).value < left
    ensures PartData(c, false) ==
              Pass(c.(request := c.request.Collect(c.buffer[..left]), received := c.received + left, buffer := c.buffer[left..]),
                   false, false)
  {
    LeftExact(c, left);
  }

  lemma LookAlikeCollectedAs(c: Context, left: nat, request: Request, rest: string)
    requires Left(c, left) && left <= |c.buffer|
    requires Find(c.buffer, Closing(c.request.boundary), 0).Some? && Find(c.buffer, Closing(c.request.boundary), 0).value < left
    requires c.request.Collect(c.buffer[..left]) == request && c.buffer[left..] == rest
    ensures PartData(c, false) == Pass(c.(request := request, received := c.received + left, buffer := rest), false, false)
  {
    LookAlikeCollected(c, left);
  }

  lemma ClosingCollected(c: Context, left: nat)
    requires Left(c, left) && Find(c.buffer, Closing(c.request.boundary), 0) == Some(left)
    ensures PartData(c, false) ==
              Pass(c.(request := c.request.Collect(c.buffer[..left]), buffer := c.buffer[left + |Closing(c.request.boundary)|..],
                      state := GotAll), true, false)
  {
  }

  lemma CollectMore(m: Message, k: nat, n: nat)
    requires m.body.Multipart? && k <= n <= |m.body.data|
    ensures PartRequest(m, k).Collect(m.body.data[k..n]) == PartRequest(m, n)
  {
    assert m.body.data[..k] + m.body.data[k..n] == m.body.data[..n];
  }

  /** Data that stops short of the closing delimiter is collected whole, whatever look-alikes it contains. */
  lemma DataPiece(m: Message, k: nat, n: nat, c: Context)
    requires Supported(m) && m.body.Multipart? && k <= n <= |m.body.data|
    requires Ready(m, AtData(k), c, m.body.data[k..n])
    ensures PartData(c, false) == Pass(c.(request := PartRequest(m, n), received := c.received + (n - k), buffer := ""), false, false)
  {
    DataLeft(m, k, c, m.body.data[k..n]);
    CollectMore(m, k, n);
    PieceCollected(c, |m.body.data| - k);
  }

  lemma DataRun(m: Message, k: nat, n: nat, c: Context, ok: bool)
    requires Supported(m) && m.body.Multipart? && k < n <= |m.body.data|
    requires Ready(m, AtData(k), c, m.body.data[k..n])
    ensures Valid(c) && Reaches(m, AtData(n), Loop(c, ok, false))
  {
    ContentTypeSoFar(m, |m.headers|);
    DataPiece(m, k, n, c);
    DataPass(c, ok);
    LastPass(c, ok, PartData(c, false));
  }

  lemma DataPass(c: Context, ok: bool)
    requires Valid(c) && c.state.ExpectBody? && c.request.partHeader != "" && c.buffer != ""
    ensures OnePass(c, ok, false) == PartData(c, false)
  {
  }

  /** What is still to come of a multipart body after `k` bytes of its data, up to its closing delimiter, and what follows it. */
  function DataTail(m: Message, k: nat, rest: string): string
    requires m.body.Multipart? && k <= |m.body.data|
  {
    m.body.data[k..] + Closing(m.body.boundary) + rest
  }

  lemma TailSplits(m: Message, k: nat, rest: string)
    requires m.body.Multipart? && k <= |m.body.data|
    ensures var d, t := |m.body.data| - k, DataTail(m, k, rest);
            && |t| == d + |Closing(m.body.boundary)| + |rest|
            && t[..d] == m.body.data[k..|m.body.data|] && t[d..] == DataTail(m, |m.body.data|, rest)
            && t[d + |Closing(m.body.boundary)|..] == rest
  {
  }

  /** What collecting the data up to the true closing delimiter gives and leaves. */
  lemma TailCollected(m: Message, k: nat, rest: string, c: Context)
    requires Supported(m) && m.body.Multipart? && k <= |m.body.data| && Ready(m, AtData(k), c, DataTail(m, k, rest))
    ensures var d := |m.body.data| - k;
            && Left(c, d) && c.request.boundary == m.body.boundary && d + |Closing(m.body.boundary)| <= |c.buffer|
            && c.request.Collect(c.buffer[..d]) == PartRequest(m, |m.body.data|)
            && c.buffer[d..] == DataTail(m, |m.body.data|, rest)
            && c.buffer[d + |Closing(m.body.boundary)|..] == rest
  {
    DataLeft(m, k, c, DataTail(m, k, rest));
    CollectMore(m, k, |m.body.data|);
    TailSplits(m, k, rest);
  }

  /** A look-alike in front of the true closing delimiter does not count: the data is collected up to the true one. */
  lemma DataBeforeClosing(m: Message, k: nat, rest: string, c: Context)
    requires Supported(m) && m.body.Multipart? && k <= |m.body.data| && Ready(m, AtData(k), c, DataTail(m, k, rest))
    requires var found := Find(c.buffer, Closing(m.body.boundary), 0); found.Some? && found.value < |m.body.data| - k
    ensures PartData(c, false) ==
              Pass(c.(request := PartRequest(m, |m.body.data|), received := c.received + (|m.body.data| - k),
                      buffer := DataTail(m, |m.body.data|, rest)), false, false)
  {
    TailCollected(m, k, rest, c);
    LookAlikeCollectedAs(c, |m.body.data| - k, PartRequest(m, |m.body.data|), DataTail(m, |m.body.data|, rest));
  }

  /** The true closing delimiter ends the upload. */
  lemma DataAtClosing(m: Message, k: nat, rest: string, c: Context)
    requires Supported(m) && m.body.Multipart? && k <= |m.body.data| && Ready(m, AtData(k), c, DataTail(m, k, rest))
    requires Find(c.buffer, Closing(m.body.boundary), 0) == Some(|m.body.data| - k)
    ensures PartData(c, false) == Pass(c.(request := FinalRequest(m), buffer := rest, state := GotAll), true, false)
  {
    TailCollected(m, k, rest, c);
    assert FinalRequest(m) == PartRequest(m, |m.body.data|);
    ClosingCollected(c, |m.body.data| - k);
  }

  /** The first match of the closing delimiter is never behind the true one. */
  lemma ClosingFound(m: Message, k: nat, rest: string, buffer: string)
    requires m.body.Multipart? && k <= |m.body.data|
    requires buffer == DataTail(m, k, rest)
    ensures var found := Find(buffer, Closing(m.body.boundary), 0); found.Some? && found.value <= |m.body.data| - k
  {
    var d := |m.body.data| - k;
    assert buffer[d..d + |Closing(m.body.boundary)|] == Closing(m.body.boundary);
    assert MatchAt(buffer, Closing(m.body.boundary), d);
    FindIsFirst(buffer, Closing(m.body.boundary), 0);
  }

  lemma ClosingRun(m: Message, k: nat, rest: string, c: Context, ok: bool)
    requires Supported(m) && m.body.Multipart? && k <= |m.body.data|
    requires Ready(m, AtData(k), c, DataTail(m, k, rest))
    requires Find(c.buffer, Closing(m.body.boundary), 0) == Some(|m.body.data| - k)
    ensures Valid(c) && Reaches(m, AtEnd, Loop(c, ok, false))
  {
    ContentTypeSoFar(m, |m.headers|);
    DataAtClosing(m, k, rest, c);
    DataPass(c, ok);
    LastPass(c, ok, PartData(c, false));
  }

  /** A look-alike costs one more pass, after which the true closing delimiter stands in front. */
  lemma LookAlikeRun(m: Message, k: nat, rest: string, c: Context, ok: bool)
    requires Supported(m) && m.body.Multipart? && k <= |m.body.data|
    requires Ready(m, AtData(k), c, DataTail(m, k, rest)) && Valid(c)
    requires var found := Find(c.buffer, Closing(m.body.boundary), 0); found.Some? && found.value < |m.body.data| - k
    ensures Reaches(m, AtEnd, Loop(c, ok, false))
  {
    var n, p := |m.body.data|, PartData(c, false);
    DataBeforeClosing(m, k, rest, c);
    DataPass(c, ok);
    ClosingFound(m, n, rest, p.ctx.buffer);
    ClosingRun(m, n, rest, p.ctx, p.ok);
    DataGoesOn(c, ok, p);
  }

  lemma DataGoesOn(c: Context, ok: bool, p: Pass)
    requires Valid(c) && c.state.ExpectBody? && OnePass(c, ok, false) == p && p.ctx.state == c.state
    requires p.ctx.pos == c.pos == 0 && |p.ctx.buffer| < |c.buffer|
    ensures Loop(c, ok, false) == Loop(p.ctx, p.ok, p.isErr)
  {
  }

  lemma LastDataRun(m: Message, k: nat, rest: string, c: Context, ok: bool)
    requires Supported(m) && m.body.Multipart? && k <= |m.body.data|
    requires Ready(m, AtData(k), c, DataTail(m, k, rest))
    ensures Valid(c) && Reaches(m, AtEnd, Loop(c, ok, false))
  {
    ContentTypeSoFar(m, |m.headers|);
    ClosingFound(m, k, rest, c.buffer);
    var found := Find(c.buffer, Closing(m.body.boundary), 0).value;
    if found == |m.body.data| - k {
      ClosingRun(m, k, rest, c, ok);
    } else {
      LookAlikeRun(m, k, rest, c, ok);
    }
  }

  // ---------------------------------------------------------------------------------------------
  // The part header
  // ---------------------------------------------------------------------------------------------

  /** A delimiter, a part header with its blank line, and what follows. */
  function PartText(delim: string, header: string, rest: string): string {
    delim + (CRLF + (header + ("\r\n\r\n" + rest)))
  }

  /** A delimiter, CRLF, a header without a blank line in it, and its blank line: read in one go. */
  lemma PartHeadRead(c: Context, header: string, rest: string, ok: bool)
    requires c.pos <= |c.buffer|
    requires c.buffer[c.pos..] == PartText(Delim(c.request.boundary), header, rest)
    requires EndsAtBlankLine(header)
    ensures PartHead(c, ok, false) ==
              (Pass(c.(buffer := rest, pos := 0, received := c.received + (|Delim(c.request.boundary)| + 4 + |header| + 4),
                       request := c.request.(partHeader := header)), ok, false), true)
  {
    var after := c.pos + |Delim(c.request.boundary)|;
    var start, end, stop := after + 2, after + 2 + |header|, after + 2 + |header| + 4;
    PartTextFound(c.buffer, c.pos, Delim(c.request.boundary), CRLF, "\r\n\r\n", header, rest, after, start, end, stop);
    CrlfSkipped(c.buffer, after);
    PartHeadValue(c, header, rest, after, start, end, stop, ok);
  }

  /** What the searches find in a part header's text: the delimiter at `pos`, the header from `start` to `end`. */
  predicate Found(buffer: string, pos: nat, delim: string, crlf: string, blank: string, header: string, rest: string,
                  after: nat, start: nat, end: nat, stop: nat) {
    && after <= start <= end <= stop <= |buffer|
    && Find(buffer, delim, pos) == Some(pos) && buffer[after..start] == crlf
    && Find(buffer, blank, start) == Some(end) && buffer[start..end] == header && buffer[stop..] == rest
  }

  lemma PartTextFound(buffer: string, pos: nat, delim: string, crlf: string, blank: string, header: string, rest: string,
                      after: nat, start: nat, end: nat, stop: nat)
    requires pos <= |buffer| && buffer[pos..] == delim + (crlf + (header + (blank + rest)))
    requires after == pos + |delim| && start == after + |crlf| && end == start + |header| && stop == end + |blank|
    requires Find(header + blank, blank, 0) == Some(|header|)
    ensures Found(buffer, pos, delim, crlf, blank, header, rest, after, start, end, stop)
  {
    DelimAtStart(buffer, pos, delim, crlf + (header + (blank + rest)));
    Drop(buffer, pos, delim, crlf + (header + (blank + rest)), after);
    Drop(buffer, after, crlf, header + (blank + rest), start);
    PatternFound(buffer, start, header, blank, rest, end, stop);
  }

  lemma PartHeadValue(c: Context, header: string, rest: string, after: nat, start: nat, end: nat, stop: nat, ok: bool)
    requires c.pos <= |c.buffer| && after == c.pos + |Delim(c.request.boundary)|
    requires start == after + 2 && end == start + |header| && stop == end + 4
    requires Found(c.buffer, c.pos, Delim(c.request.boundary), CRLF, "\r\n\r\n", header, rest, after, start, end, stop)
    requires PartStart(c.buffer, after) == start && !MatchAt(c.buffer, "--", after)
    ensures PartHead(c, ok, false) ==
              (Pass(c.(buffer := rest, pos := 0, received := c.received + (|Delim(c.request.boundary)| + 4 + |header| + 4),
                       request := c.request.(partHeader := header)), ok, false), true)
  {
  }

  lemma CrlfSkipped(buffer: string, after: nat)
    requires after + 2 <= |buffer| && buffer[after..after + 2] == CRLF
    ensures PartStart(buffer, after) == after + 2 && !MatchAt(buffer, "--", after)
  {
    assert CRLF[0] != "--"[0];
  }

  lemma DelimAtStart(buffer: string, pos: nat, delim: string, rest: string)
    requires pos <= |buffer| && buffer[pos..] == delim + rest
    ensures Find(buffer, delim, pos) == Some(pos)
  {
    Drop(buffer, pos, delim, rest, pos + |delim|);
    assert MatchAt(buffer, delim, pos);
  }

  /** A pattern behind `header`, with no earlier match, is found there in a longer text too. */
  lemma PatternFound(buffer: string, start: nat, header: string, pat: string, rest: string, end: nat, stop: nat)
    requires start <= |buffer| && buffer[start..] == header + (pat + rest) && end == start + |header|
        && stop == end + |pat|
    requires Find(header + pat, pat, 0) == Some(|header|)
    ensures stop <= |buffer| && Find(buffer, pat, start) == Some(end)
    ensures buffer[start..end] == header && buffer[stop..] == rest
  {
    Drop(buffer, start, header, pat + rest, end);
    Drop(buffer, end, pat, rest, stop);
    FindIsFirst(header + pat, pat, 0);
    forall i | start <= i < end ensures !MatchAt(buffer, pat, i) {
      MatchMoves(buffer, start, header + pat, pat, i - start);
    }
    FindIs(buffer, pat, start, end);
  }

  lemma MatchMoves(s: string, shift: nat, t: string, pat: string, i: nat)
    requires shift + |t| <= |s| && i + |pat| <= |t|
    requires forall j | 0 <= j < |t| :: s[shift + j] == t[j]
    ensures MatchAt(s, pat, shift + i) <==> MatchAt(t, pat, i)
  {
    assert s[shift + i..shift + i + |pat|] == t[i..i + |pat|];
  }

  lemma PartHeadRun(m: Message, rest: string, c: Context, ok: bool) returns (c': Context)
    requires Supported(m) && m.body.Multipart? && CarriesBody(m.verb)
    requires Ready(m, AtBody(0), c, PartIntro(m.body) + rest)
    ensures Valid(c) && Ready(m, AtData(0), c', rest) && Valid(c')
    ensures rest != "" ==> OnePass(c, ok, false) == OnePass(c', ok, false)
    ensures rest == "" ==> OnePass(c, ok, false) == Pass(c', ok, false)
    ensures |c'.buffer| < |c.buffer| - c.pos && c.state.ExpectBody?
  {
    ContentTypeSoFar(m, |m.headers|);
    PartIntroLength(m);
    PartIntroIs(m, rest);
    c' := PartHeadMoves(m, rest, c, ok);
    PartThenData(c, c', ok);
  }

  lemma PartHeadMoves(m: Message, rest: string, c: Context, ok: bool) returns (c': Context)
    requires m.body.Multipart? && m.body.partHeader != "" && m.body.boundary != ""
    requires EndsAtBlankLine(m.body.partHeader)
    requires c.pos <= |c.buffer| && c.buffer[c.pos..] == PartText(Delim(m.body.boundary), m.body.partHeader, rest)
    requires c.request == HeadRequest(m) && c.request.boundary == m.body.boundary && c.received == 0
    ensures PartHead(c, ok, false) == (Pass(c', ok, false), true)
    ensures c' == c.(buffer := rest, pos := 0, received := |PartIntro(m.body)| + 2, request := PartRequest(m, 0))
  {
    c' := AfterPartHead(m, rest, c);
    PartHeadRead(c, m.body.partHeader, rest, ok);
  }

  lemma AfterPartHead(m: Message, rest: string, c: Context) returns (c': Context)
    requires m.body.Multipart? && c.request == HeadRequest(m) && c.received == 0 && c.request.boundary == m.body.boundary
    ensures c' == c.(buffer := rest, pos := 0, received := |PartIntro(m.body)| + 2, request := PartRequest(m, 0))
    ensures c' == c.(buffer := rest, pos := 0, received := |Delim(c.request.boundary)| + 4 + |m.body.partHeader| + 4,
                     request := c.request.(partHeader := m.body.partHeader))
  {
    PartIntroLength(m);
    CollectNone(m, HeadRequest(m).(partHeader := m.body.partHeader));
    c' := c.(buffer := rest, pos := 0, received := |PartIntro(m.body)| + 2, request := PartRequest(m, 0));
  }

  lemma PartIntroIs(m: Message, rest: string)
    requires m.body.Multipart?
    ensures PartIntro(m.body) + rest == PartText(Delim(m.body.boundary), m.body.partHeader, rest)
  {
    var delim, header, blank := Delim(m.body.boundary), m.body.partHeader, "\r\n\r\n";
    Assoc(delim + CRLF + header, blank, rest);
    Assoc(delim + CRLF, header, blank + rest);
    Assoc(delim, CRLF, header + (blank + rest));
  }

  lemma PartIntroLength(m: Message)
    requires m.body.Multipart?
    ensures |PartIntro(m.body)| == |Delim(m.body.boundary)| + 2 + |m.body.partHeader| + 4
  {
  }

  /** The inner loop goes straight on from the part header to the data behind it. */
  lemma PartThenData(c: Context, c': Context, ok: bool)
    requires Valid(c) && c.state.ExpectBody? && c.request.boundary != "" && c.request.partHeader == ""
        && c.pos < |c.buffer|
    requires PartHead(c, ok, false) == (Pass(c', ok, false), true)
    requires c'.request.partHeader != "" && c'.request.boundary == c.request.boundary
    ensures Valid(c') && c'.state == c.state
    ensures c'.buffer != "" ==> OnePass(c, ok, false) == OnePass(c', ok, false)
    ensures c'.buffer == "" ==> OnePass(c, ok, false) == Pass(c', ok, false)
  {
    assert MultipartBody(c, ok, false) == MultipartBody(c', ok, false);
  }

  lemma CollectNone(m: Message, request: Request)
    requires m.body.Multipart? && request == HeadRequest(m).(partHeader := m.body.partHeader)
    ensures request == PartRequest(m, 0)
  {
    assert m.body.data[..0] == "";
  }

  /** A call that answers goes on behind the part header as if it had started there. */
  lemma SameFirstPass(c: Context, c': Context, ok: bool)
    requires Valid(c) && Valid(c') && c.state == c'.state == ExpectBody && OnePass(c, ok, false) == OnePass(c', ok, false)
    requires 0 < |c'.buffer| - c'.pos < |c.buffer| - c.pos && Loop(c', ok, false).Done?
    ensures Loop(c, ok, false) == Loop(c', ok, false)
  {
  }

  /** A chunk from the start of a multipart body into its data. */
  lemma PartDataRun(m: Message, k: nat, c: Context)
    requires Supported(m) && m.body.Multipart? && CarriesBody(m.verb) && k <= |m.body.data|
    requires Ready(m, AtBody(0), c, PartIntro(m.body) + m.body.data[..k])
    ensures Valid(c) && Reaches(m, AtData(k), Loop(c, false, false))
  {
    var c' := PartHeadRun(m, m.body.data[..k], c, false);
    if k == 0 {
      LastPass(c, false, Pass(c', false, false));
    } else {
      assert m.body.data[0..k] == m.body.data[..k];
      DataRun(m, 0, k, c', false);
      SameFirstPass(c, c', false);
    }
  }

  /** A chunk from the start of a multipart body to its end. */
  lemma PartEndRun(m: Message, rest: string, c: Context)
    requires Supported(m) && m.body.Multipart? && CarriesBody(m.verb)
    requires Ready(m, AtBody(0), c, PartIntro(m.body) + DataTail(m, 0, rest))
    ensures Valid(c) && Reaches(m, AtEnd, Loop(c, false, false))
  {
    TailSplits(m, 0, rest);
    var c' := PartHeadRun(m, DataTail(m, 0, rest), c, false);
    LastDataRun(m, 0, rest, c', false);
    SameFirstPass(c, c', false);
  }

  /** One chunk from the start of a multipart body. */
  lemma PartRun(m: Message, rest: string, extra: string, q: Phase, c: Context)
    requires Supported(m) && m.body.Multipart? && CarriesBody(m.verb) && LegalCut(m, q)
    requires Ready(m, AtBody(0), c, PartIntro(m.body) + rest)
    requires (q.AtData? && rest == m.body.data[..q.k]) || (q.AtEnd? && rest == DataTail(m, 0, CRLF + extra))
    ensures Valid(c) && Reaches(m, q, Loop(c, false, false))
  {
    if q.AtEnd? {
      PartEndRun(m, CRLF + extra, c);
    } else {
      PartDataRun(m, q.k, c);
    }
  }

  // ---------------------------------------------------------------------------------------------
  // The head
  // ---------------------------------------------------------------------------------------------

  /** Where the parser stands right after the blank line. */
  function AfterHead(m: Message): Phase {
    if BodyText(m.body) == "" then AtEnd else AtBody(0)
  }

  /** The length the head announces is that of the body. */
  predicate Announced(m: Message) {
    if CarriesBody(m.verb) then Stoi(Lookup(HeaderMap(map[], m.headers), "Content-Length")) == Some(|BodyText(m.body)|)
    else BodyText(m.body) == ""
  }

  lemma BlankRead(m: Message, c: Context)
    requires Announced(m) && c.request.verb == m.verb && c.request.contentLength == 0
    requires c.request.headers == HeaderMap(map[], m.headers)
    ensures var carries := CarriesBody(m.verb) && BodyText(m.body) != "";
            && BlankLine(c, false) == Pass(c.(state := if carries then ExpectBody else GotAll,
                                              request := c.request.(contentLength := |BodyText(m.body)|)), !carries, false)
            && (carries <==> AfterHead(m) == AtBody(0))
  {
    assert c.request.GetHeader("Content-Length") == Lookup(c.request.headers, "Content-Length");
  }

  /** At the blank line the header loop stops. */
  lemma BlankFound(c: Context, rest: string, ok: bool)
    requires c.pos <= |c.buffer| && c.buffer[c.pos..] == CRLF + rest
    ensures c.pos + 2 <= |c.buffer| && c.buffer[c.pos + 2..] == rest
    ensures HeaderLines(c, ok, false) == BlankLine(c.(pos := c.pos + 2), false)
  {
    assert "" + CRLF + rest == CRLF + rest;
    FindCrlf(c.buffer, c.pos, "", rest, c.pos);
  }

  /** The header loop reads lines `i` to `j`. */
  lemma LinesRead(m: Message, i: nat, j: nat, c: Context, rest: string, ok: bool) returns (c': Context)
    requires Supported(m) && i <= j <= |m.headers|
    requires Ready(m, AtHeader(i), c, HeadersText(m.headers[i..j]) + rest)
    ensures c'.pos <= |c'.buffer| && c'.buffer[c'.pos..] == rest && c'.buffer == c.buffer
        && c'.pos == c.pos + |HeadersText(m.headers[i..j])|
    ensures c' == c.(pos := c'.pos, request := RequestSoFar(m, i).(headers := HeadersSoFar(m, j)))
    ensures HeaderLines(c, ok, false) == HeaderLines(c', ok, false)
  {
    HeaderLinesRead(c, m.headers[i..j], rest, ok, false);
    c' := AfterHeaders(c, m.headers[i..j]);
    HeadersGrow(m, i, j);
  }

  lemma HeadersGrow(m: Message, i: nat, j: nat)
    requires i <= j <= |m.headers|
    ensures HeaderMap(HeadersSoFar(m, i), m.headers[i..j]) == HeadersSoFar(m, j)
  {
    HeaderMapAppend(map[], m.headers[..i], m.headers[i..j]);
    assert m.headers[..i] + m.headers[i..j] == m.headers[..j];
  }

  lemma BoundaryKept(m: Message, i: nat, j: nat)
    requires i <= j <= |m.headers|
    ensures RequestSoFar(m, i).boundary == "" || RequestSoFar(m, i).boundary == RequestSoFar(m, j).boundary
  {
    FieldComesFromLine(map[], m.headers[..i], "Content-Type");
    FieldComesFromLine(map[], m.headers[..j], "Content-Type");
    if "Content-Type" in HeadersSoFar(m, i) {
      var k :| 0 <= k < |m.headers[..i]| && m.headers[..i][k].name == "Content-Type";
      assert m.headers[..j][k].name == "Content-Type";
    }
  }

  lemma HeadersPass(c: Context, c': Context, ok: bool)
    requires Valid(c) && c.state.ExpectHeaders? && c'.pos <= |c'.buffer| && c'.request.partHeader == ""
    requires HeaderLines(c, ok, false) == HeaderLines(c', ok, false)
    ensures OnePass(c, ok, false) == CheckContentType(HeaderLines(c', ok, false))
  {
  }

  /** A chunk that ends between header lines. */
  lemma HeadersRun(m: Message, i: nat, j: nat, c: Context, ok: bool)
    requires Supported(m) && i < j <= |m.headers| && !ok
    requires Ready(m, AtHeader(i), c, HeadersText(m.headers[i..j]))
    ensures Valid(c) && Reaches(m, AtHeader(j), Loop(c, ok, false))
  {
    assert HeadersText(m.headers[i..j]) + "" == HeadersText(m.headers[i..j]);
    var c' := LinesRead(m, i, j, c, "", ok);
    HeadersSplit(m.headers[i..j], "");
    BoundaryKept(m, i, j);
    CheckRead(m, j, Pass(c', ok, false));
    HeadersPass(c, c', ok);
    LastPass(c, ok, CheckContentType(Pass(c', ok, false)));
  }

  /** A chunk that contains the rest of the head. */
  lemma HeadRun(m: Message, i: nat, c: Context, rest: string, ok: bool) returns (p: Pass)
    requires Supported(m) && i <= |m.headers|
    requires Ready(m, AtHeader(i), c, HeadersText(m.headers[i..]) + CRLF + rest)
    ensures Valid(c) && Valid(p.ctx) && Loop(c, ok, false) == Loop(p.ctx, p.ok, false) && !p.isErr
    ensures LegalCut(m, AfterHead(m)) && p.ok == AfterHead(m).AtEnd?
    ensures Ready(m, AfterHead(m), p.ctx, rest)
  {
    var n := |m.headers|;
    assert m.headers[i..n] == m.headers[i..];
    Assoc(HeadersText(m.headers[i..n]), CRLF, rest);
    var c' := LinesRead(m, i, n, c, CRLF + rest, ok);
    BoundaryKept(m, i, n);
    HeadChecked(m, c', rest, ok);
    HeadersPass(c, c', ok);
    p := CheckContentType(HeaderLines(c', ok, false));
    PassGoesOn(c, ok, p);
  }

  lemma PassGoesOn(c: Context, ok: bool, p: Pass)
    requires Valid(c) && c.state.ExpectHeaders? && OnePass(c, ok, false) == p
    requires p.ctx.buffer == c.buffer && c.pos < p.ctx.pos <= |c.buffer| && Rank(p.ctx.state) <= Rank(c.state)
    ensures Loop(c, ok, false) == Loop(p.ctx, p.ok, p.isErr)
  {
  }

  lemma HeadChecked(m: Message, c: Context, rest: string, ok: bool)
    requires Supported(m) && c.pos <= |c.buffer| && c.buffer[c.pos..] == CRLF + rest && c.state.ExpectHeaders?
        && c.received == 0
    requires c.request == RequestSoFar(m, |m.headers|).(boundary := c.request.boundary)
    requires c.request.boundary == "" || c.request.boundary == RequestSoFar(m, |m.headers|).boundary
    ensures var p := CheckContentType(HeaderLines(c, ok, false));
            && !p.isErr && LegalCut(m, AfterHead(m)) && p.ok == AfterHead(m).AtEnd? && Ready(m, AfterHead(m), p.ctx, rest)
            && p.ctx.buffer == c.buffer && p.ctx.pos == c.pos + 2
  {
    assert m.headers[..|m.headers|] == m.headers;
    BlankFound(c, rest, ok);
    BlankRead(m, c.(pos := c.pos + 2));
    var p := BlankLine(c.(pos := c.pos + 2), false);
    CheckRead(m, |m.headers|, p);
    HeadReady(m, CheckContentType(p).ctx, rest);
  }

  lemma HeadReady(m: Message, c: Context, rest: string)
    requires SupportedBody(m) && c.pos <= |c.buffer| && c.buffer[c.pos..] == rest && c.received == 0
    requires c.request == HeadRequest(m)
    requires c.state == if CarriesBody(m.verb) && BodyText(m.body) != "" then ExpectBody else GotAll
    ensures LegalCut(m, AfterHead(m)) && Ready(m, AfterHead(m), c, rest)
  {
    if m.body.Plain? && m.body.data != "" { assert m.body.data[..0] == ""; }
  }

  // ---------------------------------------------------------------------------------------------
  // One call, from any cut to any later cut
  // ---------------------------------------------------------------------------------------------

  lemma LineRun(m: Message, rest: string, c: Context) returns (c': Context)
    requires SupportedLine(m) && Ready(m, AtLine, c, RequestLine(m) + CRLF + rest)
    ensures Valid(c) && Valid(c') && Ready(m, AtHeader(0), c', rest) && Loop(c, false, false) == Loop(c', false, false)
  {
    RequestLineParsed(m);
    RequestLineClean(m);
    FindCrlf(c.buffer, c.pos, RequestLine(m), rest, c.pos + |RequestLine(m)|);
    c' := c.(pos := c.pos + |RequestLine(m)| + 2, request := LineRequest(m), state := ExpectHeaders);
    assert LinePass(c, false, false) == Pass(c', false, false);
    assert m.headers[..0] == [];
    assert LineRequest(m) == RequestSoFar(m, 0);
  }

  predicate Before(p: Phase, q: Phase) {
    match p
    case AtLine => !q.AtLine?
    case AtHeader(i) => (q.AtHeader? && i < q.i) || q.AtBody? || q.AtData? || q.AtEnd?
    case AtBody(k) => (q.AtBody? && k < q.k) || q.AtData? || q.AtEnd?
    case AtData(k) => (q.AtData? && k < q.k) || q.AtEnd?
    case AtEnd => false
  }

  /** The printed message up to a cut. */
  function Upto(m: Message, q: Phase): string
    requires LegalCut(m, q)
  {
    match q
    case AtLine => ""
    case AtHeader(i) => RequestLine(m) + CRLF + HeadersText(m.headers[..i])
    case _ => HeadText(m) + BodyUpto(m, q)
  }

  /** The body up to a cut in it. */
  function BodyUpto(m: Message, q: Phase): string
    requires LegalCut(m, q) && !q.AtLine? && !q.AtHeader?
  {
    match q
    case AtBody(k) => BodyText(m.body)[..k]
    case AtData(k) => PartIntro(m.body) + m.body.data[..k]
    case AtEnd => BodyText(m.body)
  }

  /** The text from one cut to a later one. */
  function Text(m: Message, p: Phase, q: Phase): string
    requires LegalCut(m, p) && LegalCut(m, q) && Before(p, q)
    decreases if p.AtLine? then 1 else 0
  {
    match p
    case AtLine => RequestLine(m) + CRLF + if q == AtHeader(0) then "" else Text(m, AtHeader(0), q)
    case AtHeader(i) => if q.AtHeader? then HeadersText(m.headers[i..q.i]) else HeadersText(m.headers[i..]) + CRLF + BodyUpto(m, q)
    case AtBody(k) => if m.body.Multipart? then BodyUpto(m, q) else if q.AtBody? then m.body.data[k..q.k] else m.body.data[k..]
    case AtData(k) => if q.AtData? then m.body.data[k..q.k] else DataTail(m, k, CRLF)
  }

  lemma HeadSplits(m: Message, i: nat)
    requires i <= |m.headers|
    ensures HeadText(m) == RequestLine(m) + CRLF + HeadersText(m.headers[..i]) + (HeadersText(m.headers[i..]) + CRLF)
  {
    assert m.headers[..i] + m.headers[i..] == m.headers;
    HeadersTextAppend(m.headers[..i], m.headers[i..]);
  }

  lemma BodySplits(m: Message, k: nat)
    requires m.body.Multipart? && k <= |m.body.data|
    ensures BodyText(m.body) == PartIntro(m.body) + m.body.data[..k] + DataTail(m, k, CRLF)
  {
    assert m.body.data == m.body.data[..k] + m.body.data[k..];
  }

  lemma PrefixOf(a: string, b: string, c: string)
    requires c == a + b
    ensures a <= c
  {
  }

  lemma UptoIsPrefix(m: Message, q: Phase)
    requires LegalCut(m, q)
    ensures |Upto(m, q)| == Offset(m, q) && Upto(m, q) <= Print(m)
  {
    match q
    case AtHeader(i) =>
      HeadSplits(m, i);
      PrefixOf(Upto(m, q), HeadersText(m.headers[i..]) + CRLF, HeadText(m));
    case AtData(k) =>
      BodySplits(m, k);
      PrefixOf(BodyUpto(m, q), DataTail(m, k, CRLF), BodyText(m.body));
    case _ =>
  }

  lemma BodyTextContinues(m: Message, k: nat, q: Phase)
    requires LegalCut(m, AtBody(k)) && LegalCut(m, q) && Before(AtBody(k), q)
    ensures BodyUpto(m, AtBody(k)) + Text(m, AtBody(k), q) == BodyUpto(m, q) && Text(m, AtBody(k), q) != ""
  {
    if m.body.Plain? {
      assert m.body.data[..k] + m.body.data[k..] == m.body.data;
      if q.AtBody? { assert m.body.data[..k] + m.body.data[k..q.k] == m.body.data[..q.k]; }
    } else {
      assert BodyText(m.body)[..0] == "";
    }
  }

  lemma DataTextContinues(m: Message, k: nat, q: Phase)
    requires LegalCut(m, AtData(k)) && LegalCut(m, q) && Before(AtData(k), q)
    ensures BodyUpto(m, AtData(k)) + Text(m, AtData(k), q) == BodyUpto(m, q) && Text(m, AtData(k), q) != ""
  {
    if q.AtData? {
      assert m.body.data[..k] + m.body.data[k..q.k] == m.body.data[..q.k];
    } else {
      BodySplits(m, k);
    }
  }

  lemma TextContinues(m: Message, p: Phase, q: Phase)
    requires LegalCut(m, p) && LegalCut(m, q) && Before(p, q)
    ensures Upto(m, p) + Text(m, p, q) == Upto(m, q) && Text(m, p, q) != ""
  {
    match p
    case AtLine => LineTextContinues(m, q);
    case AtHeader(i) => HeaderTextContinues(m, i, q);
    case AtBody(k) => BodyTextContinues(m, k, q);
    case AtData(k) => DataTextContinues(m, k, q);
  }

  lemma LineTextContinues(m: Message, q: Phase)
    requires LegalCut(m, q) && Before(AtLine, q)
    ensures Text(m, AtLine, q) == Upto(m, q) && Text(m, AtLine, q) != ""
  {
    UptoFirstHeader(m);
    if q == AtHeader(0) {
      assert Upto(m, q) + "" == Upto(m, q);
    } else {
      HeaderTextContinues(m, 0, q);
    }
  }

  lemma UptoFirstHeader(m: Message)
    ensures Upto(m, AtHeader(0)) == RequestLine(m) + CRLF && Upto(m, AtHeader(0)) != ""
  {
    assert m.headers[..0] == [];
    NothingAdded(RequestLine(m) + CRLF);
  }

  lemma NothingAdded(s: string)
    ensures s + "" == s
  {
  }

  lemma HeaderTextContinues(m: Message, i: nat, q: Phase)
    requires LegalCut(m, AtHeader(i)) && LegalCut(m, q) && Before(AtHeader(i), q)
    ensures Upto(m, AtHeader(i)) + Text(m, AtHeader(i), q) == Upto(m, q) && Text(m, AtHeader(i), q) != ""
  {
    if q.AtHeader? { HeaderLinesContinue(m, i, q.i); } else { HeadEndContinues(m, i, q); }
  }

  lemma HeadEndContinues(m: Message, i: nat, q: Phase)
    requires LegalCut(m, AtHeader(i)) && LegalCut(m, q) && !q.AtLine? && !q.AtHeader?
    ensures Upto(m, AtHeader(i)) + (HeadersText(m.headers[i..]) + CRLF + BodyUpto(m, q)) == Upto(m, q)
  {
    HeadSplits(m, i);
    Assoc(Upto(m, AtHeader(i)), HeadersText(m.headers[i..]) + CRLF, BodyUpto(m, q));
  }

  lemma HeaderLinesContinue(m: Message, i: nat, j: nat)
    requires i < j <= |m.headers|
    ensures Upto(m, AtHeader(i)) + HeadersText(m.headers[i..j]) == Upto(m, AtHeader(j))
    ensures HeadersText(m.headers[i..j]) != ""
  {
    assert m.headers[..i] + m.headers[i..j] == m.headers[..j];
    HeadersTextAppend(m.headers[..i], m.headers[i..j]);
    Assoc(RequestLine(m) + CRLF, HeadersText(m.headers[..i]), HeadersText(m.headers[i..j]));
    HeadersSplit(m.headers[i..j], "");
  }

  /** The chunk between two cuts of the printed message. */
  lemma TextIsSlice(m: Message, p: Phase, q: Phase)
    requires LegalCut(m, p) && LegalCut(m, q) && Before(p, q)
    ensures Offset(m, p) < Offset(m, q) <= |Print(m)|
    ensures Print(m)[Offset(m, p)..Offset(m, q)] == Text(m, p, q)
  {
    UptoIsPrefix(m, p);
    UptoIsPrefix(m, q);
    TextContinues(m, p, q);
    assert Print(m)[..Offset(m, q)] == Upto(m, q) && Print(m)[..Offset(m, p)] == Upto(m, p);
    assert Print(m)[Offset(m, p)..Offset(m, q)] == Print(m)[..Offset(m, q)][Offset(m, p)..];
  }
}
