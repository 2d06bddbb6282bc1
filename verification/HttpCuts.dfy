/** Exactly which chunk ends `parseRequest` returns from: the legal cuts, and a multipart upload cut anywhere behind its
    closing delimiter. Every other end leaves the loop spinning. */
module HttpCuts {
  import opened Common
  import opened HttpText
  import opened HttpSpec
  import opened HttpMessage
  import opened HttpRoundTrip
  import opened HttpTheorems

  // ---------------------------------------------------------------------------------------------
  // Patterns that are not there
  // ---------------------------------------------------------------------------------------------

  ghost predicate NoMatch(t: string, pat: string) {
    forall i: nat :: !MatchAt(t, pat, i)
  }

  lemma MatchInTail(buffer: string, pos: nat, t: string, pat: string, at: nat)
    requires pos <= at && pos <= |buffer| && buffer[pos..] == t && MatchAt(buffer, pat, at)
    ensures MatchAt(t, pat, at - pos)
  {
    assert buffer[pos..][at - pos..at - pos + |pat|] == buffer[at..at + |pat|];
  }

  lemma NoneFound(buffer: string, pos: nat, t: string, pat: string)
    requires pos <= |buffer| && buffer[pos..] == t && NoMatch(t, pat)
    ensures Find(buffer, pat, pos) == None
  {
    FindIsFirst(buffer, pat, pos);
    var at := Find(buffer, pat, pos);
    if at.Some? {
      MatchInTail(buffer, pos, t, pat, at.value);
    }
  }

  /** A part of a line with its line break has no line break in it. */
  lemma PartOfLine(line: string, j: nat)
    requires '\r' !in line && j < |line| + 2
    ensures NoMatch((line + CRLF)[..j], CRLF)
  {
    var t := (line + CRLF)[..j];
    forall i: nat ensures !MatchAt(t, CRLF, i) {
      if i + 2 <= |t| {
        assert t[i..i + 2][0] == t[i] == line[i];
      }
    }
  }

  /** A part of a text that ends with the first match of a pattern has no match. */
  lemma PartOfFirst(text: string, pat: string, j: nat)
    requires |pat| <= |text| && j < |text| && Find(text, pat, 0) == Some(|text| - |pat|)
    ensures NoMatch(text[..j], pat)
  {
    FindIsFirst(text, pat, 0);
    forall i: nat ensures !MatchAt(text[..j], pat, i) {
      if i + |pat| <= j {
        assert text[..j][i..i + |pat|] == text[i..i + |pat|];
        assert !MatchAt(text, pat, i);
      }
    }
  }

  // ---------------------------------------------------------------------------------------------
  // Cuts inside a line of the head
  // ---------------------------------------------------------------------------------------------

  /** A part of a line, with no line break in it. */
  ghost predicate Unfinished(t: string) {
    t != "" && NoMatch(t, CRLF)
  }

  lemma LineSpins(m: Message, t: string, c: Context)
    requires Ready(m, AtLine, c, t) && Unfinished(t)
    ensures Valid(c) && Loop(c, false, false) == Spins
  {
    NoneFound(c.buffer, c.pos, t, CRLF);
    assert LinePass(c, false, false).ctx == c;
  }

  lemma NoLineRead(c: Context, t: string, ok: bool)
    requires c.pos <= |c.buffer| && c.buffer[c.pos..] == t && Unfinished(t)
    ensures HeaderLines(c, ok, false) == Pass(c, ok, false)
  {
    NoneFound(c.buffer, c.pos, t, CRLF);
  }

  lemma HeaderSpins(m: Message, i: nat, t: string, c: Context, ok: bool)
    requires Supported(m) && i <= |m.headers| && Ready(m, AtHeader(i), c, t) && Unfinished(t)
    ensures Valid(c) && Loop(c, ok, false) == Spins
  {
    NoLineRead(c, t, ok);
    CheckRead(m, i, Pass(c, ok, false));
    assert OnePass(c, ok, false) == Pass(c, ok, false);
  }

  /** Header lines, then a part of one. */
  lemma HeadersSpin(m: Message, h: nat, i: nat, t: string, c: Context)
    requires Supported(m) && h <= i <= |m.headers| && Unfinished(t)
    requires Ready(m, AtHeader(h), c, HeadersText(m.headers[h..i]) + t)
    ensures Valid(c) && Loop(c, false, false) == Spins
  {
    if h == i {
      assert HeadersText(m.headers[h..i]) + t == t;
      HeaderSpins(m, i, t, c, false);
    } else {
      var c' := LinesRead(m, h, i, c, t, false);
      NoLineRead(c', t, false);
      BoundaryKept(m, h, i);
      CheckRead(m, i, Pass(c', false, false));
      HeadersSplit(m.headers[h..i], t);
      var p := OnePass(c, false, false);
      assert Ready(m, AtHeader(i), p.ctx, t);
      HeaderSpins(m, i, t, p.ctx, false);
    }
  }

  // ---------------------------------------------------------------------------------------------
  // Cuts inside the introduction of a part
  // ---------------------------------------------------------------------------------------------

  lemma NoHeaderEnd(c: Context, start: nat, delimLength: nat, header: string, j: nat, ok: bool)
    requires c.pos <= start <= |c.buffer| && j < |header + "\r\n\r\n"|
    requires c.buffer[start..] == (header + "\r\n\r\n")[..j]
    requires EndsAtBlankLine(header)
    ensures PartHeadFrom(c, start, delimLength, ok, false) == (Pass(c, false, false), false)
  {
    PartOfFirst(header + "\r\n\r\n", "\r\n\r\n", j);
    NoneFound(c.buffer, start, (header + "\r\n\r\n")[..j], "\r\n\r\n");
  }

  lemma ShortRestHasNoEnd(c: Context, start: nat, delimLength: nat, ok: bool)
    requires c.pos <= start <= |c.buffer| && |c.buffer| - start < 4
    ensures PartHeadFrom(c, start, delimLength, ok, false) == (Pass(c, false, false), false)
  {
  }

  /** The text behind the delimiter up to the end of the part header. */
  function AfterDelim(header: string): string {
    CRLF + (header + "\r\n\r\n")
  }

  /** Where the part header starts, once its delimiter has been found. */
  lemma BehindDelim(c: Context, after: nat, start: nat, ok: bool)
    requires Find(c.buffer, Delim(c.request.boundary), c.pos) == Some(c.pos) && after == c.pos + |Delim(c.request.boundary)|
    requires after <= |c.buffer| && !MatchAt(c.buffer, "--", after) && PartStart(c.buffer, after) == start
    ensures PartHead(c, ok, false) == PartHeadFrom(c, start, |Delim(c.request.boundary)|, ok, false)
  {
  }

  lemma DelimThenLittle(c: Context, after: nat, ok: bool)
    requires Find(c.buffer, Delim(c.request.boundary), c.pos) == Some(c.pos) && after == c.pos + |Delim(c.request.boundary)|
    requires after <= |c.buffer| < after + 2
    ensures PartHead(c, ok, false) == (Pass(c, false, false), false)
  {
    BehindDelim(c, after, after, ok);
    ShortRestHasNoEnd(c, after, |Delim(c.request.boundary)|, ok);
  }

  lemma DelimThenHeader(c: Context, after: nat, header: string, j: nat, ok: bool)
    requires Find(c.buffer, Delim(c.request.boundary), c.pos) == Some(c.pos) && after == c.pos + |Delim(c.request.boundary)|
    requires j < |header + "\r\n\r\n"| && after <= |c.buffer| && c.buffer[after..] == CRLF + (header + "\r\n\r\n")[..j]
    requires EndsAtBlankLine(header)
    ensures PartHead(c, ok, false) == (Pass(c, false, false), false)
  {
    Drop(c.buffer, after, CRLF, (header + "\r\n\r\n")[..j], after + 2);
    CrlfSkipped(c.buffer, after);
    BehindDelim(c, after, after + 2, ok);
    NoHeaderEnd(c, after + 2, |Delim(c.request.boundary)|, header, j, ok);
  }

  lemma DelimThenPart(c: Context, header: string, j: nat, ok: bool)
    requires c.pos <= |c.buffer| && j < |AfterDelim(header)|
    requires c.buffer[c.pos..] == Delim(c.request.boundary) + AfterDelim(header)[..j]
    requires EndsAtBlankLine(header)
    ensures PartHead(c, ok, false) == (Pass(c, false, false), false)
  {
    var delim, t := Delim(c.request.boundary), AfterDelim(header)[..j];
    var after := c.pos + |delim|;
    DelimAtStart(c.buffer, c.pos, delim, t);
    Drop(c.buffer, c.pos, delim, t, after);
    if j < 2 {
      DelimThenLittle(c, after, ok);
    } else {
      PrefixSplits(CRLF, header + "\r\n\r\n", j);
      DelimThenHeader(c, after, header, j - 2, ok);
    }
  }

  lemma PartOfDelim(c: Context, j: nat, ok: bool)
    requires c.pos <= |c.buffer| && |c.buffer| - c.pos < |Delim(c.request.boundary)|
    ensures PartHead(c, ok, false) == (Pass(c, false, false), false)
  {
  }

  lemma IntroSplits(m: Message)
    requires m.body.Multipart?
    ensures PartIntro(m.body) == Delim(m.body.boundary) + AfterDelim(m.body.partHeader)
  {
    Assoc(Delim(m.body.boundary) + CRLF, m.body.partHeader, "\r\n\r\n");
    Assoc(Delim(m.body.boundary), CRLF, m.body.partHeader + "\r\n\r\n");
  }

  lemma PrefixSplits(a: string, b: string, j: nat)
    requires |a| <= j <= |a + b|
    ensures (a + b)[..j] == a + b[..j - |a|]
  {
  }

  lemma IntroNotRead(m: Message, j: nat, c: Context, ok: bool)
    requires Supported(m) && m.body.Multipart? && c.request.boundary == m.body.boundary
    requires j < |PartIntro(m.body)| && c.pos <= |c.buffer| && c.buffer[c.pos..] == PartIntro(m.body)[..j]
    ensures PartHead(c, ok, false) == (Pass(c, false, false), false)
  {
    IntroSplits(m);
    var delim := Delim(m.body.boundary);
    if j < |delim| {
      PartOfDelim(c, j, ok);
    } else {
      PrefixSplits(delim, AfterDelim(m.body.partHeader), j);
      DelimThenPart(c, m.body.partHeader, j - |delim|, ok);
    }
  }

  lemma IntroSpins(m: Message, j: nat, c: Context, ok: bool)
    requires Supported(m) && m.body.Multipart? && CarriesBody(m.verb) && 0 < j < |PartIntro(m.body)|
    requires Ready(m, AtBody(0), c, PartIntro(m.body)[..j])
    ensures Valid(c) && Loop(c, ok, false) == Spins
  {
    ContentTypeSoFar(m, |m.headers|);
    IntroNotRead(m, j, c, ok);
    assert OnePass(c, ok, false).ctx == c;
  }

  // ---------------------------------------------------------------------------------------------
  // Cuts behind the data of a part
  // ---------------------------------------------------------------------------------------------

  /** Too few bytes for a closing delimiter behind the data: the data is collected, the rest stays. */
  lemma ShortCollected(c: Context, left: nat)
    requires Left(c, left) && left <= |c.buffer| < left + |Closing(c.request.boundary)|
    ensures PartData(c, false) ==
              Pass(c.(request := c.request.Collect(c.buffer[..left]), received := c.received + left, buffer := c.buffer[left..]),
                   false, false)
  {
    LeftExact(c, left);
  }

  lemma ShortTail(m: Message, k: nat, t: string, c: Context)
    requires Supported(m) && m.body.Multipart? && k <= |m.body.data| && |t| < |Closing(m.body.boundary)|
    requires Ready(m, AtData(k), c, m.body.data[k..] + t)
    ensures PartData(c, false) ==
              Pass(c.(request := PartRequest(m, |m.body.data|), received := c.received + (|m.body.data| - k), buffer := t),
                   false, false)
  {
    var d := |m.body.data| - k;
    DataLeft(m, k, c, m.body.data[k..] + t);
    ShortCollected(c, d);
    CollectMore(m, k, |m.body.data|);
    assert c.buffer[..d] == m.body.data[k..|m.body.data|] && c.buffer[d..] == t;
  }

  lemma ShortTailSpins(m: Message, t: string, c: Context, ok: bool)
    requires Supported(m) && m.body.Multipart? && 0 < |t| < |Closing(m.body.boundary)|
    requires Ready(m, AtData(|m.body.data|), c, t)
    ensures Valid(c) && Loop(c, ok, false) == Spins
  {
    var n := |m.body.data|;
    assert m.body.data[n..] + t == t;
    ContentTypeSoFar(m, |m.headers|);
    ShortTail(m, n, t, c);
    assert OnePass(c, ok, false) == PartData(c, false);
  }

  /** Data, then a part of the closing delimiter. */
  lemma DataSpins(m: Message, k: nat, t: string, c: Context, ok: bool)
    requires Supported(m) && m.body.Multipart? && k <= |m.body.data| && 0 < |t| < |Closing(m.body.boundary)|
    requires Ready(m, AtData(k), c, m.body.data[k..] + t)
    ensures Valid(c) && Loop(c, ok, false) == Spins
  {
    var n := |m.body.data|;
    if k == n {
      assert m.body.data[n..] + t == t;
      ShortTailSpins(m, t, c, ok);
    } else {
      ContentTypeSoFar(m, |m.headers|);
      ShortTail(m, k, t, c);
      var p := OnePass(c, ok, false);
      assert p == PartData(c, false);
      ShortTailSpins(m, t, p.ctx, p.ok);
    }
  }

  // ---------------------------------------------------------------------------------------------
  // From any legal cut to a place between two
  // ---------------------------------------------------------------------------------------------

  /** The legal cut that follows. */
  function Next(m: Message, q: Phase): Phase
    requires LegalCut(m, q) && !q.AtEnd?
  {
    match q
    case AtLine => AtHeader(0)
    case AtHeader(i) => if i < |m.headers| then AtHeader(i + 1) else AfterHead(m)
    case AtBody(k) => if m.body.Multipart? then AtData(0) else BodyCut(m, k + 1)
    case AtData(k) => if k < |m.body.data| then AtData(k + 1) else AtEnd
  }

  lemma NextIsLegal(m: Message, q: Phase)
    requires Supported(m) && LegalCut(m, q) && !q.AtEnd?
    ensures LegalCut(m, Next(m, q)) && Before(q, Next(m, q))
    ensures Offset(m, q) < Offset(m, Next(m, q)) <= |Print(m)|
  {
    assert LegalCut(m, Next(m, q)) && Before(q, Next(m, q));
    TextIsSlice(m, q, Next(m, q));
  }

  /** `t` is a proper part of the text from the cut `q` to the next one. */
  predicate Gap(m: Message, q: Phase, t: string)
    requires Supported(m) && LegalCut(m, q) && !q.AtEnd?
  {
    NextIsLegal(m, q);
    0 < |t| < |Text(m, q, Next(m, q))| && t == Text(m, q, Next(m, q))[..|t|]
  }

  /** The part reaches behind the closing delimiter of an upload. */
  predicate EndsUpload(m: Message, q: Phase, t: string) {
    m.body.Multipart? && q.AtData? && |t| >= |Closing(m.body.boundary)|
  }

  /** The call that ends with `t` behind the cut `q` completes the request or never returns. */
  predicate Settles(m: Message, q: Phase, t: string, out: Outcome) {
    if EndsUpload(m, q, t) then Reaches(m, AtEnd, out) else out == Spins
  }

  lemma HeaderText1(m: Message, i: nat)
    requires i < |m.headers|
    ensures Text(m, AtHeader(i), AtHeader(i + 1)) == HeaderText(m.headers[i]) + CRLF
  {
    assert m.headers[i..i + 1] == [m.headers[i]];
    HeadersSplit([m.headers[i]], "");
    assert [m.headers[i]][1..] == [];
  }

  lemma BlankText(m: Message)
    requires Supported(m) && LegalCut(m, AfterHead(m))
    ensures Text(m, AtHeader(|m.headers|), AfterHead(m)) == "" + CRLF
  {
    assert m.headers[|m.headers|..] == [];
    assert BodyUpto(m, AfterHead(m)) == "";
  }

  lemma HeaderGap(m: Message, i: nat, t: string)
    requires Supported(m) && i <= |m.headers| && Gap(m, AtHeader(i), t)
    ensures Unfinished(t)
  {
    NextIsLegal(m, AtHeader(i));
    if i < |m.headers| {
      HeaderLineParsed(EMPTY_REQUEST, m.headers[i]);
      HeaderText1(m, i);
      PartOfLine(HeaderText(m.headers[i]), |t|);
    } else {
      BlankText(m);
      PartOfLine("", |t|);
    }
  }

  lemma LineGap(m: Message, t: string)
    requires Supported(m) && Gap(m, AtLine, t)
    ensures Unfinished(t)
  {
    NextIsLegal(m, AtLine);
    RequestLineClean(m);
    assert Text(m, AtLine, AtHeader(0)) == RequestLine(m) + CRLF;
    PartOfLine(RequestLine(m), |t|);
  }

  lemma IntroGap(m: Message, t: string)
    requires Supported(m) && m.body.Multipart? && LegalCut(m, AtBody(0)) && Gap(m, AtBody(0), t)
    ensures 0 < |t| < |PartIntro(m.body)| && t == PartIntro(m.body)[..|t|]
  {
    NextIsLegal(m, AtBody(0));
    assert m.body.data[..0] == "";
    assert Text(m, AtBody(0), AtData(0)) == PartIntro(m.body);
  }

  lemma NoGapInData(m: Message, q: Phase, t: string)
    requires Supported(m) && LegalCut(m, q) && !q.AtEnd? && Gap(m, q, t)
    ensures q.AtBody? ==> m.body.Multipart?
    ensures q.AtData? ==> q.k == |m.body.data|
  {
    NextIsLegal(m, q);
  }

  lemma ClosingGap(m: Message, t: string)
    requires Supported(m) && m.body.Multipart? && Gap(m, AtData(|m.body.data|), t)
    ensures |t| < |Closing(m.body.boundary)| + 2
    ensures |t| >= |Closing(m.body.boundary)| ==>
              t == Closing(m.body.boundary) + CRLF[..|t| - |Closing(m.body.boundary)|]
  {
    var n, closing := |m.body.data|, Closing(m.body.boundary);
    NextIsLegal(m, AtData(n));
    assert m.body.data[n..] == "";
    assert Text(m, AtData(n), AtEnd) == closing + CRLF;
    if |t| >= |closing| {
      PrefixSplits(closing, CRLF, |t|);
    }
  }

  lemma DataSettles(m: Message, k: nat, t: string, c: Context, ok: bool)
    requires Supported(m) && m.body.Multipart? && k <= |m.body.data| && Gap(m, AtData(|m.body.data|), t)
    requires Ready(m, AtData(k), c, m.body.data[k..] + t)
    ensures Valid(c) && Settles(m, AtData(|m.body.data|), t, Loop(c, ok, false))
  {
    var closing := Closing(m.body.boundary);
    ClosingGap(m, t);
    if |t| < |closing| {
      DataSpins(m, k, t, c, ok);
    } else {
      var rest := CRLF[..|t| - |closing|];
      Assoc(m.body.data[k..], closing, rest);
      LastDataRun(m, k, rest, c, ok);
    }
  }

  /** A pass that does the work of a pass further on, and of the way there. */
  lemma SamePassSameLoop(c: Context, c': Context, ok: bool)
    requires Valid(c) && Valid(c') && c.pos < |c.buffer| && c'.pos < |c'.buffer|
    requires c.state == c'.state && !c.state.GotAll? && |c'.buffer| - c'.pos <= |c.buffer| - c.pos
    requires OnePass(c, ok, false) == OnePass(c', ok, false) && Advances(c', OnePass(c', ok, false).ctx)
    ensures Loop(c, ok, false) == Loop(c', ok, false)
  {
  }

  lemma DataAdvances(m: Message, t: string, c: Context, ok: bool)
    requires Supported(m) && m.body.Multipart? && Gap(m, AtData(|m.body.data|), t)
    requires Ready(m, AtData(0), c, m.body.data + t)
    requires m.body.data != "" || |t| >= |Closing(m.body.boundary)|
    ensures Valid(c) && Advances(c, OnePass(c, ok, false).ctx)
  {
    assert m.body.data[0..] == m.body.data;
    ContentTypeSoFar(m, |m.headers|);
    if |t| < |Closing(m.body.boundary)| {
      ShortTail(m, 0, t, c);
      assert OnePass(c, ok, false) == PartData(c, false);
    } else {
      DataSettles(m, 0, t, c, ok);
    }
  }

  lemma EmptyDataStays(m: Message, t: string, c: Context, ok: bool)
    requires Supported(m) && m.body.Multipart? && m.body.data == "" && 0 < |t| < |Closing(m.body.boundary)|
    requires Ready(m, AtData(0), c, t)
    ensures Valid(c) && OnePass(c, ok, false) == Pass(c, false, false)
  {
    assert m.body.data[0..] + t == t;
    ContentTypeSoFar(m, |m.headers|);
    ShortTail(m, 0, t, c);
  }

  /** From the start of a multipart body. */
  lemma PartSettles(m: Message, t: string, c: Context, ok: bool)
    requires Supported(m) && m.body.Multipart? && CarriesBody(m.verb) && Gap(m, AtData(|m.body.data|), t)
    requires Ready(m, AtBody(0), c, PartIntro(m.body) + (m.body.data + t))
    ensures Valid(c) && Settles(m, AtData(|m.body.data|), t, Loop(c, ok, false))
  {
    var c' := PartHeadRun(m, m.body.data + t, c, ok);
    assert m.body.data[0..] == m.body.data;
    if m.body.data == "" && |t| < |Closing(m.body.boundary)| {
      assert m.body.data + t == t;
      EmptyDataStays(m, t, c', ok);
      DataSettles(m, 0, t, c', false);
    } else {
      DataAdvances(m, t, c', ok);
      SamePassSameLoop(c, c', ok);
      DataSettles(m, 0, t, c', ok);
    }
  }

  /** What lies between the start of the body and a place in it. */
  function InBody(m: Message, q: Phase, t: string): string
    requires m.body.Multipart?
  {
    if q.AtBody? then t else PartIntro(m.body) + (m.body.data + t)
  }

  predicate BodyGap(m: Message, q: Phase, t: string)
    requires Supported(m)
  {
    && m.body.Multipart? && (q == AtBody(0) || q == AtData(|m.body.data|))
    && LegalCut(m, q) && Gap(m, q, t)
  }

  lemma BodySettles(m: Message, q: Phase, t: string, c: Context, ok: bool)
    requires Supported(m) && BodyGap(m, q, t) && CarriesBody(m.verb)
    requires Ready(m, AtBody(0), c, InBody(m, q, t))
    ensures Valid(c) && Settles(m, q, t, Loop(c, ok, false))
  {
    if q.AtBody? {
      IntroGap(m, t);
      IntroSpins(m, |t|, c, ok);
    } else {
      PartSettles(m, t, c, ok);
    }
  }

  lemma HeadSettles(m: Message, h: nat, q: Phase, t: string, c: Context)
    requires Supported(m) && h <= |m.headers| && BodyGap(m, q, t)
    requires Ready(m, AtHeader(h), c, HeadersText(m.headers[h..]) + CRLF + InBody(m, q, t))
    ensures Valid(c) && Settles(m, q, t, Loop(c, false, false))
  {
    var p := HeadRun(m, h, c, InBody(m, q, t), false);
    assert AfterHead(m) == AtBody(0);
    BodySettles(m, q, t, p.ctx, p.ok);
  }

  /** The printed text between two cuts, or none. */
  function Between(m: Message, p: Phase, q: Phase): string
    requires LegalCut(m, p) && LegalCut(m, q) && (p == q || Before(p, q))
  {
    if p == q then "" else Text(m, p, q)
  }

  lemma BodyBetween(m: Message, q: Phase, t: string)
    requires Supported(m) && BodyGap(m, q, t)
    ensures BodyUpto(m, q) + t == InBody(m, q, t)
  {
    if q.AtBody? {
      assert BodyUpto(m, q) == "";
    } else {
      assert m.body.data[..|m.body.data|] == m.body.data;
      Assoc(PartIntro(m.body), m.body.data, t);
    }
  }

  lemma GapInBody(m: Message, q: Phase, t: string)
    requires Supported(m) && LegalCut(m, q) && !q.AtEnd? && !q.AtLine? && !q.AtHeader? && Gap(m, q, t)
    ensures BodyGap(m, q, t)
  {
    NoGapInData(m, q, t);
  }

  lemma FromHeader(m: Message, h: nat, q: Phase, t: string, c: Context)
    requires Supported(m) && LegalCut(m, AtHeader(h)) && LegalCut(m, q) && !q.AtEnd? && Gap(m, q, t)
    requires AtHeader(h) == q || Before(AtHeader(h), q)
    requires Ready(m, AtHeader(h), c, Between(m, AtHeader(h), q) + t)
    ensures Valid(c) && Settles(m, q, t, Loop(c, false, false))
  {
    if q.AtHeader? {
      HeaderGap(m, q.i, t);
      assert HeadersText(m.headers[h..h]) == "";
      HeadersSpin(m, h, q.i, t, c);
    } else {
      GapInBody(m, q, t);
      BodyBetween(m, q, t);
      Assoc(HeadersText(m.headers[h..]) + CRLF, BodyUpto(m, q), t);
      HeadSettles(m, h, q, t, c);
    }
  }

  lemma FromLine(m: Message, q: Phase, t: string, c: Context)
    requires Supported(m) && LegalCut(m, q) && !q.AtEnd? && Gap(m, q, t)
    requires AtLine == q || Before(AtLine, q)
    requires Ready(m, AtLine, c, Between(m, AtLine, q) + t)
    ensures Valid(c) && Settles(m, q, t, Loop(c, false, false))
  {
    if q.AtLine? {
      LineGap(m, t);
      assert "" + t == t;
      LineSpins(m, t, c);
    } else {
      var more := Between(m, AtHeader(0), q);
      Assoc(RequestLine(m) + CRLF, more, t);
      var c' := LineRun(m, more + t, c);
      FromHeader(m, 0, q, t, c');
    }
  }

  lemma FromBody(m: Message, q: Phase, t: string, c: Context)
    requires Supported(m) && LegalCut(m, AtBody(0)) && BodyGap(m, q, t)
    requires Ready(m, AtBody(0), c, Between(m, AtBody(0), q) + t)
    ensures Valid(c) && Settles(m, q, t, Loop(c, false, false))
  {
    BodyBetween(m, q, t);
    assert "" + t == t;
    BodySettles(m, q, t, c, false);
  }

  lemma FromData(m: Message, k: nat, q: Phase, t: string, c: Context)
    requires Supported(m) && LegalCut(m, AtData(k)) && q == AtData(|m.body.data|) && Gap(m, q, t)
    requires Ready(m, AtData(k), c, Between(m, AtData(k), q) + t)
    ensures Valid(c) && Settles(m, q, t, Loop(c, false, false))
  {
    assert Between(m, AtData(k), q) == m.body.data[k..];
    DataSettles(m, k, t, c, false);
  }

  /** A call from a legal cut whose chunk ends between two later ones. */
  lemma GapSettles(m: Message, p: Phase, q: Phase, t: string, c: Context)
    requires Supported(m) && LegalCut(m, p) && LegalCut(m, q) && !q.AtEnd? && Gap(m, q, t)
    requires p == q || Before(p, q)
    requires Ready(m, p, c, Between(m, p, q) + t)
    ensures Valid(c) && Settles(m, q, t, Loop(c, false, false))
  {
    match p
    case AtLine => FromLine(m, q, t, c);
    case AtHeader(h) => FromHeader(m, h, q, t, c);
    case AtBody(k) =>
      GapInBody(m, q, t);
      FromBody(m, q, t, c);
    case AtData(k) =>
      GapInBody(m, q, t);
      FromData(m, k, q, t, c);
  }

  // ---------------------------------------------------------------------------------------------
  // Where a chunk can end
  // ---------------------------------------------------------------------------------------------

  /** The last legal cut at or before a place of the printed request. */
  lemma FloorOf(m: Message, from: Phase, n: nat) returns (q: Phase)
    requires Supported(m) && LegalCut(m, from) && Offset(m, from) <= n < |Print(m)|
    ensures LegalCut(m, q) && !q.AtEnd? && (q == from || Before(from, q))
    ensures Offset(m, q) <= n < Offset(m, Next(m, q)) <= |Print(m)| && LegalCut(m, Next(m, q))
    decreases |Print(m)| - Offset(m, from)
  {
    NextIsLegal(m, from);
    if n < Offset(m, Next(m, from)) {
      q := from;
    } else {
      q := FloorOf(m, Next(m, from), n);
      BeforeChain(from, Next(m, from), q);
    }
  }

  lemma BeforeChain(p: Phase, q: Phase, r: Phase)
    requires Before(p, q) && (q == r || Before(q, r))
    ensures Before(p, r)
  {
  }

  ghost predicate AtLegalCut(m: Message, n: nat) {
    exists q :: LegalCut(m, q) && Offset(m, q) == n
  }

  /** Behind the closing delimiter of an upload, before or inside the line break that follows it. */
  predicate BehindClosing(m: Message, n: nat) {
    m.body.Multipart? && |Print(m)| - 2 <= n < |Print(m)|
  }

  lemma SliceOfSlice(s: string, a: nat, n: nat, b: nat)
    requires a <= n <= b <= |s|
    ensures s[a..n] == s[a..b][..n - a]
  {
  }

  lemma SliceJoins(s: string, a: nat, b: nat, n: nat)
    requires a <= b <= n <= |s|
    ensures s[a..n] == s[a..b] + s[b..n]
  {
  }

  /** The chunk up to a place between two legal cuts, cut at the first of them. */
  lemma GapChunk(m: Message, p: Phase, q: Phase, n: nat) returns (t: string)
    requires Supported(m) && LegalCut(m, p) && LegalCut(m, q) && !q.AtEnd? && (p == q || Before(p, q))
    requires LegalCut(m, Next(m, q)) && Offset(m, q) < n < Offset(m, Next(m, q)) <= |Print(m)|
    ensures Offset(m, p) <= Offset(m, q) && Gap(m, q, t) && |t| == n - Offset(m, q)
    ensures Print(m)[Offset(m, p)..n] == Between(m, p, q) + t
  {
    var s := Print(m);
    NextIsLegal(m, q);
    TextIsSlice(m, q, Next(m, q));
    t := s[Offset(m, q)..n];
    SliceOfSlice(s, Offset(m, q), n, Offset(m, Next(m, q)));
    if p != q {
      TextIsSlice(m, p, q);
      SliceJoins(s, Offset(m, p), Offset(m, q), n);
    }
  }

  lemma ClosingOffset(m: Message)
    requires Supported(m) && m.body.Multipart?
    ensures Offset(m, AtData(|m.body.data|)) + |Closing(m.body.boundary)| + 2 == |Print(m)|
  {
    BodyLength(m.body);
  }

  lemma OffsetOrder(m: Message, p: Phase, q: Phase)
    requires LegalCut(m, p) && LegalCut(m, q) && Offset(m, p) < Offset(m, q)
    ensures Before(p, q)
  {
    if !Before(p, q) && p != q {
      assert Before(q, p);
      TextIsSlice(m, q, p);
    }
  }

  /** Between two legal cuts. */
  lemma GapFeed(m: Message, p: Phase, c: Context, q: Phase, n: nat)
    requires Supported(m) && LegalCut(m, p) && !p.AtEnd? && Valid(c) && Ready(m, p, c, "")
    requires LegalCut(m, q) && !q.AtEnd? && (p == q || Before(p, q))
    requires LegalCut(m, Next(m, q)) && Offset(m, q) < n < Offset(m, Next(m, q)) <= |Print(m)|
    ensures Offset(m, p) < n
    ensures var out := Feed(c, Print(m)[Offset(m, p)..n]);
      if BehindClosing(m, n) then Reaches(m, AtEnd, out) else out == Spins
  {
    var t := GapChunk(m, p, q, n);
    FedReady(m, p, c, Between(m, p, q) + t);
    GapSettles(m, p, q, t, c.(buffer := c.buffer + (Between(m, p, q) + t)));
    NoGapInData(m, q, t);
    EndsBehindClosing(m, q, t);
  }

  lemma EndsBehindClosing(m: Message, q: Phase, t: string)
    requires Supported(m) && LegalCut(m, q) && !q.AtEnd? && Gap(m, q, t)
    ensures EndsUpload(m, q, t) <==> BehindClosing(m, Offset(m, q) + |t|)
  {
    NoGapInData(m, q, t);
    NextIsLegal(m, q);
    TextIsSlice(m, q, Next(m, q));
    if m.body.Multipart? {
      ClosingOffset(m);
      if !q.AtData? {
        NextBeforeClosing(m, q);
      }
    }
  }

  lemma NextBeforeClosing(m: Message, q: Phase)
    requires Supported(m) && m.body.Multipart? && LegalCut(m, q) && !q.AtEnd? && !q.AtData? && LegalCut(m, Next(m, q))
    ensures Offset(m, Next(m, q)) <= Offset(m, AtData(|m.body.data|))
  {
    var n := AtData(|m.body.data|);
    assert BodyText(m.body) != "" && AfterHead(m) == AtBody(0);
    if Next(m, q) != n {
      assert Before(Next(m, q), n);
      TextIsSlice(m, Next(m, q), n);
    }
  }

  lemma LegalFeed(m: Message, p: Phase, c: Context, q: Phase)
    requires Supported(m) && LegalCut(m, p) && !p.AtEnd? && Valid(c) && Ready(m, p, c, "")
    requires LegalCut(m, q) && Offset(m, p) < Offset(m, q) <= |Print(m)|
    ensures Reaches(m, q, Feed(c, Print(m)[Offset(m, p)..Offset(m, q)]))
  {
    OffsetOrder(m, p, q);
    TextIsSlice(m, p, q);
    assert Text(m, p, q) + "" == Text(m, p, q);
    CallReaches(m, p, q, "", c);
  }

  /** From any legal cut on, a call whose chunk ends inside the request returns exactly when it ends at a legal cut or
      behind the closing delimiter; in that last case the answer is already true and the request recovered. */
  lemma ReturnsIff(m: Message, p: Phase, c: Context, n: nat)
    requires Supported(m) && LegalCut(m, p) && !p.AtEnd? && Valid(c) && Ready(m, p, c, "")
    requires Offset(m, p) < n < |Print(m)|
    ensures var out := Feed(c, Print(m)[Offset(m, p)..n]);
      && (out.Done? <==> AtLegalCut(m, n) || BehindClosing(m, n))
      && (BehindClosing(m, n) ==> out.ok && !out.isErr && Recovered(m, out.ctx.request))
  {
    var q := FloorOf(m, p, n);
    FinalIsRecovered(m);
    if Offset(m, q) == n {
      LegalFeed(m, p, c, q);
      NotBehindClosing(m, q);
    } else {
      GapFeed(m, p, c, q, n);
      if AtLegalCut(m, n) {
        var r :| LegalCut(m, r) && Offset(m, r) == n;
        LegalFeed(m, p, c, r);
      }
    }
  }

  lemma NotBehindClosing(m: Message, q: Phase)
    requires Supported(m) && LegalCut(m, q) && !q.AtEnd?
    ensures !BehindClosing(m, Offset(m, q))
  {
    if m.body.Multipart? {
      ClosingOffset(m);
      var n := AtData(|m.body.data|);
      if q != n {
        assert BodyText(m.body) != "";
        assert Before(q, n);
        TextIsSlice(m, q, n);
      }
    }
  }

  /** The first call of a connection. */
  lemma FirstCallReturnsIff(m: Message, n: nat)
    requires Supported(m) && 0 < n < |Print(m)|
    ensures Feed(START, Print(m)[..n]).Done? <==> AtLegalCut(m, n) || BehindClosing(m, n)
  {
    assert Print(m)[0..n] == Print(m)[..n];
    ReturnsIff(m, AtLine, START, n);
  }

  lemma LineBreakTail(m: Message, n: nat)
    requires Supported(m) && BehindClosing(m, n)
    ensures Print(m)[n..] == CRLF || Print(m)[n..] == "\n"
  {
    var d := |Print(m)| - 2;
    assert Print(m)[d..] == CRLF;
    assert Print(m)[n..] == Print(m)[d..][n - d..];
  }

  lemma LineBreakSpins()
    ensures Feed(START, CRLF) == Spins && Feed(START, "\n") == Spins
  {
    var c := START.(buffer := START.buffer + "\n");
    assert c.buffer == "\n";
    assert LinePass(c, false, false).ctx == c;
    var d := START.(buffer := START.buffer + CRLF);
    assert d.buffer == CRLF && d.buffer[0..0] == "" && MatchAt(d.buffer, CRLF, 0);
    assert Find(d.buffer, CRLF, 0) == Some(0);
    assert ProcessLine(EMPTY_REQUEST, "") == (EMPTY_REQUEST, false);
    assert LinePass(d, false, false).ctx == d;
  }

  /** An upload cut behind its closing delimiter is answered one chunk early; what is left of its line break then meets
      the parser that the worker has reset, which never returns from it. */
  lemma EarlyAnswerThenSpins(m: Message, p: Phase, c: Context, n: nat)
    requires Supported(m) && LegalCut(m, p) && !p.AtEnd? && Valid(c) && Ready(m, p, c, "")
    requires Offset(m, p) < n && BehindClosing(m, n)
    ensures var out := Feed(c, Print(m)[Offset(m, p)..n]); out.Done? && out.ok && Recovered(m, out.ctx.request)
    ensures Feed(START, Print(m)[n..]) == Spins
  {
    ReturnsIff(m, p, c, n);
    LineBreakTail(m, n);
    LineBreakSpins();
  }
}
