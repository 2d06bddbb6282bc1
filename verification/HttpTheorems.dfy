/** The parser's main results: every legal chunking of a printed request gives the request back. */
module HttpTheorems {
  import opened Common
  import opened HttpText
  import opened HttpSpec
  import opened HttpMessage
  import opened HttpRoundTrip

  // ---------------------------------------------------------------------------------------------
  // One call, from any cut to any later cut
  // ---------------------------------------------------------------------------------------------

  lemma DataText(m: Message, k: nat, q: Phase, extra: string)
    requires LegalCut(m, AtData(k)) && LegalCut(m, q) && Before(AtData(k), q) && (extra != "" ==> q.AtEnd?)
    ensures Text(m, AtData(k), q) + extra == if q.AtData? then m.body.data[k..q.k] else DataTail(m, k, CRLF + extra)
  {
  }

  lemma DataAdvance(m: Message, k: nat, q: Phase, extra: string, c: Context)
    requires Supported(m) && LegalCut(m, AtData(k)) && LegalCut(m, q) && Before(AtData(k), q) && (extra != "" ==> q.AtEnd?)
    requires Ready(m, AtData(k), c, Text(m, AtData(k), q) + extra)
    ensures Valid(c) && Reaches(m, q, Loop(c, false, false))
  {
    DataText(m, k, q, extra);
    if q.AtData? {
      DataRun(m, k, q.k, c, false);
    } else {
      LastDataRun(m, k, CRLF + extra, c, false);
    }
  }

  lemma BodyAdvance(m: Message, k: nat, q: Phase, extra: string, c: Context)
    requires Supported(m) && LegalCut(m, AtBody(k)) && LegalCut(m, q) && Before(AtBody(k), q) && (extra != "" ==> q.AtEnd?)
    requires Ready(m, AtBody(k), c, Text(m, AtBody(k), q) + extra)
    ensures Valid(c) && Reaches(m, q, Loop(c, false, false))
  {
    if m.body.Plain? {
      var n := if q.AtBody? then q.k else |m.body.data|;
      assert m.body.data[k..n] == Text(m, AtBody(k), q);
      PlainRun(m, k, n, extra, c, false);
    } else {
      var rest := if q.AtData? then m.body.data[..q.k] else DataTail(m, 0, CRLF + extra);
      PartTextSplits(m, q, extra);
      PartRun(m, rest, extra, q, c);
    }
  }

  lemma PartTextSplits(m: Message, q: Phase, extra: string)
    requires m.body.Multipart? && LegalCut(m, q) && (q.AtData? || q.AtEnd?) && (extra != "" ==> q.AtEnd?)
    ensures BodyUpto(m, q) + extra == PartIntro(m.body) + (if q.AtData? then m.body.data[..q.k] else DataTail(m, 0, CRLF + extra))
  {
    if q.AtEnd? {
      BodySplits(m, 0);
      assert m.body.data[..0] == "";
      assert DataTail(m, 0, CRLF) + extra == DataTail(m, 0, CRLF + extra);
    }
  }

  lemma HeaderAdvance(m: Message, i: nat, q: Phase, extra: string, c: Context)
    requires Supported(m) && LegalCut(m, AtHeader(i)) && LegalCut(m, q) && Before(AtHeader(i), q) && (extra != "" ==> q.AtEnd?)
    requires Ready(m, AtHeader(i), c, Text(m, AtHeader(i), q) + extra)
    ensures Valid(c) && Reaches(m, q, Loop(c, false, false))
  {
    if q.AtHeader? {
      assert Text(m, AtHeader(i), q) + extra == HeadersText(m.headers[i..q.i]);
      HeadersRun(m, i, q.i, c, false);
    } else {
      var rest := BodyUpto(m, q) + extra;
      Assoc(HeadersText(m.headers[i..]) + CRLF, BodyUpto(m, q), extra);
      var p := HeadRun(m, i, c, rest, false);
      HeadAdvance(m, q, extra, p);
    }
  }

  /** From the blank line on. */
  lemma HeadAdvance(m: Message, q: Phase, extra: string, p: Pass)
    requires Supported(m) && LegalCut(m, q) && !q.AtLine? && !q.AtHeader? && (extra != "" ==> q.AtEnd?)
    requires LegalCut(m, AfterHead(m)) && Valid(p.ctx) && !p.isErr && p.ok == AfterHead(m).AtEnd?
    requires Ready(m, AfterHead(m), p.ctx, BodyUpto(m, q) + extra)
    ensures Reaches(m, q, Loop(p.ctx, p.ok, p.isErr))
  {
    if AfterHead(m).AtEnd? {
      NothingAfterHead(m, q);
    } else if q == AtBody(0) {
      assert BodyUpto(m, q) + extra == "";
    } else {
      assert BodyText(m.body)[..0] == "";
      BodyTextContinues(m, 0, q);
      assert Text(m, AtBody(0), q) == BodyUpto(m, q);
      BodyAdvance(m, 0, q, extra, p.ctx);
    }
  }

  lemma NothingAfterHead(m: Message, q: Phase)
    requires Supported(m) && LegalCut(m, q) && !q.AtLine? && !q.AtHeader? && AfterHead(m).AtEnd?
    ensures q.AtEnd?
  {
  }

  /** From the request line on. */
  lemma LineAdvance(m: Message, q: Phase, extra: string, c: Context)
    requires Supported(m) && LegalCut(m, q) && Before(AtLine, q) && (extra != "" ==> q.AtEnd?)
    requires Ready(m, AtLine, c, Text(m, AtLine, q) + extra)
    ensures Valid(c) && Reaches(m, q, Loop(c, false, false))
  {
    var more := if q == AtHeader(0) then "" else Text(m, AtHeader(0), q);
    Assoc(RequestLine(m) + CRLF, more, extra);
    var c' := LineRun(m, more + extra, c);
    if q == AtHeader(0) {
      assert more + extra == "";
    } else {
      HeaderAdvance(m, 0, q, extra, c');
    }
  }

  /** One call of `parseRequest` takes the parser from any cut to any later one; bytes behind the message are not read. */
  lemma Advance(m: Message, p: Phase, q: Phase, extra: string, c: Context)
    requires Supported(m) && LegalCut(m, p) && LegalCut(m, q) && Before(p, q) && (extra != "" ==> q.AtEnd?)
    requires Ready(m, p, c, Text(m, p, q) + extra)
    ensures Valid(c) && Reaches(m, q, Loop(c, false, false))
  {
    match p
    case AtLine => LineAdvance(m, q, extra, c);
    case AtHeader(i) => HeaderAdvance(m, i, q, extra, c);
    case AtBody(k) => BodyAdvance(m, k, q, extra, c);
    case AtData(k) => DataAdvance(m, k, q, extra, c);
  }

  // ---------------------------------------------------------------------------------------------
  // A whole session
  // ---------------------------------------------------------------------------------------------

  /** The outcomes of feeding the chunks one after the other, up to the first call that does not return. */
  function Session(c: Context, chunks: seq<string>): seq<Outcome>
    requires Valid(c)
    decreases |chunks|
  {
    if chunks == [] then []
    else
      var out := Feed(c, chunks[0]);
      [out] + if out.Done? && Valid(out.ctx) then Session(out.ctx, chunks[1..]) else []
  }

  /** Legal cut positions, in order, from `from` to the end of the message. */
  predicate LegalCuts(m: Message, from: Phase, cuts: seq<Phase>)
    decreases |cuts|
  {
    && LegalCut(m, from)
    && if from.AtEnd? then cuts == []
       else cuts != [] && LegalCut(m, cuts[0]) && Before(from, cuts[0]) && LegalCuts(m, cuts[0], cuts[1..])
  }

  /** The slices of the printed message between the cuts; `extra` bytes follow the last one. */
  function Chunks(m: Message, from: Phase, cuts: seq<Phase>, extra: string): seq<string>
    requires LegalCuts(m, from, cuts)
    decreases |cuts|
  {
    if cuts == [] then []
    else
      TextIsSlice(m, from, cuts[0]);
      var chunk := Print(m)[Offset(m, from)..Offset(m, cuts[0])];
      [if cuts[0].AtEnd? then chunk + extra else chunk] + Chunks(m, cuts[0], cuts[1..], extra)
  }

  /** The chunks are the printed message cut into pieces, followed by the extra bytes. */
  lemma {:induction false} ChunksConcat(m: Message, from: Phase, cuts: seq<Phase>, extra: string)
    requires LegalCuts(m, from, cuts)
    ensures Offset(m, from) <= |Print(m)|
    ensures !from.AtEnd? ==> Concat(Chunks(m, from, cuts, extra)) == Print(m)[Offset(m, from)..] + extra
    decreases |cuts|
  {
    if !from.AtEnd? {
      TextIsSlice(m, from, cuts[0]);
      ChunksConcat(m, cuts[0], cuts[1..], extra);
      var chunks := Chunks(m, from, cuts, extra);
      assert chunks[1..] == Chunks(m, cuts[0], cuts[1..], extra);
      SliceSplits(Print(m), Offset(m, from), Offset(m, cuts[0]), extra);
    }
  }

  lemma SliceSplits(s: string, a: nat, b: nat, extra: string)
    requires a <= b <= |s|
    ensures s[a..b] + (s[b..] + extra) == s[a..] + extra
    ensures b == |s| ==> s[a..b] + extra == s[a..] + extra
  {
  }

  /** Every call returns without error, only the last answers true, and the request is recovered. */
  ghost predicate Recovers(m: Message, outs: seq<Outcome>, calls: nat) {
    && |outs| == calls
    && (forall i | 0 <= i < |outs| :: outs[i].Done? && !outs[i].isErr && outs[i].ok == (i == |outs| - 1))
    && (outs != [] ==> Recovered(m, outs[|outs| - 1].ctx.request))
  }

  /** Verb, path, query map, version, header map and body (or the uploaded part) are those of the message. */
  predicate Recovered(m: Message, request: Request) {
    && request.verb == m.verb && request.path == m.path && request.version == VersionText(m)
    && request.query == (if m.query.Some? then QueryMap(map[], m.query.value) else map[])
    && request.headers == HeaderMap(map[], m.headers)
    && request.contentLength == |BodyText(m.body)|
    && match m.body
       case Plain(data) =>
         request.body == data && request.file == "" && request.boundary == "" && request.partHeader == ""
       case Multipart(boundary, partHeader, data) =>
         request.boundary == boundary && request.partHeader == partHeader
         && (if |BodyText(m.body)| <= 1048576 then request.body == data && request.file == ""
             else request.file == data && request.body == "")
  }

  lemma WholeHeaders(m: Message)
    requires Supported(m)
    ensures HeadRequest(m).headers == HeaderMap(map[], m.headers)
    ensures HeadRequest(m).boundary == if m.body.Multipart? then m.body.boundary else ""
  {
    assert m.headers[..|m.headers|] == m.headers;
    ContentTypeSoFar(m, |m.headers|);
  }

  lemma CollectedWhole(m: Message)
    requires m.body.Multipart?
    ensures var request := PartRequest(m, |m.body.data|);
            && (if |BodyText(m.body)| <= 1048576 then request.body == m.body.data && request.file == ""
                else request.file == m.body.data && request.body == "")
            && request == HeadRequest(m).(partHeader := m.body.partHeader, body := request.body, file := request.file)
  {
    assert m.body.data[..|m.body.data|] == m.body.data;
    assert "" + m.body.data == m.body.data;
  }

  lemma FinalIsRecovered(m: Message)
    requires Supported(m)
    ensures Recovered(m, FinalRequest(m))
  {
    WholeHeaders(m);
    if m.body.Multipart? {
      CollectedWhole(m);
    }
  }

  lemma FedReady(m: Message, p: Phase, c: Context, chunk: string)
    requires LegalCut(m, p) && !p.AtEnd? && Ready(m, p, c, "") && (p.AtLine? ==> c.buffer == "")
    ensures Ready(m, p, c.(buffer := c.buffer + chunk), chunk)
  {
    assert c.pos == |c.buffer|;
    assert (c.buffer + chunk)[c.pos..] == chunk;
  }

  /** One call of the session. */
  lemma CallReaches(m: Message, from: Phase, q: Phase, extra: string, c: Context)
    requires Supported(m) && LegalCut(m, from) && !from.AtEnd? && LegalCut(m, q) && Before(from, q) && (extra != "" ==> q.AtEnd?)
    requires Valid(c) && Ready(m, from, c, "")
    ensures Reaches(m, q, Feed(c, Text(m, from, q) + extra))
  {
    FedReady(m, from, c, Text(m, from, q) + extra);
    Advance(m, from, q, extra, c.(buffer := c.buffer + (Text(m, from, q) + extra)));
  }

  lemma FirstChunk(m: Message, from: Phase, cuts: seq<Phase>, extra: string)
    requires LegalCuts(m, from, cuts) && !from.AtEnd?
    ensures var chunks := Chunks(m, from, cuts, extra);
            && chunks != [] && chunks[0] == Text(m, from, cuts[0]) + (if cuts[0].AtEnd? then extra else "")
            && chunks[1..] == Chunks(m, cuts[0], cuts[1..], extra)
  {
    TextIsSlice(m, from, cuts[0]);
    assert Text(m, from, cuts[0]) + "" == Text(m, from, cuts[0]);
  }

  lemma LastOutcome(m: Message, out: Outcome, q: Phase)
    requires Supported(m) && LegalCut(m, q) && q.AtEnd? && Reaches(m, q, out)
    ensures Recovers(m, [out], 1)
  {
    FinalIsRecovered(m);
  }

  /** An outcome before the end leads the list of the others. */
  lemma EarlierOutcome(m: Message, out: Outcome, q: Phase, outs: seq<Outcome>, calls: nat)
    requires LegalCut(m, q) && !q.AtEnd? && Reaches(m, q, out)
    requires calls > 0 && Recovers(m, outs, calls)
    ensures Recovers(m, [out] + outs, calls + 1)
  {
  }

  lemma FirstCall(c: Context, chunks: seq<string>)
    requires Valid(c) && chunks != []
    ensures var out := Feed(c, chunks[0]);
      Session(c, chunks) == [out] + if out.Done? && Valid(out.ctx) then Session(out.ctx, chunks[1..]) else []
  {
  }

  lemma NoMoreCalls(c: Context, chunk: string)
    requires Valid(c)
    ensures Session(c, [chunk]) == [Feed(c, chunk)]
  {
    assert [chunk][1..] == [];
  }

  lemma {:induction false} SessionRecovers(m: Message, from: Phase, cuts: seq<Phase>, extra: string, c: Context)
    requires Supported(m) && LegalCuts(m, from, cuts) && !from.AtEnd? && Valid(c) && Ready(m, from, c, "")
    ensures Recovers(m, Session(c, Chunks(m, from, cuts, extra)), |cuts|)
    decreases |cuts|
  {
    FirstChunk(m, from, cuts, extra);
    if cuts[0].AtEnd? {
      LastCallRecovers(m, from, cuts[0], extra, c);
      var chunks := Chunks(m, from, cuts, extra);
      assert chunks == [chunks[0]];
    } else {
      var q, chunks := cuts[0], Chunks(m, from, cuts, extra);
      CallReaches(m, from, q, "", c);
      var out := Feed(c, chunks[0]);
      ReadyIsValid(m, q, out.ctx);
      SessionRecovers(m, q, cuts[1..], extra, out.ctx);
      FirstCall(c, chunks);
      EarlierOutcome(m, out, q, Session(out.ctx, chunks[1..]), |cuts| - 1);
    }
  }

  lemma LastCallRecovers(m: Message, from: Phase, q: Phase, extra: string, c: Context)
    requires Supported(m) && LegalCut(m, from) && !from.AtEnd? && LegalCut(m, q) && Before(from, q) && q.AtEnd?
    requires Valid(c) && Ready(m, from, c, "")
    ensures Recovers(m, Session(c, [Text(m, from, q) + extra]), 1)
  {
    CallReaches(m, from, q, extra, c);
    NoMoreCalls(c, Text(m, from, q) + extra);
    LastOutcome(m, Feed(c, Text(m, from, q) + extra), q);
  }

  lemma ReadyIsValid(m: Message, q: Phase, c: Context)
    requires Supported(m) && LegalCut(m, q) && !q.AtEnd? && Ready(m, q, c, "")
    ensures Valid(c)
  {
    ContentTypeSoFar(m, |m.headers|);
  }

  /** Feed the printed request to a fresh parser in chunks that end after head lines or anywhere in the body data, with
      any bytes behind the request: every call returns, the completing one and no other answers true, and the request is
      recovered with nothing taken from behind it. */
  lemma ParsedBack(m: Message, cuts: seq<Phase>, extra: string)
    requires Supported(m) && LegalCuts(m, AtLine, cuts)
    ensures Concat(Chunks(m, AtLine, cuts, extra)) == Print(m) + extra
    ensures Recovers(m, Session(START, Chunks(m, AtLine, cuts, extra)), |cuts|)
  {
    ChunksConcat(m, AtLine, cuts, extra);
    assert Print(m)[0..] == Print(m);
    SessionRecovers(m, AtLine, cuts, extra, START);
  }

  // ---------------------------------------------------------------------------------------------
  // A call before the reset
  // ---------------------------------------------------------------------------------------------

  lemma {:induction false} LoopStaysValid(c: Context, ok: bool, isErr: bool)
    requires Valid(c)
    ensures var out := Loop(c, ok, isErr); out.Done? ==> Valid(out.ctx)
    decreases Rank(c.state), |c.buffer| - c.pos
  {
    if c.pos < |c.buffer| && !c.state.GotAll? {
      var p := OnePass(c, ok, isErr);
      if Advances(c, p.ctx) {
        LoopStaysValid(p.ctx, p.ok, p.isErr);
      }
    }
  }

  lemma GotAllAnswers(c: Context, chunk: string)
    requires Valid(c) && c.state.GotAll? && chunk != ""
    ensures Feed(c, chunk) == Done(c.(buffer := c.buffer + chunk), true, false)
  {
  }

  /** Bytes that arrive after the last chunk and before the context is reset are answered with the same request again. */
  lemma AnsweredAgain(m: Message, from: Phase, q: Phase, extra: string, c: Context, chunk: string)
    requires Supported(m) && LegalCut(m, from) && !from.AtEnd? && LegalCut(m, q) && Before(from, q) && q.AtEnd?
    requires Valid(c) && Ready(m, from, c, "") && chunk != ""
    ensures var out := Feed(c, Text(m, from, q) + extra);
      && out.Done? && Valid(out.ctx)
      && var again := Feed(out.ctx, chunk);
      && again.Done? && again.ok && !again.isErr && Recovered(m, again.ctx.request)
  {
    CallReaches(m, from, q, extra, c);
    FedReady(m, from, c, Text(m, from, q) + extra);
    LoopStaysValid(c.(buffer := c.buffer + (Text(m, from, q) + extra)), false, false);
    var out := Feed(c, Text(m, from, q) + extra);
    GotAllAnswers(out.ctx, chunk);
    FinalIsRecovered(m);
  }
}
