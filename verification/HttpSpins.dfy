/** Why `Spins` is the right answer: with the early exit of `parseRequest` commented out, a pass that gets nowhere is
    repeated for ever. */
module HttpSpins {
  import opened HttpText
  import opened HttpSpec

  /** The same state, with the same bytes still to read. */
  predicate SameSpot(c: Context, d: Context) {
    c.state == d.state && c.buffer == d.buffer && c.pos == d.pos
  }

  /** The loop is inside, and its next pass gets nowhere whatever its flags say. */
  ghost predicate Stuck(c: Context) {
    && Valid(c) && c.pos < |c.buffer| && !c.state.GotAll?
    && forall ok, isErr :: SameSpot(c, OnePass(c, ok, isErr).ctx)
  }

  lemma LineFlagIgnoresRequest(r: Request, s: Request, line: string)
    ensures ProcessLine(r, line).1 == ProcessLine(s, line).1
  {
  }

  lemma LineStuck(c: Context, ok: bool, isErr: bool)
    requires Valid(c) && c.state.ExpectRequestLine? && c.pos < |c.buffer|
    requires !Advances(c, LinePass(c, ok, isErr).ctx)
    ensures SameSpot(c, LinePass(c, ok, isErr).ctx) && Stuck(LinePass(c, ok, isErr).ctx)
  {
    var d := LinePass(c, ok, isErr).ctx;
    var crlf := Find(c.buffer, CRLF, c.pos);
    if crlf.Some? {
      LineFlagIgnoresRequest(c.request, d.request, c.buffer[c.pos..crlf.value]);
    }
  }

  lemma CheckKeepsSpot(p: Pass)
    requires p.ctx.pos <= |p.ctx.buffer| && p.ctx.request.partHeader == ""
    ensures SameSpot(p.ctx, CheckContentType(p).ctx)
  {
  }

  lemma HeadersStay(c: Context, ok: bool, isErr: bool)
    requires Valid(c) && c.state.ExpectHeaders? && Find(c.buffer, CRLF, c.pos).None?
    ensures SameSpot(c, OnePass(c, ok, isErr).ctx)
  {
    assert HeaderLines(c, ok, isErr) == Pass(c, ok, isErr);
    CheckKeepsSpot(Pass(c, ok, isErr));
  }

  lemma LineBreakAdvances(c: Context, ok: bool, isErr: bool)
    requires Valid(c) && c.state.ExpectHeaders? && Find(c.buffer, CRLF, c.pos).Some?
    ensures Advances(c, OnePass(c, ok, isErr).ctx)
  {
    CheckKeepsSpot(HeaderLines(c, ok, isErr));
  }

  lemma HeadersStuck(c: Context, ok: bool, isErr: bool)
    requires Valid(c) && c.state.ExpectHeaders? && c.pos < |c.buffer|
    requires !Advances(c, OnePass(c, ok, isErr).ctx)
    ensures SameSpot(c, OnePass(c, ok, isErr).ctx) && Stuck(OnePass(c, ok, isErr).ctx)
  {
    assert Find(c.buffer, CRLF, c.pos).None? by {
      if Find(c.buffer, CRLF, c.pos).Some? {
        LineBreakAdvances(c, ok, isErr);
      }
    }
    HeadersStay(c, ok, isErr);
    forall ok', isErr' ensures SameSpot(c, OnePass(OnePass(c, ok, isErr).ctx, ok', isErr').ctx) {
      HeadersStay(OnePass(c, ok, isErr).ctx, ok', isErr');
    }
  }

  lemma PlainStuck(c: Context, ok: bool, isErr: bool)
    requires Valid(c) && c.state.ExpectBody? && c.request.boundary == "" && c.pos < |c.buffer|
    requires !Advances(c, PlainBody(c, isErr).ctx)
    ensures PlainBody(c, isErr).ctx == c && Stuck(c)
  {
    assert c.request.body + "" == c.request.body;
    assert c.buffer[c.pos..c.pos] == "";
  }

  lemma PartHeadIgnoresFlags(c: Context, ok: bool, isErr: bool, ok': bool, isErr': bool)
    requires c.pos <= |c.buffer|
    ensures PartHead(c, ok, isErr).0.ctx == PartHead(c, ok', isErr').0.ctx
    ensures PartHead(c, ok, isErr).1 == PartHead(c, ok', isErr').1
  {
  }

  lemma MultipartHead(c: Context, ok: bool, isErr: bool)
    requires Valid(c) && c.state.ExpectBody? && c.request.boundary != "" && c.pos < |c.buffer|
        && c.request.partHeader == ""
    ensures if PartHead(c, ok, isErr).1 then Advances(c, MultipartBody(c, ok, isErr).ctx)
            else MultipartBody(c, ok, isErr) == PartHead(c, ok, isErr).0
  {
  }

  lemma PartHeadStuck(c: Context, ok: bool, isErr: bool)
    requires Valid(c) && c.state.ExpectBody? && c.request.boundary != "" && c.pos < |c.buffer|
    requires c.request.partHeader == "" && !Advances(c, MultipartBody(c, ok, isErr).ctx)
    ensures MultipartBody(c, ok, isErr).ctx == c && Stuck(c)
  {
    MultipartHead(c, ok, isErr);
    assert PartHead(c, ok, isErr).0.ctx == c;
    forall ok', isErr' ensures SameSpot(c, OnePass(c, ok', isErr').ctx) {
      MultipartHead(c, ok', isErr');
      PartHeadIgnoresFlags(c, ok, isErr, ok', isErr');
    }
  }

  lemma PartDataStuck(c: Context, ok: bool, isErr: bool)
    requires Valid(c) && c.state.ExpectBody? && c.request.boundary != "" && c.pos < |c.buffer|
    requires c.request.partHeader != "" && !Advances(c, PartData(c, isErr).ctx)
    ensures PartData(c, isErr).ctx == c && Stuck(c)
  {
    assert c.buffer[..0] == "" && c.buffer[0..] == c.buffer;
    assert c.request.body + "" == c.request.body && c.request.file + "" == c.request.file;
  }

  /** A pass that does not advance stays at its spot, and so does every pass after it. */
  lemma NoAdvanceIsStuck(c: Context, ok: bool, isErr: bool)
    requires Valid(c) && c.pos < |c.buffer| && !c.state.GotAll?
    requires !Advances(c, OnePass(c, ok, isErr).ctx)
    ensures SameSpot(c, OnePass(c, ok, isErr).ctx) && Stuck(OnePass(c, ok, isErr).ctx)
  {
    match c.state
    case ExpectRequestLine => LineStuck(c, ok, isErr);
    case ExpectHeaders => HeadersStuck(c, ok, isErr);
    case ExpectBody =>
      if c.request.boundary == "" {
        PlainStuck(c, ok, isErr);
      } else if c.request.partHeader == "" {
        PartHeadStuck(c, ok, isErr);
      } else {
        PartDataStuck(c, ok, isErr);
      }
  }

  /** `n` passes of the loop. */
  function Passes(c: Context, ok: bool, isErr: bool, n: nat): (p: Pass)
    requires Valid(c)
    ensures Valid(p.ctx)
    decreases n
  {
    if n == 0 then Pass(c, ok, isErr)
    else
      var p := OnePass(c, ok, isErr);
      Passes(p.ctx, p.ok, p.isErr, n - 1)
  }

  /** However many passes the loop makes, it stays where it stopped advancing, with bytes left to read: the loop's
      condition holds for ever. */
  lemma {:induction false} SpinsForEver(c: Context, ok: bool, isErr: bool, n: nat)
    requires Valid(c) && c.pos < |c.buffer| && !c.state.GotAll?
    requires !Advances(c, OnePass(c, ok, isErr).ctx)
    ensures SameSpot(c, Passes(c, ok, isErr, n).ctx)
    decreases n
  {
    if n > 0 {
      NoAdvanceIsStuck(c, ok, isErr);
      var p := OnePass(c, ok, isErr);
      assert SameSpot(p.ctx, OnePass(p.ctx, p.ok, p.isErr).ctx);
      SpinsForEver(p.ctx, p.ok, p.isErr, n - 1);
    }
  }
}
