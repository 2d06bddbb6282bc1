/** The request and context objects (my_http_request.cpp, my_http_context.cpp): fields changed in place by the loops of
    `parseRequest`, each method proved equal to its function in `HttpSpec`. */
module HttpParser {
  import opened HttpText
  import S = HttpSpec

  class HttpRequest {
    var verb: S.Method
    var version: string
    var path: string
    var query: map<string, string>
    var headers: map<string, string>
    var content: string
    var contentLength: nat
    var boundary: string
    var fileHeader: string
    ghost var file: string  // what the file writer received

    ghost function Value(): S.Request
      reads this
    {
      S.Request(verb, version, path, query, headers, content, contentLength, boundary, fileHeader, file)
    }

    constructor ()
      ensures Value() == S.EMPTY_REQUEST
    {
      verb, version, path, query, headers := S.Invalid, "Unknown", "", map[], map[];
      content, contentLength, boundary, fileHeader, file := "", 0, "", "", "";
    }

    /** A swap with a new request. */
    method Clear()
      modifies this
      ensures Value() == S.EMPTY_REQUEST
    {
      verb, version, path, query, headers := S.Invalid, "Unknown", "", map[], map[];
      content, contentLength, boundary, fileHeader, file := "", 0, "", "", "";
    }

    method SetMethod(text: string) returns (ok: bool)
      modifies this
      ensures Value() == old(Value()).(verb := S.MethodOf(text)) && ok == !verb.Invalid?
      ensures ok <==> text in ["GET", "POST", "PUT", "DELETE", "OPTIONS"]
    {
      if text == "GET" {
        verb := S.Get;
      } else if text == "POST" {
        verb := S.Post;
      } else if text == "PUT" {
        verb := S.Put;
      } else if text == "DELETE" {
        verb := S.Delete;
      } else if text == "OPTIONS" {
        verb := S.Options;
      } else {
        verb := S.Invalid;
      }
      ok := verb != S.Invalid;
    }

    method SetPath(text: string)
      modifies this
      ensures Value() == old(Value()).(path := text)
    {
      path := text;
    }

    method SetPair(pair: string)
      modifies this
      ensures Value() == old(Value()).(query := S.AddPair(old(query), pair))
    {
      var equal := FindChar(pair, '=');
      if equal.Some? {
        query := query[pair[..equal.value] := pair[equal.value + 1..]];
      }
    }

    /** Splits at each `&`, then takes the last pair. */
    method SetQueryParameters(text: string)
      modifies this
      ensures Value() == old(Value()).(query := S.AddPairs(old(query), text))
    {
      var prev := 0;
      var found := FindChar(text, '&');
      assert text[0..] == text;
      while found.Some?
        invariant prev <= |text| && found == FindChar(text[prev..], '&')
        invariant Value() == old(Value()).(query := query)
        invariant S.AddPairs(query, text[prev..]) == S.AddPairs(old(query), text)
        decreases |text| - prev
      {
        var pos := prev + found.value;
        assert text[prev..pos] == text[prev..][..found.value];
        SetPair(text[prev..pos]);
        assert text[pos + 1..] == text[prev..][found.value + 1..];
        prev := pos + 1;
        found := FindChar(text[prev..], '&');
      }
      SetPair(text[prev..]);
    }

    method SetVersion(text: string)
      modifies this
      ensures Value() == old(Value()).(version := text)
    {
      version := text;
    }

    method AddHeader(key: string, value: string)
      modifies this
      ensures Value() == old(Value()).(headers := old(headers)[key := value])
    {
      headers := headers[key := value];
    }

    function GetHeader(field: string): (value: string)
      reads this
      ensures value == Value().GetHeader(field)
    {
      if field in headers then headers[field] else ""
    }

    method AppendBody(data: string)
      modifies this
      ensures Value() == old(Value()).(body := old(content) + data)
    {
      content := content + data;
    }

    method WriteToFile(data: string)
      modifies this
      ensures Value() == old(Value()).(file := old(file) + data)
    {
      file := file + data;
    }

    /** Part data goes to the file of a large upload and to the body otherwise. */
    method Save(data: string)
      modifies this
      ensures Value() == old(Value()).Collect(data)
    {
      if contentLength > S.LARGE_FILE_THRESHOLD {
        WriteToFile(data);
      } else {
        AppendBody(data);
      }
    }

    /** `processRequestLine`. */
    method ProcessLine(line: string) returns (succeed: bool)
      modifies this
      ensures (Value(), succeed) == S.ProcessLine(old(Value()), line)
    {
      var space := FindChar(line, ' ');
      if space.None? {
        return false;
      }
      var ok := SetMethod(line[..space.value]);
      if !ok {
        return false;
      }
      var rest := line[space.value + 1..];
      space := FindChar(rest, ' ');
      if space.None? {
        return false;
      }
      var target := rest[..space.value];
      var question := FindChar(target, '?');
      if question.Some? {
        SetPath(target[..question.value]);
        SetQueryParameters(target[question.value + 1..]);
      } else {
        SetPath(target);
      }
      var last := rest[space.value + 1..];
      succeed := |last| == 8 && last[..7] == "HTTP/1.";
      if succeed {
        if last[7] == '1' {
          SetVersion("HTTP/1.1");
        } else if last[7] == '0' {
          SetVersion("HTTP/1.0");
        } else {
          succeed := false;
        }
      }
    }
  }

  class HttpContext {
    var state: S.ParseState
    var buffer: string
    var pos: nat
    var received: nat
    const request: HttpRequest

    ghost function Value(): S.Context
      reads this, request
    {
      S.Context(state, request.Value(), buffer, pos, received)
    }

    constructor ()
      ensures Value() == S.START && fresh(request)
    {
      state, buffer, pos, received := S.ExpectRequestLine, "", 0, 0;
      request := new HttpRequest();
    }

    method Reset()
      modifies this, request
      ensures Value() == S.START
    {
      state, buffer, pos, received := S.ExpectRequestLine, "", 0, 0;
      request.Clear();
    }

    method RequestLinePass(okIn: bool, isErrIn: bool) returns (ok: bool, isErr: bool)
      requires S.Valid(Value()) && state.ExpectRequestLine?
      modifies this, request
      ensures S.Pass(Value(), ok, isErr) == S.LinePass(old(Value()), okIn, isErrIn)
    {
      ok, isErr := okIn, isErrIn;
      var crlf := Find(buffer, CRLF, pos);
      if crlf.Some? {
        if crlf.value - pos > S.MAX_LINE {
          return false, true;
        }
        ok := request.ProcessLine(buffer[pos..crlf.value]);
        if ok {
          pos := crlf.value + 2;
          state := S.ExpectHeaders;
        }
        ok := false;
      } else if |buffer| - pos > S.MAX_LINE {
        isErr, ok := true, false;
      }
    }

    /** After the head's empty line. */
    method EndHead(okIn: bool, isErrIn: bool) returns (ok: bool, isErr: bool)
      modifies this, request
      ensures S.Pass(Value(), ok, isErr) == S.BlankLine(old(Value()), isErrIn)
    {
      ok, isErr := okIn, isErrIn;
      if request.verb == S.Post || request.verb == S.Put {
        var length := Stoi(request.GetHeader("Content-Length"));
        if length.None? {
          isErr, ok := true, false;
        } else {
          request.contentLength := length.value % S.TWO64;
          state := if request.contentLength > 0 then S.ExpectBody else S.GotAll;
          ok := state == S.GotAll;
        }
      } else {
        state := S.GotAll;
        ok := true;
      }
    }

    /** One header line, or the empty line; `goesOn` tells that the loop goes round again. */
    method HeaderStep(okIn: bool, isErrIn: bool) returns (ok: bool, isErr: bool, goesOn: bool)
      requires pos <= |buffer|
      modifies this, request
      ensures (S.Pass(Value(), ok, isErr), goesOn) == S.HeaderLine(old(Value()), okIn, isErrIn)
    {
      ok, isErr, goesOn := okIn, isErrIn, false;
      var crlf := Find(buffer, CRLF, pos);
      if crlf.None? {
        return;
      }
      if crlf.value == pos {
        pos := pos + 2;
        ok, isErr := EndHead(ok, isErr);
        return;
      }
      var line := buffer[pos..crlf.value];
      var colon := FindChar(line, ':');
      if colon.Some? {
        request.AddHeader(TrimRight(line[..colon.value]), TrimLeft(line[colon.value + 1..]));
      } else {
        isErr, ok := true, false;
      }
      pos := crlf.value + 2;
      goesOn := true;
    }

    /** The loop over the header lines. */
    method HeaderLoop(okIn: bool, isErrIn: bool) returns (ok: bool, isErr: bool)
      requires pos <= |buffer|
      modifies this, request
      ensures S.Pass(Value(), ok, isErr) == S.HeaderLines(old(Value()), okIn, isErrIn)
    {
      ok, isErr := okIn, isErrIn;
      while pos < |buffer|
        invariant pos <= |buffer|
        invariant S.HeaderLines(Value(), ok, isErr) == S.HeaderLines(old(Value()), okIn, isErrIn)
        decreases |buffer| - pos
      {
        ghost var before := Value();
        var goesOn: bool;
        ok, isErr, goesOn := HeaderStep(ok, isErr);
        assert before.buffer == buffer;
        if !goesOn {
          return;
        }
      }
    }

    /** The search for a boundary, after the header lines read so far. */
    method CheckContentType(okIn: bool, isErrIn: bool) returns (ok: bool, isErr: bool)
      requires pos <= |buffer| && request.fileHeader == ""
      modifies this, request
      ensures S.Pass(Value(), ok, isErr) == S.CheckContentType(S.Pass(old(Value()), okIn, isErrIn))
    {
      ok, isErr := okIn, isErrIn;
      var contentType := request.GetHeader("Content-Type");
      if Find(contentType, "multipart/form-data", 0).Some? {
        var at := Find(contentType, "boundary=", 0);
        if at.Some? {
          request.boundary := S.Unquote(contentType[at.value + 9..]);
        } else {
          isErr, ok := true, false;
        }
      }
    }

    method HeadersPass(okIn: bool, isErrIn: bool) returns (ok: bool, isErr: bool)
      requires S.Valid(Value()) && state.ExpectHeaders?
      modifies this, request
      ensures S.Pass(Value(), ok, isErr) == S.CheckContentType(S.HeaderLines(old(Value()), okIn, isErrIn))
    {
      ok, isErr := HeaderLoop(okIn, isErrIn);
      ok, isErr := CheckContentType(ok, isErr);
    }

    method PlainBodyPass(isErrIn: bool) returns (ok: bool, isErr: bool)
      requires S.Valid(Value()) && state.ExpectBody? && request.boundary == ""
      modifies this, request
      ensures S.Pass(Value(), ok, isErr) == S.PlainBody(old(Value()), isErrIn)
    {
      isErr := isErrIn;
      var remaining := |buffer| - pos;
      var toCopy := S.Min(remaining, S.Sub64(request.contentLength, received));
      request.AppendBody(buffer[pos..pos + toCopy]);
      pos := pos + toCopy;
      received := received + toCopy;
      if received >= request.contentLength {
        state := S.GotAll;
        ok := true;
      } else {
        ok := false;
      }
    }

    /** The header of a part; `goesOn` tells that the loop goes round again. */
    method PartHeadStep(okIn: bool, isErrIn: bool) returns (ok: bool, isErr: bool, goesOn: bool)
      requires pos <= |buffer|
      modifies this, request
      ensures (S.Pass(Value(), ok, isErr), goesOn) == S.PartHead(old(Value()), okIn, isErrIn)
    {
      ok, isErr, goesOn := okIn, isErrIn, false;
      var delim := S.Delim(request.boundary);
      var at := Find(buffer, delim, pos);
      if at.None? {
        ok := false;
        return;
      }
      var start := at.value + |delim|;
      if MatchAt(buffer, "--", start) {
        state := S.GotAll;
        ok := true;
        return;
      }
      start := S.PartStart(buffer, start);
      assert S.PartHead(Value(), okIn, isErrIn) == S.PartHeadFrom(Value(), start, |delim|, okIn, isErrIn);
      ok, isErr, goesOn := PartHeadFrom(start, |delim|, ok, isErr);
    }

    method PartHeadFrom(start: nat, delimLength: nat, okIn: bool, isErrIn: bool) returns (ok: bool, isErr: bool,
          goesOn: bool)
      requires pos <= start <= |buffer|
      modifies this, request
      ensures (S.Pass(Value(), ok, isErr), goesOn) == S.PartHeadFrom(old(Value()), start, delimLength, okIn, isErrIn)
    {
      ok, isErr, goesOn := okIn, isErrIn, false;
      var end := Find(buffer, "\r\n\r\n", start);
      if end.None? {
        ok := false;
        return;
      }
      var header := buffer[start..end.value];
      buffer := buffer[end.value + 4..];
      received := received + (delimLength + 4 + |header| + 4);
      pos := 0;
      request.fileHeader := header;
      goesOn := true;
    }

    method PartDataStep(isErrIn: bool) returns (ok: bool, isErr: bool)
      requires pos == 0
      modifies this, request
      ensures S.Pass(Value(), ok, isErr) == S.PartData(old(Value()), isErrIn)
    {
      isErr := isErrIn;
      var closing := S.Closing(request.boundary);
      var needed := request.contentLength;
      var found := Find(buffer, closing, 0);
      if found.None? || received + found.value + |closing| < needed {
        var end := S.Min(S.Sub64(S.Sub64(needed, |closing|), received), |buffer|);
        request.Save(buffer[..end]);
        received := received + end;
        buffer := buffer[end..];
        ok := false;
        return;
      }
      request.Save(buffer[..found.value]);
      buffer := buffer[found.value + |closing|..];
      state := S.GotAll;
      ok := true;
    }

    method MultipartPass(okIn: bool, isErrIn: bool) returns (ok: bool, isErr: bool)
      requires S.Valid(Value()) && state.ExpectBody? && request.boundary != ""
      modifies this, request
      ensures S.Pass(Value(), ok, isErr) == S.MultipartBody(old(Value()), okIn, isErrIn)
    {
      ok, isErr := okIn, isErrIn;
      while pos < |buffer|
        invariant S.Valid(Value()) && state.ExpectBody? && request.boundary != ""
        invariant S.MultipartBody(Value(), ok, isErr) == S.MultipartBody(old(Value()), okIn, isErrIn)
        decreases |buffer| - pos
      {
        if request.fileHeader == "" {
          var goesOn: bool;
          ok, isErr, goesOn := PartHeadStep(ok, isErr);
          if !goesOn {
            return;
          }
        } else {
          ok, isErr := PartDataStep(isErr);
          return;
        }
      }
    }

    method OnePass(okIn: bool, isErrIn: bool) returns (ok: bool, isErr: bool)
      requires S.Valid(Value())
      modifies this, request
      ensures S.Pass(Value(), ok, isErr) == S.OnePass(old(Value()), okIn, isErrIn)
    {
      match state
      case ExpectRequestLine => ok, isErr := RequestLinePass(okIn, isErrIn);
      case ExpectHeaders => ok, isErr := HeadersPass(okIn, isErrIn);
      case ExpectBody =>
        if request.boundary == "" {
          ok, isErr := PlainBodyPass(isErrIn);
        } else {
          ok, isErr := MultipartPass(okIn, isErrIn);
        }
      case GotAll => ok, isErr := true, isErrIn;
    }

    /** `parseRequest`. Where a pass leaves everything as it was the source's loop goes on for ever; here the method
        returns and says so. */
    method ParseRequest(chunk: string) returns (ok: bool, isErr: bool, spins: bool)
      requires S.Valid(Value())
      modifies this, request
      ensures S.Feed(old(Value()), chunk) == if spins then S.Spins else S.Done(Value(), ok, isErr)
      ensures S.Valid(Value())
    {
      buffer := buffer + chunk;
      ghost var start := Value();
      ok, isErr, spins := false, false, false;
      while pos < |buffer|
        invariant S.Valid(Value())
        invariant S.Loop(Value(), ok, isErr) == S.Loop(start, false, false)
        decreases S.Rank(state), |buffer| - pos
      {
        if state == S.GotAll {
          ok := true;
          return;
        }
        var rank, left := S.Rank(state), |buffer| - pos;
        ok, isErr := OnePass(ok, isErr);
        if !(S.Rank(state) < rank || (S.Rank(state) == rank && |buffer| - pos < left)) {
          spins := true;
          return;
        }
      }
      if isErr && !ok {
        Reset();
      }
    }
  }
}
