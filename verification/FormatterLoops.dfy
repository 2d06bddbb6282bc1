/** The formatter's loops over a bounded buffer, proved to write the first bytes of
    the unbounded rendering and nothing behind them (my_logger.cpp). */
module FormatterLoops {
  import opened Common
  import opened Formatter

  /** `after` is `before` with `text` written from `at` on, all of it or as much as
      there is room for before `last`; `end` is where it stops. */
  ghost predicate Wrote(before: string, after: string, at: nat, end: nat, last: nat, text: string) {
    && at <= end <= last <= |before|
    && end - at <= |text|
    && (end == last || end - at == |text|)
    && after == before[..at] + text[..end - at] + before[end..]
  }

  lemma WroteTwice(a: string, b: string, c: string, at: nat, mid: nat, end: nat, last: nat, first: string, second: string)
    requires Wrote(a, b, at, mid, last, first) && Wrote(b, c, mid, end, last, second)
    ensures Wrote(a, c, at, end, last, first + second)
  {
  }

  lemma WroteNothing(a: string, at: nat, last: nat)
    requires at <= last <= |a|
    ensures Wrote(a, a, at, at, last, "")
  {
  }

  /** A full buffer stays as it is, whatever follows. */
  lemma WroteFull(a: string, b: string, at: nat, last: nat, first: string, second: string)
    requires Wrote(a, b, at, last, last, first)
    ensures Wrote(a, b, at, last, last, first + second)
  {
    assert (first + second)[..last - at] == first[..last - at];
  }

  const INT64_LEN: nat := 20

  const MAX_UINT32: nat := 0xffff_ffff

  const LOWER_HEX: string := "0123456789abcdef"
  const UPPER_HEX: string := "0123456789ABCDEF"

  /** The scratch area holds the last digits of `n` from `p` on; those of `rest` are
      still to come, and there is room for them. */
  ghost predicate Printing(scratch: string, p: nat, n: nat, rest: nat, hex: nat) {
    && p <= INT64_LEN <= |scratch|
    && |Digits(rest, Base(hex), hex != 1)| <= p
    && Digits(n, Base(hex), hex != 1) == Digits(rest, Base(hex), hex != 1) + scratch[p..INT64_LEN]
  }

  lemma StartPrinting(scratch: string, n: Word, hex: nat)
    requires |scratch| == INT64_LEN + 1
    ensures Printing(scratch, INT64_LEN, n, n, hex)
  {
    WordsFitTwentyDigits(n, hex, hex != 1);
    assert scratch[INT64_LEN..INT64_LEN] == "";
  }

  lemma PrintOne(scratch: string, p: nat, n: nat, rest: nat, hex: nat)
    requires Printing(scratch, p, n, rest, hex) && p > 0
    ensures var next := scratch[p - 1 := Digit(rest % Base(hex), hex != 1)];
      if rest / Base(hex) > 0 then Printing(next, p - 1, n, rest / Base(hex), hex) && p > 1
      else next[p - 1..INT64_LEN] == Digits(n, Base(hex), hex != 1)
  {
    var d := Digit(rest % Base(hex), hex != 1);
    var next := scratch[p - 1 := d];
    assert next[p - 1..INT64_LEN] == [d] + scratch[p..INT64_LEN];
    assert rest < Base(hex) <==> rest / Base(hex) == 0;
  }

  /** The decimal loops: one for values that fit 32 bits, one for the others. */
  method PrintDecimal(temp: array<char>, ui64: Word) returns (p: nat)
    requires temp.Length == INT64_LEN + 1
    modifies temp
    ensures p <= INT64_LEN && temp[p..INT64_LEN] == Digits(ui64, 10, true)
  {
    p := INT64_LEN;
    StartPrinting(temp[..], ui64, 0);
    if ui64 <= MAX_UINT32 {
      var ui32: nat := ui64 % (MAX_UINT32 + 1);
      while true
        invariant p > 0 && Printing(temp[..], p, ui64, ui32, 0)
        decreases ui32
      {
        PrintOne(temp[..], p, ui64, ui32, 0);
        p := p - 1;
        temp[p] := '0' + (ui32 % 10) as char;
        ui32 := ui32 / 10;
        if ui32 == 0 { return; }
      }
    } else {
      var rest: nat := ui64;
      while true
        invariant p > 0 && Printing(temp[..], p, ui64, rest, 0)
        decreases rest
      {
        PrintOne(temp[..], p, ui64, rest, 0);
        p := p - 1;
        temp[p] := '0' + (rest % 10) as char;
        rest := rest / 10;
        if rest == 0 { return; }
      }
    }
  }

  lemma HexTables(d: nat)
    requires d < 16
    ensures LOWER_HEX[d] == Digit(d, false) && UPPER_HEX[d] == Digit(d, true)
  {
  }

  /** The hexadecimal loops, which differ in their table; `& 0xf` and `>>= 4`. */
  method PrintHex(temp: array<char>, ui64: Word, hex: nat) returns (p: nat)
    requires temp.Length == INT64_LEN + 1 && hex > 0
    modifies temp
    ensures p <= INT64_LEN && temp[p..INT64_LEN] == Digits(ui64, 16, hex != 1)
  {
    var table := if hex == 1 then LOWER_HEX else UPPER_HEX;
    var rest: nat := ui64;
    p := INT64_LEN;
    StartPrinting(temp[..], ui64, hex);
    while true
      invariant p > 0 && Printing(temp[..], p, ui64, rest, hex)
      decreases rest
    {
      PrintOne(temp[..], p, ui64, rest, hex);
      HexTables(rest % 16);
      p := p - 1;
      temp[p] := table[rest % 16];
      rest := rest / 16;
      if rest == 0 { return; }
    }
  }

  ghost predicate FilledTo(a: string, b: string, at: nat, end: nat, zero: char) {
    at <= end <= |a| && b == a[..at] + Fill(zero, end - at) + a[end..]
  }

  lemma FillOne(a: string, b: string, at: nat, end: nat, zero: char)
    requires FilledTo(a, b, at, end, zero) && end < |a|
    ensures FilledTo(a, b[end := zero], at, end + 1, zero)
  {
    assert Fill(zero, end + 1 - at) == Fill(zero, end - at) + [zero];
  }

  /** The fill loop: `len` counts up to `width` while there is room. */
  method FillLoop(buf: array<char>, at: nat, last: nat, zero: char, digits: nat, width: nat) returns (end: nat)
    requires at <= last <= buf.Length
    modifies buf
    ensures at <= end <= last && FilledTo(old(buf[..]), buf[..], at, end, zero)
    ensures width <= digits ==> end == at
    ensures width > digits ==> end - at <= width - digits && (end == last || end - at == width - digits)
  {
    ghost var was := buf[..];
    var len := digits;
    end := at;
    while len < width && end < last
      invariant at <= end <= last && len - digits == end - at
      invariant end > at ==> len <= width
      invariant FilledTo(was, buf[..], at, end, zero)
      decreases last - end
    {
      ghost var now := buf[..];
      FillOne(was, now, at, end, zero);
      buf[end] := zero;
      assert buf[..] == now[end := zero];
      end := end + 1;
      len := len + 1;
    }
  }

  method FillField(buf: array<char>, at: nat, last: nat, zero: char, digits: nat, width: nat) returns (end: nat)
    requires at <= last <= buf.Length
    modifies buf
    ensures Wrote(old(buf[..]), buf[..], at, end, last, Fill(zero, width - digits))
  {
    end := FillLoop(buf, at, last, zero, digits, width);
    Filled(old(buf[..]), buf[..], at, end, last, zero, width - digits);
  }

  lemma Filled(a: string, b: string, at: nat, end: nat, last: nat, zero: char, n: int)
    requires at <= end <= last <= |a|
    requires FilledTo(a, b, at, end, zero)
    requires n <= 0 ==> end == at
    requires n > 0 ==> end - at <= n && (end == last || end - at == n)
    ensures Wrote(a, b, at, end, last, Fill(zero, n))
  {
    assert Fill(zero, n)[..end - at] == Fill(zero, end - at);
  }

  /** The copy of the digits, cut off at `last`. */
  method CopyDigits(buf: array<char>, at: nat, last: nat, temp: array<char>, p: nat, ghost digits: string)
    returns (end: nat)
    requires at <= last <= buf.Length && temp.Length == INT64_LEN + 1 && p <= INT64_LEN && temp != buf
    requires digits == temp[p..INT64_LEN]
    modifies buf
    ensures Wrote(old(buf[..]), buf[..], at, end, last, digits)
  {
    var len := INT64_LEN - p;
    if at + len >= last {
      len := last - at;
    }
    forall k | 0 <= k < len {
      buf[at + k] := temp[p + k];
    }
    end := at + len;
    assert forall k :: 0 <= k < len ==> digits[k] == temp[p + k];
    assert buf[at..at + len] == digits[..len];
  }

  method PrintDigits(temp: array<char>, ui64: Word, hex: nat) returns (p: nat)
    requires temp.Length == INT64_LEN + 1
    modifies temp
    ensures p <= INT64_LEN && temp[p..INT64_LEN] == Digits(ui64, Base(hex), hex != 1)
  {
    if hex == 0 {
      p := PrintDecimal(temp, ui64);
    } else {
      p := PrintHex(temp, ui64, hex);
    }
  }

  method PutField(buf: array<char>, at: nat, last: nat, temp: array<char>, p: nat, ghost digits: string, zero: char,
        width: nat)
    returns (end: nat)
    requires at <= last <= buf.Length && temp.Length == INT64_LEN + 1 && p <= INT64_LEN && temp != buf
    requires digits == temp[p..INT64_LEN]
    modifies buf
    ensures Wrote(old(buf[..]), buf[..], at, end, last, Fill(zero, width - |digits|) + digits)
  {
    ghost var a := buf[..];
    var mid := FillField(buf, at, last, zero, INT64_LEN - p, width);
    ghost var b := buf[..];
    end := CopyDigits(buf, mid, last, temp, p, digits);
    WroteTwice(a, b, buf[..], at, mid, end, last, Fill(zero, width - |digits|), digits);
  }

  /** `ngx_sprintf_num`. */
  method SprintfNum(buf: array<char>, at: nat, last: nat, ui64: Word, zero: char, hex: nat, width: nat)
    returns (end: nat)
    requires at <= last <= buf.Length
    modifies buf
    ensures Wrote(old(buf[..]), buf[..], at, end, last, Padded(ui64, zero, hex, width))
  {
    var temp := new char[INT64_LEN + 1];
    var p := PrintDigits(temp, ui64, hex);
    end := PutField(buf, at, last, temp, p, Digits(ui64, Base(hex), hex != 1), zero, width);
  }

  // ---- ngx_vslprintf ----

  /** Writes one character without a check for room. */
  method PutChar(buf: array<char>, at: nat, last: nat, c: char) returns (end: nat)
    requires at < last <= buf.Length
    modifies buf
    ensures Wrote(old(buf[..]), buf[..], at, end, last, [c])
  {
    buf[at] := c;
    end := at + 1;
  }

  method PutText(buf: array<char>, at: nat, last: nat, s: string) returns (end: nat)
    requires at <= last <= buf.Length
    modifies buf
    ensures Wrote(old(buf[..]), buf[..], at, end, last, Chars(s))
  {
    ghost var was := buf[..];
    var p := 0;
    end := at;
    assert was == was[..at] + s[..0] + was[at..];
    while p < |s| && s[p] != '\0' && end < last
      invariant p <= |s| && end == at + p <= last
      invariant CopiedTo(was, buf[..], at, s, p)
    {
      ghost var now := buf[..];
      CopyOne(was, now, at, s, p);
      buf[end] := s[p];
      assert buf[..] == now[end := s[p]];
      end := end + 1;
      p := p + 1;
    }
    Copied(was, buf[..], at, last, s, p);
  }

  /** The first `p` characters of `s`, none of them NUL, stand at `at`. */
  ghost predicate CopiedTo(a: string, b: string, at: nat, s: string, p: nat) {
    && p <= |s| && at + p <= |a|
    && b == a[..at] + s[..p] + a[at + p..]
    && Chars(s) == s[..p] + Chars(s[p..])
  }

  lemma CopyOne(a: string, b: string, at: nat, s: string, p: nat)
    requires CopiedTo(a, b, at, s, p) && p < |s| && s[p] != '\0' && at + p < |a|
    ensures CopiedTo(a, b[at + p := s[p]], at, s, p + 1)
  {
    assert s[p..][1..] == s[p + 1..];
    assert s[..p + 1] == s[..p] + [s[p]];
  }

  lemma Copied(a: string, b: string, at: nat, last: nat, s: string, p: nat)
    requires CopiedTo(a, b, at, s, p) && at + p <= last <= |a|
    requires p == |s| || s[p] == '\0' || at + p == last
    ensures Wrote(a, b, at, at + p, last, Chars(s))
  {
    assert Chars(s)[..p] == s[..p];
  }

  method PutSigned(buf: array<char>, at: nat, last: nat, v: int, d: Directive) returns (end: nat)
    requires at < last <= buf.Length && -(WORDS as int) < v < WORDS
    modifies buf
    ensures Wrote(old(buf[..]), buf[..], at, end, last, SignedText(v, d))
  {
    if v < 0 {
      var mid := PutChar(buf, at, last, '-');
      ghost var b := buf[..];
      end := SprintfNum(buf, mid, last, -v, d.zero, d.hex, d.width);
      WroteTwice(old(buf[..]), b, buf[..], at, mid, end, last, "-", Padded(-v, d.zero, d.hex, d.width));
    } else {
      end := SprintfNum(buf, at, last, v, d.zero, d.hex, d.width);
    }
  }

  method ScaleLoop(places: nat) returns (scale: Word)
    ensures scale == Scale(places)
  {
    scale := 1;
    for n := 0 to places
      invariant scale == Scale(n)
    {
      scale := scale * 10 % WORDS;
    }
  }

  method PutPoint(buf: array<char>, at: nat, last: nat) returns (end: nat)
    requires at <= last <= buf.Length
    modifies buf
    ensures Wrote(old(buf[..]), buf[..], at, end, last, ".")
  {
    end := at;
    if at < last {
      end := PutChar(buf, at, last, '.');
    }
  }

  method PutFraction(buf: array<char>, at: nat, last: nat, frac: Word, places: nat) returns (end: nat)
    requires at <= last <= buf.Length
    modifies buf
    ensures Wrote(old(buf[..]), buf[..], at, end, last, "." + Padded(frac, '0', 0, places))
  {
    var mid := PutPoint(buf, at, last);
    ghost var b := buf[..];
    end := SprintfNum(buf, mid, last, frac, '0', 0, places);
    WroteTwice(old(buf[..]), b, buf[..], at, mid, end, last, ".", Padded(frac, '0', 0, places));
  }

  method SplitReal(f: real, places: nat) returns (whole: Word, frac: Word)
    requires 0.0 <= f < WORDS as real
    ensures (whole, frac) == RealParts(f, places)
  {
    whole, frac := f.Floor, 0;
    if places > 0 {
      var scale := ScaleLoop(places);
      var scaled := ScaledFraction(f, scale);
      if scaled >= scale {
        whole := (whole + 1) % WORDS;
      } else {
        frac := scaled;
      }
    }
  }

  method PutUnsignedReal(buf: array<char>, at: nat, last: nat, f: real, d: Directive) returns (end: nat)
    requires at <= last <= buf.Length && 0.0 <= f < WORDS as real
    modifies buf
    ensures Wrote(old(buf[..]), buf[..], at, end, last, UnsignedRealText(f, d))
  {
    var whole, frac := SplitReal(f, d.frac);
    end := SprintfNum(buf, at, last, whole, d.zero, 0, d.width);
    if d.frac > 0 {
      ghost var b, mid := buf[..], end;
      end := PutFraction(buf, end, last, frac, d.frac);
      WroteTwice(old(buf[..]), b, buf[..], at, mid, end, last,
                 Padded(whole, d.zero, 0, d.width), "." + Padded(frac, '0', 0, d.frac));
    } else {
      assert Padded(whole, d.zero, 0, d.width) + "" == Padded(whole, d.zero, 0, d.width);
    }
  }

  method PutReal(buf: array<char>, at: nat, last: nat, f: real, d: Directive) returns (end: nat)
    requires at < last <= buf.Length && -(WORDS as real) < f < WORDS as real
    modifies buf
    ensures Wrote(old(buf[..]), buf[..], at, end, last, RealText(f, d))
  {
    if f < 0.0 {
      var mid := PutChar(buf, at, last, '-');
      ghost var b := buf[..];
      end := PutUnsignedReal(buf, mid, last, -f, d);
      WroteTwice(old(buf[..]), b, buf[..], at, mid, end, last, "-", UnsignedRealText(-f, d));
    } else {
      end := PutUnsignedReal(buf, at, last, f, d);
    }
  }

  method ParseNumber(fmt: string, i: nat) returns (n: Word, next: nat)
    ensures (n, next) == ReadNumber(fmt, i, 0)
  {
    n, next := 0, i;
    while IsDigit(At(fmt, next))
      invariant i <= next && ReadNumber(fmt, next, n) == ReadNumber(fmt, i, 0)
      decreases |fmt| - next
    {
      n := (n * 10 + (At(fmt, next) - '0') as nat) % WORDS;
      next := next + 1;
    }
  }

  method ParseDirective(fmt: string, i: nat) returns (d: Directive)
    ensures d == ReadDirective(fmt, i)
  {
    var zero := if At(fmt, i) == '0' then '0' else ' ';
    var width, next := ParseNumber(fmt, i);
    var sign, hex, frac := true, 0, 0;
    while true
      invariant ReadFlags(fmt, next, sign, hex) == ReadFlags(fmt, ReadNumber(fmt, i, 0).1, true, 0)
      decreases |fmt| - next
    {
      match At(fmt, next)
      case 'u' => sign := false; next := next + 1; continue;
      case 'X' => sign := false; hex := 2; next := next + 1; continue;
      case 'x' => sign := false; hex := 1; next := next + 1; continue;
      case '.' => frac, next := ParseNumber(fmt, next + 1); break;
      case _ => break;
    }
    d := Directive(zero, width, sign, hex, frac, next);
  }

  /** A directive whose conversion character is `c`. */
  method PutDirective(buf: array<char>, at: nat, last: nat, d: Directive, c: char, args: seq<Arg>) returns (end: nat)
    requires at < last <= buf.Length && Suits(c, args)
    modifies buf
    ensures Wrote(old(buf[..]), buf[..], at, end, last, Convert(d, c, args))
  {
    match ConversionOf(c)
    case ANumber =>
      if d.sign {
        end := PutSigned(buf, at, last, Signed(args[0].w), d);
      } else {
        end := SprintfNum(buf, at, last, args[0].w, d.zero, d.hex, d.width);
      }
    case APointer => end := SprintfNum(buf, at, last, args[0].w, '0', 2, 16);
    case APid => end := PutSigned(buf, at, last, Pid(args[0].w), d);
    case AText => end := PutText(buf, at, last, args[0].s);
    case AReal => end := PutReal(buf, at, last, args[0].r, d);
    case NoArgument => end := PutChar(buf, at, last, c);
    case Unfinished => assert false;
  }

  /** The text of the character or directive at `i`. */
  ghost function Piece(fmt: string, i: nat, args: seq<Arg>): string {
    if i < |fmt| && fmt[i] == '%' then
      var d := ReadDirective(fmt, i + 1);
      if Suits(At(fmt, d.at), args) then Convert(d, At(fmt, d.at), args) else ""
    else [At(fmt, i)]
  }

  /** `done` has been rendered and the rest is to come from `i`. */
  ghost predicate Remaining(fmt: string, args: seq<Arg>, done: string, i: nat, rest: seq<Arg>) {
    Render(fmt, i, rest).Some? && Render(fmt, 0, args) == Some(done + Render(fmt, i, rest).value)
  }

  lemma RenderStep(fmt: string, args: seq<Arg>, done: string, i: nat, rest: seq<Arg>)
    requires Remaining(fmt, args, done, i, rest) && At(fmt, i) != '\0'
    ensures var d := ReadDirective(fmt, i + 1);
      if fmt[i] == '%'
      then Suits(At(fmt, d.at), rest)
           && Remaining(fmt, args, done + Piece(fmt, i, rest), d.at + 1, Unused(At(fmt, d.at), rest))
      else Remaining(fmt, args, done + Piece(fmt, i, rest), i + 1, rest)
  {
    if fmt[i] == '%' {
      RenderDirective(fmt, i, rest);
      var d := ReadDirective(fmt, i + 1);
      Assoc(done, Piece(fmt, i, rest), Render(fmt, d.at + 1, Unused(At(fmt, d.at), rest)).value);
    } else {
      RenderChar(fmt, i, rest);
      Assoc(done, Piece(fmt, i, rest), Render(fmt, i + 1, rest).value);
    }
  }

  lemma RenderChar(fmt: string, i: nat, args: seq<Arg>)
    requires At(fmt, i) != '\0' && fmt[i] != '%' && Render(fmt, i, args).Some?
    ensures Render(fmt, i + 1, args).Some?
    ensures Render(fmt, i, args).value == Piece(fmt, i, args) + Render(fmt, i + 1, args).value
  {
  }

  lemma RenderDirective(fmt: string, i: nat, args: seq<Arg>)
    requires At(fmt, i) != '\0' && fmt[i] == '%' && Render(fmt, i, args).Some?
    ensures var d := ReadDirective(fmt, i + 1);
      && Suits(At(fmt, d.at), args)
      && Render(fmt, d.at + 1, Unused(At(fmt, d.at), args)).Some?
      && Render(fmt, i, args).value ==
         Piece(fmt, i, args) + Render(fmt, d.at + 1, Unused(At(fmt, d.at), args)).value
  {
  }

  /** One pass of the loop: a directive, or one character of the format. */
  method PutPiece(buf: array<char>, at: nat, last: nat, fmt: string, i: nat, args: seq<Arg>)
    returns (end: nat, next: nat, rest: seq<Arg>)
    requires at < last <= buf.Length && At(fmt, i) != '\0'
    requires fmt[i] == '%' ==> Suits(At(fmt, ReadDirective(fmt, i + 1).at), args)
    modifies buf
    ensures Wrote(old(buf[..]), buf[..], at, end, last, Piece(fmt, i, args))
    ensures if fmt[i] == '%'
            then var d := ReadDirective(fmt, i + 1);
              next == d.at + 1 && rest == Unused(At(fmt, d.at), args)
            else next == i + 1 && rest == args
  {
    if fmt[i] == '%' {
      var d := ParseDirective(fmt, i + 1);
      var c := At(fmt, d.at);
      end := PutDirective(buf, at, last, d, c, args);
      next, rest := d.at + 1, Unused(c, args);
    } else {
      end := PutChar(buf, at, last, fmt[i]);
      next, rest := i + 1, args;
    }
  }

  /** `ngx_vslprintf`: exactly the first bytes of the whole rendering, as many as fit
      before `last`, and nothing else in the buffer. */
  method Vslprintf(buf: array<char>, at: nat, last: nat, fmt: string, args: seq<Arg>) returns (end: nat)
    requires at <= last <= buf.Length
    requires Render(fmt, 0, args).Some?
    modifies buf
    ensures Wrote(old(buf[..]), buf[..], at, end, last, Render(fmt, 0, args).value)
  {
    ghost var was := buf[..];
    ghost var done := "";
    var i, rest := 0, args;
    end := at;
    WroteNothing(was, at, last);
    assert "" + Render(fmt, 0, args).value == Render(fmt, 0, args).value;
    while At(fmt, i) != '\0' && end < last
      invariant Remaining(fmt, args, done, i, rest)
      invariant Wrote(was, buf[..], at, end, last, done)
      decreases |fmt| - i
    {
      ghost var piece, before, mid := Piece(fmt, i, rest), buf[..], end;
      RenderStep(fmt, args, done, i, rest);
      end, i, rest := PutPiece(buf, end, last, fmt, i, rest);
      WroteTwice(was, before, buf[..], at, mid, end, last, done, piece);
      done := done + piece;
    }
    if At(fmt, i) != '\0' {
      WroteFull(was, buf[..], at, last, done, Render(fmt, i, rest).value);
    } else {
      assert done + "" == done;
    }
  }
}
