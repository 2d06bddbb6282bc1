/** What each conversion of the log formatter prints, read off the rendered text: fill characters up to the width, and a
    numeral, a string or a decimal fraction that gives the argument back. */
module FormatterReads {
  import opened Common
  import opened Formatter

  // ---- What a text shows ----

  predicate AllDigits(s: string) { forall i :: 0 <= i < |s| ==> '0' <= s[i] <= '9' }

  /** Digits and the letters of one case. */
  predicate InLetters(s: string, upper: bool) {
    forall i :: 0 <= i < |s| ==> '0' <= s[i] <= '9' || (if upper then 'A' <= s[i] <= 'F' else 'a' <= s[i] <= 'f')
  }

  /** Fill characters up to place `k`, no more than the width asks for, and behind them the shortest numeral of `n`. */
  predicate ShowsFrom(text: string, k: nat, n: nat, hex: bool, upper: bool, fill: char, width: nat) {
    && k < |text| && |text| >= width && (k > 0 ==> |text| == width)
    && (forall i :: 0 <= i < k ==> text[i] == fill)
    && (if hex then InLetters(text[k..], upper) else AllDigits(text[k..]))
    && Value(text[k..], if hex then 16 else 10) == n
    && (text[k] == '0' ==> k + 1 == |text|)
  }

  ghost predicate Shows(text: string, n: nat, hex: bool, upper: bool, fill: char, width: nat) {
    exists k :: ShowsFrom(text, k, n, hex, upper, fill, width)
  }

  /** A minus sign for a negative number, then its amount. */
  ghost predicate ShowsSigned(text: string, v: int, fill: char, width: nat) {
    if v < 0 then text != "" && text[0] == '-' && Shows(text[1..], -v, false, false, fill, width)
    else Shows(text, v, false, false, fill, width)
  }

  /** The number in the signed range of the modulus that a word stands for. */
  predicate StandsFor(w: nat, v: int, modulus: nat)
    requires modulus > 0
  {
    -(modulus as int) <= 2 * v < modulus && (w - v) % modulus == 0
  }

  // ---- Reading a directive ----

  lemma Shifted(a: nat, b: nat, m: nat)
    requires m > 0
    ensures (a * m + b) % m == b % m
  {
    var q, r := b / m, b % m;
    assert a * m + b == (a + q) * m + r;
    QuotientIs(a * m + b, a + q, r, m);
  }

  lemma NextSum(a: nat, d: nat)
    ensures (a % WORDS * 10 + d) % WORDS == (a * 10 + d) % WORDS
  {
    var q, r := a / WORDS, a % WORDS;
    assert a * 10 + d == 10 * q * WORDS + (r * 10 + d);
    Shifted(10 * q, r * 10 + d, WORDS);
  }

  lemma {:induction false} NumberRead(fmt: string, i: nat, k: nat, j: nat)
    requires i <= k <= j <= |fmt| && AllDigits(fmt[i..j]) && !IsDigit(At(fmt, j))
    ensures ReadNumber(fmt, k, Value(fmt[i..k], 10) % WORDS) == (Value(fmt[i..j], 10) % WORDS, j)
    decreases j - k
  {
    if k < j {
      assert fmt[k] == fmt[i..j][k - i];
      assert fmt[i..k + 1][..k - i] == fmt[i..k];
      assert Value(fmt[i..k + 1], 10) == Value(fmt[i..k], 10) * 10 + DigitValue(fmt[k]);
      NextSum(Value(fmt[i..k], 10), DigitValue(fmt[k]));
      NumberRead(fmt, i, k + 1, j);
    }
  }

  /** `%`, a width, a flag, a precision with its point or nothing, and the conversion character. */
  function DirectiveText(width: string, flag: string, precision: string, c: char): string {
    "%" + width + flag + precision + [c]
  }

  predicate Flag(s: string) { s == "" || s == "u" || s == "x" || s == "X" }

  predicate Precision(s: string) { s == "" || (s[0] == '.' && AllDigits(s[1..])) }

  /** A character that ends a directive. */
  predicate Ends(c: char) { !IsDigit(c) && c != 'u' && c != 'x' && c != 'X' && c != '.' }

  function FillOf(width: string): char { if width != "" && width[0] == '0' then '0' else ' ' }

  function WidthOf(width: string): nat { Value(width, 10) % 0x1_0000_0000_0000_0000 }

  function DirectiveOf(width: string, flag: string, precision: string, c: char): Directive {
    Directive(FillOf(width), WidthOf(width), flag == "", if flag == "x" then 1 else if flag == "X" then 2 else 0,
              if precision == "" then 0 else WidthOf(precision[1..]), |DirectiveText(width, flag, precision, c)| - 1)
  }

  lemma DirectivePlaces(width: string, flag: string, precision: string, c: char)
    ensures var fmt := DirectiveText(width, flag, precision, c); var j := 1 + |width|; var k := j + |flag|;
      && |fmt| == k + |precision| + 1 && fmt[0] == '%' && fmt[1..j] == width && fmt[j..k] == flag
      && fmt[k..k + |precision|] == precision && fmt[k + |precision|] == c
  {
  }

  lemma FlagRead(fmt: string, j: nat, flag: string)
    requires Flag(flag) && j + |flag| < |fmt| && fmt[j..j + |flag|] == flag
    requires var c := fmt[j + |flag|]; c != 'u' && c != 'x' && c != 'X'
    ensures ReadFlags(fmt, j, true, 0) == (flag == "", if flag == "x" then 1 else if flag == "X" then 2 else 0, j + |flag|)
  {
    if flag != "" {
      assert fmt[j] == flag[0];
    }
  }

  lemma PrecisionRead(fmt: string, k: nat, precision: string)
    requires Precision(precision) && k + |precision| < |fmt| && fmt[k..k + |precision|] == precision
    requires Ends(fmt[k + |precision|])
    ensures precision != "" ==>
              At(fmt, k) == '.' && ReadNumber(fmt, k + 1, 0) == (WidthOf(precision[1..]), k + |precision|)
    ensures precision == "" ==> At(fmt, k) != '.'
  {
    if precision != "" {
      assert fmt[k] == precision[0];
      assert fmt[k + 1..k + |precision|] == precision[1..];
      assert fmt[k + 1..k + 1] == "";
      NumberRead(fmt, k + 1, k + 1, k + |precision|);
    }
  }

  /** What stands behind the width ends it, and what stands behind the flag ends that. */
  lemma FlagEnds(fmt: string, j: nat, flag: string, precision: string, c: char)
    requires Flag(flag) && Precision(precision) && Ends(c) && |fmt| == j + |flag| + |precision| + 1
    requires fmt[j..j + |flag|] == flag && fmt[j + |flag|..j + |flag| + |precision|] == precision
    requires fmt[j + |flag| + |precision|] == c
    ensures !IsDigit(fmt[j]) && var e := fmt[j + |flag|]; e != 'u' && e != 'x' && e != 'X'
  {
    if flag != "" { assert fmt[j] == flag[0]; }
    if precision != "" { assert fmt[j + |flag|] == precision[0]; }
  }

  lemma WidthRead(fmt: string, width: string)
    requires AllDigits(width) && 1 + |width| < |fmt| && fmt[1..1 + |width|] == width && !IsDigit(fmt[1 + |width|])
    ensures ReadNumber(fmt, 1, 0) == (WidthOf(width), 1 + |width|)
    ensures FillOf(width) == if At(fmt, 1) == '0' then '0' else ' '
  {
    assert fmt[1..1] == "";
    NumberRead(fmt, 1, 1, 1 + |width|);
    if width != "" { assert fmt[1] == width[0]; }
  }

  lemma DirectiveRead(width: string, flag: string, precision: string, c: char)
    requires AllDigits(width) && Flag(flag) && Precision(precision) && Ends(c)
    ensures var fmt := DirectiveText(width, flag, precision, c);
      && fmt[0] == '%' && ReadDirective(fmt, 1) == DirectiveOf(width, flag, precision, c) && At(fmt, |fmt| - 1) == c
  {
    var fmt, j := DirectiveText(width, flag, precision, c), 1 + |width|;
    DirectivePlaces(width, flag, precision, c);
    PartsRead(fmt, width, flag, precision, c, j, j + |flag|);
  }

  lemma PartsRead(fmt: string, width: string, flag: string, precision: string, c: char, j: nat, k: nat)
    requires AllDigits(width) && Flag(flag) && Precision(precision) && Ends(c)
    requires j == 1 + |width| && k == j + |flag| && |fmt| == k + |precision| + 1
    requires fmt[1..j] == width && fmt[j..k] == flag && fmt[k..k + |precision|] == precision && fmt[k + |precision|] == c
    ensures ReadDirective(fmt, 1) ==
      DirectiveOf(width, flag, precision, c).(at := |fmt| - 1)
  {
    FlagEnds(fmt, j, flag, precision, c);
    WidthRead(fmt, width);
    FlagRead(fmt, j, flag);
    PrecisionRead(fmt, k, precision);
  }

  /** A format of one directive renders as what its conversion makes of the first argument. */
  lemma OneDirective(width: string, flag: string, precision: string, c: char, args: seq<Arg>)
    requires AllDigits(width) && Flag(flag) && Precision(precision) && Ends(c) && c != '\0' && Suits(c, args)
    ensures Render(DirectiveText(width, flag, precision, c), 0, args)
         == Some(Convert(DirectiveOf(width, flag, precision, c), c, args))
  {
    var fmt := DirectiveText(width, flag, precision, c);
    DirectiveRead(width, flag, precision, c);
    assert Render(fmt, |fmt|, Unused(c, args)) == Some("");
    var text := Convert(DirectiveOf(width, flag, precision, c), c, args);
    assert text + "" == text;
  }

  // ---- Numbers ----

  lemma {:induction false} DigitsInLetters(n: nat, base: nat, upper: bool)
    requires base == 10 || base == 16
    ensures var s := Digits(n, base, upper);
      s != "" && InLetters(s, upper) && (base == 10 ==> AllDigits(s)) && (n > 0 ==> s[0] != '0') && (n == 0 ==> s == "0")
  {
    if n >= base {
      DigitsInLetters(n / base, base, upper);
      assert n / base > 0;
    }
  }

  lemma FilledShows(digits: string, fill: char, n: nat, hex: bool, upper: bool, width: nat)
    requires digits != "" && (if hex then InLetters(digits, upper) else AllDigits(digits))
    requires Value(digits, if hex then 16 else 10) == n && (digits[0] == '0' ==> |digits| == 1)
    ensures Shows(Fill(fill, width - |digits|) + digits, n, hex, upper, fill, width)
  {
    var text := Fill(fill, width - |digits|) + digits;
    var k := |text| - |digits|;
    assert text[k..] == digits;
    assert ShowsFrom(text, k, n, hex, upper, fill, width);
  }

  lemma PaddedShows(n: nat, zero: char, hex: nat, width: nat)
    ensures Shows(Padded(n, zero, hex, width), n, hex != 0, hex != 1, zero, width)
    ensures hex == 0 ==> Shows(Padded(n, zero, hex, width), n, false, false, zero, width)
  {
    var digits := Digits(n, Base(hex), hex != 1);
    DigitsDenote(n, Base(hex), hex != 1);
    DigitsInLetters(n, Base(hex), hex != 1);
    FilledShows(digits, zero, n, hex != 0, hex != 1, width);
    if hex == 0 {
      FilledShows(digits, zero, n, false, false, width);
    }
  }

  lemma SignedShows(v: int, d: Directive)
    requires d.hex == 0
    ensures ShowsSigned(SignedText(v, d), v, d.zero, d.width)
  {
    PaddedShows(if v < 0 then -v else v, d.zero, 0, d.width);
    if v < 0 {
      assert SignedText(v, d)[1..] == Padded(-v, d.zero, 0, d.width);
    }
  }

  lemma SignedStandsFor(w: Word)
    ensures StandsFor(w, Signed(w), 0x1_0000_0000_0000_0000)
  {
  }

  lemma PidStandsFor(w: Word)
    ensures StandsFor(w, Pid(w), 0x1_0000_0000)
  {
    var q, low := w / 0x1_0000_0000, w % 0x1_0000_0000;
    assert w == q * 0x1_0000_0000 + low;
  }

  /** `%d`, with any width and without a flag: the word as a signed 64-bit number. */
  lemma SignedRenders(width: string, c: char, w: nat)
    requires AllDigits(width) && (c == 'd' || c == 'i' || c == 'L') && w < 0x1_0000_0000_0000_0000
    ensures var text := Render(DirectiveText(width, "", "", c), 0, [Number(w)]);
      text.Some? && exists v {:trigger StandsFor(w, v, 0x1_0000_0000_0000_0000)} ::
        StandsFor(w, v, 0x1_0000_0000_0000_0000) && ShowsSigned(text.value, v, FillOf(width), WidthOf(width))
  {
    OneDirective(width, "", "", c, [Number(w)]);
    SignedShows(Signed(w), DirectiveOf(width, "", "", c));
    SignedStandsFor(w);
  }

  /** `%ud`, `%xd` and `%Xd`, with any width: the unsigned word in the base and the letters of the flag. */
  lemma UnsignedRenders(width: string, flag: string, c: char, w: nat)
    requires AllDigits(width) && (flag == "u" || flag == "x" || flag == "X") && (c == 'd' || c == 'i' || c == 'L')
    requires w < 0x1_0000_0000_0000_0000
    ensures var text := Render(DirectiveText(width, flag, "", c), 0, [Number(w)]);
      text.Some? && Shows(text.value, w, flag != "u", flag == "X", FillOf(width), WidthOf(width))
  {
    OneDirective(width, flag, "", c, [Number(w)]);
    PaddedShows(w, FillOf(width), DirectiveOf(width, flag, "", c).hex, WidthOf(width));
  }

  /** `%p`: sixteen upper-case hexadecimal digits. */
  lemma PointerRenders(w: nat)
    requires w < 0x1_0000_0000_0000_0000
    ensures var text := Render("%p", 0, [Number(w)]);
      text.Some? && |text.value| == 16 && InLetters(text.value, true) && Value(text.value, 16) == w
  {
    assert DirectiveText("", "", "", 'p') == "%p";
    OneDirective("", "", "", 'p', [Number(w)]);
    SixteenDigits(w);
  }

  lemma SixteenPowers()
    ensures Pow(16, 16) == 0x1_0000_0000_0000_0000
  {
    assert Pow(16, 5) == 0x10_0000;
    assert Pow(16, 10) == 0x100_0000_0000;
    assert Pow(16, 13) == 0x10_0000_0000_0000;
  }

  lemma SixteenDigits(w: Word)
    ensures var text := Padded(w, '0', 2, 16); |text| == 16 && InLetters(text, true) && Value(text, 16) == w
  {
    var digits := Digits(w, 16, true);
    SixteenPowers();
    DigitsCount(w, 16, true, 16);
    DigitsDenote(w, 16, true);
    DigitsInLetters(w, 16, true);
    LeadingZeros(digits, 16 - |digits|, 16);
  }

  lemma {:induction false} LeadingZeros(s: string, k: nat, base: nat)
    ensures Value(Fill('0', k) + s, base) == Value(s, base)
    decreases |s|, k
  {
    var text := Fill('0', k) + s;
    if s != "" {
      assert text[..|text| - 1] == Fill('0', k) + s[..|s| - 1];
      LeadingZeros(s[..|s| - 1], k, base);
    } else if k > 0 {
      assert text[..|text| - 1] == Fill('0', k - 1) + s;
      LeadingZeros(s, k - 1, base);
    }
  }

  /** `%P`, with any width: the low 32 bits as a signed number. */
  lemma PidRenders(width: string, w: nat)
    requires AllDigits(width) && w < 0x1_0000_0000_0000_0000
    ensures var text := Render(DirectiveText(width, "", "", 'P'), 0, [Number(w)]);
      text.Some? && exists v {:trigger StandsFor(w, v, 0x1_0000_0000)} ::
        StandsFor(w, v, 0x1_0000_0000) && ShowsSigned(text.value, v, FillOf(width), WidthOf(width))
  {
    OneDirective(width, "", "", 'P', [Number(w)]);
    SignedShows(Pid(w), DirectiveOf(width, "", "", 'P'));
    PidStandsFor(w);
  }

  // ---- Strings and plain characters ----

  lemma {:induction false} CharsUpToNul(s: string, tail: string)
    requires '\0' !in s && (tail == "" || tail[0] == '\0')
    ensures Chars(s + tail) == s
    decreases |s|
  {
    if s == "" {
      assert s + tail == tail;
    } else {
      assert (s + tail)[0] == s[0] && s[0] in s && (s + tail)[1..] == s[1..] + tail;
      CharsUpToNul(s[1..], tail);
    }
  }

  /** `%s`: the string up to its first NUL, whole when it has none. */
  lemma TextRenders(s: string, tail: string)
    requires '\0' !in s && (tail == "" || tail[0] == '\0')
    ensures Render("%s", 0, [Text(s + tail)]) == Some(s)
  {
    assert DirectiveText("", "", "", 's') == "%s";
    OneDirective("", "", "", 's', [Text(s + tail)]);
    CharsUpToNul(s, tail);
  }

  /** Any other character behind a percent sign stands for itself, the percent sign among them. */
  lemma OtherRenders(c: char, args: seq<Arg>)
    requires c !in "0123456789uxX.dipPLsf\0"
    ensures Render(['%', c], 0, args) == Some([c])
  {
    var all := "0123456789uxX.dipPLsf\0";
    assert all[0] == '0' && all[1] == '1' && all[2] == '2' && all[3] == '3' && all[4] == '4' && all[5] == '5'
        && all[6] == '6' && all[7] == '7' && all[8] == '8' && all[9] == '9' && all[10] == 'u' && all[11] == 'x'
        && all[12] == 'X' && all[13] == '.' && all[14] == 'd' && all[15] == 'i' && all[16] == 'p' && all[17] == 'P'
        && all[18] == 'L' && all[19] == 's' && all[20] == 'f' && all[21] == '\0';
    assert DirectiveText("", "", "", c) == ['%', c];
    OneDirective("", "", "", c, args);
  }

  // ---- Fractions ----

  function Amount(f: real): real { if f < 0.0 then -f else f }

  function Minus(f: real): string { if f < 0.0 then "-" else "" }

  /** `whole` shows the number `n` and `fraction` has exactly the places asked for; both together are within half a unit of
      the last place of the amount. */
  ghost predicate ShowsParts(f: real, whole: string, n: nat, fraction: string, places: nat, fill: char, width: nat) {
    && Shows(whole, n, false, false, fill, width)
    && |fraction| == places && AllDigits(fraction)
    && -0.5 <= Miss(Amount(f), n, Value(fraction, 10), Pow(10, places)) <= 0.5
  }

  ghost predicate ShowsReal(text: string, f: real, places: nat, fill: char, width: nat) {
    exists whole, n, fraction ::
      text == Minus(f) + whole + "." + fraction && ShowsParts(f, whole, n, fraction, places, fill, width)
  }

  lemma FractionShows(frac: nat, places: nat)
    requires places > 0 && frac < Pow(10, places)
    ensures var text := Padded(frac, '0', 0, places);
            |text| == places && AllDigits(text) && Value(text, 10) == frac
  {
    var digits := Digits(frac, 10, true);
    DigitsCount(frac, 10, true, places);
    DigitsDenote(frac, 10, true);
    DigitsInLetters(frac, 10, true);
    ZerosShow(digits, places - |digits|);
  }

  lemma ZerosShow(digits: string, k: nat)
    requires AllDigits(digits)
    ensures var text := Fill('0', k) + digits;
            |text| == k + |digits| && AllDigits(text) && Value(text, 10) == Value(digits, 10)
  {
    LeadingZeros(digits, k, 10);
  }

  lemma PartsShow(f: real, places: nat, fill: char, width: nat)
    requires 0.0 <= Amount(f) < (WORDS - 1) as real && places > 0 && Pow(10, places) < WORDS
    ensures var (n, frac) := RealParts(Amount(f), places);
            ShowsParts(f, Padded(n, fill, 0, width), n, Padded(frac, '0', 0, places), places, fill, width)
  {
    var (n, frac) := RealParts(Amount(f), places);
    RealIsRounded(Amount(f), places);
    FractionShows(frac, places);
    PaddedShows(n, fill, 0, width);
  }

  /** `%.nf`, as far as the power of ten fits a word, in exact arithmetic: a minus sign for a negative number, the whole
      part with the width, the point, and the fraction with exactly `n` digits, rounded to the last place. */
  lemma RealRenders(width: string, digits: string, f: real)
    requires AllDigits(width) && AllDigits(digits) && WidthOf(digits) > 0
    requires Pow(10, WidthOf(digits)) < 0x1_0000_0000_0000_0000
    requires -18446744073709551615.0 < f < 18446744073709551615.0
    ensures var text := Render(DirectiveText(width, "", "." + digits, 'f'), 0, [Real(f)]);
            text.Some? && ShowsReal(text.value, f, WidthOf(digits), FillOf(width), WidthOf(width))
  {
    var precision, places := "." + digits, WidthOf(digits);
    assert precision[1..] == digits;
    OneDirective(width, "", precision, 'f', [Real(f)]);
    PartsShow(f, places, FillOf(width), WidthOf(width));
    var (n, frac) := RealParts(Amount(f), places);
    RealJoins(f, DirectiveOf(width, "", precision, 'f'), Padded(n, FillOf(width), 0, WidthOf(width)),
              Padded(frac, '0', 0, places));
  }

  lemma RealJoins(f: real, d: Directive, whole: string, fraction: string)
    requires 0.0 <= Amount(f) < WORDS as real && d.frac > 0
    requires var (n, frac) := RealParts(Amount(f), d.frac);
             whole == Padded(n, d.zero, 0, d.width) && fraction == Padded(frac, '0', 0, d.frac)
    ensures RealText(f, d) == Minus(f) + whole + "." + fraction
  {
    assert whole + ("." + fraction) == whole + "." + fraction;
    assert "-" + (whole + "." + fraction) == "-" + whole + "." + fraction;
    assert "" + whole == whole;
  }

  /** `%f` without places: the whole part of the amount, not rounded. */
  lemma WholeRenders(width: string, precision: string, f: real)
    requires AllDigits(width) && (precision == "" || (precision[0] == '.' && AllDigits(precision[1..])))
    requires precision == "" || WidthOf(precision[1..]) == 0
    requires -18446744073709551616.0 < f < 18446744073709551616.0
    ensures var text := Render(DirectiveText(width, "", precision, 'f'), 0, [Real(f)]);
            text.Some? && exists whole ::
              text.value == Minus(f) + whole && Shows(whole, Amount(f).Floor, false, false, FillOf(width), WidthOf(width))
  {
    OneDirective(width, "", precision, 'f', [Real(f)]);
    PaddedShows(Amount(f).Floor, FillOf(width), 0, WidthOf(width));
    WholeJoins(f, DirectiveOf(width, "", precision, 'f'));
  }

  lemma WholeJoins(f: real, d: Directive)
    requires 0.0 <= Amount(f) < WORDS as real && d.frac == 0
    ensures RealText(f, d) == Minus(f) + Padded(Amount(f).Floor, d.zero, 0, d.width)
  {
    var whole := Padded(Amount(f).Floor, d.zero, 0, d.width);
    assert whole + "" == whole && "" + whole == whole;
  }
}
