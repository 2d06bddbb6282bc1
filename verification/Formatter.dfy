/** The log formatter (my_logger.cpp): what a format and its arguments render to when
    there is room for all of it. Positions past the end of a format hold its NUL. */
module Formatter {
  import opened Common

  const WORDS: nat := 0x1_0000_0000_0000_0000
  const HALF_WORDS: nat := 0x8000_0000_0000_0000

  /** A 64-bit word; how it is read is up to the directive. */
  type Word = w: nat | w < WORDS

  datatype Arg = Number(w: Word) | Text(s: string) | Real(r: real)

  // ---- Numbers ----

  function Digit(d: nat, upper: bool): char
    requires d < 16
  {
    if d < 10 then '0' + d as char
    else if upper then 'A' + (d - 10) as char
    else 'a' + (d - 10) as char
  }

  function DigitValue(c: char): nat {
    if '0' <= c <= '9' then (c - '0') as nat
    else if 'a' <= c <= 'f' then (c - 'a') as nat + 10
    else if 'A' <= c <= 'F' then (c - 'A') as nat + 10
    else 16
  }

  function Digits(n: nat, base: nat, upper: bool): string
    requires 2 <= base <= 16
  {
    if n < base then [Digit(n, upper)]
    else Digits(n / base, base, upper) + [Digit(n % base, upper)]
  }

  /** The number a digit string denotes. */
  function Value(s: string, base: nat): nat {
    if s == "" then 0 else Value(s[..|s| - 1], base) * base + DigitValue(s[|s| - 1])
  }

  ghost predicate IsNumeral(s: string, base: nat) {
    s != "" && forall i :: 0 <= i < |s| ==> DigitValue(s[i]) < base
  }

  function Base(hex: nat): nat {
    if hex == 0 then 10 else 16
  }

  function Fill(c: char, n: int): string {
    if n <= 0 then "" else seq(n, i => c)
  }

  /** What `ngx_sprintf_num` prints: 0 decimal, 1 hexadecimal, otherwise upper case. */
  function Padded(n: nat, zero: char, hex: nat, width: nat): string {
    var digits := Digits(n, Base(hex), hex != 1);
    Fill(zero, width - |digits|) + digits
  }

  // ---- Directives ----

  function At(fmt: string, i: nat): char {
    if i < |fmt| then fmt[i] else '\0'
  }

  predicate IsDigit(c: char) {
    '0' <= c <= '9'
  }

  /** A width: wraps round at 64 bits. */
  function ReadNumber(fmt: string, i: nat, sum: Word): (r: (Word, nat))
    ensures i <= r.1
    decreases if i < |fmt| then |fmt| - i else 0
  {
    if IsDigit(At(fmt, i))
    then ReadNumber(fmt, i + 1, (sum * 10 + (At(fmt, i) - '0') as nat) % WORDS)
    else (sum, i)
  }

  function ReadFlags(fmt: string, i: nat, sign: bool, hex: nat): (r: (bool, nat, nat))
    ensures i <= r.2
    decreases if i < |fmt| then |fmt| - i else 0
  {
    match At(fmt, i)
    case 'u' => ReadFlags(fmt, i + 1, false, hex)
    case 'X' => ReadFlags(fmt, i + 1, false, 2)
    case 'x' => ReadFlags(fmt, i + 1, false, 1)
    case _ => (sign, hex, i)
  }

  /** A directive up to its conversion character, which stands at `at`. */
  datatype Directive = Directive(zero: char, width: Word, sign: bool, hex: nat, frac: Word, at: nat)

  function ReadDirective(fmt: string, i: nat): (d: Directive)
    ensures i <= d.at
  {
    var zero := if At(fmt, i) == '0' then '0' else ' ';
    var (width, j) := ReadNumber(fmt, i, 0);
    var (sign, hex, k) := ReadFlags(fmt, j, true, 0);
    if At(fmt, k) == '.' then
      var (frac, m) := ReadNumber(fmt, k + 1, 0);
      Directive(zero, width, sign, hex, frac, m)
    else
      Directive(zero, width, sign, hex, 0, k)
  }

  // ---- Conversions ----

  function Signed(w: Word): int {
    if w < HALF_WORDS then w else w - WORDS
  }

  /** A process id is the low 32 bits, with sign. */
  function Pid(w: Word): int {
    var low := w % 0x1_0000_0000;
    if low < 0x8000_0000 then low else low - 0x1_0000_0000
  }

  function SignedText(v: int, d: Directive): string {
    if v < 0 then "-" + Padded(-v, d.zero, d.hex, d.width) else Padded(v, d.zero, d.hex, d.width)
  }

  function WordText(w: Word, d: Directive): string {
    if d.sign then SignedText(Signed(w), d) else Padded(w, d.zero, d.hex, d.width)
  }

  /** A C string ends at its first NUL. */
  function Chars(s: string): string {
    if s == "" || s[0] == '\0' then "" else [s[0]] + Chars(s[1..])
  }

  /** `scale`: a power of ten that wraps round at 64 bits. */
  function Scale(places: nat): Word {
    if places == 0 then 1 else Scale(places - 1) * 10 % WORDS
  }

  /** The fraction of `f` in units of 1 / `scale`, rounded half up. */
  function ScaledFraction(f: real, scale: nat): (r: nat)
    requires 0.0 <= f
  {
    Round(Part(f, scale))
  }

  function Part(f: real, scale: nat): (x: real)
    requires 0.0 <= f
    ensures 0.0 <= x
  {
    (f - f.Floor as real) * scale as real
  }

  function Round(x: real): nat
    requires x >= 0.0
  {
    (x + 0.5).Floor
  }

  /** The whole part and the rounded fraction that `%f` prints, in exact arithmetic. */
  function RealParts(f: real, places: nat): (Word, nat)
    requires 0.0 <= f < WORDS as real
  {
    var whole := f.Floor;
    if places == 0 then (whole, 0)
    else
      var frac := ScaledFraction(f, Scale(places));
      if frac >= Scale(places) then ((whole + 1) % WORDS, 0) else (whole, frac)
  }

  function UnsignedRealText(f: real, d: Directive): string
    requires 0.0 <= f < WORDS as real
  {
    var (whole, frac) := RealParts(f, d.frac);
    Padded(whole, d.zero, 0, d.width) + (if d.frac > 0 then "." + Padded(frac, '0', 0, d.frac) else "")
  }

  function RealText(f: real, d: Directive): string
    requires -(WORDS as real) < f < WORDS as real
  {
    if f < 0.0 then "-" + UnsignedRealText(-f, d) else UnsignedRealText(f, d)
  }

  datatype Conversion = NoArgument | ANumber | APointer | APid | AText | AReal | Unfinished

  function ConversionOf(c: char): Conversion {
    match c
    case 'd' => ANumber
    case 'i' => ANumber
    case 'L' => ANumber
    case 'p' => APointer
    case 'P' => APid
    case 's' => AText
    case 'f' => AReal
    case '\0' => Unfinished
    case _ => NoArgument
  }

  /** The first argument is of the kind the conversion takes. */
  predicate Suits(c: char, args: seq<Arg>) {
    match ConversionOf(c)
    case NoArgument => true
    case AText => args != [] && args[0].Text?
    case AReal => args != [] && args[0].Real? && -(WORDS as real) < args[0].r < WORDS as real
    case Unfinished => false
    case _ => args != [] && args[0].Number?
  }

  /** The text of a directive that ends in `c`. */
  function Convert(d: Directive, c: char, args: seq<Arg>): string
    requires Suits(c, args)
  {
    match ConversionOf(c)
    case ANumber => WordText(args[0].w, d)
    case APointer => Padded(args[0].w, '0', 2, 16)
    case APid => SignedText(Pid(args[0].w), d)
    case AText => Chars(args[0].s)
    case AReal => RealText(args[0].r, d)
    case _ => [c]
  }

  function Unused(c: char, args: seq<Arg>): seq<Arg>
    requires Suits(c, args)
  {
    if ConversionOf(c).NoArgument? then args else args[1..]
  }

  /** The whole rendering from position `i`; `None` when the format ends inside a
      directive or an argument is missing or of another kind. */
  function Render(fmt: string, i: nat, args: seq<Arg>): Option<string>
    decreases if i < |fmt| then |fmt| - i else 0
  {
    if At(fmt, i) == '\0' then Some("")
    else if fmt[i] == '%' then
      var d := ReadDirective(fmt, i + 1);
      var c := At(fmt, d.at);
      if !Suits(c, args) then None
      else
        var rest := Render(fmt, d.at + 1, Unused(c, args));
        if rest.None? then None else Some(Convert(d, c, args) + rest.value)
    else
      var rest := Render(fmt, i + 1, args);
      if rest.None? then None else Some([fmt[i]] + rest.value)
  }

  // ---- What the digits mean ----

  lemma DigitDenotes(d: nat, upper: bool)
    requires d < 16
    ensures DigitValue(Digit(d, upper)) == d
  {
  }

  lemma Split(n: nat, base: nat) returns (q: nat, r: nat)
    requires base > 0
    ensures q == n / base && r == n % base && r < base && n == q * base + r
  {
    q, r := n / base, n % base;
  }

  lemma AppendDigit(s: string, c: char, base: nat)
    requires s == "" || IsNumeral(s, base)
    requires DigitValue(c) < base
    ensures IsNumeral(s + [c], base) && Value(s + [c], base) == Value(s, base) * base + DigitValue(c)
  {
    assert (s + [c])[..|s|] == s;
  }

  predicate Denotes(s: string, base: nat, n: nat) {
    Value(s, base) == n
  }

  lemma OneMoreDigit(front: string, q: nat, r: nat, n: nat, base: nat, upper: bool)
    requires base <= 16 && r < base && n == q * base + r
    requires Denotes(front, base, q) && (front == "" || IsNumeral(front, base))
    ensures IsNumeral(front + [Digit(r, upper)], base) && Denotes(front + [Digit(r, upper)], base, n)
  {
    DigitDenotes(r, upper);
    AppendDigit(front, Digit(r, upper), base);
  }

  lemma FirstDigit(n: nat, base: nat, upper: bool)
    requires n < base <= 16
    ensures IsNumeral([Digit(n, upper)], base) && Denotes([Digit(n, upper)], base, n)
  {
    DigitDenotes(n, upper);
    assert Value([Digit(n, upper)], base) == Value("", base) * base + n;
  }

  lemma LongerDenotes(n: nat, base: nat, upper: bool)
    requires 2 <= base <= 16 && n >= base
    requires IsNumeral(Digits(n / base, base, upper), base) && Denotes(Digits(n / base, base, upper), base, n / base)
    ensures IsNumeral(Digits(n, base, upper), base) && Denotes(Digits(n, base, upper), base, n)
  {
    var q, r := Split(n, base);
    OneMoreDigit(Digits(q, base, upper), q, r, n, base, upper);
  }

  lemma {:induction false} DigitsDenote(n: nat, base: nat, upper: bool)
    requires 2 <= base <= 16
    ensures IsNumeral(Digits(n, base, upper), base)
    ensures Denotes(Digits(n, base, upper), base, n)
  {
    if n < base {
      FirstDigit(n, base, upper);
    } else {
      DigitsDenote(n / base, base, upper);
      LongerDenotes(n, base, upper);
    }
  }

  /** No shorter numeral denotes the number. */
  lemma {:induction false} DigitsAreShortest(n: nat, base: nat, upper: bool, s: string)
    requires 2 <= base <= 16
    requires IsNumeral(s, base) && Value(s, base) == n
    ensures |Digits(n, base, upper)| <= |s|
    decreases |s|
  {
    if n >= base {
      var front, last := s[..|s| - 1], DigitValue(s[|s| - 1]);
      assert Value(s, base) == Value(front, base) * base + last;
      QuotientIs(n, Value(front, base), last, base);
      assert front != "";
      DigitsAreShortest(n / base, base, upper, front);
    }
  }

  /** The number of numerals of a given length. */
  function Pow(base: nat, k: nat): nat {
    if k == 0 then 1 else Pow(base, k - 1) * base
  }

  lemma {:induction false} DigitsCount(n: nat, base: nat, upper: bool, k: nat)
    requires 2 <= base <= 16 && k > 0
    requires n < Pow(base, k)
    ensures |Digits(n, base, upper)| <= k
    decreases k
  {
    if n >= base {
      assert k == 1 ==> Pow(base, k) == Pow(base, 0) * base;
      QuotientBelow(n, Pow(base, k - 1), base);
      DigitsCount(n / base, base, upper, k - 1);
    }
  }

  lemma QuotientBelow(n: nat, p: nat, base: nat)
    requires base > 0 && n < p * base
    ensures n / base < p
  {
  }

  /** Every 64-bit value fits the twenty digits of the scratch area. */
  lemma WordsFitTwentyDigits(w: Word, hex: nat, upper: bool)
    ensures |Digits(w, Base(hex), upper)| <= 20
  {
    assert Pow(10, 5) == 100000;
    assert Pow(10, 10) == 10000000000;
    assert Pow(10, 15) == 1000000000000000;
    assert Pow(10, 20) == 100000000000000000000;
    assert Pow(16, 5) == 0x100000;
    assert Pow(16, 10) == 0x100_0000_0000;
    assert Pow(16, 15) == 0x1000_0000_0000_0000;
    assert Pow(16, 20) == 0x1_0000_0000_0000_0000_0000;
    DigitsCount(w, Base(hex), upper, 20);
  }

  /** A padded number: as wide as asked, filled in front, then the shortest numeral
      that denotes the value. */
  lemma PaddedIs(w: Word, zero: char, hex: nat, width: nat, s: string)
    requires IsNumeral(s, Base(hex)) && Value(s, Base(hex)) == w
    ensures var text := Padded(w, zero, hex, width);
            var digits := Digits(w, Base(hex), hex != 1);
            && |digits| <= |s| && |digits| <= 20
            && |text| == (if width > |digits| then width else |digits|)
            && (forall i :: 0 <= i < |text| - |digits| ==> text[i] == zero)
            && text[|text| - |digits|..] == digits
            && IsNumeral(digits, Base(hex)) && Value(digits, Base(hex)) == w
  {
    DigitsDenote(w, Base(hex), hex != 1);
    DigitsAreShortest(w, Base(hex), hex != 1, s);
    WordsFitTwentyDigits(w, hex, hex != 1);
  }

  function SignedValue(s: string): int {
    if s != "" && s[0] == '-' then -(Value(s[1..], 10) as int) else Value(s, 10)
  }

  lemma DecimalText(w: Word)
    ensures Render("%d", 0, [Number(w)]) == Some(SignedText(Signed(w), Directive(' ', 0, true, 0, 0, 1)))
  {
    var fmt, args := "%d", [Number(w)];
    assert ReadDirective(fmt, 1) == Directive(' ', 0, true, 0, 0, 1);
    assert Render(fmt, 2, args[1..]) == Some("");
    var text := SignedText(Signed(w), Directive(' ', 0, true, 0, 0, 1));
    assert text + "" == text;
  }

  lemma SignedTextReadsBack(v: int, d: Directive)
    requires d.width == 0 && d.hex == 0
    ensures SignedValue(SignedText(v, d)) == v
  {
    var n := if v < 0 then -v else v;
    var digits := Digits(n, 10, true);
    DigitsDenote(n, 10, true);
    assert Padded(n, d.zero, 0, 0) == digits;
    assert DigitValue('-') == 16;
    assert ("-" + digits)[1..] == digits;
  }

  /** `%d` prints every 64-bit value so that it reads back. */
  lemma DecimalReadsBack(w: Word)
    ensures var text := Render("%d", 0, [Number(w)]);
      text.Some? && SignedValue(text.value) == Signed(w)
  {
    DecimalText(w);
    SignedTextReadsBack(Signed(w), Directive(' ', 0, true, 0, 0, 1));
  }

  lemma {:induction false} ScaleIsExact(places: nat)
    requires Pow(10, places) < WORDS
    ensures Scale(places) == Pow(10, places)
  {
    if places > 0 {
      ScaleIsExact(places - 1);
    }
  }

  /** By how much the printed numbers miss `f`, in units of the last place. */
  function Miss(f: real, whole: int, frac: int, scale: nat): real {
    whole as real * scale as real + frac as real - f * scale as real
  }

  lemma MissIs(f: real, whole: int, frac: int, scale: nat)
    ensures Miss(f, f.Floor, frac, scale) == frac as real - (f - f.Floor as real) * scale as real
    ensures Miss(f, whole + 1, frac, scale) == Miss(f, whole, frac, scale) + scale as real
  {
  }

  lemma BelowOne(part: real, scale: real)
    requires part < 1.0 && scale >= 0.0
    ensures part * scale <= scale
  {
    assert scale - part * scale == (1.0 - part) * scale;
  }

  lemma FractionBelow(f: real, scale: nat)
    requires 0.0 <= f
    ensures Part(f, scale) <= scale as real
  {
    var part, s := f - f.Floor as real, scale as real;
    BelowOne(part, s);
    assert Part(f, scale) == part * s;
  }

  lemma RoundIsNear(x: real, scale: nat)
    requires 0.0 <= x <= scale as real
    ensures -0.5 <= Round(x) as real - x <= 0.5
    ensures Round(x) >= scale ==> scale as real - x <= 0.5
  {
  }

  lemma RoundedIsNear(f: real, scale: nat)
    requires 0.0 <= f
    ensures -0.5 <= Miss(f, f.Floor, ScaledFraction(f, scale), scale) <= 0.5
    ensures ScaledFraction(f, scale) >= scale ==> -0.5 <= Miss(f, f.Floor + 1, 0, scale) <= 0.5
  {
    FractionBelow(f, scale);
    RoundIsNear(Part(f, scale), scale);
    MissIs(f, f.Floor, ScaledFraction(f, scale), scale);
    MissIs(f, f.Floor, 0, scale);
  }

  lemma PartsAreNear(f: real, places: nat)
    requires 0.0 <= f < (WORDS - 1) as real
    requires places > 0
    ensures var (whole, frac) := RealParts(f, places); -0.5 <= Miss(f, whole, frac, Scale(places)) <= 0.5
  {
    RoundedIsNear(f, Scale(places));
  }

  /** `%.nf`, as far as the power of ten fits a word (19 places): the two printed
      numbers are within half a unit of the last place, and the fraction has exactly
      the places asked for. */
  lemma RealIsRounded(f: real, places: nat)
    requires 0.0 <= f < (WORDS - 1) as real
    requires places > 0 && Pow(10, places) < WORDS
    ensures var (whole, frac) := RealParts(f, places);
            && frac < Pow(10, places)
            && |Padded(frac, '0', 0, places)| == places
            && -0.5 <= Miss(f, whole, frac, Pow(10, places)) <= 0.5
  {
    ScaleIsExact(places);
    PartsAreNear(f, places);
    PowPositive(10, places);
    var (whole, frac) := RealParts(f, places);
    DigitsCount(frac, 10, true, places);
  }

  lemma {:induction false} PowPositive(base: nat, k: nat)
    requires base > 0
    ensures Pow(base, k) > 0
  {
    if k > 0 {
      PowPositive(base, k - 1);
    }
  }

  // ---- Formats one after the other ----

  /** The arguments the format does not use. */
  function Left(fmt: string, i: nat, args: seq<Arg>): seq<Arg>
    decreases if i < |fmt| then |fmt| - i else 0
  {
    if At(fmt, i) == '\0' then args
    else if fmt[i] == '%' then
      var d := ReadDirective(fmt, i + 1);
      var c := At(fmt, d.at);
      if !Suits(c, args) then args else Left(fmt, d.at + 1, Unused(c, args))
    else Left(fmt, i + 1, args)
  }

  lemma {:induction false} NumberIsLocal(a: string, b: string, i: nat, sum: Word)
    requires ReadNumber(a, i, sum).1 < |a|
    ensures ReadNumber(a + b, i, sum) == ReadNumber(a, i, sum)
    decreases |a| - i
  {
    if IsDigit(At(a, i)) {
      NumberIsLocal(a, b, i + 1, (sum * 10 + (At(a, i) - '0') as nat) % WORDS);
    }
  }

  lemma {:induction false} FlagsAreLocal(a: string, b: string, i: nat, sign: bool, hex: nat)
    requires ReadFlags(a, i, sign, hex).2 < |a|
    ensures ReadFlags(a + b, i, sign, hex) == ReadFlags(a, i, sign, hex)
    decreases |a| - i
  {
    match At(a, i)
    case 'u' => FlagsAreLocal(a, b, i + 1, false, hex);
    case 'X' => FlagsAreLocal(a, b, i + 1, false, 2);
    case 'x' => FlagsAreLocal(a, b, i + 1, false, 1);
    case _ =>
  }

  lemma DirectiveIsLocal(a: string, b: string, i: nat)
    requires ReadDirective(a, i).at < |a|
    ensures ReadDirective(a + b, i) == ReadDirective(a, i)
  {
    var j := ReadNumber(a, i, 0).1;
    var k := ReadFlags(a, j, true, 0).2;
    NumberIsLocal(a, b, i, 0);
    FlagsAreLocal(a, b, j, true, 0);
    if At(a, k) == '.' {
      NumberIsLocal(a, b, k + 1, 0);
    }
  }

  lemma {:induction false} NumberShifts(a: string, b: string, i: nat, sum: Word)
    requires i >= |a|
    ensures var (n, next) := ReadNumber(b, i - |a|, sum); ReadNumber(a + b, i, sum) == (n, next + |a|)
    decreases if i < |a + b| then |a + b| - i else 0
  {
    if IsDigit(At(b, i - |a|)) {
      NumberShifts(a, b, i + 1, (sum * 10 + (At(b, i - |a|) - '0') as nat) % WORDS);
    }
  }

  lemma {:induction false} FlagsShift(a: string, b: string, i: nat, sign: bool, hex: nat)
    requires i >= |a|
    ensures var (s, h, next) := ReadFlags(b, i - |a|, sign, hex); ReadFlags(a + b, i, sign, hex) == (s, h, next + |a|)
    decreases if i < |a + b| then |a + b| - i else 0
  {
    match At(b, i - |a|)
    case 'u' => FlagsShift(a, b, i + 1, false, hex);
    case 'X' => FlagsShift(a, b, i + 1, false, 2);
    case 'x' => FlagsShift(a, b, i + 1, false, 1);
    case _ =>
  }

  lemma AtShifts(a: string, b: string, i: nat)
    requires i >= |a|
    ensures At(a + b, i) == At(b, i - |a|)
  {
  }

  lemma DirectiveShifts(a: string, b: string, i: nat)
    requires i >= |a|
    ensures var d := ReadDirective(b, i - |a|); ReadDirective(a + b, i) == d.(at := d.at + |a|)
  {
    var j := ReadNumber(b, i - |a|, 0).1;
    var k := ReadFlags(b, j, true, 0).2;
    NumberShifts(a, b, i, 0);
    FlagsShift(a, b, j + |a|, true, 0);
    NumberShifts(a, b, k + |a| + 1, 0);
    AtShifts(a, b, i);
    AtShifts(a, b, k + |a|);
  }

  /** The place of its conversion character does not matter to a directive's text. */
  lemma PlaceIgnored(d: Directive, at: nat, c: char, args: seq<Arg>)
    requires Suits(c, args)
    ensures Convert(d.(at := at), c, args) == Convert(d, c, args)
  {
  }

  lemma {:induction false} SuffixRenders(a: string, b: string, i: nat, args: seq<Arg>)
    requires i >= |a|
    ensures Render(a + b, i, args) == Render(b, i - |a|, args)
    decreases if i < |a + b| then |a + b| - i else 0
  {
    AtShifts(a, b, i);
    if At(a + b, i) == '%' {
      DirectiveShifts(a, b, i + 1);
      var d := ReadDirective(b, i - |a| + 1);
      var c := At(b, d.at);
      AtShifts(a, b, d.at + |a|);
      if Suits(c, args) {
        SuffixRenders(a, b, d.at + 1 + |a|, Unused(c, args));
        PlaceIgnored(d, d.at + |a|, c, args);
      }
    } else if At(a + b, i) != '\0' {
      SuffixRenders(a, b, i + 1, args);
    }
  }

  /** Without directives a format renders as itself. */
  lemma {:induction false} LiteralRenders(fmt: string, i: nat, args: seq<Arg>)
    requires i <= |fmt| && '%' !in fmt && '\0' !in fmt
    ensures Render(fmt, i, args) == Some(fmt[i..])
    decreases |fmt| - i
  {
    if i < |fmt| {
      LiteralRenders(fmt, i + 1, args);
      assert fmt[i] in fmt;
      assert fmt[i..] == [fmt[i]] + fmt[i + 1..];
    } else {
      assert fmt[i..] == "";
    }
  }

  /** A format that ends outside a directive renders as a unit: followed by another
      format it renders the same, and the other renders with the arguments it left. */
  lemma {:induction false} RenderConcat(a: string, b: string, i: nat, args: seq<Arg>)
    requires i <= |a| && '\0' !in a && Render(a, i, args).Some?
    ensures Render(a + b, i, args) ==
      (var more := Render(b, 0, Left(a, i, args));
       if more.None? then None else Some(Render(a, i, args).value + more.value))
    decreases |a| - i
  {
    if i == |a| {
      SuffixRenders(a, b, i, args);
      assert Render(b, 0, args).Some? ==> "" + Render(b, 0, args).value == Render(b, 0, args).value;
    } else if a[i] == '%' {
      var d := ReadDirective(a, i + 1);
      var c := At(a, d.at);
      DirectiveIsLocal(a, b, i + 1);
      RenderConcat(a, b, d.at + 1, Unused(c, args));
      JoinedAfter(Convert(d, c, args), Render(a, d.at + 1, Unused(c, args)).value, Render(b, 0, Left(a, i, args)));
    } else {
      RenderConcat(a, b, i + 1, args);
      JoinedAfter([a[i]], Render(a, i + 1, args).value, Render(b, 0, Left(a, i, args)));
    }
  }

  lemma JoinedAfter(x: string, y: string, more: Option<string>)
    ensures more.Some? ==> x + (y + more.value) == (x + y) + more.value
  {
  }
}
