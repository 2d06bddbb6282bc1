/** The text operations the parser uses: searching, trimming and number reading. Bytes are modelled as characters. */
module HttpText {
  import opened Common

  const CRLF: string := "\r\n"

  /** Pattern `pat` stands at position `i`. */
  predicate MatchAt(s: string, pat: string, i: nat) { i + |pat| <= |s| && s[i..i + |pat|] == pat }

  /** Text that starts with `a` leaves `b` behind it. */
  lemma Drop(buffer: string, pos: nat, a: string, b: string, mid: nat)
    requires pos <= |buffer| && buffer[pos..] == a + b && mid == pos + |a|
    ensures mid <= |buffer| && buffer[pos..mid] == a && buffer[mid..] == b
  {
    assert buffer[pos..mid] == buffer[pos..][..|a|];
    assert buffer[mid..] == buffer[pos..][|a|..];
  }

  /** `std::search` and `std::string::find`: the first match at or after `from`. */
  function Find(s: string, pat: string, from: nat): (r: Option<nat>)
    ensures r.Some? ==> from <= r.value && r.value + |pat| <= |s|
    decreases |s| - from
  {
    if from + |pat| > |s| then None
    else if MatchAt(s, pat, from) then Some(from)
    else if from == |s| then None
    else Find(s, pat, from + 1)
  }

  /** A match with none before it is what the search finds. */
  lemma {:induction false} FindIs(s: string, pat: string, from: nat, at: nat)
    requires from <= at && MatchAt(s, pat, at) && forall i | from <= i < at :: !MatchAt(s, pat, i)
    ensures Find(s, pat, from) == Some(at)
    decreases at - from
  {
    if from < at { FindIs(s, pat, from + 1, at); }
  }

  /** The search finds a match, with none before it, exactly when there is one. */
  lemma {:induction false} FindIsFirst(s: string, pat: string, from: nat)
    ensures var r := Find(s, pat, from);
            if r.Some? then MatchAt(s, pat, r.value) && forall i | from <= i < r.value :: !MatchAt(s, pat, i)
            else forall i | from <= i :: !MatchAt(s, pat, i)
    decreases |s| - from
  {
    if from + |pat| <= |s| && !MatchAt(s, pat, from) && from < |s| { FindIsFirst(s, pat, from + 1); }
  }

  /** `std::find`: the first position of `c`. */
  function FindChar(s: string, c: char): (r: Option<nat>)
    ensures r.Some? ==> r.value < |s|
  {
    if s == [] then None
    else if s[0] == c then Some(0)
    else match FindChar(s[1..], c) case None => None case Some(i) => Some(i + 1)
  }

  lemma {:induction false} FindCharIs(a: string, c: char, b: string)
    requires c !in a
    ensures FindChar(a + [c] + b, c) == Some(|a|)
  {
    if a == [] {
      assert a + [c] + b == [c] + b;
    } else {
      assert a + [c] + b == [a[0]] + (a[1..] + [c] + b);
      assert (a + [c] + b)[1..] == a[1..] + [c] + b;
      FindCharIs(a[1..], c, b);
    }
  }

  lemma {:induction false} FindCharNone(s: string, c: char)
    requires c !in s
    ensures FindChar(s, c) == None
  {
    if s != [] { FindCharNone(s[1..], c); }
  }

  predicate Blank(c: char) { c == ' ' || c == '\t' }

  /** `val.erase(0, val.find_first_not_of(" \t"))` */
  function TrimLeft(s: string): string { if s != [] && Blank(s[0]) then TrimLeft(s[1..]) else s }

  /** `key.erase(key.find_last_not_of(" \t") + 1)` */
  function TrimRight(s: string): string { if s != [] && Blank(s[|s| - 1]) then TrimRight(s[..|s| - 1]) else s }

  lemma {:induction false} TrimPad(pad: string, s: string)
    requires (forall i | 0 <= i < |pad| :: Blank(pad[i])) && (s == [] || !Blank(s[0]))
    ensures TrimLeft(pad + s) == s
  {
    if pad == [] {
      assert pad + s == s;
    } else {
      assert (pad + s)[0] == pad[0] && (pad + s)[1..] == pad[1..] + s;
      TrimPad(pad[1..], s);
    }
  }

  predicate Digit(c: char) { '0' <= c <= '9' }

  predicate Space(c: char) { c == ' ' || ('\t' <= c <= '\r') }

  function DigitsValue(s: string, acc: nat): nat {
    if s != [] && Digit(s[0]) then DigitsValue(s[1..], 10 * acc + (s[0] - '0') as nat) else acc
  }

  function SkipSpaces(s: string): string { if s != [] && Space(s[0]) then SkipSpaces(s[1..]) else s }

  const INT_MAX: int := 0x7fff_ffff

  /** `std::stoi`: leading white space, a sign, then digits; `None` where it throws. */
  function Stoi(s: string): Option<int> {
    var t := SkipSpaces(s);
    var negative := t != [] && t[0] == '-';
    var u := if t != [] && (t[0] == '-' || t[0] == '+') then t[1..] else t;
    if u == [] || !Digit(u[0]) then None
    else
      var magnitude: int := DigitsValue(u, 0);
      var v := if negative then -magnitude else magnitude;
      if -INT_MAX - 1 <= v <= INT_MAX then Some(v) else None
  }
}
