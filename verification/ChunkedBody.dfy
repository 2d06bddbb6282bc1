/** The chunked body of a whole file (demo1.cpp), and a decoder for the chunked
    transfer coding of section 7.1 of RFC 9112. */
module ChunkedBody {
  import opened Common
  import opened Formatter

  const CHUNK_SIZE: nat := 8192
  const CRLF: string := ['\r', '\n']
  const LAST_CHUNK: string := ['0'] + CRLF + CRLF

  // ---- The encoder ----

  function Hex(n: nat): string {
    Digits(n, 16, false)
  }

  function Chunk(block: string): string {
    Hex(|block|) + CRLF + block + CRLF
  }

  /** The blocks the file is read in. */
  function Blocks(file: string): seq<string> {
    if file == "" then []
    else if |file| <= CHUNK_SIZE then [file]
    else [file[..CHUNK_SIZE]] + Blocks(file[CHUNK_SIZE..])
  }

  function Chunks(blocks: seq<string>): string {
    if blocks == [] then "" else Chunk(blocks[0]) + Chunks(blocks[1..])
  }

  function Encode(file: string): string {
    Chunks(Blocks(file)) + LAST_CHUNK
  }

  /** No chunk before the last is empty or too long, and together they are the file. */
  lemma {:induction false} BlocksAre(file: string)
    ensures Concat(Blocks(file)) == file
    ensures forall i :: 0 <= i < |Blocks(file)| ==> 0 < |Blocks(file)[i]| <= 8192
    ensures forall i :: 0 <= i < |Blocks(file)| - 1 ==> |Blocks(file)[i]| == 8192
    decreases |file|
  {
    if file != "" && |file| <= CHUNK_SIZE {
      assert Blocks(file)[1..] == [];
      assert file + "" == file;
    } else if file != "" {
      BlocksAre(file[CHUNK_SIZE..]);
      assert Blocks(file)[1..] == Blocks(file[CHUNK_SIZE..]);
    }
  }

  // ---- The decoder ----

  predicate StartsWithCrlf(s: string) {
    |s| >= 2 && s[0] == '\r' && s[1] == '\n'
  }

  /** How many hexadecimal digits `s` starts with. */
  function HexSpan(s: string): (n: nat)
    ensures n <= |s|
  {
    if s == "" || DigitValue(s[0]) >= 16 then 0 else 1 + HexSpan(s[1..])
  }

  /** Where the first line break of `s` is. */
  function LineEnd(s: string): (at: Option<nat>)
    ensures at.Some? ==> at.value + 2 <= |s|
  {
    if s == "" then None
    else if StartsWithCrlf(s) then Some(0)
    else
      var at := LineEnd(s[1..]);
      if at.None? then None else Some(at.value + 1)
  }

  /** What follows the trailer section and its empty line. */
  function SkipTrailer(s: string): (rest: Option<string>)
    decreases |s|
  {
    var at := LineEnd(s);
    if at.None? then None
    else if at.value == 0 then Some(s[2..])
    else SkipTrailer(s[at.value + 2..])
  }

  /** The size of a chunk and what follows its line; extensions are skipped. */
  function ChunkHead(s: string): (head: Option<(nat, string)>)
    ensures head.Some? ==> |head.value.1| < |s|
  {
    var h := HexSpan(s);
    var at := LineEnd(s[h..]);
    if h == 0 || at.None? || (at.value > 0 && s[h] != ';') then None
    else Some((Value(s[..h], 16), s[h + at.value + 2..]))
  }

  /** The decoded content and the bytes behind the body. */
  function Decode(s: string): Option<(string, string)>
    decreases |s|
  {
    var head := ChunkHead(s);
    if head.None? then None
    else
      var (size, t) := head.value;
      if size == 0 then
        var rest := SkipTrailer(t);
        if rest.None? then None else Some(("", rest.value))
      else if |t| < size + 2 || !StartsWithCrlf(t[size..]) then None
      else
        var more := Decode(t[size + 2..]);
        if more.None? then None else Some((t[..size] + more.value.0, more.value.1))
  }

  // ---- Decoding what was encoded ----

  lemma {:induction false} SpanOfDigits(digits: string, rest: string)
    requires forall i :: 0 <= i < |digits| ==> DigitValue(digits[i]) < 16
    requires rest == "" || DigitValue(rest[0]) >= 16
    ensures HexSpan(digits + rest) == |digits|
  {
    if digits == "" {
      assert digits + rest == rest;
    } else {
      SpanOfDigits(digits[1..], rest);
      assert (digits + rest)[1..] == digits[1..] + rest;
    }
  }

  lemma HeadDecodes(n: nat, t: string)
    ensures ChunkHead(Hex(n) + (CRLF + t)) == Some((n, t))
  {
    var digits, rest := Hex(n), CRLF + t;
    DigitsDenote(n, 16, false);
    assert rest[0] == '\r' && rest[1] == '\n' && DigitValue('\r') == 16;
    SpanOfDigits(digits, rest);
    assert (digits + rest)[..|digits|] == digits;
    assert (digits + rest)[|digits|..] == rest;
    assert (digits + rest)[|digits| + 2..] == t;
  }

  lemma DataDecodes(block: string, rest: string, t: string)
    requires t == block + (CRLF + rest)
    ensures |t| >= |block| + 2 && StartsWithCrlf(t[|block|..])
    ensures t[..|block|] == block && t[|block| + 2..] == rest
  {
    assert t[|block|..] == CRLF + rest;
  }

  lemma ChunkText(block: string, rest: string)
    ensures Chunk(block) + rest == Hex(|block|) + (CRLF + (block + (CRLF + rest)))
  {
    var h := Hex(|block|);
    Assoc(h + CRLF + block, CRLF, rest);
    Assoc(h + CRLF, block, CRLF + rest);
    Assoc(h, CRLF, block + (CRLF + rest));
  }

  lemma ChunkDecodes(block: string, rest: string)
    requires block != "" && Decode(rest).Some?
    ensures Decode(Chunk(block) + rest) == Some((block + Decode(rest).value.0, Decode(rest).value.1))
  {
    var t := block + (CRLF + rest);
    ChunkText(block, rest);
    HeadDecodes(|block|, t);
    DataDecodes(block, rest, t);
  }

  lemma LastDecodes(rest: string)
    ensures Decode(LAST_CHUNK + rest) == Some(("", rest))
  {
    var t := CRLF + rest;
    assert Hex(0) == ['0'];
    assert LAST_CHUNK + rest == Hex(0) + (CRLF + t);
    HeadDecodes(0, t);
    assert StartsWithCrlf(t) && t[2..] == rest;
  }

  lemma {:induction false} ChunksDecode(blocks: seq<string>, rest: string)
    requires forall i :: 0 <= i < |blocks| ==> blocks[i] != ""
    ensures Decode(Chunks(blocks) + (LAST_CHUNK + rest)) == Some((Concat(blocks), rest))
    decreases |blocks|
  {
    if blocks == [] {
      LastDecodes(rest);
      assert Chunks(blocks) + (LAST_CHUNK + rest) == LAST_CHUNK + rest;
    } else {
      ChunksDecode(blocks[1..], rest);
      ChunkDecodes(blocks[0], Chunks(blocks[1..]) + (LAST_CHUNK + rest));
      Assoc(Chunk(blocks[0]), Chunks(blocks[1..]), LAST_CHUNK + rest);
    }
  }

  /** Decoding the body of any file gives the file back, and the bytes sent behind the
      body are left. */
  lemma EncodedFileDecodes(file: string, rest: string)
    ensures Decode(Encode(file) + rest) == Some((file, rest))
  {
    BlocksAre(file);
    ChunksDecode(Blocks(file), rest);
    Assoc(Chunks(Blocks(file)), LAST_CHUNK, rest);
  }

  // ---- The loop over the file ----

  /** An input stream: reading past the end makes it fail. */
  class InputFile {
    const content: string
    var pos: nat
    var good: bool

    ghost predicate Valid()
      reads this
    {
      pos <= |content|
    }

    constructor (content: string)
      ensures Valid() && this.content == content && pos == 0 && good
    {
      this.content := content;
      pos, good := 0, true;
    }

    /** `read` and `gcount`: at most `n` bytes. */
    method Read(n: nat) returns (bytes: string)
      requires Valid() && good
      modifies this
      ensures Valid() && old(pos) <= pos && bytes == content[old(pos)..pos]
      ensures pos == if old(pos) + n <= |content| then old(pos) + n else |content|
      ensures good == (old(pos) + n <= |content|)
    {
      if |content| - pos < n {
        bytes := content[pos..];
        pos, good := |content|, false;
      } else {
        bytes := content[pos..pos + n];
        pos := pos + n;
      }
    }
  }

  /** What the rest of the file still adds to the body. */
  lemma NextBlock(content: string, pos: nat, next: nat)
    requires pos < next <= |content|
    requires next == pos + CHUNK_SIZE || (next == |content| && next - pos < CHUNK_SIZE)
    ensures Chunks(Blocks(content[pos..])) == Chunk(content[pos..next]) + Chunks(Blocks(content[next..]))
  {
    var s := content[pos..];
    if next == |content| {
      assert content[next..] == "" && content[pos..next] == s;
      assert Blocks(s) == [s] && Blocks(s)[1..] == Blocks("");
    } else {
      assert s[..CHUNK_SIZE] == content[pos..next];
      assert s[CHUNK_SIZE..] == content[next..];
      assert Blocks(s)[1..] == Blocks(s[CHUNK_SIZE..]);
    }
  }

  lemma Appended(body: string, block: string, more: string)
    ensures body + (Hex(|block|) + CRLF) + block + CRLF + more == body + (Chunk(block) + more)
  {
    var h := Hex(|block|) + CRLF;
    Assoc(body, h, block);
    Assoc(body, h + block, CRLF);
    Assoc(body, Chunk(block), more);
  }

  method BuildBody(file: InputFile) returns (body: string)
    requires file.Valid() && file.pos == 0 && file.good
    modifies file
    ensures body == Encode(file.content)
  {
    body := "";
    assert file.content[0..] == file.content;
    while file.good
      invariant file.Valid()
      invariant body + Chunks(Blocks(file.content[file.pos..])) == Chunks(Blocks(file.content))
      invariant !file.good ==> file.pos == |file.content|
      decreases file.good, |file.content| - file.pos
    {
      ghost var from := file.pos;
      var bytes := file.Read(CHUNK_SIZE);
      if |bytes| == 0 {
        break;
      }
      NextBlock(file.content, from, file.pos);
      Appended(body, bytes, Chunks(Blocks(file.content[file.pos..])));
      body := body + (Hex(|bytes|) + CRLF);
      body := body + bytes;
      body := body + CRLF;
    }
    assert file.content[file.pos..] == "";
    body := body + LAST_CHUNK;
  }
}
