/** The chunked transfer coding, and reading an HTTP response until it is complete. */
module Chunked {
  import opened BitOps
  import opened Framing
  import opened Options
  import opened Seqs

  const CRLF: seq<byte> := [13, 10]
  const BLANK_LINE: seq<byte> := [13, 10, 13, 10]
  const SEMICOLON: byte := 59

  // ---- searching ----

  predicate IsAt(s: seq<byte>, pat: seq<byte>, i: nat) {
    i + |pat| <= |s| && s[i..i + |pat|] == pat
  }

  /** The first place where a pattern occurs. */
  function Find(s: seq<byte>, pat: seq<byte>): (r: Option<nat>)
    ensures r.Some? ==> r.value + |pat| <= |s|
    decreases |s|
  {
    if |s| < |pat| then None
    else if s[..|pat|] == pat then Some(0)
    else if s == [] then None
    else
      match Find(s[1..], pat)
      case None => None
      case Some(i) => Some(i + 1)
  }

  lemma SliceShift(s: seq<byte>, i: nat, n: nat)
    requires 0 < i
    ensures i + n <= |s| ==> s[i..i + n] == s[1..][i - 1..i - 1 + n]
  {
  }

  lemma {:induction false} FindMeaning(s: seq<byte>, pat: seq<byte>)
    ensures match Find(s, pat)
      case None => forall i: nat :: !IsAt(s, pat, i)
      case Some(k) => IsAt(s, pat, k) && forall i: nat :: i < k ==> !IsAt(s, pat, i)
    decreases |s|
  {
    if |s| >= |pat| && s[..|pat|] != pat && s != [] {
      FindMeaning(s[1..], pat);
      forall i: nat | i > 0
        ensures IsAt(s, pat, i) <==> IsAt(s[1..], pat, i - 1)
      {
        SliceShift(s, i, |pat|);
      }
    }
  }

  /** What has been found stays where it is when more arrives. */
  lemma {:induction false} FindStable(s: seq<byte>, pat: seq<byte>, more: seq<byte>)
    requires Find(s, pat).Some?
    ensures Find(s + more, pat) == Find(s, pat)
    decreases |s|
  {
    assert (s + more)[..|pat|] == s[..|pat|];
    if s[..|pat|] != pat {
      assert (s + more)[1..] == s[1..] + more;
      FindStable(s[1..], pat, more);
    }
  }

  // ---- size lines ----

  function HexValue(c: byte): (r: Option<nat>)
    ensures r.Some? ==> r.value < 16
  {
    if 48 <= c <= 57 then Some(c - 48)
    else if 97 <= c <= 102 then Some(c - 97 + 10)
    else if 65 <= c <= 70 then Some(c - 65 + 10)
    else None
  }

  predicate Blank(c: byte) {
    c == 32 || c == 9
  }

  /** The line without its chunk extensions. */
  function WithoutExtensions(line: seq<byte>): seq<byte> {
    match Find(line, [SEMICOLON])
    case None => line
    case Some(i) => line[..i]
  }

  /** The number its hexadecimal digits spell, blanks anywhere among them being skipped. */
  function Spelled(s: seq<byte>): Option<nat> {
    if s == [] then Some(0)
    else
      var n := |s| - 1;
      match Spelled(s[..n])
      case None => None
      case Some(size) =>
        match HexValue(s[n])
        case Some(v) => Some(size * 16 + v)
        case None => if Blank(s[n]) then Some(size) else None
  }

  predicate AnyDigit(s: seq<byte>) {
    s != [] && (HexValue(s[|s| - 1]).Some? || AnyDigit(s[..|s| - 1]))
  }

  function SizeOf(line: seq<byte>): Option<nat> {
    var digits := WithoutExtensions(line);
    if AnyDigit(digits) then Spelled(digits) else None
  }

  lemma {:induction false} SpelledPrefix(s: seq<byte>, k: nat)
    requires k <= |s| && Spelled(s).Some?
    ensures Spelled(s[..k]).Some?
  {
    if k < |s| {
      SpelledPrefix(s[..|s| - 1], k);
      assert s[..|s| - 1][..k] == s[..k];
    } else {
      assert s[..k] == s;
    }
  }

  method ParseSize(line: seq<byte>) returns (r: Option<nat>)
    ensures r == SizeOf(line)
  {
    var digits := line;
    var semi := Find(line, [SEMICOLON]);
    if semi.Some? {
      digits := line[..semi.value];
    }
    var size, any := 0, false;
    for i := 0 to |digits|
      invariant Spelled(digits[..i]) == Some(size)
      invariant any <==> AnyDigit(digits[..i])
    {
      assert digits[..i + 1][..i] == digits[..i];
      var v := HexValue(digits[i]);
      if v.Some? {
        size := size * 16 + v.value;
        any := true;
      } else if !Blank(digits[i]) {
        if Spelled(digits).Some? {
          SpelledPrefix(digits, i + 1);
        }
        return None;
      }
    }
    assert digits[..|digits|] == digits;
    return if any then Some(size) else None;
  }

  // ---- decoding ----

  function Prefixed(out: seq<byte>, r: Option<seq<byte>>): Option<seq<byte>> {
    if r.None? then None else Some(out + r.value)
  }

  /** One turn of the decoder: it stops, or takes a chunk off the front. */
  datatype Turn = Stuck | Last | Took(data: seq<byte>, rest: seq<byte>)

  function TurnOf(s: seq<byte>): (t: Turn)
    ensures t.Took? ==> |t.rest| < |s|
  {
    match Find(s, CRLF)
    case None => Stuck
    case Some(eol) =>
      match SizeOf(s[..eol])
      case None => Stuck
      case Some(size) =>
        var rest := s[eol + 2..];
        if size == 0 then Last
        else if size > |rest| || !IsAt(rest, CRLF, size) then Stuck
        else Took(rest[..size], rest[size + 2..])
  }

  /** The body, once the line of the last chunk is there. */
  function Decoded(s: seq<byte>): Option<seq<byte>>
    decreases |s|
  {
    match TurnOf(s)
    case Stuck => None
    case Last => Some([])
    case Took(data, rest) => Prefixed(data, Decoded(rest))
  }

  lemma PrefixedTwice(out: seq<byte>, data: seq<byte>, r: Option<seq<byte>>)
    ensures Prefixed(out, Prefixed(data, r)) == Prefixed(out + data, r)
    ensures Prefixed([], r) == r
  {
    if r.Some? {
      Assoc(out, data, r.value);
      AppendNil(r.value);
    }
  }

  /** The same turn, seen from a position in the whole input. */
  lemma TurnAt(input: seq<byte>, p: nat)
    requires p <= |input|
    ensures match Find(input[p..], CRLF)
      case None => TurnOf(input[p..]) == Stuck
      case Some(e) =>
        match SizeOf(input[p..p + e])
        case None => TurnOf(input[p..]) == Stuck
        case Some(size) =>
          var q := p + e + 2 + size;
          TurnOf(input[p..]) ==
            if size == 0 then Last
            else if !IsAt(input, CRLF, q) then Stuck
            else Took(input[p + e + 2..q], input[q + 2..])
  {
    hide Find, SizeOf;
    var s := input[p..];
    if Find(s, CRLF).Some? {
      var e := Find(s, CRLF).value;
      assert s[..e] == input[p..p + e] && s[e + 2..] == input[p + e + 2..];
      if SizeOf(s[..e]).Some? {
        SliceOf(input, p + e + 2, SizeOf(s[..e]).value);
      }
    }
  }

  lemma SliceOf(s: seq<byte>, p: nat, n: nat)
    requires p <= |s|
    ensures p + n <= |s| ==> s[p..][..n] == s[p..p + n]
    ensures n <= |s[p..]| && IsAt(s[p..], CRLF, n) <==> IsAt(s, CRLF, p + n)
    ensures p + n + 2 <= |s| ==> s[p..][n + 2..] == s[p + n + 2..]
  {
    if p + n + 2 <= |s| {
      assert s[p..][n..n + 2] == s[p + n..p + n + 2];
    }
  }

  /** Decodes in one pass over the input. */
  method Dechunk(input: seq<byte>) returns (r: Option<seq<byte>>)
    ensures r == Decoded(input)
  {
    hide Find, SizeOf, TurnOf;
    var pos := 0;
    var out: seq<byte> := [];
    assert input[0..] == input;
    PrefixedTwice([], [], Decoded(input));
    while true
      invariant pos <= |input| && Decoded(input) == Prefixed(out, Decoded(input[pos..]))
      decreases |input| - pos
    {
      TurnAt(input, pos);
      var eol := Find(input[pos..], CRLF);
      if eol.None? {
        return None;
      }
      var size := ParseSize(input[pos..pos + eol.value]);
      if size.None? {
        return None;
      }
      pos := pos + eol.value + 2;
      if size.value == 0 {
        AppendNil(out);
        return Some(out);
      }
      if pos + size.value > |input| {
        return None;
      }
      var data := input[pos..pos + size.value];
      pos := pos + size.value;
      if |input| - pos < 2 || input[pos..pos + 2] != CRLF {
        return None;
      }
      pos := pos + 2;
      PrefixedTwice(out, data, Decoded(input[pos..]));
      out := out + data;
    }
  }

  // ---- encoding ----

  /** A chunk with its size line, which may carry extensions and blanks. */
  datatype Chunk = Chunk(line: seq<byte>, data: seq<byte>)

  /** A line that contains no line end. */
  predicate OneLine(line: seq<byte>) {
    Find(line + CRLF, CRLF) == Some(|line|)
  }

  predicate ChunkOk(c: Chunk) {
    OneLine(c.line) && c.data != [] && SizeOf(c.line) == Some(|c.data|)
  }

  predicate ChunksOk(cs: seq<Chunk>) {
    forall k :: 0 <= k < |cs| ==> ChunkOk(cs[k])
  }

  predicate LastLine(line: seq<byte>) {
    OneLine(line) && SizeOf(line) == Some(0)
  }

  function Encoded(cs: seq<Chunk>): seq<byte> {
    if cs == [] then [] else cs[0].line + CRLF + cs[0].data + CRLF + Encoded(cs[1..])
  }

  function Content(cs: seq<Chunk>): seq<byte> {
    if cs == [] then [] else cs[0].data + Content(cs[1..])
  }

  lemma TakesChunk(c: Chunk, rest: seq<byte>)
    requires ChunkOk(c)
    ensures TurnOf(c.line + CRLF + c.data + CRLF + rest) == Took(c.data, rest)
  {
    hide Find, SizeOf;
    var s := c.line + CRLF + c.data + CRLF + rest;
    var n, m := |c.line|, |c.data|;
    assert s == (c.line + CRLF) + (c.data + CRLF + rest);
    FindStable(c.line + CRLF, CRLF, c.data + CRLF + rest);
    assert s[..n] == c.line && s[n + 2..] == c.data + CRLF + rest;
    assert s[n + 2..][..m] == c.data && s[n + 2..][m..m + 2] == CRLF && s[n + 2..][m + 2..] == rest;
  }

  lemma TakesLast(line: seq<byte>, rest: seq<byte>)
    requires LastLine(line)
    ensures TurnOf(line + CRLF + rest) == Last
  {
    hide Find, SizeOf;
    FindStable(line + CRLF, CRLF, rest);
    assert (line + CRLF + rest)[..|line|] == line;
  }

  /** Decoding undoes encoding. The line of the last chunk is enough: nothing need follow it, and whatever does is
      ignored. */
  lemma {:induction false} DecodesEncoded(cs: seq<Chunk>, last: seq<byte>, rest: seq<byte>)
    requires ChunksOk(cs) && LastLine(last)
    ensures Decoded(Encoded(cs) + (last + CRLF + rest)) == Some(Content(cs))
    decreases |cs|
  {
    hide TurnOf, Find, SizeOf;
    var tail := last + CRLF + rest;
    if cs == [] {
      TakesLast(last, rest);
      AppendNil(tail);
    } else {
      var c := cs[0];
      DecodesEncoded(cs[1..], last, rest);
      TakesChunk(c, Encoded(cs[1..]) + tail);
      Assoc(c.line + CRLF + c.data + CRLF, Encoded(cs[1..]), tail);
    }
  }

  lemma {:induction false} FindPrefix(s: seq<byte>, pat: seq<byte>)
    requires Find(s, pat).Some?
    ensures var k := Find(s, pat).value;
      Find(s[..k + |pat|], pat) == Some(k)
    decreases |s|
  {
    var k := Find(s, pat).value;
    if k > 0 {
      FindPrefix(s[1..], pat);
      assert s[..k + |pat|][1..] == s[1..][..k - 1 + |pat|];
      assert s[..k + |pat|][..|pat|] == s[..|pat|];
    } else {
      assert s[..|pat|][..|pat|] == s[..|pat|];
    }
  }

  lemma {:induction false} CutsLine(s: seq<byte>)
    requires Find(s, CRLF).Some?
    ensures var eol := Find(s, CRLF).value;
      OneLine(s[..eol]) && s == s[..eol] + CRLF + s[eol + 2..]
  {
    var eol := Find(s, CRLF).value;
    FindPrefix(s, CRLF);
    FindMeaning(s, CRLF);
    assert s[..eol] + CRLF == s[..eol + 2];
  }

  lemma ReadsChunk(s: seq<byte>) returns (c: Chunk)
    requires TurnOf(s).Took?
    ensures var t := TurnOf(s);
      ChunkOk(c) && c.data == t.data && s == c.line + CRLF + c.data + CRLF + t.rest
  {
    hide Find, SizeOf;
    CutsLine(s);
    var eol := Find(s, CRLF).value;
    var rest, n := s[eol + 2..], SizeOf(s[..eol]).value;
    c := Chunk(s[..eol], rest[..n]);
    assert rest == rest[..n] + CRLF + rest[n + 2..];
  }

  /** Only what is a chunked body is decoded, and it is decoded to what its chunks hold. */
  lemma {:induction false} DecodesOnlyEncoded(s: seq<byte>) returns (cs: seq<Chunk>, last: seq<byte>, rest: seq<byte>)
    requires Decoded(s).Some?
    ensures ChunksOk(cs) && LastLine(last)
    ensures s == Encoded(cs) + (last + CRLF + rest) && Decoded(s) == Some(Content(cs))
    decreases |s|
  {
    hide Find, SizeOf;
    if TurnOf(s) == Last {
      CutsLine(s);
      var eol := Find(s, CRLF).value;
      cs, last, rest := [], s[..eol], s[eol + 2..];
      AppendNil(s);
    } else {
      var c := ReadsChunk(s);
      var more;
      more, last, rest := DecodesOnlyEncoded(TurnOf(s).rest);
      cs := [c] + more;
      assert cs[1..] == more;
      Assoc(c.line + CRLF + c.data + CRLF, Encoded(more), last + CRLF + rest);
    }
  }

  // ---- completeness ----

  lemma TurnStable(s: seq<byte>, more: seq<byte>)
    requires TurnOf(s) != Stuck
    ensures match TurnOf(s)
      case Last => TurnOf(s + more) == Last
      case Took(data, rest) => TurnOf(s + more) == Took(data, rest + more)
  {
    hide Find, SizeOf;
    FindStable(s, CRLF, more);
    var eol := Find(s, CRLF).value;
    assert (s + more)[..eol] == s[..eol] && (s + more)[eol + 2..] == s[eol + 2..] + more;
    var rest, size := s[eol + 2..], SizeOf(s[..eol]).value;
    if size != 0 {
      assert (rest + more)[..size] == rest[..size] && (rest + more)[size..size + 2] == rest[size..size + 2];
      assert (rest + more)[size + 2..] == rest[size + 2..] + more;
    }
  }

  /** Once a body can be decoded, more bytes make no difference. */
  lemma {:induction false} DecodedStable(s: seq<byte>, more: seq<byte>)
    requires Decoded(s).Some?
    ensures Decoded(s + more) == Decoded(s)
    decreases |s|
  {
    hide TurnOf;
    TurnStable(s, more);
    if TurnOf(s).Took? {
      DecodedStable(TurnOf(s).rest, more);
    }
  }

  // ---- the usual encoding ----

  function Digit(v: nat): byte
    requires v < 16
  {
    if v < 10 then 48 + v else 97 + v - 10
  }

  function Hex(n: nat): seq<byte> {
    if n < 16 then [Digit(n)] else Hex(n / 16) + [Digit(n % 16)]
  }

  /** A size in lower-case digits is a size line for that size. */
  lemma HexIsSize(n: nat)
    ensures OneLine(Hex(n)) && SizeOf(Hex(n)) == Some(n)
  {
    HexDigits(n);
    PlainLine(Hex(n));
  }

  predicate Plain(line: seq<byte>) {
    forall i :: 0 <= i < |line| ==> line[i] != 13 && line[i] != SEMICOLON
  }

  lemma {:induction false} HexDigits(n: nat)
    ensures Plain(Hex(n)) && AnyDigit(Hex(n)) && Spelled(Hex(n)) == Some(n)
  {
    var s := Hex(n);
    if n >= 16 {
      HexDigits(n / 16);
      assert s[..|s| - 1] == Hex(n / 16);
    } else {
      assert s[..0] == [] && Spelled(s[..0]) == Some(0);
    }
  }

  lemma PlainLine(line: seq<byte>)
    requires Plain(line)
    ensures OneLine(line) && WithoutExtensions(line) == line
  {
    forall i: nat | i < |line|
      ensures !IsAt(line + CRLF, CRLF, i) && !IsAt(line, [SEMICOLON], i)
    {
      NotAt(line + CRLF, CRLF, i);
      NotAt(line, [SEMICOLON], i);
    }
    assert IsAt(line + CRLF, CRLF, |line|);
    FindMeaning(line + CRLF, CRLF);
    FindMeaning(line, [SEMICOLON]);
  }

  lemma NotAt(s: seq<byte>, pat: seq<byte>, i: nat)
    requires pat != [] && i < |s| && s[i] != pat[0]
    ensures !IsAt(s, pat, i)
  {
    if i + |pat| <= |s| {
      assert s[i..i + |pat|][0] == s[i];
    }
  }

  /** The usual encoding of a list of nonempty chunks. */
  function Encode(datas: seq<seq<byte>>): seq<byte> {
    if datas == [] then Hex(0) + BLANK_LINE
    else Hex(|datas[0]|) + CRLF + datas[0] + CRLF + Encode(datas[1..])
  }

  lemma {:induction false} DecodesUsual(datas: seq<seq<byte>>)
    requires forall k :: 0 <= k < |datas| ==> datas[k] != []
    ensures Decoded(Encode(datas)) == Some(Joined(datas))
    decreases |datas|
  {
    hide TurnOf, Find, SizeOf, Hex;
    if datas == [] {
      HexIsSize(0);
      assert Encode(datas) == Hex(0) + CRLF + CRLF;
      TakesLast(Hex(0), CRLF);
    } else {
      HexIsSize(|datas[0]|);
      TakesChunk(Chunk(Hex(|datas[0]|), datas[0]), Encode(datas[1..]));
      DecodesUsual(datas[1..]);
    }
  }
}
