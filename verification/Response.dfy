/** Reading one HTTP response off a connection until it is complete, and not until the peer closes. */
module Response {
  import opened BitOps
  import opened Channel
  import opened Chunked
  import opened Framing
  import opened Hash
  import opened Options
  import opened Record
  import opened Seqs
  import Layer = RecordLayer

  /** No more than this is read. */
  const LIMIT: nat := 8 * 1024 * 1024

  /** How the headers say the body ends. */
  datatype Coding = InChunks | Sized(length: nat) | UntilClose

  datatype Outcome = Page(headers: seq<byte>, body: seq<byte>) | Empty | Malformed | Broken(error: Error) | TooLarge

  // ---- what a response is ----

  /** Whether all of a response is there. */
  predicate Complete(coding: seq<byte> -> Coding, raw: seq<byte>) {
    match Find(raw, BLANK_LINE)
    case None => false
    case Some(h) =>
      match coding(raw[..h])
      case InChunks => Decoded(raw[h + 4..]).Some?
      case Sized(n) => |raw| - (h + 4) >= n
      case UntilClose => false
  }

  function BodyOf(c: Coding, headers: seq<byte>, body: seq<byte>): Outcome {
    match c
    case InChunks => if Decoded(body).Some? then Page(headers, Decoded(body).value) else Malformed
    case Sized(n) => Page(headers, if |body| > n then body[..n] else body)
    case UntilClose => Page(headers, body)
  }

  /** What a response comes to once reading has stopped. */
  function ResponseOf(coding: seq<byte> -> Coding, raw: seq<byte>): Outcome {
    if raw == [] then Empty
    else
      match Find(raw, BLANK_LINE)
      case None => BodyOf(coding(raw), raw, [])
      case Some(h) => BodyOf(coding(raw[..h]), raw[..h], raw[h + 4..])
  }

  /** A complete response stays complete and the same, whatever follows it. */
  lemma CompleteStable(coding: seq<byte> -> Coding, raw: seq<byte>, more: seq<byte>)
    requires Complete(coding, raw)
    ensures Complete(coding, raw + more) && ResponseOf(coding, raw + more) == ResponseOf(coding, raw)
  {
    hide Find, Decoded;
    FindStable(raw, BLANK_LINE, more);
    var h := Find(raw, BLANK_LINE).value;
    assert (raw + more)[..h] == raw[..h] && (raw + more)[h + 4..] == raw[h + 4..] + more;
    var body := raw[h + 4..];
    match coding(raw[..h]) {
      case InChunks => DecodedStable(body, more);
      case Sized(n) => assert (body + more)[..n] == body[..n];
      case UntilClose =>
    }
  }

  // ---- reading it piece by piece ----

  /** Reading stops as soon as the response is complete. */
  function ReadPieces(coding: seq<byte> -> Coding, raw: seq<byte>, ps: seq<seq<byte>>, atEnd: Option<Error>): Outcome
    decreases |ps|
  {
    if Complete(coding, raw) then ResponseOf(coding, raw)
    else if ps == [] then (if atEnd.None? then ResponseOf(coding, raw) else Broken(atEnd.value))
    else if |raw + ps[0]| > LIMIT then TooLarge
    else ReadPieces(coding, raw + ps[0], ps[1..], atEnd)
  }

  /** Within the limit the outcome depends on the bytes alone, however they are cut. */
  lemma {:induction false} CutsDoNotMatter(coding: seq<byte> -> Coding, raw: seq<byte>, ps: seq<seq<byte>>,
                                           atEnd: Option<Error>)
    requires |raw + Joined(ps)| <= LIMIT
    ensures var all := raw + Joined(ps);
      ReadPieces(coding, raw, ps, atEnd) ==
        if Complete(coding, all) || atEnd.None? then ResponseOf(coding, all) else Broken(atEnd.value)
    decreases |ps|
  {
    hide Complete, ResponseOf;
    if Complete(coding, raw) {
      CompleteStable(coding, raw, Joined(ps));
    } else if ps == [] {
      AppendNil(raw);
    } else {
      Assoc(raw, ps[0], Joined(ps[1..]));
      CutsDoNotMatter(coding, raw + ps[0], ps[1..], atEnd);
    }
  }

  // ---- beyond the limit ----

  /** A way of cutting bytes into records, some of which may be empty. */
  predicate Cuts(ps: seq<seq<byte>>, all: seq<byte>) {
    Joined(ps) == all && forall k :: 0 <= k < |ps| ==> |ps[k]| <= MAX_PLAINTEXT
  }

  /** Where the largest record that would go over the limit may start. */
  const EARLY: nat := LIMIT + 1 - MAX_PLAINTEXT

  ghost predicate CutFree(coding: seq<byte> -> Coding, all: seq<byte>, atEnd: Option<Error>) {
    forall ps, qs :: Cuts(ps, all) && Cuts(qs, all) ==>
      ReadPieces(coding, [], ps, atEnd) == ReadPieces(coding, [], qs, atEnd)
  }

  lemma PrefixComplete(coding: seq<byte> -> Coding, a: seq<byte>, b: seq<byte>)
    requires a <= b && Complete(coding, a)
    ensures Complete(coding, b) && ResponseOf(coding, b) == ResponseOf(coding, a)
  {
    assert b == a + b[|a|..];
    CompleteStable(coding, a, b[|a|..]);
  }

  /** A response that is complete early enough is read however the bytes are cut. */
  lemma {:induction false} CompleteEarly(coding: seq<byte> -> Coding, raw: seq<byte>, ps: seq<seq<byte>>,
                                         all: seq<byte>, atEnd: Option<Error>)
    requires raw + Joined(ps) == all && |all| > LIMIT && Complete(coding, all[..EARLY])
    requires forall k :: 0 <= k < |ps| ==> |ps[k]| <= MAX_PLAINTEXT
    ensures ReadPieces(coding, raw, ps, atEnd) == ResponseOf(coding, all)
    decreases |ps|
  {
    hide Complete, ResponseOf;
    if |raw| >= EARLY {
      PrefixComplete(coding, all[..EARLY], raw);
    }
    if Complete(coding, raw) {
      PrefixComplete(coding, raw, all);
    } else {
      if ps == [] {
        AppendNil(raw);
      }
      Assoc(raw, ps[0], Joined(ps[1..]));
      CompleteEarly(coding, raw + ps[0], ps[1..], all, atEnd);
    }
  }

  /** One that is not complete within the limit is given up however the bytes are cut. */
  lemma {:induction false} CompleteLate(coding: seq<byte> -> Coding, raw: seq<byte>, ps: seq<seq<byte>>, all: seq<byte>,
                                        atEnd: Option<Error>)
    requires raw + Joined(ps) == all && |raw| <= LIMIT < |all| && !Complete(coding, all[..LIMIT])
    ensures ReadPieces(coding, raw, ps, atEnd) == TooLarge
    decreases |ps|
  {
    hide Complete, ResponseOf;
    if Complete(coding, raw) {
      PrefixComplete(coding, raw, all[..LIMIT]);
    }
    if ps == [] {
      AppendNil(raw);
    }
    Assoc(raw, ps[0], Joined(ps[1..]));
    if |raw + ps[0]| <= LIMIT {
      CompleteLate(coding, raw + ps[0], ps[1..], all, atEnd);
    }
  }

  function Singles(s: seq<byte>): seq<seq<byte>> {
    if s == [] then [] else [[s[0]]] + Singles(s[1..])
  }

  lemma {:induction false} SinglesCut(s: seq<byte>)
    ensures Joined(Singles(s)) == s && forall k :: 0 <= k < |Singles(s)| ==> |Singles(s)[k]| == 1
  {
    if s != [] {
      SinglesCut(s[1..]);
    }
  }

  /** Byte by byte, the end of the response is not missed. */
  lemma {:induction false} ByteByByte(coding: seq<byte> -> Coding, raw: seq<byte>, left: seq<byte>, all: seq<byte>,
                                      atEnd: Option<Error>)
    requires raw + left == all && |raw| <= LIMIT < |all| && Complete(coding, all[..LIMIT])
    ensures ReadPieces(coding, raw, Singles(left), atEnd) == ResponseOf(coding, all)
    decreases |left|
  {
    hide Complete, ResponseOf;
    if |raw| == LIMIT {
      assert raw == all[..LIMIT];
    }
    if Complete(coding, raw) {
      PrefixComplete(coding, raw, all);
    } else {
      Assoc(raw, [left[0]], left[1..]);
      assert left == [left[0]] + left[1..];
      assert Singles(left)[1..] == Singles(left[1..]);
      ByteByByte(coding, raw + [left[0]], left[1..], all, atEnd);
    }
  }

  /** A record that begins before the response is complete and ends beyond the limit loses it. */
  lemma {:induction false} OneRecordTooFar(coding: seq<byte> -> Coding, raw: seq<byte>, left: seq<byte>, p: seq<byte>,
                                           rest: seq<seq<byte>>, atEnd: Option<Error>)
    requires |raw + left| <= LIMIT < |raw + left + p| && !Complete(coding, raw + left)
    ensures ReadPieces(coding, raw, Singles(left) + ([p] + rest), atEnd) == TooLarge
    decreases |left|
  {
    hide Complete, ResponseOf;
    if Complete(coding, raw) {
      PrefixComplete(coding, raw, raw + left);
    }
    var ps := Singles(left) + ([p] + rest);
    if left == [] {
      AppendNil(raw);
      assert ps[0] == p;
    } else {
      assert ps[0] == [left[0]] && ps[1..] == Singles(left[1..]) + ([p] + rest);
      assert raw + left == (raw + [left[0]]) + left[1..];
      OneRecordTooFar(coding, raw + [left[0]], left[1..], p, rest, atEnd);
    }
  }

  lemma CutAcross(head: seq<byte>, p: seq<byte>, tail: seq<byte>)
    requires |p| <= MAX_PLAINTEXT
    ensures Cuts(Singles(head) + ([p] + Singles(tail)), head + (p + tail))
  {
    SinglesCut(head);
    SinglesCut(tail);
    JoinedAppend(Singles(head), [p] + Singles(tail));
    assert ([p] + Singles(tail))[1..] == Singles(tail);
  }

  lemma TwoCuts(coding: seq<byte> -> Coding, all: seq<byte>, atEnd: Option<Error>)
    returns (ps: seq<seq<byte>>, qs: seq<seq<byte>>)
    requires |all| > LIMIT && !Complete(coding, all[..EARLY]) && Complete(coding, all[..LIMIT])
    ensures Cuts(ps, all) && Cuts(qs, all)
    ensures ReadPieces(coding, [], ps, atEnd) == TooLarge != ReadPieces(coding, [], qs, atEnd)
  {
    hide Complete, ReadPieces, Find, Decoded;
    var head, p, tail := all[..EARLY], all[EARLY..LIMIT + 1], all[LIMIT + 1..];
    ps, qs := Singles(head) + ([p] + Singles(tail)), Singles(all);
    CutAcross(head, p, tail);
    assert head + (p + tail) == all;
    SinglesCut(all);
    ByteByByte(coding, [], all, all, atEnd) by {
      AppendNil(all);
    }
    OneRecordTooFar(coding, [], head, p, Singles(tail), atEnd) by {
      AppendNil(head);
      assert |head + p| == LIMIT + 1;
    }
  }

  /** Exactly when the outcome does not depend on how the response was cut into records: everything sent is within
      the limit, or the response is complete so early that no record can reach from before its end to beyond the
      limit, or it is not complete within the limit at all. */
  lemma CutFreeExactly(coding: seq<byte> -> Coding, all: seq<byte>, atEnd: Option<Error>)
    ensures CutFree(coding, all, atEnd) <==>
      (|all| <= LIMIT || Complete(coding, all[..EARLY]) || !Complete(coding, all[..LIMIT]))
  {
    hide Complete;
    AppendNil(all);
    if |all| > LIMIT && !Complete(coding, all[..EARLY]) && Complete(coding, all[..LIMIT]) {
      var ps, qs := TwoCuts(coding, all, atEnd);
    } else {
      forall ps, qs | Cuts(ps, all) && Cuts(qs, all)
        ensures ReadPieces(coding, [], ps, atEnd) == ReadPieces(coding, [], qs, atEnd)
      {
        if |all| <= LIMIT {
          CutsDoNotMatter(coding, [], ps, atEnd);
          CutsDoNotMatter(coding, [], qs, atEnd);
        } else if Complete(coding, all[..EARLY]) {
          CompleteEarly(coding, [], ps, all, atEnd);
          CompleteEarly(coding, [], qs, all, atEnd);
        } else {
          CompleteLate(coding, [], ps, all, atEnd);
          CompleteLate(coding, [], qs, all, atEnd);
        }
      }
    }
  }

  /** It can depend on that: here the response ends exactly at the limit, and one more byte follows it. */
  lemma CutsCanMatter() returns (coding: seq<byte> -> Coding, all: seq<byte>)
    ensures all == BLANK_LINE + ZeroBytes(LIMIT - 3) && forall headers :: coding(headers) == Sized(LIMIT - 4)
    ensures |all| == LIMIT + 1 && !Complete(coding, all[..EARLY]) && Complete(coding, all[..LIMIT])
    ensures !CutFree(coding, all, None)
  {
    coding := _ => Sized(LIMIT - 4);
    all := BLANK_LINE + ZeroBytes(LIMIT - 3);
    assert all[..EARLY][..4] == BLANK_LINE && all[..LIMIT][..4] == BLANK_LINE;
    CutFreeExactly(coding, all, None);
  }

  // ---- off a connection ----

  /** Whether the peer has finished in an orderly way; that it has is remembered. */
  predicate Ends(e: Error, eof: bool) {
    (eof || EndsStream(e)) && !e.UnexpectedRecord?
  }

  function ReadStream(h: Alg, coding: seq<byte> -> Coding, raw: seq<byte>, i: Incoming, eof: bool): Outcome
    requires DirectionOk(i.read)
    decreases |i.bytes|
  {
    if Complete(coding, raw) then ResponseOf(coding, raw)
    else
      match NextData(h, i)
      case NoData(e) => if Ends(e, eof) then ResponseOf(coding, raw) else Broken(e)
      case NewData(data, rest) =>
        if |raw + data| > LIMIT then TooLarge else ReadStream(h, coding, raw + data, rest, eof)
  }

  method BodyFrom(c: Coding, headers: seq<byte>, body: seq<byte>) returns (r: Outcome)
    ensures r == BodyOf(c, headers, body)
  {
    match c {
      case InChunks =>
        var decoded := Dechunk(body);
        return if decoded.Some? then Page(headers, decoded.value) else Malformed;
      case Sized(n) => return Page(headers, if |body| > n then body[..n] else body);
      case UntilClose => return Page(headers, body);
    }
  }

  method Settle(coding: seq<byte> -> Coding, raw: seq<byte>) returns (r: Outcome)
    ensures r == ResponseOf(coding, raw)
  {
    hide Find, Decoded;
    if raw == [] {
      return Empty;
    }
    var split := Find(raw, BLANK_LINE);
    if split.None? {
      r := BodyFrom(coding(raw), raw, []);
    } else {
      r := BodyFrom(coding(raw[..split.value]), raw[..split.value], raw[split.value + 4..]);
    }
  }

  /** The completeness test. A chunked body is complete when it can be decoded. */
  method IsComplete(how: Coding, body: seq<byte>) returns (yes: bool)
    ensures yes <==> match how
      case InChunks => Decoded(body).Some?
      case Sized(n) => |body| >= n
      case UntilClose => false
  {
    match how {
      case InChunks =>
        var probe := Dechunk(body);
        return probe.Some?;
      case Sized(n) => return |body| >= n;
      case UntilClose => return false;
    }
  }

  method ReadResponse(conn: Connection, coding: seq<byte> -> Coding) returns (r: Outcome)
    requires conn.Valid()
    modifies conn`rx, conn`eof, conn.net`chunks, conn.rec.read.repr
    ensures conn.Valid() && conn.Writer() == old(conn.Writer())
    ensures r == ReadStream(conn.rec.read.h, coding, [], old(conn.Stream()), old(conn.eof))
  {
    hide Layer.RecordLayer.Valid, Transport.Valid, NextData, Find, Decoded, ResponseOf;
    var raw: seq<byte> := [];
    var headerEnd: Option<nat>, how := None, UntilClose;
    ghost var due := ReadStream(conn.rec.read.h, coding, [], conn.Stream(), conn.eof);
    while true
      invariant conn.Valid() && conn.rec.read.repr == old(conn.rec.read.repr) && conn.eof == old(conn.eof)
      invariant headerEnd.Some? ==> Find(raw, BLANK_LINE) == headerEnd && how == coding(raw[..headerEnd.value])
      invariant due == ReadStream(conn.rec.read.h, coding, raw, conn.Stream(), conn.eof)
      decreases |conn.Stream().bytes|
    {
      if headerEnd.None? {
        headerEnd := Find(raw, BLANK_LINE);
        if headerEnd.Some? {
          how := coding(raw[..headerEnd.value]);
        }
      }
      if headerEnd.Some? {
        var complete := IsComplete(how, raw[headerEnd.value + 4..]);
        if complete {
          break;
        }
      }
      var data, ended := conn.Recv();
      if data.Err? {
        if ended {
          break;
        }
        return Broken(data.error);
      }
      if headerEnd.Some? {
        FindStable(raw, BLANK_LINE, data.value);
        assert (raw + data.value)[..headerEnd.value] == raw[..headerEnd.value];
      }
      raw := raw + data.value;
      if |raw| > LIMIT {
        return TooLarge;
      }
    }
    r := Settle(coding, raw);
  }

  // ---- end to end ----

  /** Why nothing more comes. */
  function LastError(h: Alg, i: Incoming): Error
    requires DirectionOk(i.read)
    decreases |i.bytes|
  {
    match NextData(h, i)
    case NoData(e) => e
    case NewData(_, rest) => LastError(h, rest)
  }

  lemma {:induction false} StreamIsPieces(h: Alg, coding: seq<byte> -> Coding, raw: seq<byte>, i: Incoming, eof: bool)
    requires DirectionOk(i.read)
    ensures var e := LastError(h, i);
      ReadStream(h, coding, raw, i, eof) ==
        ReadPieces(coding, raw, ReceiveAll(h, i), if Ends(e, eof) then None else Some(e))
    decreases |i.bytes|
  {
    hide NextData, Complete, ResponseOf;
    if NextData(h, i).NewData? {
      var data, rest := NextData(h, i).data, NextData(h, i).rest;
      StreamIsPieces(h, coding, raw + data, rest, eof);
      assert ReceiveAll(h, i)[1..] == ReceiveAll(h, rest);
    }
  }

  lemma ChunkedPage(coding: seq<byte> -> Coding, headers: seq<byte>, chunks: seq<seq<byte>>)
    requires Find(headers + BLANK_LINE, BLANK_LINE) == Some(|headers|) && coding(headers) == InChunks
    requires forall k :: 0 <= k < |chunks| ==> chunks[k] != []
    ensures var raw := headers + BLANK_LINE + Encode(chunks);
      Complete(coding, raw) && ResponseOf(coding, raw) == Page(headers, Joined(chunks))
  {
    hide Find, Decoded, Encode;
    var raw := headers + BLANK_LINE + Encode(chunks);
    FindStable(headers + BLANK_LINE, BLANK_LINE, Encode(chunks));
    assert raw[..|headers|] == headers && raw[|headers| + 4..] == Encode(chunks);
    DecodesUsual(chunks);
  }

  /** A page that a server sends in chunks, with any number of writes of any size, arrives as its headers and the
      content of its chunks, whether or not the server then closes. */
  lemma PageArrives(h: Alg, d: Direction, version: word16, datas: seq<seq<byte>>, end: End, eof: bool,
                    coding: seq<byte> -> Coding, headers: seq<byte>, chunks: seq<seq<byte>>)
    requires AlgOk(h) && DirectionOk(d) && DigestSize(h) <= 2048
    requires Find(headers + BLANK_LINE, BLANK_LINE) == Some(|headers|) && coding(headers) == InChunks
    requires forall k :: 0 <= k < |chunks| ==> chunks[k] != []
    requires Joined(datas) == headers + BLANK_LINE + Encode(chunks) && |Joined(datas)| <= LIMIT
    ensures ReadStream(h, coding, [], Incoming(Joined(SendEach(h, d, version, datas)), end, d), eof) ==
      Page(headers, Joined(chunks))
  {
    hide Complete, ResponseOf, ReadStream, ReadPieces, SendEach, Encode, Find;
    var i := Incoming(Joined(SendEach(h, d, version, datas)), end, d);
    Conversation(h, d, version, datas, end);
    StreamIsPieces(h, coding, [], i, eof);
    AppendNil(Joined(datas));
    var e := LastError(h, i);
    CutsDoNotMatter(coding, [], ReceiveAll(h, i), if Ends(e, eof) then None else Some(e));
    ChunkedPage(coding, headers, chunks);
  }
}
