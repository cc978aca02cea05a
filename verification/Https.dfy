/** An HTTPS GET from first to last: connect, ask, read the response, say goodbye. */
module Https {
  import opened Agreement
  import opened BitOps
  import opened Channel
  import opened Chunked
  import opened Client
  import opened Framing
  import opened GoodServer
  import opened Handshake
  import opened Hash
  import opened Negotiation
  import opened Options
  import opened Prf
  import opened Record
  import opened Rsa
  import opened Seqs
  import Layer = RecordLayer
  import Response

  datatype Fetch = NotConnected(failure: Failure) | NotSent | Fetched(outcome: Response.Outcome)

  // ---- as a function of what the server sends ----

  /** What a GET comes to when the transport takes everything that is said. */
  function FetchOf(hs: Hashes, version: word16, e: Entropy, coding: seq<byte> -> Response.Coding, i: Incoming): Fetch
    requires HashesOk(hs) && EntropyOk(e) && DirectionOk(i.read)
  {
    match Negotiate(hs, version, e, i)
    case Failed(f) => NotConnected(f)
    case Connected(_, _, _, _, rest) => Fetched(Response.ReadStream(hs.md5, coding, [], rest, false))
  }

  /** Everything the client says before its request, and the state it writes in afterwards. */
  function Opening(hs: Hashes, version: word16, e: Entropy, o: Outcome): (r: (Direction, seq<seq<byte>>))
    requires o.Connected?
    ensures DirectionOk(r.0)
  {
    var (d, finished) := FinishedRecord(hs.md5, version, o.reply);
    var hello := [PlainRecord(version, HANDSHAKE, HelloOf(version, e))];
    (d, hello + ReplyRecords(version, o.flight.requested, o.reply.keyExchange) + [finished])
  }

  /** And with its request. */
  function Said(hs: Hashes, version: word16, e: Entropy, o: Outcome, request: seq<byte>)
    : (r: (Direction, seq<seq<byte>>))
    requires o.Connected?
    ensures DirectionOk(r.0)
  {
    var (d, opening) := Opening(hs, version, e, o);
    var (d', asked) := ProtectAll(hs.md5, d, version, Fragments(request));
    (d', opening + asked)
  }

  // ---- as it runs ----

  /** The request and its response over a connection that is up. */
  method Exchange(conn: Connection, request: seq<byte>, coding: seq<byte> -> Response.Coding)
    returns (r: Option<Response.Outcome>)
    requires conn.Valid()
    modifies conn`rx, conn`eof, conn.net, conn.rec.read.repr, conn.rec.write.repr
    ensures var (d, asked) := ProtectAll(conn.rec.write.h, old(conn.Writer()), conn.rec.version, Fragments(request));
      if old(conn.net.writes) < |asked| then r == None
      else
        && r == Some(Response.ReadStream(conn.rec.read.h, coding, [], old(conn.Stream()), old(conn.eof)))
        && conn.net.sent == old(conn.net.sent) + asked +
          Goodbye(conn.rec.write.h, d, conn.rec.version, old(conn.net.writes) - |asked|)
  {
    hide Layer.RecordLayer.Valid, Transport.Valid, ProtectAll, Fragments, Response.ReadStream;
    var sent := conn.Send(request);
    if sent != Sent {
      conn.Close();
      return None;
    }
    var outcome := Response.ReadResponse(conn, coding);
    conn.Close();
    return Some(outcome);
  }

  /** Where a new client stands that has connected. */
  ghost predicate Opened(c: Client, o: Outcome, e: Entropy, before: seq<seq<byte>>, writes: nat)
    requires o.Connected?
    reads c, c.conn, c.conn.repr, c.conn.net, c.conn.rec.read, c.conn.rec.write
  {
    var (d, opening) := Opening(c.hs, c.version, e, o);
    && c.conn.Valid() && c.conn.Apart()
    && c.conn.rec.write.h == c.conn.rec.read.h == c.hs.md5 && c.conn.rec.version == c.version
    && c.connected && !c.conn.eof && c.conn.Stream() == o.rest && c.conn.Writer() == d
    && c.conn.net.sent == before + opening && c.conn.net.writes == writes - |opening|
  }

  /** A new client, connected unless there is a reason not to. */
  method Connect(net: Transport, hs: Hashes, version: word16, e: Entropy) returns (c: Client, r: Option<Failure>)
    requires net.Valid() && HashesOk(hs) && EntropyOk(e)
    modifies net
    ensures fresh(c) && fresh(c.conn) && fresh(c.conn.repr - {net})
    ensures c.Valid() && c.conn.net == net && c.hs == hs && c.version == version
    ensures var o := Negotiate(hs, version, e, Incoming(Joined(old(net.chunks)), net.end, NoKeys()));
      match r
      case Some(Writing) => old(net.writes) < 5
      case Some(f) => o == Failed(f)
      case None => o.Connected? && Opened(c, o, e, old(net.sent), old(net.writes))
  {
    hide Layer.RecordLayer.Valid, Transport.Valid, Transcript.Valid, Negotiate, ReplyRecords, FinishedRecord, Joined;
    c := new Client(hs, version, net);
    ghost var o := Negotiate(hs, version, e, c.conn.Stream());
    r := c.Handshake(e);
    if r.None? {
      var hello := [PlainRecord(version, HANDSHAKE, HelloOf(version, e))];
      var reply := ReplyRecords(version, o.flight.requested, o.reply.keyExchange);
      var (_, finished) := FinishedRecord(hs.md5, version, o.reply);
      SentInOrder(old(net.sent), hello, reply, [finished]);
    }
  }

  lemma SentInOrder<T>(a: seq<T>, b: seq<T>, c: seq<T>, d: seq<T>)
    ensures a + b + c + d == a + (b + c + d)
  {
  }

  lemma SaidInAll(before: seq<seq<byte>>, hs: Hashes, version: word16, e: Entropy, o: Outcome, request: seq<byte>)
    requires o.Connected?
    ensures var (d, opening) := Opening(hs, version, e, o);
      var (d', asked) := ProtectAll(hs.md5, d, version, Fragments(request));
      var (last, said) := Said(hs, version, e, o, request);
      last == d' && |said| == |opening| + |asked| && before + said == before + opening + asked
  {
    hide Opening, ProtectAll, Fragments;
    var (d, opening) := Opening(hs, version, e, o);
    Assoc(before, opening, ProtectAll(hs.md5, d, version, Fragments(request)).1);
  }

  method HttpsGet(net: Transport, hs: Hashes, version: word16, e: Entropy, request: seq<byte>,
                  coding: seq<byte> -> Response.Coding)
    returns (r: Fetch)
    requires net.Valid() && HashesOk(hs) && EntropyOk(e)
    modifies net
    ensures var i := Incoming(Joined(old(net.chunks)), net.end, NoKeys());
      var o := Negotiate(hs, version, e, i);
      match r
      case NotConnected(Writing) => old(net.writes) < 5
      case NotConnected(f) => r == FetchOf(hs, version, e, coding, i)
      case NotSent => o.Connected? && old(net.writes) < |Said(hs, version, e, o, request).1|
      case Fetched(_) =>
        && o.Connected? && r == FetchOf(hs, version, e, coding, i)
        && var (d, said) := Said(hs, version, e, o, request);
        && |said| <= old(net.writes)
        && net.sent == old(net.sent) + said + Goodbye(hs.md5, d, version, old(net.writes) - |said|)
  {
    hide Connection.Valid, Transport.Valid, Client.Valid, Negotiate, ProtectAll, Fragments,
      Response.ReadStream, Opening, Goodbye, Joined, NoKeys, Said, HashesOk, EntropyOk;
    var c, f := Connect(net, hs, version, e);
    if f.Some? {
      return NotConnected(f.value);
    }
    ghost var o := Negotiate(hs, version, e, Incoming(Joined(old(net.chunks)), net.end, NoKeys()));
    SaidInAll(old(net.sent), hs, version, e, o, request);
    var got := Exchange(c.conn, request, coding);
    return if got.Some? then Fetched(got.value) else NotSent;
  }

  // ---- against a server that plays its part ----

  /** What is left of the server's records when its Finished message has been read is skipped, unless there is an empty
      one. */
  lemma {:induction false} AfterFinished(h: Alg, qs: seq<Piece>, more: seq<byte>, end: End, read: Direction)
    requires Takes(h, qs, read) && Payload(qs) == []
    ensures NextData(h, OnWire(h, qs, more, end, read)) ==
      if Tidy(qs) then NextData(h, Incoming(more, end, Wire(h, read, qs).0)) else NoData(UnexpectedRecord(HANDSHAKE))
    decreases |qs|
  {
    hide ReadRecord;
    if qs == [] {
      AppendNil(more);
    } else {
      var read' := ReadLeftOver(h, qs, more, end, read);
      AfterFinished(h, qs[1..], more, end, read');
    }
  }

  lemma PageAfterFinished(h: Alg, qs: seq<Piece>, more: seq<byte>, end: End, read: Direction,
                          coding: seq<byte> -> Response.Coding)
    requires Takes(h, qs, read) && Payload(qs) == []
    ensures Response.ReadStream(h, coding, [], OnWire(h, qs, more, end, read), false) ==
      if Tidy(qs) then Response.ReadStream(h, coding, [], Incoming(more, end, Wire(h, read, qs).0), false)
      else Response.Broken(UnexpectedRecord(HANDSHAKE))
  {
    hide NextData, OnWire, Tidy;
    AfterFinished(h, qs, more, end, read);
  }

  /** A page in chunks, cut into writes of any size. */
  ghost predicate IsPage(coding: seq<byte> -> Response.Coding, headers: seq<byte>, chunks: seq<seq<byte>>,
                         datas: seq<seq<byte>>)
  {
    && Find(headers + BLANK_LINE, BLANK_LINE) == Some(|headers|) && coding(headers) == Response.InChunks
    && (forall k :: 0 <= k < |chunks| ==> chunks[k] != [])
    && Joined(datas) == headers + BLANK_LINE + Encode(chunks) && |Joined(datas)| <= Response.LIMIT
  }

  /** Everything such a server sends: its flight, its Finished message and the page, each in records of its choice. */
  function ServerBytes(hs: Hashes, r: Reply, ps: seq<Piece>, v: word16, qs: seq<Piece>, w: word16,
                       datas: seq<seq<byte>>): seq<byte>
    requires HashesOk(hs) && PiecesOk(ps) && PiecesOk(qs)
  {
    var (d, finished) := Wire(hs.md5, ReadKeys(r.secrets.keys), qs);
    Wire(hs.md5, NoKeys(), ps).1 + LastFlight(hs, r, v, qs, Joined(SendEach(hs.md5, d, w, datas)))
  }

  /** The page of a server that plays its part arrives, however it cuts up what it sends, exactly when no empty
      handshake record is left over at the end of either flight. */
  lemma FetchesThePage(hs: Hashes, version: word16, e: Entropy, s: Server, key: Key, ps: seq<Piece>, v: word16,
                       qs: seq<Piece>, w: word16, datas: seq<seq<byte>>, end: End,
                       coding: seq<byte> -> Response.Coding, headers: seq<byte>, chunks: seq<seq<byte>>)
    requires HashesOk(hs) && EntropyOk(e) && PiecesOk(ps)
    requires Answers(s, version) && Holds(s, key) && Payload(ps) == Joined(Messages(s, version))
    requires Concludes(hs, ReplyToServer(hs, version, e, s, key), qs)
    requires IsPage(coding, headers, chunks, datas)
    ensures var r := ReplyToServer(hs, version, e, s, key);
      && r.Some?
      && FetchOf(hs, version, e, coding, Incoming(ServerBytes(hs, r.value, ps, v, qs, w, datas), end, NoKeys())) ==
        if !Tidy(ps) then NotConnected(Reading(UnexpectedRecord(HANDSHAKE)))
        else if !Tidy(qs) then Fetched(Response.Broken(UnexpectedRecord(HANDSHAKE)))
        else Fetched(Response.Page(headers, Joined(chunks)))
  {
    hide Negotiate, ReplyToServer, Response.ReadStream, LastFlight, Answers, Messages, Holds, Tidy, Payload, Find,
      Encode, NoKeys, Joined;
    var r := ReplyToServer(hs, version, e, s, key);
    var keys := ReadKeys(r.value.secrets.keys);
    var d := Wire(hs.md5, keys, qs).0;
    var more := Joined(SendEach(hs.md5, d, w, datas));
    var qs', read' := ConnectsToServer(hs, version, e, s, key, ps, v, qs, more, end, NoKeys());
    PageAfterFinished(hs.md5, qs', more, end, read', coding);
    Response.PageArrives(hs.md5, d, w, datas, end, false, coding, headers, chunks);
  }

  lemma EmptyPage(coding: seq<byte> -> Response.Coding)
    requires coding([]) == Response.InChunks
    ensures IsPage(coding, [], [], [BLANK_LINE + Encode([])])
  {
    var data: seq<byte> := BLANK_LINE + Encode([]);
    var datas := [data];
    assert datas[1..] == [];
    AppendNil(data);
    var headers: seq<byte> := [];
    assert headers + BLANK_LINE == BLANK_LINE && headers + BLANK_LINE + Encode([]) == data;
    assert BLANK_LINE[..4] == BLANK_LINE;
  }

  /** The first flight of the plainest server, in one record. */
  ghost function PlainPieces(): (ps: seq<Piece>)
    ensures PiecesOk(ps)
  {
    PlainServerAnswers();
    [Data(0x0301, PlainFlight())]
  }

  /** What becomes of an empty page from that server, whose Finished message is in the pieces `qs`. */
  ghost function PlainPage(hs: Hashes, e: Entropy, v: word16, qs: seq<Piece>, w: word16, end: End,
                           coding: seq<byte> -> Response.Coding): Fetch
    requires HashesOk(hs) && EntropyOk(e) && PiecesOk(qs)
  {
    var bytes := ServerBytes(hs, ReplyToPlain(hs, e).value, PlainPieces(), v, qs, w, [BLANK_LINE + Encode([])]);
    FetchOf(hs, 0x0301, e, coding, Incoming(bytes, end, NoKeys()))
  }

  lemma PlainPageArrives(hs: Hashes, e: Entropy, v: word16, qs: seq<Piece>, w: word16, end: End,
                         coding: seq<byte> -> Response.Coding)
    requires HashesOk(hs) && EntropyOk(e) && coding([]) == Response.InChunks
    requires Concludes(hs, ReplyToPlain(hs, e), qs)
    ensures PlainPage(hs, e, v, qs, w, end, coding) ==
      if Tidy(qs) then Fetched(Response.Page([], [])) else Fetched(Response.Broken(UnexpectedRecord(HANDSHAKE)))
  {
    hide ReplyToServer, ServerBytes, FetchOf, Answers, Messages, Holds, IsPage, Encode, Tidy, Payload, Concludes;
    PlainServerAnswers();
    PlainKeyHolds();
    EmptyPage(coding);
    OneRecord(0x0301, PlainFlight());
    assert [Data(0x0301, PlainFlight()), Data(0x0301, [])][..1] == PlainPieces();
    FetchesThePage(hs, 0x0301, e, PLAIN_SERVER, PLAIN_KEY, PlainPieces(), v, qs, w, [BLANK_LINE + Encode([])], end,
                   coding, [], []);
  }

  /** It does happen that the page of a server that plays its part is not read: an empty record follows its Finished
      message. Without that record the page arrives. */
  lemma LeftOverSpoilsPage(hs: Hashes, e: Entropy, v: word16, w: word16, end: End,
                           coding: seq<byte> -> Response.Coding)
    returns (qs: seq<Piece>)
    requires HashesOk(hs) && EntropyOk(e) && coding([]) == Response.InChunks
    ensures PiecesOk(qs) && |qs| == 2 && PiecesOk(qs[..1])
    ensures qs == [Data(w, AnswerTo(hs, ReplyToPlain(hs, e).value)), Data(w, [])]
    ensures PlainPage(hs, e, v, qs, w, end, coding) == Fetched(Response.Broken(UnexpectedRecord(HANDSHAKE)))
    ensures PlainPage(hs, e, v, qs[..1], w, end, coding) == Fetched(Response.Page([], []))
  {
    hide AnswerTo, PlainPage, ReplyToPlain, Tidy, Payload;
    var r := ReplyToPlain(hs, e).value;
    qs := [Data(w, AnswerTo(hs, r)), Data(w, [])];
    AnswerIsShort(hs, r);
    OneRecord(w, AnswerTo(hs, r));
    PlainPageArrives(hs, e, v, qs, w, end, coding);
    PlainPageArrives(hs, e, v, qs[..1], w, end, coding);
  }

  /** Such a server needs only five writes to be accepted for the client to be connected. */
  method ConnectToServer(net: Transport, hs: Hashes, version: word16, e: Entropy, ghost s: Server, ghost key: Key,
                         ghost ps: seq<Piece>, ghost v: word16, ghost qs: seq<Piece>, ghost more: seq<byte>)
    returns (c: Client, r: Option<Failure>)
    requires net.Valid() && HashesOk(hs) && EntropyOk(e) && PiecesOk(ps)
    requires Answers(s, version) && Holds(s, key) && Payload(ps) == Joined(Messages(s, version))
    requires Concludes(hs, ReplyToServer(hs, version, e, s, key), qs)
    requires var reply := ReplyToServer(hs, version, e, s, key).value;
      Joined(net.chunks) == Wire(hs.md5, NoKeys(), ps).1 + LastFlight(hs, reply, v, qs, more)
    requires Tidy(ps) && net.writes >= 5
    modifies net
    ensures fresh(c) && c.Valid() && c.conn.net == net
    ensures r == None && c.connected
  {
    hide Negotiate, ReplyToServer, LastFlight, Answers, Messages, Holds, Tidy, Payload, NoKeys, Joined, Client.Valid,
      Transport.Valid, Opening, Connection.Valid;
    ghost var reply := ReplyToServer(hs, version, e, s, key).value;
    ghost var qs', read' := ConnectsToServer(hs, version, e, s, key, ps, v, qs, more, net.end, NoKeys());
    c, r := Connect(net, hs, version, e);
  }

  lemma {:induction false} ProtectAllLength(h: Alg, d: Direction, version: word16, frags: seq<seq<byte>>)
    requires DirectionOk(d)
    ensures |ProtectAll(h, d, version, frags).1| <= |frags|
    decreases |frags|
  {
    if frags != [] && |frags[0]| <= MAX_PLAINTEXT {
      SealKeepsBox(h, d, APPLICATION_DATA, version, frags[0]);
      ProtectAllLength(h, ProtectOf(h, d, APPLICATION_DATA, version, frags[0]).value.0, version, frags[1..]);
    }
  }

  lemma SaidLength(hs: Hashes, version: word16, e: Entropy, o: Outcome, request: seq<byte>)
    requires o.Connected?
    ensures |Said(hs, version, e, o, request).1| <= 5 + |Fragments(request)|
  {
    hide ProtectAll, Fragments, FinishedRecord;
    ProtectAllLength(hs.md5, Opening(hs, version, e, o).0, version, Fragments(request));
  }

  /** And a few more for the page to arrive. */
  method GetPage(net: Transport, hs: Hashes, version: word16, e: Entropy, request: seq<byte>,
                 coding: seq<byte> -> Response.Coding, ghost s: Server, ghost key: Key, ghost ps: seq<Piece>,
                 ghost v: word16, ghost qs: seq<Piece>, ghost w: word16, ghost datas: seq<seq<byte>>,
                 ghost headers: seq<byte>, ghost chunks: seq<seq<byte>>)
    returns (r: Fetch)
    requires net.Valid() && HashesOk(hs) && EntropyOk(e) && PiecesOk(ps)
    requires Answers(s, version) && Holds(s, key) && Payload(ps) == Joined(Messages(s, version))
    requires Concludes(hs, ReplyToServer(hs, version, e, s, key), qs)
    requires IsPage(coding, headers, chunks, datas)
    requires var reply := ReplyToServer(hs, version, e, s, key).value;
      Joined(net.chunks) == ServerBytes(hs, reply, ps, v, qs, w, datas)
    requires Tidy(ps) && Tidy(qs) && net.writes >= 5 + |Fragments(request)|
    modifies net
    ensures r == Fetched(Response.Page(headers, Joined(chunks)))
  {
    hide Negotiate, ReplyToServer, Answers, Messages, Holds, Tidy, Payload, NoKeys, Joined, FetchOf, Said, Fragments,
      Transport.Valid, IsPage, ServerBytes, Concludes, Goodbye;
    FetchesThePage(hs, version, e, s, key, ps, v, qs, w, datas, net.end, coding, headers, chunks);
    ghost var o := Negotiate(hs, version, e, Incoming(Joined(net.chunks), net.end, NoKeys()));
    if o.Connected? {
      SaidLength(hs, version, e, o, request);
    }
    r := HttpsGet(net, hs, version, e, request, coding);
  }
}
