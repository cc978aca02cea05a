/** Handshake messages out of records, and records out of a byte stream. Messages may share records or span
    them, and nothing depends on how the socket cuts the stream. */
module Framing {
  import opened BitOps
  import opened Handshake
  import opened Hash
  import opened Options
  import opened Record
  import opened Seqs

  /** Why nothing more can be read. */
  datatype Error =
    | Closed
    | TimedOut
    | ReadFailed
    | BadHeader
    | BadContentType(contentType: byte)
    | BadRecordMac
    | BadAlert
    | CloseNotified
    | FatalAlert(description: byte)
    | UnexpectedRecord(contentType: byte)
    | HandshakePending
    | BadCipherSpec

  /** How the stream ends once every byte has been delivered. */
  datatype End = Eof | Timeout | Fault

  function EndError(e: End): Error {
    match e
    case Eof => Closed
    case Timeout => TimedOut
    case Fault => ReadFailed
  }

  /** Everything still to come from the peer, and the state its records are opened in. */
  datatype Incoming = Incoming(bytes: seq<byte>, end: End, read: Direction)

  datatype RecordResult =
    | Record(header: RecordHeader, plain: seq<byte>, rest: Incoming)
    | NoRecord(error: Error)

  function ReadRecord(h: Alg, i: Incoming): (r: RecordResult)
    requires DirectionOk(i.read)
    ensures r.Record? ==> |r.rest.bytes| < |i.bytes| && DirectionOk(r.rest.read)
    ensures r.NoRecord? ==> !r.error.UnexpectedRecord? && r.error != CloseNotified
  {
    if |i.bytes| < HEADER_LENGTH then NoRecord(EndError(i.end))
    else
      match ParseHeader(i.bytes)
      case None => NoRecord(BadHeader)
      case Some(header) =>
        if !ValidContentType(header.contentType) then NoRecord(BadContentType(header.contentType))
        else if |i.bytes| < HEADER_LENGTH + header.length then NoRecord(EndError(i.end))
        else
          var n := HEADER_LENGTH + header.length;
          var (read, plain) := UnprotectOf(h, i.read, header.contentType, header.version, i.bytes[HEADER_LENGTH..n]);
          if plain.None? then NoRecord(BadRecordMac)
          else Record(header, plain.value, Incoming(i.bytes[n..], i.end, read))
  }

  function AlertError(body: seq<byte>): Option<Error> {
    match AlertOf(body)
    case Malformed => Some(BadAlert)
    case CloseNotify => Some(CloseNotified)
    case Fatal(d) => Some(FatalAlert(d))
    case Ignorable => None
  }

  datatype MessageResult =
    | Got(message: seq<byte>, pending: seq<byte>, rest: Incoming)
    | Nothing(error: Error)

  /** The next whole handshake message, given the handshake bytes already pending. */
  function NextMessage(h: Alg, pending: seq<byte>, i: Incoming): (r: MessageResult)
    requires DirectionOk(i.read)
    ensures r.Got? ==> IsMessage(r.message) && DirectionOk(r.rest.read)
    ensures r.Got? ==> |r.rest.bytes| < |i.bytes| || (r.rest == i && |r.pending| < |pending|)
    decreases |i.bytes|
  {
    match MessageLength(pending)
    case Some(n) =>
      MessageStable(pending, []);
      Got(pending[..n], pending[n..], i)
    case None =>
      match ReadRecord(h, i)
      case NoRecord(e) => Nothing(e)
      case Record(header, plain, rest) =>
        if header.contentType == ALERT then
          match AlertError(plain)
          case Some(e) => Nothing(e)
          case None => NextMessage(h, pending, rest)
        else if header.contentType != HANDSHAKE then Nothing(UnexpectedRecord(header.contentType))
        else NextMessage(h, pending + plain, rest)
  }

  // ---- reading what was written ----

  /** With the whole of a record in the buffer, the bytes still to come make no difference to it. */
  lemma RecordAtHand(h: Alg, rx: seq<byte>, more: seq<byte>, end: End, read: Direction,
                                        header: RecordHeader)
    requires DirectionOk(read) && ParseHeader(rx + more) == Some(header) && ValidContentType(header.contentType)
    requires |rx| >= HEADER_LENGTH + header.length
    ensures var n := HEADER_LENGTH + header.length;
      var (read', plain) := UnprotectOf(h, read, header.contentType, header.version, rx[HEADER_LENGTH..n]);
      ReadRecord(h, Incoming(rx + more, end, read)) ==
        if plain.None? then NoRecord(BadRecordMac)
        else Record(header, plain.value, Incoming(rx[n..] + more, end, read'))
  {
    hide UnprotectOf;
    var n := HEADER_LENGTH + header.length;
    assert (rx + more)[HEADER_LENGTH..n] == rx[HEADER_LENGTH..n] && (rx + more)[n..] == rx[n..] + more;
  }

  /** What a direction must be for its records to be read back: anything in the clear, and a proper MAC otherwise. */
  ghost predicate Readable(h: Alg, d: Direction) {
    DirectionOk(d) && (d.active ==> AlgOk(h) && DigestSize(h) <= 2048)
  }

  /** A record is read back by a reader in the writer's state, whatever follows it. */
  lemma ReadsProtected(h: Alg, d: Direction, t: byte, version: word16, data: seq<byte>, more: seq<byte>, end: End)
    requires Readable(h, d) && ValidContentType(t) && |data| <= MAX_PLAINTEXT
    ensures var (d', record) := ProtectOf(h, d, t, version, data).value;
      && Readable(h, d')
      && var r := ReadRecord(h, Incoming(record + more, end, d));
         r.Record? && r.header.contentType == t && r.plain == data && r.rest == Incoming(more, end, d')
  {
    var (d', body) := Seal(h, d, t, version, data);
    var record := HeaderBytes(t, version, |body|) + body;
    if d.active {
      OpensWhatWasSealed(h, d, t, version, data);
    }
    HeaderRoundTrip(t, version, |body|, body + more);
    Assoc(HeaderBytes(t, version, |body|), body, more);
    RecordAtHand(h, record, more, end, d, RecordHeader(t, version, |body|));
    assert record[HEADER_LENGTH..] == body && record[HEADER_LENGTH..HEADER_LENGTH + |body|] == body;
    assert record[HEADER_LENGTH + |body|..] + more == more;
  }

  // ---- framing does not matter ----

  /** What a handshake record carries: a piece of handshake data, or a warning to be ignored. Each names a version of
      its own, which nobody compares with anything. */
  datatype Piece =
    | Data(version: word16, payload: seq<byte>)
    | Warning(version: word16, level: byte, description: byte)

  predicate PieceOk(p: Piece) {
    match p
    case Data(_, payload) => |payload| <= MAX_PLAINTEXT
    case Warning(_, level, description) => description != 0 && level != 2
  }

  predicate PiecesOk(ps: seq<Piece>) {
    forall k :: 0 <= k < |ps| ==> PieceOk(ps[k])
  }

  function PieceType(p: Piece): byte {
    if p.Data? then HANDSHAKE else ALERT
  }

  function PieceBody(p: Piece): seq<byte> {
    match p
    case Data(_, payload) => payload
    case Warning(_, level, description) => [level, description]
  }

  /** A piece as the record that carries it, in the clear or under keys, and the writer's state afterwards. */
  function PieceRecord(h: Alg, d: Direction, p: Piece): (r: (Direction, seq<byte>))
    requires DirectionOk(d) && PieceOk(p)
    ensures DirectionOk(r.0) && r.0.active == d.active
  {
    ProtectOf(h, d, PieceType(p), p.version, PieceBody(p)).value
  }

  /** All the records, one after the other. */
  function Wire(h: Alg, d: Direction, ps: seq<Piece>): (r: (Direction, seq<byte>))
    requires DirectionOk(d) && PiecesOk(ps)
    ensures DirectionOk(r.0) && r.0.active == d.active
    decreases |ps|
  {
    if ps == [] then (d, [])
    else
      var (d', record) := PieceRecord(h, d, ps[0]);
      var (d'', records) := Wire(h, d', ps[1..]);
      (d'', record + records)
  }

  /** The handshake data of all the records, one after the other. */
  function Payload(ps: seq<Piece>): seq<byte> {
    if ps == [] then [] else (if ps[0].Data? then ps[0].payload else []) + Payload(ps[1..])
  }

  /** Cuts handshake data into whole messages. This is the definition that knows nothing of records. */
  function Cut(s: seq<byte>): seq<seq<byte>>
    decreases |s|
  {
    match MessageLength(s)
    case None => []
    case Some(n) => [s[..n]] + Cut(s[n..])
  }

  /** Every message a caller gets by asking again and again, until reading fails. */
  function Deliver(h: Alg, pending: seq<byte>, i: Incoming): seq<seq<byte>>
    requires DirectionOk(i.read)
    decreases |i.bytes|, |pending|
  {
    match MessageLength(pending)
    case Some(n) => [pending[..n]] + Deliver(h, pending[n..], i)
    case None =>
      match ReadRecord(h, i)
      case NoRecord(e) => []
      case Record(header, plain, rest) =>
        if header.contentType == ALERT then
          if AlertError(plain).Some? then [] else Deliver(h, pending, rest)
        else if header.contentType != HANDSHAKE then []
        else Deliver(h, pending + plain, rest)
  }

  /** `Deliver` is what repeated calls return. */
  lemma {:induction false} DeliverIsRepeated(h: Alg, pending: seq<byte>, i: Incoming)
    requires DirectionOk(i.read)
    ensures match NextMessage(h, pending, i)
      case Nothing(e) => Deliver(h, pending, i) == []
      case Got(m, p, rest) => Deliver(h, pending, i) == [m] + Deliver(h, p, rest)
    decreases |i.bytes|
  {
    if MessageLength(pending).None? {
      var r := ReadRecord(h, i);
      if r.Record? {
        if r.header.contentType == ALERT {
          DeliverIsRepeated(h, pending, r.rest);
        } else {
          DeliverIsRepeated(h, pending + r.plain, r.rest);
        }
      }
    }
  }

  /** Reading the first record of a stream of pieces. */
  lemma ReadPiece(h: Alg, p: Piece, more: seq<byte>, end: End, d: Direction)
    requires PieceOk(p) && Readable(h, d)
    ensures var (d', record) := PieceRecord(h, d, p);
      && Readable(h, d')
      && var r := ReadRecord(h, Incoming(record + more, end, d));
      && r.Record? && r.rest == Incoming(more, end, d')
      && (p.Data? ==> r.header.contentType == HANDSHAKE && r.plain == p.payload)
      && (p.Warning? ==> r.header.contentType == ALERT && AlertError(r.plain) == None)
  {
    hide ReadRecord, ProtectOf;
    ReadsProtected(h, d, PieceType(p), p.version, PieceBody(p), more, end);
  }

  function Absorb(pending: seq<byte>, p: Piece): seq<byte> {
    if p.Data? then pending + p.payload else pending
  }

  /** With no whole message pending, one record is read and its data added. */
  lemma DeliverPiece(h: Alg, pending: seq<byte>, p: Piece, more: seq<byte>, end: End, d: Direction)
    requires PieceOk(p) && Readable(h, d) && MessageLength(pending) == None
    ensures var (d', record) := PieceRecord(h, d, p);
      && Readable(h, d')
      && Deliver(h, pending, Incoming(record + more, end, d)) == Deliver(h, Absorb(pending, p), Incoming(more, end, d'))
  {
    hide ReadRecord, PieceRecord;
    ReadPiece(h, p, more, end, d);
  }

  lemma AbsorbPayload(pending: seq<byte>, ps: seq<Piece>)
    requires ps != []
    ensures Absorb(pending, ps[0]) + Payload(ps[1..]) == pending + Payload(ps)
  {
    if ps[0].Data? {
      Assoc(pending, ps[0].payload, Payload(ps[1..]));
    } else {
      AppendNil(Payload(ps[1..]));
    }
  }

  lemma CutFirst(pending: seq<byte>, more: seq<byte>)
    requires MessageLength(pending).Some?
    ensures var n := MessageLength(pending).value;
      Cut(pending + more) == [pending[..n]] + Cut(pending[n..] + more)
  {
    var n, all := MessageLength(pending).value, pending + more;
    MessageStable(pending, more);
    assert all[..n] == pending[..n] && all[n..] == pending[n..] + more;
  }

  /** Framing independence: the messages delivered are those cut from the handshake data alone, however it is
      divided into records, with empty records and warnings anywhere between them, in the clear and under keys. */
  lemma {:induction false} FramingIndependence(h: Alg, pending: seq<byte>, ps: seq<Piece>, end: End, d: Direction)
    requires PiecesOk(ps) && Readable(h, d)
    ensures Deliver(h, pending, Incoming(Wire(h, d, ps).1, end, d)) == Cut(pending + Payload(ps))
    decreases |ps|, |pending|
  {
    hide ReadRecord, PieceRecord;
    if MessageLength(pending).Some? {
      FramingIndependence(h, pending[MessageLength(pending).value..], ps, end, d);
      CutFirst(pending, Payload(ps));
    } else if ps == [] {
      AppendNil(pending);
      assert ReadRecord(h, Incoming([], end, d)).NoRecord? by {
        NothingToRead(h, end, d);
      }
    } else {
      var d' := PieceRecord(h, d, ps[0]).0;
      DeliverPiece(h, pending, ps[0], Wire(h, d', ps[1..]).1, end, d);
      FramingIndependence(h, Absorb(pending, ps[0]), ps[1..], end, d');
      AbsorbPayload(pending, ps);
    }
  }

  lemma NothingToRead(h: Alg, end: End, d: Direction)
    requires DirectionOk(d)
    ensures ReadRecord(h, Incoming([], end, d)) == NoRecord(EndError(end))
  {
  }

  /** Two ways of putting the same handshake data into records deliver the same messages. */
  lemma SameDataSameMessages(h: Alg, ps: seq<Piece>, qs: seq<Piece>, end: End, d: Direction)
    requires PiecesOk(ps) && PiecesOk(qs) && Payload(ps) == Payload(qs) && Readable(h, d)
    ensures Deliver(h, [], Incoming(Wire(h, d, ps).1, end, d)) == Deliver(h, [], Incoming(Wire(h, d, qs).1, end, d))
  {
    FramingIndependence(h, [], ps, end, d);
    FramingIndependence(h, [], qs, end, d);
  }

  function Joined(ms: seq<seq<byte>>): seq<byte> {
    if ms == [] then [] else ms[0] + Joined(ms[1..])
  }

  /** Whole messages sent one after the other are cut apart again. */
  lemma {:induction false} CutJoined(ms: seq<seq<byte>>)
    requires forall k :: 0 <= k < |ms| ==> IsMessage(ms[k])
    ensures Cut(Joined(ms)) == ms
  {
    if ms != [] {
      CutJoined(ms[1..]);
      MessageStable(ms[0], Joined(ms[1..]));
      assert Joined(ms)[..|ms[0]|] == ms[0] && Joined(ms)[|ms[0]|..] == Joined(ms[1..]);
    }
  }
}
