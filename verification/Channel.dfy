/** One connection to the server: records over a byte stream that arrives in arbitrary pieces. */
module Channel {
  import opened BitOps
  import opened Framing
  import opened Handshake
  import opened Hash
  import opened Options
  import opened Rc4
  import opened Record
  import opened Seqs
  import Layer = RecordLayer

  const CLOSE_NOTIFY: seq<byte> := [1, 0]

  /** Socket reads return at most this much. */
  const BUFFER: nat := 4096

  datatype Received = Arrived(data: seq<byte>) | Ended(end: End)

  /** A scripted peer: the pieces in which its bytes will arrive, how they end, and how many writes it accepts. */
  class Transport {
    const end: End
    var chunks: seq<seq<byte>>
    var sent: seq<seq<byte>>
    var writes: nat

    ghost predicate Valid()
      reads this
    {
      forall k :: 0 <= k < |chunks| ==> 0 < |chunks[k]| <= BUFFER
    }

    constructor (chunks: seq<seq<byte>>, end: End, writes: nat)
      requires forall k :: 0 <= k < |chunks| ==> 0 < |chunks[k]| <= BUFFER
      ensures Valid() && this.chunks == chunks && this.end == end && this.writes == writes && sent == []
    {
      this.chunks, this.end, this.writes, sent := chunks, end, writes, [];
    }

    /** Every write that has been or will be accepted. */
    ghost function Quota(): nat
      reads this
    {
      |sent| + writes
    }

    method Recv() returns (r: Received)
      requires Valid()
      modifies this`chunks
      ensures Valid()
      ensures old(chunks) == [] ==> r == Ended(end) && chunks == []
      ensures old(chunks) != [] ==> r == Arrived(old(chunks)[0]) && chunks == old(chunks)[1..]
    {
      if chunks == [] {
        return Ended(end);
      }
      r := Arrived(chunks[0]);
      chunks := chunks[1..];
    }

    method SendAll(data: seq<byte>) returns (ok: bool)
      modifies this`sent, this`writes
      ensures ok <==> old(writes) > 0
      ensures ok ==> sent == old(sent) + [data] && writes == old(writes) - 1
      ensures !ok ==> sent == old(sent) && writes == old(writes)
      ensures Quota() == old(Quota())
    {
      if writes == 0 {
        return false;
      }
      writes, sent := writes - 1, sent + [data];
      return true;
    }
  }

  // ---- what later reads return, in terms of the bytes alone ----

  /** Whether an error means that the peer has finished sending. */
  predicate EndsStream(e: Error) {
    e == Closed || e == CloseNotified
  }

  datatype DataResult = NewData(data: seq<byte>, rest: Incoming) | NoData(error: Error)

  /** The next record of application data; warnings before it are skipped. */
  function NextData(h: Alg, i: Incoming): (r: DataResult)
    requires DirectionOk(i.read)
    ensures r.NewData? ==> |r.rest.bytes| < |i.bytes| && DirectionOk(r.rest.read)
    decreases |i.bytes|
  {
    match ReadRecord(h, i)
    case NoRecord(e) => NoData(e)
    case Record(header, plain, rest) =>
      if header.contentType == APPLICATION_DATA then NewData(plain, rest)
      else if header.contentType == ALERT then
        match AlertError(plain)
        case Some(e) => NoData(e)
        case None => NextData(h, rest)
      else NoData(UnexpectedRecord(header.contentType))
  }

  datatype SwitchResult = Switched(rest: Incoming) | NotSwitched(error: Error)

  /** ChangeCipherSpec is a record of its own: one byte, with the value one. */
  function NextCipherSpec(h: Alg, pending: seq<byte>, i: Incoming): (r: SwitchResult)
    requires DirectionOk(i.read)
    ensures r.Switched? ==> pending == [] && DirectionOk(r.rest.read)
    decreases |i.bytes|
  {
    if pending != [] then NotSwitched(HandshakePending)
    else
      match ReadRecord(h, i)
      case NoRecord(e) => NotSwitched(e)
      case Record(header, plain, rest) =>
        if header.contentType == ALERT then
          match AlertError(plain)
          case Some(e) => NotSwitched(e)
          case None => NextCipherSpec(h, pending, rest)
        else if header.contentType != CHANGE_CIPHER_SPEC then NotSwitched(UnexpectedRecord(header.contentType))
        else if plain != [1] then NotSwitched(BadCipherSpec)
        else Switched(rest)
  }

  // ---- sending ----

  datatype SendResult = Sent | TooLong | WriteFailed

  /** A write succeeds as long as the transport takes it. */
  ghost predicate Wrote(r: SendResult, record: seq<byte>, before: seq<seq<byte>>, after: seq<seq<byte>>, left: nat,
                        left': nat)
  {
    if left == 0 then r == WriteFailed && after == before && left' == 0
    else r == Sent && after == before + [record] && left' == left - 1
  }

  /** Data cut into pieces that each fit in a record. */
  function Fragments(data: seq<byte>): seq<seq<byte>>
    decreases |data|
  {
    if data == [] then []
    else
      var n := if |data| < MAX_PLAINTEXT then |data| else MAX_PLAINTEXT;
      [data[..n]] + Fragments(data[n..])
  }

  lemma {:induction false} FragmentsCover(data: seq<byte>)
    ensures Joined(Fragments(data)) == data
    ensures forall k :: 0 <= k < |Fragments(data)| ==> 0 < |Fragments(data)[k]| <= MAX_PLAINTEXT
    decreases |data|
  {
    if data != [] {
      var n := if |data| < MAX_PLAINTEXT then |data| else MAX_PLAINTEXT;
      FragmentsCover(data[n..]);
      assert Joined(Fragments(data)) == data[..n] + Joined(Fragments(data[n..]));
    }
  }

  lemma SealKeepsBox(h: Alg, d: Direction, t: byte, version: word16, data: seq<byte>)
    requires DirectionOk(d)
    ensures var d' := Seal(h, d, t, version, data).0;
      DirectionOk(d') && d'.active == d.active
  {
  }

  /** The records that carry a list of pieces of application data. */
  function ProtectAll(h: Alg, d: Direction, version: word16, frags: seq<seq<byte>>): (r: (Direction, seq<seq<byte>>))
    requires DirectionOk(d)
    ensures DirectionOk(r.0) && r.0.active == d.active
    decreases |frags|
  {
    if frags == [] then (d, [])
    else
      match ProtectOf(h, d, APPLICATION_DATA, version, frags[0])
      case None => (d, [])
      case Some((d', record)) =>
        SealKeepsBox(h, d, APPLICATION_DATA, version, frags[0]);
        var (d'', records) := ProtectAll(h, d', version, frags[1..]);
        (d'', [record] + records)
  }

  /** The closing alert, if there are keys to send it under and the transport still takes it. */
  function Goodbye(h: Alg, d: Direction, version: word16, writes: nat): seq<seq<byte>>
    requires DirectionOk(d)
  {
    if d.active && writes > 0 then [ProtectOf(h, d, ALERT, version, CLOSE_NOTIFY).value.1] else []
  }

  // ---- the buffer of raw bytes ----

  /** A header is decided by the first bytes. */
  lemma HeaderStable(s: seq<byte>, more: seq<byte>)
    requires |s| >= HEADER_LENGTH
    ensures ParseHeader(s + more) == ParseHeader(s)
  {
    assert forall k :: 0 <= k < HEADER_LENGTH ==> (s + more)[k] == s[k];
  }

  lemma JoinedFirst(cs: seq<seq<byte>>)
    requires cs != []
    ensures Joined(cs) == cs[0] + Joined(cs[1..])
  {
  }

  datatype Seen = Whole(header: RecordHeader, plain: seq<byte>) | Bad(error: Error)

  datatype Result<+T> = Ok(value: T) | Err(error: Error)

  /** What a caller saw, against what the stream says. The end of the stream is remembered. */
  ghost predicate AsDue(seen: Seen, due: RecordResult, now: Incoming, eofBefore: bool, eofAfter: bool) {
    match due
    case NoRecord(e) => seen == Bad(e) && eofAfter == (eofBefore || EndsStream(e))
    case Record(header, plain, rest) => seen == Whole(header, plain) && now == rest && eofAfter == eofBefore
  }

  class Connection {
    const net: Transport
    const rec: Layer.RecordLayer
    var rx: seq<byte>
    var hs: seq<byte>
    var eof: bool

    ghost var repr: set<object>

    ghost predicate Valid()
      reads this, repr
    {
      && Apart()
      && net.Valid() && rec.Valid() && DirectionOk(rec.read.Model()) && DirectionOk(rec.write.Model())
    }

    /** The transport and the two directions share nothing. */
    ghost predicate Apart()
      reads this, repr
    {
      && this in repr && net in repr && rec.write in repr && rec.read in repr
      && rec.write.repr <= repr && rec.read.repr <= repr
      && rec.write in rec.write.repr && rec.read in rec.read.repr
      && rec.write.repr !! rec.read.repr
      && this !in rec.write.repr && this !in rec.read.repr
      && net !in rec.write.repr && net !in rec.read.repr
    }

    /** Everything the peer has sent that has not been used yet. */
    ghost function Unread(): seq<byte>
      reads this, net
    {
      rx + Joined(net.chunks)
    }

    ghost function Stream(): Incoming
      reads this, net, rec.read
    {
      Incoming(Unread(), net.end, rec.read.Model())
    }

    ghost function Writer(): Direction
      reads rec.write
    {
      rec.write.Model()
    }

    constructor (net: Transport, h: Alg, version: word16)
      requires net.Valid() && AlgOk(h)
      ensures Valid() && Apart() && this.net == net && rec.version == version && rec.write.h == rec.read.h == h
      ensures hs == [] && !eof && Writer() == NoKeys()
      ensures Stream() == Incoming(Joined(net.chunks), net.end, NoKeys())
      ensures repr == {this, net} + rec.write.repr + rec.read.repr
      ensures fresh(rec.write.repr) && fresh(rec.read.repr)
    {
      hide Layer.RecordLayer.Valid, Transport.Valid;
      this.net := net;
      rec := new Layer.RecordLayer(h, version);
      rx, hs, eof := [], [], false;
      new;
      repr := {this, net} + rec.write.repr + rec.read.repr;
    }

    /** Reads until there is enough in the buffer. How the bytes are cut makes no difference. */
    method Fill(need: nat) returns (r: Option<Error>)
      requires net.Valid()
      modifies this`rx, this`eof, net`chunks
      ensures net.Valid() && Unread() == old(Unread())
      ensures r.None? <==> |old(Unread())| >= need
      ensures r.None? ==> |rx| >= need && eof == old(eof)
      ensures r.Some? ==> r.value == EndError(net.end) && eof == (old(eof) || EndsStream(r.value))
    {
      while |rx| < need
        invariant net.Valid() && Unread() == old(Unread()) && eof == old(eof)
        decreases |net.chunks|
      {
        ghost var before := net.chunks;
        var n := net.Recv();
        match n {
          case Ended(e) =>
            AppendNil(rx);
            if e == Eof {
              eof := true;
            }
            return Some(EndError(e));
          case Arrived(data) =>
            JoinedFirst(before);
            Assoc(rx, data, Joined(before[1..]));
            rx := rx + data;
        }
      }
      return None;
    }

    /** `Fill` leaves the records' own state alone. */
    method Ensure(need: nat) returns (r: Option<Error>)
      requires Valid()
      modifies this`rx, this`eof, net`chunks
      ensures Valid() && Stream() == old(Stream())
      ensures r.None? <==> |old(Stream()).bytes| >= need
      ensures r.None? ==> |rx| >= need && eof == old(eof)
      ensures r.Some? ==> r.value == EndError(net.end) && eof == (old(eof) || EndsStream(r.value))
    {
      r := Fill(need);
    }

    method Take(header: RecordHeader) returns (plain: Option<seq<byte>>)
      requires Valid() && |rx| >= HEADER_LENGTH + header.length
      modifies this`rx, rec.read.repr
      ensures Valid() && rec.read.repr == old(rec.read.repr)
      ensures var n := HEADER_LENGTH + header.length;
        && (rec.read.Model(), plain) == UnprotectOf(rec.read.h, old(rec.read.Model()), header.contentType,
                                                     header.version, old(rx)[HEADER_LENGTH..n])
        && rx == if plain.Some? then old(rx)[n..] else old(rx)
    {
      var n := HEADER_LENGTH + header.length;
      plain := rec.Unprotect(header.contentType, header.version, rx[HEADER_LENGTH..n]);
      if plain.Some? {
        rx := rx[n..];
      }
    }

    /** The body of a record whose header is in the buffer. */
    method ReadBody(header: RecordHeader) returns (r: Seen)
      requires Valid() && |rx| >= HEADER_LENGTH
      requires ParseHeader(Unread()) == Some(header) && ValidContentType(header.contentType)
      modifies this`rx, this`eof, net`chunks, rec.read.repr
      ensures Valid() && rec.read.repr == old(rec.read.repr)
      ensures AsDue(r, ReadRecord(rec.read.h, old(Stream())), Stream(), old(eof), eof)
    {
      hide Layer.RecordLayer.Valid, Joined;
      var e := Ensure(HEADER_LENGTH + header.length);
      if e.Some? {
        return Bad(e.value);
      }
      RecordAtHand(rec.read.h, rx, Joined(net.chunks), net.end, rec.read.Model(), header);
      var plain := Take(header);
      if plain.None? {
        return Bad(BadRecordMac);
      }
      return Whole(header, plain.value);
    }

    /** The next record, whatever it carries. */
    method ReadNext() returns (r: Seen)
      requires Valid()
      modifies this`rx, this`eof, net`chunks, rec.read.repr
      ensures Valid() && rec.read.repr == old(rec.read.repr)
      ensures AsDue(r, ReadRecord(rec.read.h, old(Stream())), Stream(), old(eof), eof)
    {
      hide Layer.RecordLayer.Valid, Joined;
      var e := Ensure(HEADER_LENGTH);
      if e.Some? {
        return Bad(e.value);
      }
      HeaderStable(rx, Joined(net.chunks));
      var h := ParseHeader(rx);
      if h.None? {
        return Bad(BadHeader);
      }
      if !ValidContentType(h.value.contentType) {
        return Bad(BadContentType(h.value.contentType));
      }
      r := ReadBody(h.value);
    }

    /** Whether an alert ends the connection. */
    method HandleAlert(body: seq<byte>) returns (r: Option<Error>)
      requires Valid()
      modifies this`eof
      ensures Valid() && Stream() == old(Stream())
      ensures r == AlertError(body)
      ensures eof == (old(eof) || (r.Some? && EndsStream(r.value)))
    {
      if |body| != 2 {
        return Some(BadAlert);
      }
      if body[1] == 0 {
        eof := true;
        return Some(CloseNotified);
      }
      if body[0] == 2 {
        return Some(FatalAlert(body[1]));
      }
      return None;
    }

    /** Keeps handshake data until there is a whole message. */
    method Hold(data: seq<byte>)
      requires Valid()
      modifies this`hs
      ensures Valid() && Stream() == old(Stream()) && hs == old(hs) + data
    {
      hs := hs + data;
    }

    method Release(n: nat) returns (m: seq<byte>)
      requires Valid() && n <= |hs|
      modifies this`hs
      ensures Valid() && Stream() == old(Stream()) && m == old(hs)[..n] && hs == old(hs)[n..]
    {
      m := hs[..n];
      hs := hs[n..];
    }

    /** The next whole handshake message, put together from as many records as it takes. */
    method NextHandshake() returns (r: Result<seq<byte>>)
      requires Valid()
      modifies this`rx, this`hs, this`eof, net`chunks, rec.read.repr
      ensures Valid() && rec.read.repr == old(rec.read.repr)
      ensures match NextMessage(rec.read.h, old(hs), old(Stream()))
        case Nothing(e) => r == Err(e) && eof == (old(eof) || EndsStream(e))
        case Got(m, pending, rest) => r == Ok(m) && hs == pending && Stream() == rest && eof == old(eof)
    {
      hide ReadRecord, Layer.RecordLayer.Valid, Joined;
      ghost var due := NextMessage(rec.read.h, hs, Stream());
      while true
        invariant Valid() && rec.read.repr == old(rec.read.repr) && eof == old(eof)
        invariant NextMessage(rec.read.h, hs, Stream()) == due
        decreases |Stream().bytes|
      {
        var n := MessageLength(hs);
        if n.Some? {
          var m := Release(n.value);
          return Ok(m);
        }
        var record := ReadNext();
        match record {
          case Bad(e) => return Err(e);
          case Whole(header, plain) =>
            if header.contentType == ALERT {
              var e := HandleAlert(plain);
              if e.Some? {
                return Err(e.value);
              }
            } else if header.contentType != HANDSHAKE {
              return Err(UnexpectedRecord(header.contentType));
            } else {
              Hold(plain);
            }
        }
      }
    }

    method ExpectChangeCipherSpec() returns (r: Option<Error>)
      requires Valid()
      modifies this`rx, this`eof, net`chunks, rec.read.repr
      ensures Valid() && rec.read.repr == old(rec.read.repr)
      ensures match NextCipherSpec(rec.read.h, hs, old(Stream()))
        case NotSwitched(e) => r == Some(e) && eof == (old(eof) || EndsStream(e))
        case Switched(rest) => r == None && Stream() == rest && eof == old(eof)
    {
      hide ReadRecord, Layer.RecordLayer.Valid, Joined;
      if hs != [] {
        return Some(HandshakePending);
      }
      ghost var due := NextCipherSpec(rec.read.h, hs, Stream());
      while true
        invariant Valid() && rec.read.repr == old(rec.read.repr) && eof == old(eof)
        invariant NextCipherSpec(rec.read.h, hs, Stream()) == due
        decreases |Stream().bytes|
      {
        var record := ReadNext();
        match record {
          case Bad(e) => return Some(e);
          case Whole(header, plain) =>
            if header.contentType == ALERT {
              var e := HandleAlert(plain);
              if e.Some? {
                return e;
              }
            } else if header.contentType != CHANGE_CIPHER_SPEC {
              return Some(UnexpectedRecord(header.contentType));
            } else if |plain| != 1 || plain[0] != 1 {
              return Some(BadCipherSpec);
            } else {
              return None;
            }
        }
      }
    }

    /** The next application data. `ended` tells an orderly end from a failure. */
    method Recv() returns (r: Result<seq<byte>>, ended: bool)
      requires Valid()
      modifies this`rx, this`eof, net`chunks, rec.read.repr
      ensures Valid() && rec.read.repr == old(rec.read.repr)
      ensures match NextData(rec.read.h, old(Stream()))
        case NewData(data, rest) => r == Ok(data) && Stream() == rest && eof == old(eof)
        case NoData(e) => r == Err(e) && eof == (old(eof) || EndsStream(e))
      ensures ended <==> r.Err? && !r.error.UnexpectedRecord? && eof
    {
      hide ReadRecord, Layer.RecordLayer.Valid, Joined;
      ghost var due := NextData(rec.read.h, Stream());
      while true
        invariant Valid() && rec.read.repr == old(rec.read.repr) && eof == old(eof)
        invariant NextData(rec.read.h, Stream()) == due
        decreases |Stream().bytes|
      {
        var record := ReadNext();
        match record {
          case Bad(e) =>
            return Err(e), eof;
          case Whole(header, plain) =>
            if header.contentType == APPLICATION_DATA {
              return Ok(plain), false;
            }
            if header.contentType != ALERT {
              return Err(UnexpectedRecord(header.contentType)), false;
            }
            var e := HandleAlert(plain);
            if e.Some? {
              return Err(e.value), eof;
            }
        }
      }
    }

    // ---- new keys ----

    method EnableWriteCipher(macKey: seq<byte>, encKey: seq<byte>)
      requires Valid()
      modifies this`repr, rec.write.repr
      ensures Valid() && fresh(repr - old(repr)) && fresh(rec.write.repr - old(rec.write.repr))
      ensures Writer() == Direction(true, macKey, Keyed(encKey), 0, 0) && Stream() == old(Stream())
    {
      rec.EnableWriteCipher(macKey, encKey);
      repr := repr + rec.write.repr;
    }

    method EnableReadCipher(macKey: seq<byte>, encKey: seq<byte>)
      requires Valid()
      modifies this`repr, rec.read.repr
      ensures Valid() && fresh(repr - old(repr)) && fresh(rec.read.repr - old(rec.read.repr))
      ensures Stream() == old(Stream()).(read := Direction(true, macKey, Keyed(encKey), 0, 0))
      ensures Writer() == old(Writer())
    {
      rec.EnableReadCipher(macKey, encKey);
      repr := repr + rec.read.repr;
    }

    // ---- sending ----

    /** One record, if it is not too long and the transport takes it. */
    method SendRecord(t: byte, data: seq<byte>) returns (r: SendResult)
      requires Valid()
      modifies net`sent, net`writes, rec.write.repr
      ensures Valid() && rec.write.repr == old(rec.write.repr) && Stream() == old(Stream())
      ensures match ProtectOf(rec.write.h, old(Writer()), t, rec.version, data)
        case None =>
          r == TooLong && Writer() == old(Writer()) && net.sent == old(net.sent) && net.writes == old(net.writes)
        case Some((d, record)) =>
          Writer() == d && Wrote(r, record, old(net.sent), net.sent, old(net.writes), net.writes)
    {
      var record := rec.Protect(t, data);
      if record.None? {
        return TooLong;
      }
      var ok := net.SendAll(record.value);
      return if ok then Sent else WriteFailed;
    }

    /** Application data of any length, in records that are not too long. */
    method Send(data: seq<byte>) returns (r: SendResult)
      requires Valid()
      modifies net`sent, net`writes, rec.write.repr
      ensures Valid() && rec.write.repr == old(rec.write.repr) && Stream() == old(Stream())
      ensures var (d, records) := ProtectAll(rec.write.h, old(Writer()), rec.version, Fragments(data));
        if |records| <= old(net.writes) then
          r == Sent && Writer() == d && net.sent == old(net.sent) + records && net.writes == old(net.writes) - |records|
        else r == WriteFailed && net.sent == old(net.sent) + records[..old(net.writes)] && net.writes == 0
    {
      var left := data;
      ghost var before, all := net.sent, ProtectAll(rec.write.h, Writer(), rec.version, Fragments(data));
      ghost var done: seq<seq<byte>> := [];
      AppendNil(before);
      AppendNil(all.1);
      while left != []
        invariant Valid() && rec.write.repr == old(rec.write.repr) && Stream() == old(Stream())
        invariant net.sent == before + done && net.writes + |done| == old(net.writes)
        invariant var rest := ProtectAll(rec.write.h, Writer(), rec.version, Fragments(left));
          all == (rest.0, done + rest.1)
        decreases |left|
      {
        var n := if |left| < MAX_PLAINTEXT then |left| else MAX_PLAINTEXT;
        ghost var rest := ProtectAll(rec.write.h, Writer(), rec.version, Fragments(left));
        r := SendRecord(APPLICATION_DATA, left[..n]);
        if r != Sent {
          assert all.1[..|done|] == done;
          return;
        }
        Assoc(before, done, [rest.1[0]]);
        Assoc(done, [rest.1[0]], rest.1[1..]);
        done := done + [rest.1[0]];
        left := left[n..];
      }
      AppendNil(done);
      return Sent;
    }

    /** Says goodbye once there are keys; nobody asks whether that succeeds. */
    method Close()
      requires Valid()
      modifies net`sent, net`writes, rec.write.repr
      ensures Valid() && Stream() == old(Stream())
      ensures net.sent == old(net.sent) + Goodbye(rec.write.h, old(Writer()), rec.version, old(net.writes))
    {
      AppendNil(net.sent);
      if rec.write.active {
        var r := SendRecord(ALERT, CLOSE_NOTIFY);
      }
    }
  }

  // ---- what is sent is what is received ----

  /** The data of every record until reading fails. */
  function ReceiveAll(h: Alg, i: Incoming): seq<seq<byte>>
    requires DirectionOk(i.read)
    decreases |i.bytes|
  {
    match NextData(h, i)
    case NoData(e) => []
    case NewData(data, rest) => [data] + ReceiveAll(h, rest)
  }

  /** Any amount of data sent in any number of calls arrives whole and in order, whatever comes in between on the
      wire being only the records themselves. */
  lemma {:induction false} ReceivesWhatWasSent(h: Alg, d: Direction, version: word16, frags: seq<seq<byte>>, end: End)
    requires AlgOk(h) && DirectionOk(d) && DigestSize(h) <= 2048
    requires AllShort(frags)
    ensures ReceiveAll(h, Incoming(Joined(ProtectAll(h, d, version, frags).1), end, d)) == frags
    decreases |frags|
  {
    if frags != [] {
      var (d', record) := ProtectOf(h, d, APPLICATION_DATA, version, frags[0]).value;
      SealKeepsBox(h, d, APPLICATION_DATA, version, frags[0]);
      var more := ProtectAll(h, d', version, frags[1..]).1;
      ReadsProtected(h, d, APPLICATION_DATA, version, frags[0], Joined(more), end);
      ReceivesWhatWasSent(h, d', version, frags[1..], end);
      assert ProtectAll(h, d, version, frags).1 == [record] + more;
      assert frags == [frags[0]] + frags[1..];
    }
  }

  predicate AllShort(frags: seq<seq<byte>>) {
    forall k :: 0 <= k < |frags| ==> |frags[k]| <= MAX_PLAINTEXT
  }

  lemma {:induction false} ProtectAllAppend(h: Alg, d: Direction, version: word16, a: seq<seq<byte>>, b: seq<seq<byte>>)
    requires DirectionOk(d) && AllShort(a) && AllShort(b)
    ensures var (d1, first) := ProtectAll(h, d, version, a);
      && DirectionOk(d1)
      && var (d2, second) := ProtectAll(h, d1, version, b);
         ProtectAll(h, d, version, a + b) == (d2, first + second)
    decreases |a|
  {
    if a == [] {
      AppendNil(b);
      AppendNil(ProtectAll(h, d, version, b).1);
    } else {
      var (d', record) := ProtectOf(h, d, APPLICATION_DATA, version, a[0]).value;
      SealKeepsBox(h, d, APPLICATION_DATA, version, a[0]);
      ProtectAllAppend(h, d', version, a[1..], b);
      assert (a + b)[0] == a[0] && (a + b)[1..] == a[1..] + b;
      var (d1, first) := ProtectAll(h, d', version, a[1..]);
      Assoc([record], first, ProtectAll(h, d1, version, b).1);
    }
  }

  /** The records of a whole conversation in one direction, one call of `Send` after the other. */
  function SendEach(h: Alg, d: Direction, version: word16, datas: seq<seq<byte>>): seq<seq<byte>>
    requires DirectionOk(d)
    decreases |datas|
  {
    if datas == [] then []
    else
      var (d', records) := ProtectAll(h, d, version, Fragments(datas[0]));
      records + SendEach(h, d', version, datas[1..])
  }

  function AllFragments(datas: seq<seq<byte>>): seq<seq<byte>> {
    if datas == [] then [] else Fragments(datas[0]) + AllFragments(datas[1..])
  }

  lemma {:induction false} JoinedAppend(a: seq<seq<byte>>, b: seq<seq<byte>>)
    ensures Joined(a + b) == Joined(a) + Joined(b)
  {
    if a == [] {
      AppendNil(b);
    } else {
      JoinedAppend(a[1..], b);
      assert (a + b)[0] == a[0] && (a + b)[1..] == a[1..] + b;
    }
  }

  lemma {:induction false} AllFragmentsCover(datas: seq<seq<byte>>)
    ensures Joined(AllFragments(datas)) == Joined(datas) && AllShort(AllFragments(datas))
  {
    if datas != [] {
      FragmentsCover(datas[0]);
      AllFragmentsCover(datas[1..]);
      JoinedAppend(Fragments(datas[0]), AllFragments(datas[1..]));
    }
  }

  lemma {:induction false} SendEachIsOneRun(h: Alg, d: Direction, version: word16, datas: seq<seq<byte>>)
    requires DirectionOk(d)
    ensures SendEach(h, d, version, datas) == ProtectAll(h, d, version, AllFragments(datas)).1
    decreases |datas|
  {
    if datas != [] {
      FragmentsCover(datas[0]);
      AllFragmentsCover(datas[1..]);
      ProtectAllAppend(h, d, version, Fragments(datas[0]), AllFragments(datas[1..]));
      SendEachIsOneRun(h, ProtectAll(h, d, version, Fragments(datas[0])).0, version, datas[1..]);
    }
  }

  /** However much is sent in however many calls, a reader that starts in the writer's state gets exactly that
      data, in order. */
  lemma Conversation(h: Alg, d: Direction, version: word16, datas: seq<seq<byte>>, end: End)
    requires AlgOk(h) && DirectionOk(d) && DigestSize(h) <= 2048
    ensures Joined(ReceiveAll(h, Incoming(Joined(SendEach(h, d, version, datas)), end, d))) == Joined(datas)
  {
    AllFragmentsCover(datas);
    SendEachIsOneRun(h, d, version, datas);
    ReceivesWhatWasSent(h, d, version, AllFragments(datas), end);
  }
}
