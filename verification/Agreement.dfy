/** When a handshake succeeds: only on a run in which both sides saw the same messages, and always against a server
    that plays its part, however it frames what it sends. */
module Agreement {
  import opened BitOps
  import opened Channel
  import opened Der
  import opened Framing
  import opened Handshake
  import opened Hash
  import opened Negotiation
  import opened Options
  import opened Prf
  import opened Record
  import opened Rsa
  import opened Seqs

  // ---- only if ----

  /** ServerHelloDone, after any number of certificate requests. */
  predicate EndsFlight(ms: seq<seq<byte>>) {
    && ms != []
    && (forall k :: 0 <= k < |ms| ==> ms[k] != [])
    && ms[|ms| - 1][0] == SERVER_HELLO_DONE
    && forall k :: 0 <= k < |ms| - 1 ==> ms[k][0] == CERTIFICATE_REQUEST
  }

  /** What the last step of the server's flight took are the next messages of the stream. */
  lemma {:induction false} OptionalDelivers(h: Alg, p: seq<byte>, i: Incoming) returns (ms: seq<seq<byte>>)
    requires DirectionOk(i.read) && OptionalStep(h, p, i).Done?
    ensures var s := OptionalStep(h, p, i);
      && EndsFlight(ms) && Joined(ms) == s.absorbed && (s.value <==> |ms| > 1)
      && Deliver(h, p, i) == ms + Deliver(h, s.pending, s.rest)
    decreases |i.bytes|, |p|
  {
    DeliverIsRepeated(h, p, i);
    var got := NextMessage(h, p, i);
    var m := got.message;
    if m[0] == SERVER_HELLO_DONE {
      ms := [m];
      AppendNil(m);
      assert Joined(ms) == m + Joined([]);
    } else {
      var rest := OptionalDelivers(h, got.pending, got.rest);
      ms := [m] + rest;
      assert ms[1..] == rest;
      var s := OptionalStep(h, p, i);
      Assoc([m], rest, Deliver(h, s.pending, s.rest));
    }
  }

  /** No handshake message is left before a ChangeCipherSpec that is accepted. */
  lemma {:induction false} SwitchEndsDelivery(h: Alg, i: Incoming)
    requires DirectionOk(i.read) && NextCipherSpec(h, [], i).Switched?
    ensures Deliver(h, [], i) == []
    decreases |i.bytes|
  {
    var r := ReadRecord(h, i);
    if r.header.contentType == ALERT {
      SwitchEndsDelivery(h, r.rest);
    }
  }

  lemma HelloDelivers(h: Alg, offered: word16, p: seq<byte>, i: Incoming)
    requires DirectionOk(i.read) && HelloStep(h, offered, p, i).Done?
    ensures var s := HelloStep(h, offered, p, i);
      && Deliver(h, p, i) == [s.absorbed] + Deliver(h, s.pending, s.rest)
      && IsMessage(s.absorbed) && s.absorbed[0] == SERVER_HELLO
      && CheckHello(offered, Body(s.absorbed)).0 == Some(s.value)
  {
    hide NextMessage, CheckHello, Deliver;
    DeliverIsRepeated(h, p, i);
  }

  lemma CertificateDelivers(h: Alg, p: seq<byte>, i: Incoming)
    requires DirectionOk(i.read) && CertificateStep(h, p, i).Done?
    ensures var s := CertificateStep(h, p, i);
      && Deliver(h, p, i) == [s.absorbed] + Deliver(h, s.pending, s.rest)
      && IsMessage(s.absorbed) && s.absorbed[0] == CERTIFICATE
      && CheckCertificates(Body(s.absorbed)).0 == Some(s.value)
  {
    hide NextMessage, CheckCertificates, Deliver;
    DeliverIsRepeated(h, p, i);
  }

  lemma TwoAndMore<T>(a: T, b: T, rest: seq<T>, after: seq<T>)
    ensures [a] + ([b] + (rest + after)) == ([a, b] + rest) + after
  {
  }

  lemma JoinedTwo(a: seq<byte>, b: seq<byte>, rest: seq<seq<byte>>)
    ensures Joined([a, b] + rest) == a + b + Joined(rest)
  {
    var ms := [a, b] + rest;
    assert ms[1..] == [b] + rest && ms[1..][1..] == rest;
    Assoc(a, b, Joined(rest));
  }

  /** The first flight of a server as the client needs it. */
  ghost predicate GoodFlight(offered: word16, ms: seq<seq<byte>>, f: Flight) {
    && |ms| >= 3
    && IsMessage(ms[0]) && ms[0][0] == SERVER_HELLO && CheckHello(offered, Body(ms[0])).0 == Some(f.hello)
    && IsMessage(ms[1]) && ms[1][0] == CERTIFICATE && CheckCertificates(Body(ms[1])).0 == Some((f.leaf, f.key))
    && EndsFlight(ms[2..])
    && (f.requested <==> |ms| > 3)
  }

  lemma FlightDelivers(h: Alg, offered: word16, i: Incoming) returns (ms: seq<seq<byte>>)
    requires DirectionOk(i.read) && ServerFlight(h, offered, i).Done?
    ensures var s := ServerFlight(h, offered, i);
      && GoodFlight(offered, ms, s.value) && Joined(ms) == s.absorbed
      && Deliver(h, [], i) == ms + Deliver(h, s.pending, s.rest)
  {
    hide NextMessage, CheckHello, CheckCertificates, HelloStep, CertificateStep, OptionalStep, Joined, EndsFlight,
      Deliver;
    var a := HelloStep(h, offered, [], i);
    var b := CertificateStep(h, a.pending, a.rest);
    var c := OptionalStep(h, b.pending, b.rest);
    HelloDelivers(h, offered, [], i);
    CertificateDelivers(h, a.pending, a.rest);
    var rest := OptionalDelivers(h, b.pending, b.rest);
    ms := [a.absorbed, b.absorbed] + rest;
    assert ms[2..] == rest;
    JoinedTwo(a.absorbed, b.absorbed, rest);
    TwoAndMore(a.absorbed, b.absorbed, rest, Deliver(h, c.pending, c.rest));
    NotEmpty(rest);
  }

  lemma NotEmpty(ms: seq<seq<byte>>)
    ensures EndsFlight(ms) ==> ms != []
  {
  }

  /** Both sides have seen the same handshake: all the server said before ChangeCipherSpec, `ms`, between our
      ClientHello and our answer; our Finished covers that, and the server's covers our Finished as well. */
  ghost predicate Agreed(hs: Hashes, offered: word16, e: Entropy, ms: seq<seq<byte>>, f: Flight, r: Reply,
                         serverFinished: seq<byte>)
    requires HashesOk(hs) && EntropyOk(e)
  {
    var premaster := Premaster(offered, e.premasterTail);
    var c := EncryptedPremaster(f.key, premaster, e.padding);
    var master := MasterSecret(hs, premaster, e.clientRandom, f.hello.random);
    && c.Some? && r.keyExchange == ClientKeyExchange(c.value)
    && r.secrets.master == master
    && var said := HelloOf(offered, e) + Joined(ms) + Certified(f.requested) + r.keyExchange;
    && r.finished == Finished(hs, master, CLIENT_FINISHED, said)
    && IsMessage(serverFinished) && serverFinished[0] == FINISHED
    && Body(serverFinished) == VerifyData(hs, master, SERVER_FINISHED, said + r.finished)
  }

  lemma FinishMeans(hs: Hashes, r: Reply, pending: seq<byte>, i: Incoming)
    requires HashesOk(hs) && DirectionOk(i.read) && FinishStep(hs, r, pending, i).Done?
    ensures pending == [] && NextCipherSpec(hs.md5, [], i).Switched?
    ensures var m := FinishStep(hs, r, pending, i).absorbed;
      && Deliver(hs.md5, pending, i) == []
      && IsMessage(m) && m[0] == FINISHED
      && Body(m) == VerifyData(hs, r.secrets.master, SERVER_FINISHED, r.transcript)
  {
    hide VerifyData, NextMessage, Deliver, NextCipherSpec;
    SwitchEndsDelivery(hs.md5, i);
  }

  lemma ReplyMeans(hs: Hashes, offered: word16, e: Entropy, f: Flight, heard: seq<byte>)
    requires HashesOk(hs) && EntropyOk(e)
    ensures var r := ReplyTo(hs, offered, e, f, HelloOf(offered, e) + heard);
      var premaster := Premaster(offered, e.premasterTail);
      var c := EncryptedPremaster(f.key, premaster, e.padding);
      r.Some? ==>
        && c.Some? && r.value.keyExchange == ClientKeyExchange(c.value)
        && r.value.secrets.master == MasterSecret(hs, premaster, e.clientRandom, f.hello.random)
        && r.value.transcript ==
          HelloOf(offered, e) + heard + Certified(f.requested) + r.value.keyExchange + r.value.finished
        && r.value.finished == Finished(hs, r.value.secrets.master, CLIENT_FINISHED,
                                        HelloOf(offered, e) + heard + Certified(f.requested) + r.value.keyExchange)
  {
    hide EncryptedPremaster, Finished, MasterSecret, KeysOf, KeyBlock, ClientHello, Certified, ClientKeyExchange;
  }

  /** The client connects only on a run in which the version, the suite and the compression are the ones it asked
      for, the key comes from the server's certificate, ChangeCipherSpec arrived with no handshake data left over,
      and the server's Finished covers exactly ClientHello to the client's Finished, in wire order: the messages the
      stream delivers before ChangeCipherSpec, and no alert, ChangeCipherSpec or Finished of the server. */
  lemma ConnectedOnlyIf(hs: Hashes, offered: word16, e: Entropy, i: Incoming)
    requires HashesOk(hs) && EntropyOk(e) && DirectionOk(i.read) && Negotiate(hs, offered, e, i).Connected?
    ensures var s := ServerFlight(hs.md5, offered, i);
      && s.Done? && s.pending == [] && s.absorbed == Joined(Deliver(hs.md5, [], i))
      && NextCipherSpec(hs.md5, [], s.rest).Switched?
    ensures var o := Negotiate(hs, offered, e, i);
      var ms, f := Deliver(hs.md5, [], i), o.flight;
      && GoodFlight(offered, ms, f)
      && f.hello.version == offered && f.hello.suite == RSA_WITH_RC4_128_MD5 && f.hello.compression == 0
      && ParseCertificate(f.leaf) == Some(f.key) && ExactKey(f.key)
      && Agreed(hs, offered, e, ms, f, o.reply, o.serverFinished)
  {
    hide ServerFlight, ReplyTo, FinishStep, Joined, Deliver, EndsFlight, EncryptedPremaster, MasterSecret, Finished,
      VerifyData, HelloOf, Certified;
    var s := ServerFlight(hs.md5, offered, i);
    var ms := FlightDelivers(hs.md5, offered, i);
    ReplyMeans(hs, offered, e, s.value, s.absorbed);
    FinishMeans(hs, ReplyTo(hs, offered, e, s.value, HelloOf(offered, e) + s.absorbed).value, s.pending, s.rest);
    AppendNil(ms);
    CertificateKeyIsExact(s.value.leaf);
  }

  // ---- if ----

  predicate IsEmpty(p: Piece) {
    p.Data? && p.payload == []
  }

  /** No empty record comes after the last handshake data. */
  predicate Tidy(ps: seq<Piece>) {
    ps != [] ==> Tidy(ps[1..]) && (IsEmpty(ps[0]) ==> Payload(ps[1..]) != [])
  }

  /** Handshake records that a reader in this state can take. */
  ghost predicate Takes(h: Alg, ps: seq<Piece>, read: Direction) {
    PiecesOk(ps) && Readable(h, read)
  }

  /** A stream that starts with them. */
  function OnWire(h: Alg, ps: seq<Piece>, more: seq<byte>, end: End, read: Direction): Incoming
    requires PiecesOk(ps) && DirectionOk(read)
  {
    Incoming(Wire(h, read, ps).1 + more, end, read)
  }

  /** Some of the records have been read: the others still end in the same state. */
  ghost predicate Remains(h: Alg, ps: seq<Piece>, read: Direction, ps': seq<Piece>, read': Direction)
    requires Takes(h, ps, read)
  {
    && Takes(h, ps', read') && Wire(h, read', ps').0 == Wire(h, read, ps).0
    && (Tidy(ps') <==> Tidy(ps))
  }

  lemma FirstOnWire(h: Alg, pending: seq<byte>, ps: seq<Piece>, more: seq<byte>, end: End, read: Direction)
    returns (read': Direction)
    requires Takes(h, ps, read) && ps != [] && MessageLength(pending) == None
    ensures Takes(h, ps[1..], read') && Wire(h, read', ps[1..]).0 == Wire(h, read, ps).0
    ensures NextMessage(h, pending, OnWire(h, ps, more, end, read)) ==
      NextMessage(h, Absorb(pending, ps[0]), OnWire(h, ps[1..], more, end, read'))
  {
    hide ReadRecord, PieceRecord;
    var (next, record) := PieceRecord(h, read, ps[0]);
    read' := next;
    var records := Wire(h, next, ps[1..]).1;
    ReadPiece(h, ps[0], records + more, end, read);
    Assoc(record, records, more);
  }

  /** While a message is incomplete there is more data to come. */
  lemma StillTidy(pending: seq<byte>, ps: seq<Piece>, m: seq<byte>, left: seq<byte>)
    requires IsMessage(m) && MessageLength(pending) == None && pending + Payload(ps) == m + left && ps != []
    ensures Tidy(ps) <==> Tidy(ps[1..])
  {
    if Payload(ps) == [] {
      AppendNil(pending);
      MessageStable(m, left);
      assert false;
    }
    if IsEmpty(ps[0]) {
      AppendNil(Payload(ps[1..]));
    }
  }

  /** The next message comes out whole, and the rest of the data stays as it was. */
  lemma {:induction false} NextOnWire(h: Alg, pending: seq<byte>, ps: seq<Piece>, more: seq<byte>, end: End,
                                      read: Direction, m: seq<byte>, left: seq<byte>)
    returns (pending': seq<byte>, ps': seq<Piece>, read': Direction)
    requires Takes(h, ps, read) && IsMessage(m) && pending + Payload(ps) == m + left
    ensures Remains(h, ps, read, ps', read') && pending' + Payload(ps') == left
    ensures NextMessage(h, pending, OnWire(h, ps, more, end, read)) ==
      Got(m, pending', OnWire(h, ps', more, end, read'))
    decreases |ps|
  {
    hide ReadRecord, PieceRecord, Tidy;
    MessageStable(m, left);
    if MessageLength(pending).Some? {
      MessageStable(pending, Payload(ps));
      pending', ps', read' := pending[|m|..], ps, read;
      assert pending[..|m|] == (pending + Payload(ps))[..|m|] == m;
      assert pending' + Payload(ps) == (pending + Payload(ps))[|m|..] == left;
    } else if ps == [] {
      AppendNil(pending);
      assert false;
    } else {
      var read1 := FirstOnWire(h, pending, ps, more, end, read);
      StillTidy(pending, ps, m, left);
      AbsorbPayload(pending, ps);
      pending', ps', read' := NextOnWire(h, Absorb(pending, ps[0]), ps[1..], more, end, read1, m, left);
    }
  }

  lemma {:induction false} OptionalOnWire(h: Alg, pending: seq<byte>, ps: seq<Piece>, more: seq<byte>, end: End,
                                          read: Direction, ms: seq<seq<byte>>)
    returns (ps': seq<Piece>, read': Direction)
    requires Takes(h, ps, read) && EndsFlight(ms) && AllMessages(ms) && pending + Payload(ps) == Joined(ms)
    ensures Remains(h, ps, read, ps', read') && Payload(ps') == []
    ensures OptionalStep(h, pending, OnWire(h, ps, more, end, read)) ==
      Done(|ms| > 1, Joined(ms), [], OnWire(h, ps', more, end, read'))
    decreases |ms|
  {
    hide NextMessage, Payload, Wire, Tidy;
    var pending';
    pending', ps', read' := NextOnWire(h, pending, ps, more, end, read, ms[0], Joined(ms[1..]));
    if |ms| == 1 {
      assert Joined(ms[1..]) == [];
      AppendNil(ms[0]);
    } else {
      assert ms[0][0] == CERTIFICATE_REQUEST;
      ps', read' := OptionalOnWire(h, pending', ps', more, end, read', ms[1..]);
    }
  }

  predicate AllMessages(ms: seq<seq<byte>>) {
    forall k :: 0 <= k < |ms| ==> IsMessage(ms[k])
  }

  lemma NoPayload(ps: seq<Piece>)
    requires ps != [] && Payload(ps) == []
    ensures Payload(ps[1..]) == [] && (ps[0].Data? ==> IsEmpty(ps[0]) && !Tidy(ps))
    ensures ps[0].Warning? ==> (Tidy(ps) <==> Tidy(ps[1..]))
  {
  }

  /** With all handshake data read, what comes next is skipped as far as it is warnings. An empty handshake record is
      not one. */
  lemma ReadLeftOver(h: Alg, ps: seq<Piece>, more: seq<byte>, end: End, read: Direction) returns (read': Direction)
    requires Takes(h, ps, read) && Payload(ps) == [] && ps != []
    ensures Payload(ps[1..]) == [] && Takes(h, ps[1..], read')
    ensures Wire(h, read', ps[1..]).0 == Wire(h, read, ps).0
    ensures var r := ReadRecord(h, OnWire(h, ps, more, end, read));
      && r.Record?
      && if ps[0].Warning? then
           && r.header.contentType == ALERT && AlertError(r.plain) == None
           && r.rest == OnWire(h, ps[1..], more, end, read') && (Tidy(ps) <==> Tidy(ps[1..]))
         else r.header.contentType == HANDSHAKE && !Tidy(ps)
  {
    hide ReadRecord, PieceRecord;
    var (next, record) := PieceRecord(h, read, ps[0]);
    read' := next;
    var records := Wire(h, next, ps[1..]).1;
    ReadPiece(h, ps[0], records + more, end, read);
    Assoc(record, records, more);
    NoPayload(ps);
  }

  function SwitchRecord(version: word16): seq<byte> {
    HeaderBytes(CHANGE_CIPHER_SPEC, version, 1) + [1]
  }

  lemma SwitchesAtOnce(h: Alg, version: word16, more: seq<byte>, end: End, read: Direction)
    requires DirectionOk(read) && !read.active
    ensures NextCipherSpec(h, [], Incoming(SwitchRecord(version) + more, end, read)) ==
      Switched(Incoming(more, end, read.(number := read.number + 1)))
  {
    hide ReadRecord;
    ReadsProtected(h, read, CHANGE_CIPHER_SPEC, version, [1], more, end);
  }

  /** ChangeCipherSpec must come straight after the flight, but for warnings. */
  lemma {:induction false} SwitchOnWire(h: Alg, ps: seq<Piece>, version: word16, more: seq<byte>, end: End,
                                        read: Direction)
    returns (read': Direction)
    requires Takes(h, ps, read) && !read.active && Payload(ps) == []
    ensures NextCipherSpec(h, [], OnWire(h, ps, SwitchRecord(version) + more, end, read)) ==
      if Tidy(ps) then Switched(Incoming(more, end, read')) else NotSwitched(UnexpectedRecord(HANDSHAKE))
    decreases |ps|
  {
    hide ReadRecord, SwitchRecord;
    if ps == [] {
      read' := read.(number := read.number + 1);
      AppendNil(SwitchRecord(version) + more);
      SwitchesAtOnce(h, version, more, end, read);
    } else {
      var read1 := ReadLeftOver(h, ps, SwitchRecord(version) + more, end, read);
      read' := SwitchOnWire(h, ps[1..], version, more, end, read1);
    }
  }

  lemma FlightOnWire(h: Alg, offered: word16, ps: seq<Piece>, more: seq<byte>, end: End, read: Direction,
                     ms: seq<seq<byte>>, f: Flight)
    returns (ps': seq<Piece>, read': Direction)
    requires Takes(h, ps, read) && GoodFlight(offered, ms, f) && AllMessages(ms) && Payload(ps) == Joined(ms)
    ensures Remains(h, ps, read, ps', read') && Payload(ps') == []
    ensures ServerFlight(h, offered, OnWire(h, ps, more, end, read)) ==
      Done(f, Joined(ms), [], OnWire(h, ps', more, end, read'))
  {
    hide NextMessage, Payload, Wire, Tidy, CheckHello, CheckCertificates, Joined, EndsFlight, OptionalStep, OnWire;
    var rest := ms[2..];
    assert ms == [ms[0], ms[1]] + rest;
    JoinedTwo(ms[0], ms[1], rest);
    Assoc(ms[0], ms[1], Joined(rest));
    AppendNil(Payload(ps));
    var pending, ps1, read1 := NextOnWire(h, [], ps, more, end, read, ms[0], ms[1] + Joined(rest));
    var pending2, ps2, read2 := NextOnWire(h, pending, ps1, more, end, read1, ms[1], Joined(rest));
    ps', read' := OptionalOnWire(h, pending2, ps2, more, end, read2, rest);
  }

  lemma CertifiedKeyIsUsable(offered: word16, ms: seq<seq<byte>>, f: Flight)
    requires GoodFlight(offered, ms, f)
    ensures ExactKey(f.key)
  {
    CertificateKeyIsExact(f.leaf);
  }

  /** The server's Finished message over everything up to the client's. */
  function AnswerTo(hs: Hashes, r: Reply): seq<byte>
    requires HashesOk(hs)
  {
    Finished(hs, r.secrets.master, SERVER_FINISHED, r.transcript)
  }

  /** The records that follow ours carry that message. */
  ghost predicate Concludes(hs: Hashes, r: Option<Reply>, qs: seq<Piece>)
    requires HashesOk(hs)
  {
    PiecesOk(qs) && (r.Some? ==> Payload(qs) == AnswerTo(hs, r.value))
  }

  /** ChangeCipherSpec, records under the server's new keys, and whatever follows them. */
  function LastFlight(hs: Hashes, r: Reply, v: word16, qs: seq<Piece>, more: seq<byte>): seq<byte>
    requires HashesOk(hs) && PiecesOk(qs)
  {
    SwitchRecord(v) + (Wire(hs.md5, ReadKeys(r.secrets.keys), qs).1 + more)
  }

  lemma FinishOnWire(hs: Hashes, r: Reply, ps: seq<Piece>, v: word16, qs: seq<Piece>, more: seq<byte>, end: End,
                     read: Direction)
    returns (qs': seq<Piece>, read': Direction)
    requires HashesOk(hs) && Takes(hs.md5, ps, read) && !read.active && Payload(ps) == []
    requires Concludes(hs, Some(r), qs)
    ensures Takes(hs.md5, qs, ReadKeys(r.secrets.keys))
    ensures Remains(hs.md5, qs, ReadKeys(r.secrets.keys), qs', read') && Payload(qs') == []
    ensures FinishStep(hs, r, [], OnWire(hs.md5, ps, LastFlight(hs, r, v, qs, more), end, read)) ==
      if Tidy(ps) then Done((), AnswerTo(hs, r), [], OnWire(hs.md5, qs', more, end, read'))
      else Stop(Reading(UnexpectedRecord(HANDSHAKE)))
  {
    hide NextMessage, NextCipherSpec, Payload, Wire, Tidy, VerifyData, SwitchRecord;
    var keys, m := ReadKeys(r.secrets.keys), AnswerTo(hs, r);
    FrameRoundTrip(FINISHED, VerifyData(hs, r.secrets.master, SERVER_FINISHED, r.transcript), []);
    AppendNil(m);
    AppendNil(Payload(qs));
    var pending;
    pending, qs', read' := NextOnWire(hs.md5, [], qs, more, end, keys, m, []);
    var switched := SwitchOnWire(hs.md5, ps, v, Wire(hs.md5, keys, qs).1 + more, end, read);
  }

  /** The client connects to a server that plays its part, however that server divides both its flights into records
      and whatever warnings it puts between them, exactly when no empty record is left over at the end of the first.
      Of the second only what comes after the Finished message is still to be read. */
  lemma ConnectsToGoodServer(hs: Hashes, offered: word16, e: Entropy, ps: seq<Piece>, v: word16, qs: seq<Piece>,
                             more: seq<byte>, end: End, read: Direction, ms: seq<seq<byte>>, f: Flight)
    returns (qs': seq<Piece>, read': Direction)
    requires HashesOk(hs) && EntropyOk(e) && Takes(hs.md5, ps, read) && !read.active
    requires GoodFlight(offered, ms, f) && AllMessages(ms) && Payload(ps) == Joined(ms)
    requires Concludes(hs, ReplyTo(hs, offered, e, f, HelloOf(offered, e) + Joined(ms)), qs)
    ensures var r := ReplyTo(hs, offered, e, f, HelloOf(offered, e) + Joined(ms));
      && r.Some?
      && Takes(hs.md5, qs, ReadKeys(r.value.secrets.keys))
      && Remains(hs.md5, qs, ReadKeys(r.value.secrets.keys), qs', read') && Payload(qs') == []
      && Negotiate(hs, offered, e, OnWire(hs.md5, ps, LastFlight(hs, r.value, v, qs, more), end, read)) ==
        if Tidy(ps) then
          Connected(f, r.value, Joined(ms), AnswerTo(hs, r.value), OnWire(hs.md5, qs', more, end, read'))
        else Failed(Reading(UnexpectedRecord(HANDSHAKE)))
  {
    hide ServerFlight, FinishStep, Payload, Wire, Tidy, AnswerTo, LastFlight, Joined, SecretsOf, Finished, HelloOf,
      OnWire;
    CertifiedKeyIsUsable(offered, ms, f);
    var r := ReplyTo(hs, offered, e, f, HelloOf(offered, e) + Joined(ms)).value;
    var ps', read1 := FlightOnWire(hs.md5, offered, ps, LastFlight(hs, r, v, qs, more), end, read, ms, f);
    qs', read' := FinishOnWire(hs, r, ps', v, qs, more, end, read1);
  }
}
