/** Servers that play their part, described by what they encode and not by what the client accepts. */
module GoodServer {
  import opened Agreement
  import opened BigIntBytes
  import opened BitOps
  import opened Der
  import opened Framing
  import opened Handshake
  import opened Hash
  import opened Limbs
  import opened Negotiation
  import opened Options
  import opened Prf
  import opened Record
  import opened Rsa
  import opened Seqs

  /** Everything in a handshake message is shorter than this. */
  const MAX_MESSAGE: nat := 0x100_0000

  // ---- the certificate ----

  /** The parts of a certificate that are free: fields before the key, algorithm parameters, both integers of the key
      in any big-endian form, and what follows the key, the signed part and the whole. */
  datatype Certificate = Certificate(fields: seq<(byte, seq<byte>)>, params: seq<byte>, modulus: seq<byte>,
                                     exponent: seq<byte>, after: seq<byte>, signature: seq<byte>, trailing: seq<byte>)

  predicate Short(s: seq<byte>) {
    |s| < MAX_MESSAGE
  }

  ghost predicate CertificateOk(c: Certificate) {
    && Fields(c.fields) && Short(EncodeAll(c.fields))
    && Short(c.params) && Short(c.modulus) && Short(c.exponent)
    && Short(c.after) && Short(c.signature) && Short(c.trailing)
  }

  function Spki(c: Certificate): (r: seq<byte>)
    requires Short(c.params) && Short(c.modulus) && Short(c.exponent)
    ensures |r| < 4 * MAX_MESSAGE
  {
    Encode(SEQUENCE, Encode(OID, RSA_ENCRYPTION) + c.params) + Encode(BIT_STRING, RsaBits(c.modulus, c.exponent))
  }

  ghost function CertificateBytes(c: Certificate): (r: seq<byte>)
    requires CertificateOk(c)
  {
    var tbs := EncodeAll(c.fields) + (Encode(SEQUENCE, Spki(c)) + c.after);
    Encode(SEQUENCE, Encode(SEQUENCE, tbs) + c.signature) + c.trailing
  }

  /** Leading zeros apart, a number has only one big-endian form. */
  lemma TrimmedLength(s: seq<byte>, k: nat)
    requires k > 0 && Bytes(k - 1) <= BigEndian(s) < Bytes(k)
    ensures |Trim(s)| == k
  {
    var t := Trim(s);
    TrimValue(s);
    BigEndianBound(t);
    if |t| < k {
      BytesMono(|t|, k - 1);
    } else if |t| > k {
      LeadingByte(t);
      BytesMono(k, |t| - 1);
    }
  }

  lemma TrimmedBound(s: seq<byte>, k: nat)
    requires k > 0 && 0 < BigEndian(s) < Bytes(k)
    ensures 0 < |Trim(s)| <= k
  {
    var t := Trim(s);
    TrimValue(s);
    if |t| > k {
      LeadingByte(t);
      BytesMono(k, |t| - 1);
    }
  }

  /** Every usable key is recovered from its two integers. */
  lemma KeyRoundTrip(key: Key, nb: seq<byte>, eb: seq<byte>)
    requires ExactKey(key) && BigEndian(nb) == key.n && BigEndian(eb) == key.e
    ensures KeyOf(nb, eb) == Some(key)
  {
    BytesUpToFour();
    TrimmedLength(nb, key.k);
    TrimmedBound(eb, 4);
    TrimValue(nb);
    TrimValue(eb);
  }

  lemma CertificateYieldsKey(c: Certificate, key: Key)
    requires CertificateOk(c) && ExactKey(key) && BigEndian(c.modulus) == key.n && BigEndian(c.exponent) == key.e
    ensures ParseCertificate(CertificateBytes(c)) == Some(key)
  {
    hide Encode, EncodeAll, Parse, ParseSpki, ParseCertificate, KeyOf, RsaBits;
    KeyRoundTrip(key, c.modulus, c.exponent);
    SpkiRoundTrip(RSA_ENCRYPTION, c.params, c.modulus, c.exponent);
    CertificateRoundTrip(c.fields, Spki(c), c.after, c.signature, c.trailing);
  }

  // ---- the flight ----

  /** The parts of a first flight that are free: the hello and its extensions, the certificate and any others after it,
      the bodies of any number of certificate requests, and that of ServerHelloDone. */
  datatype Server = Server(hello: ServerHelloBody, extensions: seq<byte>, certificate: Certificate,
                           chain: seq<seq<byte>>, listTrailing: seq<byte>, requests: seq<seq<byte>>, done: seq<byte>)

  ghost function HelloBytes(s: Server): seq<byte>
    requires |s.hello.session| <= 32
  {
    EncodeServerHello(s.hello) + s.extensions
  }

  ghost function Entries(s: Server): seq<seq<byte>>
    requires CertificateOk(s.certificate)
  {
    [CertificateBytes(s.certificate)] + s.chain
  }

  ghost function ListBytes(s: Server): seq<byte>
    requires CertificateOk(s.certificate)
  {
    BigBytes(|EncodeEntries(Entries(s))|, 3) + EncodeEntries(Entries(s)) + s.listTrailing
  }

  /** A server answers an offer with the version and the suite that were offered, and its messages fit. */
  ghost predicate Answers(s: Server, offered: word16) {
    && s.hello.version == offered && s.hello.suite == RSA_WITH_RC4_128_MD5 && s.hello.compression == 0
    && |s.hello.random| == RANDOM_LENGTH && |s.hello.session| <= 32 && Short(HelloBytes(s))
    && CertificateOk(s.certificate)
    && (forall k :: 0 <= k < |Entries(s)| ==> Short(Entries(s)[k]))
    && Short(ListBytes(s))
    && (forall k :: 0 <= k < |s.requests| ==> Short(s.requests[k]))
    && Short(s.done)
  }

  function Requests(bodies: seq<seq<byte>>): (r: seq<seq<byte>>)
    ensures |r| == |bodies|
  {
    seq(|bodies|, i requires 0 <= i < |bodies| => Frame(CERTIFICATE_REQUEST, bodies[i]))
  }

  /** The messages of the flight, in order. */
  ghost function Messages(s: Server, offered: word16): seq<seq<byte>>
    requires Answers(s, offered)
  {
    [Frame(SERVER_HELLO, HelloBytes(s)), Frame(CERTIFICATE, ListBytes(s))] +
    (Requests(s.requests) + [Frame(SERVER_HELLO_DONE, s.done)])
  }

  ghost function FlightOf(s: Server, key: Key): Flight
    requires CertificateOk(s.certificate)
  {
    Flight(s.hello, CertificateBytes(s.certificate), key, s.requests != [])
  }

  ghost predicate Holds(s: Server, key: Key) {
    ExactKey(key) && BigEndian(s.certificate.modulus) == key.n && BigEndian(s.certificate.exponent) == key.e
  }

  lemma HelloIsAccepted(s: Server, offered: word16)
    requires Answers(s, offered)
    ensures CheckHello(offered, HelloBytes(s)).0 == Some(s.hello)
  {
    ServerHelloRoundTrip(s.hello, s.extensions);
  }

  lemma CertificateIsAccepted(s: Server, offered: word16, key: Key)
    requires Answers(s, offered) && Holds(s, key)
    ensures CheckCertificates(ListBytes(s)).0 == Some((CertificateBytes(s.certificate), key))
  {
    hide CertificateBytes, ParseCertificate, ParseCertificates, EncodeEntries;
    CertificatesRoundTrip(Entries(s), s.listTrailing);
    CertificateYieldsKey(s.certificate, key);
  }

  lemma RequestsEndFlight(bodies: seq<seq<byte>>, done: seq<byte>)
    requires (forall k :: 0 <= k < |bodies| ==> Short(bodies[k])) && Short(done)
    ensures var ms := Requests(bodies) + [Frame(SERVER_HELLO_DONE, done)];
      EndsFlight(ms) && AllMessages(ms)
  {
    hide Frame;
    var ms := Requests(bodies) + [Frame(SERVER_HELLO_DONE, done)];
    forall k | 0 <= k < |ms|
      ensures IsMessage(ms[k]) && ms[k] != []
      ensures ms[k][0] == if k < |bodies| then CERTIFICATE_REQUEST else SERVER_HELLO_DONE
    {
      FrameRoundTrip(if k < |bodies| then CERTIFICATE_REQUEST else SERVER_HELLO_DONE,
                     if k < |bodies| then bodies[k] else done, []);
    }
  }

  /** What a server encodes is a good flight, for every key, certificate, hello and number of requests. */
  lemma EncodesGoodFlight(s: Server, offered: word16, key: Key)
    requires Answers(s, offered) && Holds(s, key)
    ensures GoodFlight(offered, Messages(s, offered), FlightOf(s, key)) && AllMessages(Messages(s, offered))
  {
    hide Frame, CheckHello, CheckCertificates, EndsFlight, HelloBytes, ListBytes, CertificateBytes;
    var ms := Messages(s, offered);
    HelloIsAccepted(s, offered);
    CertificateIsAccepted(s, offered, key);
    FrameRoundTrip(SERVER_HELLO, HelloBytes(s), []);
    FrameRoundTrip(CERTIFICATE, ListBytes(s), []);
    RequestsEndFlight(s.requests, s.done);
    assert ms[2..] == Requests(s.requests) + [Frame(SERVER_HELLO_DONE, s.done)];
    forall k | 0 <= k < |ms|
      ensures IsMessage(ms[k])
    {
      if k >= 2 {
        assert ms[k] == ms[2..][k - 2];
      }
    }
  }

  /** What the client answers such a server with. */
  ghost function ReplyToServer(hs: Hashes, offered: word16, e: Entropy, s: Server, key: Key): (r: Option<Reply>)
    requires HashesOk(hs) && EntropyOk(e) && Answers(s, offered)
    ensures Holds(s, key) ==> r.Some?
  {
    ReplyTo(hs, offered, e, FlightOf(s, key), HelloOf(offered, e) + Joined(Messages(s, offered)))
  }

  /** The client connects to every such server, however both its flights are cut into records of whatever versions and
      whatever warnings come between them, exactly when no empty record is left over at the end of the first. */
  lemma ConnectsToServer(hs: Hashes, offered: word16, e: Entropy, s: Server, key: Key, ps: seq<Piece>, v: word16,
                         qs: seq<Piece>, more: seq<byte>, end: End, read: Direction)
    returns (qs': seq<Piece>, read': Direction)
    requires HashesOk(hs) && EntropyOk(e) && Takes(hs.md5, ps, read) && !read.active
    requires Answers(s, offered) && Holds(s, key) && Payload(ps) == Joined(Messages(s, offered))
    requires Concludes(hs, ReplyToServer(hs, offered, e, s, key), qs)
    ensures var r := ReplyToServer(hs, offered, e, s, key);
      && r.Some?
      && Takes(hs.md5, qs, ReadKeys(r.value.secrets.keys))
      && Remains(hs.md5, qs, ReadKeys(r.value.secrets.keys), qs', read') && Payload(qs') == []
      && Negotiate(hs, offered, e, OnWire(hs.md5, ps, LastFlight(hs, r.value, v, qs, more), end, read)) ==
        if Tidy(ps) then
          Connected(FlightOf(s, key), r.value, Joined(Messages(s, offered)), AnswerTo(hs, r.value),
                    OnWire(hs.md5, qs', more, end, read'))
        else Failed(Reading(UnexpectedRecord(HANDSHAKE)))
  {
    hide Negotiate, ReplyTo, GoodFlight, LastFlight, OnWire, Tidy, Payload, Messages;
    EncodesGoodFlight(s, offered, key);
    qs', read' :=
      ConnectsToGoodServer(hs, offered, e, ps, v, qs, more, end, read, Messages(s, offered), FlightOf(s, key));
  }

  // ---- a flight that is refused ----

  lemma {:induction false} ZerosAreZero(n: nat)
    ensures BigEndian(ZeroBytes(n)) == 0
  {
    if n > 0 {
      ZerosAreZero(n - 1);
      assert ZeroBytes(n)[..n - 1] == ZeroBytes(n - 1);
    }
  }

  const PLAIN_CERTIFICATE := Certificate([], [], [1] + ZeroBytes(63), [3], [], [], [])
  const PLAIN_SERVER := Server(ServerHelloBody(0x0301, ZeroBytes(32), [], RSA_WITH_RC4_128_MD5, 0), [],
                               PLAIN_CERTIFICATE, [], [], [], [])
  const PLAIN_KEY := Key(Bytes(63), 3, 64)

  lemma LeastKey(k: nat)
    requires 64 <= k <= Rsa.BYTES
    ensures ExactKey(Key(Bytes(k - 1), 3, k))
  {
  }

  lemma OneAndZeros(n: nat)
    ensures BigEndian([1] + ZeroBytes(n)) == Bytes(n)
  {
    hide BigEndian, Bytes;
    var s := [1] + ZeroBytes(n);
    BigEndianSplit(s, 1);
    BigEndianOne(1);
    ZerosAreZero(n);
    assert s[..1] == [1] && s[1..] == ZeroBytes(n);
  }

  lemma PlainKeyHolds()
    ensures Holds(PLAIN_SERVER, PLAIN_KEY)
  {
    hide BigEndian, Bytes, ExactKey;
    LeastKey(64);
    OneAndZeros(63);
    BigEndianOne(3);
  }

  lemma PlainCertificateIsShort()
    ensures CertificateOk(PLAIN_CERTIFICATE) && |CertificateBytes(PLAIN_CERTIFICATE)| <= 200
  {
    hide Encode, EncodeAll;
    assert EncodeAll([]) == [] by {
      NoFields();
    }
    assert |RsaBits(PLAIN_CERTIFICATE.modulus, [3])| <= 90;
  }

  lemma NoFields()
    ensures EncodeAll([]) == []
  {
  }

  lemma PlainServerAnswers()
    ensures Answers(PLAIN_SERVER, 0x0301) && 0 < |Joined(Messages(PLAIN_SERVER, 0x0301))| <= MAX_PLAINTEXT
  {
    hide CertificateBytes;
    PlainCertificateIsShort();
    var cert := CertificateBytes(PLAIN_CERTIFICATE);
    assert Entries(PLAIN_SERVER) == [cert];
    OneEntry(cert);
    var hello, list := HelloBytes(PLAIN_SERVER), ListBytes(PLAIN_SERVER);
    ThreeMessages(Frame(SERVER_HELLO, hello), Frame(CERTIFICATE, list), Frame(SERVER_HELLO_DONE, []));
    assert Requests([]) == [];
    assert Messages(PLAIN_SERVER, 0x0301) ==
      [Frame(SERVER_HELLO, hello), Frame(CERTIFICATE, list), Frame(SERVER_HELLO_DONE, [])];
  }

  lemma OneEntry(cert: seq<byte>)
    ensures |EncodeEntries([cert])| == 3 + |cert|
  {
    assert [cert][1..] == [];
  }

  lemma ThreeMessages(a: seq<byte>, b: seq<byte>, c: seq<byte>)
    ensures |Joined([a, b, c])| == |a| + |b| + |c|
  {
    assert [a, b, c][1..] == [b, c] && [b, c][1..] == [c] && [c][1..] == [];
    assert Joined([c]) == c + Joined([]) && Joined([b, c]) == b + Joined([c]);
  }

  lemma OnePiece(w: word16, m: seq<byte>)
    requires |m| <= MAX_PLAINTEXT
    ensures PiecesOk([Data(w, m)]) && Payload([Data(w, m)]) == m
  {
    var qs := [Data(w, m)];
    assert qs[1..] == [] && Payload(qs[1..]) == [];
    AppendNil(m);
  }

  lemma AnswerIsShort(hs: Hashes, r: Reply)
    requires HashesOk(hs)
    ensures 0 < |AnswerTo(hs, r)| <= MAX_PLAINTEXT
  {
    hide VerifyData;
  }

  /** All that server says in its first flight. */
  ghost function PlainFlight(): seq<byte> {
    PlainServerAnswers();
    Joined(Messages(PLAIN_SERVER, 0x0301))
  }

  ghost function ReplyToPlain(hs: Hashes, e: Entropy): (r: Option<Reply>)
    requires HashesOk(hs) && EntropyOk(e)
    ensures r.Some?
  {
    PlainServerAnswers();
    PlainKeyHolds();
    ReplyToServer(hs, 0x0301, e, PLAIN_SERVER, PLAIN_KEY)
  }

  /** The last of these records is what the client stumbles over. */
  ghost predicate LastOneIsRefused(hs: Hashes, offered: word16, e: Entropy, ps: seq<Piece>, last: seq<byte>, end: End,
                                   read: Direction)
    requires HashesOk(hs) && EntropyOk(e) && PiecesOk(ps) && ps != [] && DirectionOk(read)
  {
    && Negotiate(hs, offered, e, OnWire(hs.md5, ps, last, end, read)) == Failed(Reading(UnexpectedRecord(HANDSHAKE)))
    && Negotiate(hs, offered, e, OnWire(hs.md5, ps[..|ps| - 1], last, end, read)).Connected?
  }

  /** It does happen that a server that plays its part is refused: three messages in one record, and an empty record
      after it. Without that record the client connects. */
  lemma LeftOverRecordIsRefused(hs: Hashes, e: Entropy, v: word16, w: word16, more: seq<byte>, end: End,
                                read: Direction)
    returns (ps: seq<Piece>, qs: seq<Piece>)
    requires HashesOk(hs) && EntropyOk(e) && DirectionOk(read) && !read.active
    ensures ps == [Data(0x0301, PlainFlight()), Data(0x0301, [])] && PiecesOk(ps) && !Tidy(ps)
    ensures var r := ReplyToPlain(hs, e);
      && qs == [Data(w, AnswerTo(hs, r.value))] && PiecesOk(qs)
      && LastOneIsRefused(hs, 0x0301, e, ps, LastFlight(hs, r.value, v, qs, more), end, read)
  {
    hide Negotiate, ReplyToServer, LastFlight, OnWire, FlightOf, Messages, Answers, Holds, AnswerTo, Wire;
    PlainServerAnswers();
    PlainKeyHolds();
    ps := [Data(0x0301, PlainFlight()), Data(0x0301, [])];
    OneRecord(0x0301, PlainFlight());
    var r := ReplyToPlain(hs, e);
    qs := [Data(w, AnswerTo(hs, r.value))];
    AnswerIsShort(hs, r.value);
    OnePiece(w, AnswerTo(hs, r.value));
    var qs1, read1 := ConnectsToServer(hs, 0x0301, e, PLAIN_SERVER, PLAIN_KEY, ps, v, qs, more, end, read);
    var qs2, read2 := ConnectsToServer(hs, 0x0301, e, PLAIN_SERVER, PLAIN_KEY, ps[..1], v, qs, more, end, read);
  }

  /** A record with an empty one after it, and without. */
  lemma OneRecord(v: word16, heard: seq<byte>)
    ensures var ps := [Data(v, heard), Data(v, [])];
      && Payload(ps) == heard && !Tidy(ps)
      && Payload(ps[..1]) == heard && (heard != [] ==> Tidy(ps[..1]))
  {
    var ps := [Data(v, heard), Data(v, [])];
    assert ps[1..] == [Data(v, [])] && ps[1..][1..] == [];
    assert Payload(ps[1..]) == [] + Payload([]);
    assert ps[..1][1..] == [];
  }
}
