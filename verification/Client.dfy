/** The TLS 1.0 client as it runs, step by step over a transport. */
module Client {
  import opened BigInt
  import opened BigIntBytes
  import opened BitOps
  import opened Channel
  import opened Der
  import opened Framing
  import opened Handshake
  import opened Hash
  import opened Limbs
  import opened Negotiation
  import opened Options
  import opened Prf
  import opened Record
  import opened Rsa
  import opened Seqs
  import Layer = RecordLayer

  datatype Progress<+T> = Went(value: T) | Broke(failure: Failure)

  /** A record sent before any cipher is on. */
  function PlainRecord(version: word16, t: byte, data: seq<byte>): seq<byte> {
    HeaderBytes(t, version, |data|) + data
  }

  function CertifiedRecords(version: word16, requested: bool): seq<seq<byte>> {
    if requested then [PlainRecord(version, HANDSHAKE, EmptyCertificate())] else []
  }

  /** The records between ServerHelloDone and our Finished message: handshake messages, then ChangeCipherSpec. */
  function ReplyRecords(version: word16, requested: bool, keyExchange: seq<byte>): seq<seq<byte>> {
    CertifiedRecords(version, requested) +
    [PlainRecord(version, HANDSHAKE, keyExchange), PlainRecord(version, CHANGE_CIPHER_SPEC, [1])]
  }

  /** The first record under the new keys. */
  function FinishedRecord(h: Alg, version: word16, reply: Reply): (r: (Direction, seq<byte>))
    ensures DirectionOk(r.0) && r.0.active
  {
    var (d, fragment) := Seal(h, WriteKeys(reply.secrets.keys), HANDSHAKE, version, reply.finished);
    (d, HeaderBytes(HANDSHAKE, version, |fragment|) + fragment)
  }

  // ---- encryption of the premaster secret ----

  lemma {:induction false} BytesOfNumber(s: seq<byte>)
    ensures BigBytes(BigEndian(s), |s|) == s
  {
    if s != [] {
      var n := |s| - 1;
      BytesOfNumber(s[..n]);
      DivModUnique(BigEndian(s), 256, BigEndian(s[..n]), s[n]);
      assert s == s[..n] + [s[n]];
    }
  }

  method EncryptPremaster(key: RsaPublicKey, premaster: seq<byte>, padding: seq<byte>) returns (c: Option<seq<byte>>)
    requires key.Sized() && |premaster| == PREMASTER_LENGTH && |padding| == Rsa.BYTES && NoZero(padding)
    ensures c == EncryptedPremaster(key.Model(), premaster, padding)
  {
    hide BigEndian, Power, Bytes, BigBytes;
    var usable := key.Valid();
    if !usable {
      return None;
    }
    var em := Pad(key.k, premaster, padding[..key.k - PREMASTER_LENGTH - 3]);
    BigEndianBound(em.value);
    BytesMono(key.k, Rsa.BYTES);
    var ok, out := PublicOp(key, em.value);
    BytesOfNumber(out);
    return Some(out);
  }

  lemma CiphertextIsShort(key: Key, premaster: seq<byte>, padding: seq<byte>)
    requires |premaster| == PREMASTER_LENGTH && |padding| == Rsa.BYTES
    ensures var c := EncryptedPremaster(key, premaster, padding);
      c.Some? ==> |c.value| == key.k && |ClientKeyExchange(c.value)| == key.k + 6 && key.k <= 256
  {
  }

  method DeriveSecrets(hs: Hashes, premaster: seq<byte>, clientRandom: seq<byte>, serverRandom: seq<byte>)
    returns (s: Secrets)
    requires HashesOk(hs)
    ensures s == SecretsOf(hs, premaster, clientRandom, serverRandom)
  {
    var master := ComputePrf(hs, premaster, Ascii(MASTER_SECRET), clientRandom + serverRandom, MASTER_LENGTH);
    var block := ComputePrf(hs, master[..], Ascii(KEY_EXPANSION), serverRandom + clientRandom,
                            Layer.KeyBlockLength(hs.md5));
    var keys := Layer.Split(hs.md5, block[..]);
    SplitIsUnique(hs.md5, block[..], keys);
    s := Secrets(master[..], keys);
  }

  lemma SplitIsUnique(h: Alg, block: seq<byte>, km: Layer.KeyMaterial)
    requires |block| == Layer.KeyBlockLength(h)
    requires block == km.clientMac + km.serverMac + km.clientKey + km.serverKey
    requires |km.clientMac| == |km.serverMac| == DigestSize(h) && |km.clientKey| == |km.serverKey| == KEY_LENGTH
    ensures km == KeysOf(h, block)
  {
  }

  // ---- the client ----

  class Client {
    const hs: Hashes
    const version: word16
    const conn: Connection
    const transcript: Transcript
    const serverKey: RsaPublicKey
    var serverCert: seq<byte>
    var suite: word16
    var connected: bool

    ghost predicate Valid()
      reads this, conn, conn.repr, transcript, transcript.repr
    {
      && Apart()
      && conn.Valid() && transcript.Valid() && serverKey.Sized()
      && HashesOk(hs) && transcript.hs == hs && conn.rec.write.h == hs.md5 && conn.rec.read.h == hs.md5
      && conn.rec.version == version
      && DirectionOk(conn.Writer()) && DirectionOk(conn.Stream().read)
    }

    /** The parts of a client share nothing. */
    ghost predicate Apart()
      reads conn, conn.repr, transcript
    {
      && conn.Apart()
      && transcript in transcript.repr
      && conn.repr !! transcript.repr
      && this !in conn.repr && this !in transcript.repr
      && serverKey !in conn.repr && serverKey !in transcript.repr
      && serverKey.n !in conn.repr && serverKey.n !in transcript.repr
    }

    constructor (hs: Hashes, version: word16, net: Transport)
      requires HashesOk(hs) && net.Valid()
      ensures Valid() && this.hs == hs && this.version == version && conn.net == net && !connected && suite == 0
      ensures conn.hs == [] && transcript.message == [] && serverCert == [] && !conn.eof
      ensures conn.Writer() == NoKeys() && conn.Stream() == Incoming(Joined(net.chunks), net.end, NoKeys())
      ensures fresh(conn) && fresh(conn.repr - {net}) && fresh(transcript) && fresh(transcript.repr)
      ensures fresh(serverKey) && fresh(serverKey.n)
    {
      hide Layer.RecordLayer.Valid, Transport.Valid, Transcript.Valid, Connection.Valid, NoKeys, Joined;
      this.hs, this.version := hs, version;
      var t := new Transcript(hs);
      var c := new Connection(net, hs.md5, version);
      var k := new RsaPublicKey();
      conn, transcript, serverKey := c, t, k;
      serverCert, suite, connected := [], 0, false;
    }

    // ---- messages from the server ----

    method ReadHello() returns (r: Progress<ServerHelloBody>)
      requires Valid()
      modifies this`suite, transcript.repr, conn`rx, conn`hs, conn`eof, conn.net`chunks, conn.rec.read.repr
      ensures Valid() && conn.rec.read.repr == old(conn.rec.read.repr)
      ensures match HelloStep(hs.md5, version, old(conn.hs), old(conn.Stream()))
        case Stop(f) => r == Broke(f)
        case Done(hello, a, p, rest) =>
          && r == Went(hello) && suite == hello.suite && transcript.message == old(transcript.message) + a
          && conn.eof == old(conn.eof) && conn.hs == p && conn.Stream() == rest
    {
      hide Layer.RecordLayer.Valid, Transport.Valid, Transcript.Valid, NextMessage;
      var m := conn.NextHandshake();
      if m.Err? {
        return Broke(Reading(m.error));
      }
      if m.value[0] != SERVER_HELLO {
        return Broke(UnexpectedMessage(m.value[0]));
      }
      transcript.Update(m.value);
      var s := ParseServerHello(Body(m.value));
      if s.None? {
        return Broke(MalformedHello);
      }
      if s.value.version != version {
        return Broke(WrongVersion(s.value.version));
      }
      if s.value.suite != RSA_WITH_RC4_128_MD5 {
        return Broke(WrongSuite(s.value.suite));
      }
      if s.value.compression != 0 {
        return Broke(Compressed);
      }
      suite := s.value.suite;
      return Went(s.value);
    }

    method KeepCertificate(cert: seq<byte>) returns (ok: bool)
      requires Valid()
      modifies this`serverCert, serverKey, serverKey.n
      ensures Valid() && conn.Stream() == old(conn.Stream())
      ensures serverCert == cert && ok == ParseCertificate(cert).Some?
      ensures ok ==> ParseCertificate(cert) == Some(serverKey.Model())
    {
      hide Layer.RecordLayer.Valid, Transport.Valid, Transcript.Valid, ParseCertificate;
      serverCert := cert;
      ok := ParseCertificateRsaKey(cert, serverKey);
    }

    /** Takes the key, and nothing else, from the first certificate. */
    method ReadCertificate() returns (r: Progress<()>)
      requires Valid()
      modifies this`serverCert, serverKey, serverKey.n
      modifies transcript.repr, conn`rx, conn`hs, conn`eof, conn.net`chunks, conn.rec.read.repr
      ensures Valid() && conn.rec.read.repr == old(conn.rec.read.repr)
      ensures match CertificateStep(hs.md5, old(conn.hs), old(conn.Stream()))
        case Stop(f) => r == Broke(f)
        case Done((leaf, key), a, p, rest) =>
          && r == Went(()) && conn.eof == old(conn.eof) && serverCert == leaf && serverKey.Model() == key
          && transcript.message == old(transcript.message) + a && conn.hs == p && conn.Stream() == rest
    {
      hide Layer.RecordLayer.Valid, Transport.Valid, Transcript.Valid, NextMessage, ParseCertificate, ParseCertificates;
      var m := conn.NextHandshake();
      if m.Err? {
        return Broke(Reading(m.error));
      }
      if m.value[0] != CERTIFICATE {
        return Broke(UnexpectedMessage(m.value[0]));
      }
      transcript.Update(m.value);
      var certs := CertificateList(Body(m.value));
      if certs.None? {
        return Broke(MalformedCertificates);
      }
      var ok := KeepCertificate(certs.value[0]);
      return if ok then Went(()) else Broke(NoUsableKey);
    }

    // ---- messages to the server ----

    /** A record before any cipher is on. */
    method SendClear(t: byte, data: seq<byte>) returns (ok: bool)
      requires Valid() && !conn.Writer().active && |data| <= MAX_PLAINTEXT
      modifies conn.net`sent, conn.net`writes, conn.rec.write.repr
      ensures Valid() && !conn.Writer().active && conn.Stream() == old(conn.Stream())
      ensures conn.rec.write.repr == old(conn.rec.write.repr)
      ensures ok <==> old(conn.net.writes) > 0
      ensures ok ==> conn.net.sent == old(conn.net.sent) + [PlainRecord(version, t, data)]
      ensures conn.net.Quota() == old(conn.net.Quota())
    {
      hide Layer.RecordLayer.Valid, Transport.Valid, Transcript.Valid, ProtectOf;
      ProtectsInTheClear(hs.md5, conn.Writer(), t, version, data);
      var r := conn.SendRecord(t, data);
      ok := r == Sent;
    }

    /** A handshake message: it goes into the transcript, and then out. */
    method Say(m: seq<byte>) returns (ok: bool)
      requires Valid() && !conn.Writer().active && |m| <= MAX_PLAINTEXT
      modifies transcript.repr, conn.net`sent, conn.net`writes, conn.rec.write.repr
      ensures Valid() && !conn.Writer().active && conn.Stream() == old(conn.Stream())
      ensures conn.rec.write.repr == old(conn.rec.write.repr)
      ensures transcript.message == old(transcript.message) + m
      ensures ok <==> old(conn.net.writes) > 0
      ensures ok ==> conn.net.sent == old(conn.net.sent) + [PlainRecord(version, HANDSHAKE, m)]
      ensures conn.net.Quota() == old(conn.net.Quota())
    {
      hide Layer.RecordLayer.Valid, Transport.Valid, Transcript.Valid;
      transcript.Update(m);
      ok := SendClear(HANDSHAKE, m);
    }

    /** Our half of the key exchange: an empty certificate if one was asked for, and the encrypted premaster. */
    method SendKeyExchange(requested: bool, premaster: seq<byte>, padding: seq<byte>) returns (r: Progress<()>)
      requires Valid() && !conn.Writer().active
      requires |premaster| == PREMASTER_LENGTH && |padding| == Rsa.BYTES && NoZero(padding)
      modifies transcript.repr, conn.net`sent, conn.net`writes, conn.rec.write.repr
      ensures Valid() && !conn.Writer().active && conn.Stream() == old(conn.Stream())
      ensures conn.rec.write.repr == old(conn.rec.write.repr)
      ensures r.Broke? ==> r.failure == EncryptionFailed || (r.failure == Writing && old(conn.net.writes) < 2)
      ensures match EncryptedPremaster(serverKey.Model(), premaster, padding)
        case None => r.Broke?
        case Some(c) =>
          && (r.Broke? ==> r.failure == Writing)
          && (r.Went? ==>
            && transcript.message == old(transcript.message) + Certified(requested) + ClientKeyExchange(c)
            && conn.net.sent == old(conn.net.sent) + CertifiedRecords(version, requested) +
              [PlainRecord(version, HANDSHAKE, ClientKeyExchange(c))]
            && old(conn.net.writes) - 2 <= conn.net.writes)
      ensures conn.net.Quota() == old(conn.net.Quota())
    {
      hide Layer.RecordLayer.Valid, Transport.Valid, Transcript.Valid, EncryptedPremaster;
      AppendNil(transcript.message);
      AppendNil(conn.net.sent);
      if requested {
        var ok := Say(EmptyCertificate());
        if !ok {
          return Broke(Writing);
        }
      }
      var c := EncryptPremaster(serverKey, premaster, padding);
      if c.None? {
        return Broke(EncryptionFailed);
      }
      CiphertextIsShort(serverKey.Model(), premaster, padding);
      var ok := Say(ClientKeyExchange(c.value));
      return if ok then Went(()) else Broke(Writing);
    }

    /** ChangeCipherSpec goes out in the clear and stays out of the transcript; then our keys change. */
    method SwitchWriting(keys: Layer.KeyMaterial) returns (ok: bool)
      requires Valid() && !conn.Writer().active
      modifies conn`repr, conn.net`sent, conn.net`writes, conn.rec.write.repr
      ensures Valid() && conn.Stream() == old(conn.Stream()) && fresh(conn.repr - old(conn.repr))
      ensures fresh(conn.rec.write.repr - old(conn.rec.write.repr))
      ensures ok <==> old(conn.net.writes) > 0
      ensures ok ==>
        && conn.Writer() == WriteKeys(keys)
        && conn.net.sent == old(conn.net.sent) + [PlainRecord(version, CHANGE_CIPHER_SPEC, [1])]
      ensures conn.net.Quota() == old(conn.net.Quota())
    {
      hide Layer.RecordLayer.Valid, Transport.Valid, Transcript.Valid;
      ok := SendClear(CHANGE_CIPHER_SPEC, [1]);
      if ok {
        conn.EnableWriteCipher(keys.clientMac, keys.clientKey);
      }
    }

    /** Our Finished message is the first record under the new keys. */
    method SendFinished(master: seq<byte>) returns (ok: bool)
      requires Valid()
      modifies transcript.repr, conn.net`sent, conn.net`writes, conn.rec.write.repr
      ensures Valid() && conn.Stream() == old(conn.Stream())
      ensures ok <==> old(conn.net.writes) > 0
      ensures var m := Finished(hs, master, CLIENT_FINISHED, old(transcript.message));
        && transcript.message == old(transcript.message) + m
        && |m| <= MAX_PLAINTEXT
        && var (d, record) := ProtectOf(hs.md5, old(conn.Writer()), HANDSHAKE, version, m).value;
           ok ==> conn.Writer() == d && conn.net.sent == old(conn.net.sent) + [record]
      ensures conn.net.Quota() == old(conn.net.Quota())
    {
      hide Layer.RecordLayer.Valid, Transport.Valid, Transcript.Valid, VerifyData;
      var data := transcript.Verify(master, CLIENT_FINISHED);
      transcript.Update(Frame(FINISHED, data));
      var r := conn.SendRecord(HANDSHAKE, Frame(FINISHED, data));
      ok := r == Sent;
    }

    /** Reads up to ServerHelloDone, and tells whether a certificate was asked for. */
    method ReadOptional() returns (r: Progress<bool>)
      requires Valid()
      modifies transcript.repr, conn`rx, conn`hs, conn`eof, conn.net`chunks, conn.rec.read.repr
      ensures Valid() && conn.rec.read.repr == old(conn.rec.read.repr)
      ensures match OptionalStep(hs.md5, old(conn.hs), old(conn.Stream()))
        case Stop(f) => r == Broke(f)
        case Done(requested, a, p, rest) =>
          && r == Went(requested) && transcript.message == old(transcript.message) + a
          && conn.eof == old(conn.eof) && conn.hs == p && conn.Stream() == rest
    {
      hide Layer.RecordLayer.Valid, Transport.Valid, Transcript.Valid, NextMessage;
      ghost var due := OptionalStep(hs.md5, conn.hs, conn.Stream());
      ghost var before, got: seq<byte> := transcript.message, [];
      var requested := false;
      AppendNil(before);
      ResumeNothing(due);
      while true
        invariant Valid() && conn.rec.read.repr == old(conn.rec.read.repr) && conn.eof == old(conn.eof)
        invariant transcript.message == before + got
        invariant due == Resume(requested, got, OptionalStep(hs.md5, conn.hs, conn.Stream()))
        decreases |conn.Stream().bytes|, |conn.hs|
      {
        var m := conn.NextHandshake();
        if m.Err? {
          return Broke(Reading(m.error));
        }
        transcript.Update(m.value);
        Assoc(before, got, m.value);
        if m.value[0] == SERVER_HELLO_DONE {
          return Went(requested);
        }
        if m.value[0] == SERVER_KEY_EXCHANGE {
          return Broke(KeyExchangeSent);
        }
        if m.value[0] != CERTIFICATE_REQUEST {
          return Broke(UnexpectedMessage(m.value[0]));
        }
        ResumeOnce(got, m.value, OptionalStep(hs.md5, conn.hs, conn.Stream()));
        got := got + m.value;
        requested := true;
      }
    }

    /** Our side has said everything up to its Finished message. */
    ghost predicate Replied(reply: Reply, requested: bool, before: seq<seq<byte>>)
      reads conn, conn.net, conn.rec.write, transcript
    {
      var (d, record) := FinishedRecord(hs.md5, version, reply);
      && transcript.message == reply.transcript
      && conn.Writer() == d
      && conn.net.sent == before + ReplyRecords(version, requested, reply.keyExchange) + [record]
    }

    /** The switch to our new keys, and the first record under them. */
    method SendUnderKeys(secrets: Secrets) returns (ok: bool)
      requires Valid() && !conn.Writer().active
      modifies transcript.repr, conn`repr, conn.net`sent, conn.net`writes, conn.rec.write.repr
      ensures Valid() && conn.Stream() == old(conn.Stream()) && fresh(conn.repr - old(conn.repr))
      ensures ok <==> old(conn.net.writes) >= 2
      ensures var m := Finished(hs, secrets.master, CLIENT_FINISHED, old(transcript.message));
        && transcript.message == old(transcript.message) + (if old(conn.net.writes) > 0 then m else [])
        && var (d, fragment) := Seal(hs.md5, WriteKeys(secrets.keys), HANDSHAKE, version, m);
           var record := HeaderBytes(HANDSHAKE, version, |fragment|) + fragment;
           var switch := PlainRecord(version, CHANGE_CIPHER_SPEC, [1]);
           ok ==> conn.Writer() == d && conn.net.sent == old(conn.net.sent) + [switch] + [record]
      ensures conn.net.Quota() == old(conn.net.Quota())
    {
      hide Layer.RecordLayer.Valid, Transport.Valid, Transcript.Valid, Finished, Seal;
      ok := SwitchWriting(secrets.keys);
      if ok {
        ok := SendFinished(secrets.master);
      }
    }

    /** Everything we say after ServerHelloDone. */
    method SendReply(requested: bool, serverRandom: seq<byte>, e: Entropy, ghost f: Flight, ghost due: Option<Reply>)
      returns (r: Progress<Secrets>)
      requires Valid() && !conn.Writer().active && EntropyOk(e)
      requires f.key == serverKey.Model() && f.requested == requested && f.hello.random == serverRandom
      requires due == ReplyTo(hs, version, e, f, transcript.message)
      modifies transcript.repr, conn`repr, conn.net`sent, conn.net`writes, conn.rec.write.repr
      ensures Valid() && conn.Stream() == old(conn.Stream()) && fresh(conn.repr - old(conn.repr))
      ensures r.Broke? ==>
        (due.None? && r.failure == EncryptionFailed) || (r.failure == Writing && old(conn.net.writes) < 4)
      ensures r.Went? ==>
        due.Some? && r.value == due.value.secrets && Replied(due.value, requested, old(conn.net.sent))
      ensures conn.net.Quota() == old(conn.net.Quota())
    {
      hide Layer.RecordLayer.Valid, Transport.Valid, Transcript.Valid, EncryptedPremaster, SecretsOf, Finished, Seal,
        CertifiedRecords;
      var premaster := Premaster(version, e.premasterTail);
      var sent := SendKeyExchange(requested, premaster, e.padding);
      if sent.Broke? {
        return Broke(sent.failure);
      }
      ghost var records, first := conn.net.sent, PlainRecord(version, HANDSHAKE, due.value.keyExchange);
      var secrets := DeriveSecrets(hs, premaster, e.clientRandom, serverRandom);
      var ok := SendUnderKeys(secrets);
      if !ok {
        return Broke(Writing);
      }
      RecordsInOrder(old(conn.net.sent), CertifiedRecords(version, requested), first,
                     PlainRecord(version, CHANGE_CIPHER_SPEC, [1]));
      return Went(secrets);
    }

    /** The server's ChangeCipherSpec, and the switch to its new keys. */
    method SwitchReading(keys: Layer.KeyMaterial) returns (r: Option<Error>)
      requires Valid()
      modifies conn`repr, conn`rx, conn`eof, conn.net`chunks, conn.rec.read.repr
      ensures Valid() && fresh(conn.repr - old(conn.repr)) && fresh(conn.rec.read.repr - old(conn.rec.read.repr))
      ensures conn.Writer() == old(conn.Writer())
      ensures match NextCipherSpec(hs.md5, conn.hs, old(conn.Stream()))
        case NotSwitched(e) => r == Some(e)
        case Switched(rest) =>
          r == None && conn.eof == old(conn.eof) && conn.hs == [] && conn.Stream() == rest.(read := ReadKeys(keys))
    {
      hide Layer.RecordLayer.Valid, Transport.Valid, Transcript.Valid, NextCipherSpec;
      r := conn.ExpectChangeCipherSpec();
      if r.None? {
        conn.EnableReadCipher(keys.serverMac, keys.serverKey);
      }
    }

    method SaysTheSame(want: seq<byte>, body: seq<byte>) returns (same: bool)
      requires |want| == VERIFY_LENGTH
      ensures same <==> body == want
    {
      if |body| != VERIFY_LENGTH {
        return false;
      }
      same := Layer.CtEqual(want, body);
    }

    /** The server's Finished message. The transcript it must agree with does not contain the very message that is
        being checked. */
    method CheckFinished(master: seq<byte>) returns (r: Progress<()>)
      requires Valid()
      modifies transcript.repr, conn`rx, conn`hs, conn`eof, conn.net`chunks, conn.rec.read.repr
      ensures Valid() && conn.Writer() == old(conn.Writer())
      ensures match NextMessage(hs.md5, old(conn.hs), old(conn.Stream()))
        case Nothing(e) => r == Broke(Reading(e))
        case Got(m, p, rest) =>
          if m[0] != FINISHED then r == Broke(UnexpectedMessage(m[0]))
          else if Body(m) != VerifyData(hs, master, SERVER_FINISHED, old(transcript.message)) then
            r == Broke(BadFinished)
          else
            && r == Went(()) && transcript.message == old(transcript.message) + m
            && conn.eof == old(conn.eof) && conn.Stream() == rest
    {
      hide Layer.RecordLayer.Valid, Transport.Valid, Transcript.Valid, NextMessage, VerifyData;
      var m := conn.NextHandshake();
      if m.Err? {
        return Broke(Reading(m.error));
      }
      if m.value[0] != FINISHED {
        return Broke(UnexpectedMessage(m.value[0]));
      }
      var want := transcript.Verify(master, SERVER_FINISHED);
      var same := SaysTheSame(want, Body(m.value));
      if !same {
        return Broke(BadFinished);
      }
      transcript.Update(m.value);
      return Went(());
    }

    method ReadFinished(secrets: Secrets, ghost reply: Reply) returns (r: Progress<()>)
      requires Valid() && reply.secrets == secrets && reply.transcript == transcript.message
      modifies transcript.repr
      modifies conn`repr, conn`rx, conn`hs, conn`eof, conn.net`chunks, conn.rec.read.repr
      ensures Valid() && fresh(conn.repr - old(conn.repr)) && conn.Writer() == old(conn.Writer())
      ensures match FinishStep(hs, reply, old(conn.hs), old(conn.Stream()))
        case Stop(f) => r == Broke(f)
        case Done(_, m, p, rest) =>
          && r == Went(()) && transcript.message == old(transcript.message) + m
          && conn.eof == old(conn.eof) && conn.Stream() == rest
    {
      hide Layer.RecordLayer.Valid, Transport.Valid, Transcript.Valid, NextMessage, NextCipherSpec, VerifyData;
      var e := SwitchReading(secrets.keys);
      if e.Some? {
        return Broke(Reading(e.value));
      }
      r := CheckFinished(secrets.master);
    }

    // ---- the whole handshake ----

    /** The server's first flight: its random number, and whether it asked for a certificate. */
    method ReadFlight() returns (r: Progress<(seq<byte>, bool)>)
      requires Valid() && conn.hs == []
      modifies this`suite, this`serverCert, serverKey, serverKey.n
      modifies transcript.repr, conn`rx, conn`hs, conn`eof, conn.net`chunks, conn.rec.read.repr
      ensures Valid() && conn.Writer() == old(conn.Writer())
      ensures match ServerFlight(hs.md5, version, old(conn.Stream()))
        case Stop(f) => r == Broke(f)
        case Done(f, absorbed, p, rest) =>
          && r == Went((f.hello.random, f.requested)) && Learned(f) && conn.eof == old(conn.eof)
          && transcript.message == old(transcript.message) + absorbed && conn.hs == p && conn.Stream() == rest
    {
      hide Layer.RecordLayer.Valid, Transport.Valid, Transcript.Valid, HelloStep, CertificateStep, OptionalStep;
      var hello := ReadHello();
      if hello.Broke? {
        return Broke(hello.failure);
      }
      ghost var m1 := transcript.message;
      var c := ReadCertificate();
      if c.Broke? {
        return Broke(c.failure);
      }
      ghost var m2 := transcript.message;
      var requested := ReadOptional();
      if requested.Broke? {
        return Broke(requested.failure);
      }
      ThreeParts(old(transcript.message), m1, m2, transcript.message);
      return Went((hello.value.random, requested.value));
    }

    /** What the client keeps of the server's first flight. */
    ghost predicate Learned(f: Flight)
      reads this, serverKey, serverKey.n
    {
      suite == f.hello.suite && serverCert == f.leaf && serverKey.Model() == f.key
    }

    /** Where a client stands after a successful handshake. */
    ghost predicate Established(o: Outcome, before: seq<seq<byte>>)
      requires o.Connected?
      reads this, serverKey, serverKey.n, conn, conn.net, conn.rec.write, conn.rec.read, transcript
    {
      var (d, finished) := FinishedRecord(hs.md5, version, o.reply);
      && Learned(o.flight)
      && transcript.message == o.reply.transcript + o.serverFinished
      && conn.Stream() == o.rest
      && conn.Writer() == d
      && conn.net.sent == before + ReplyRecords(version, o.flight.requested, o.reply.keyExchange) + [finished]
    }

    /** The handshake after the ClientHello. */
    method Negotiated(e: Entropy) returns (r: Option<Failure>)
      requires Valid() && EntropyOk(e) && conn.hs == [] && !conn.Writer().active
      requires transcript.message == HelloOf(version, e)
      modifies this`suite, this`serverCert, serverKey, serverKey.n, conn.repr, transcript.repr
      ensures Valid() && fresh(conn.repr - old(conn.repr)) && conn.net.Quota() == old(conn.net.Quota())
      ensures r.None? ==> conn.eof == old(conn.eof)
      ensures r == Some(Writing) ==> old(conn.net.writes) < 4
      ensures r.Some? && r != Some(Writing) ==> Negotiate(hs, version, e, old(conn.Stream())) == Failed(r.value)
      ensures r.None? ==>
        var o := Negotiate(hs, version, e, old(conn.Stream()));
        o.Connected? && Established(o, old(conn.net.sent))
    {
      hide Layer.RecordLayer.Valid, Transport.Valid, Transcript.Valid, ServerFlight, FinishStep, ReplyTo,
        FinishedRecord, ReplyRecords, ClientHello;
      ghost var flight := ServerFlight(hs.md5, version, conn.Stream());
      var f := ReadFlight();
      if f.Broke? {
        return Some(f.failure);
      }
      ghost var due := ReplyTo(hs, version, e, flight.value, transcript.message);
      var secrets := SendReply(f.value.1, f.value.0, e, flight.value, due);
      if secrets.Broke? {
        return Some(secrets.failure);
      }
      var finished := ReadFinished(secrets.value, due.value);
      if finished.Broke? {
        return Some(finished.failure);
      }
      return None;
    }

    /** Connects, or says why not. The outcome is the one the server's bytes call for, however they arrive, unless
        the transport stops taking what is sent. */
    method Handshake(e: Entropy) returns (r: Option<Failure>)
      requires Valid() && EntropyOk(e) && conn.hs == [] && transcript.message == [] && !conn.Writer().active
      modifies this`suite, this`serverCert, this`connected, serverKey, serverKey.n, conn.repr, transcript.repr
      ensures Valid() && (connected <==> old(connected) || r.None?)
      ensures fresh(conn.repr - old(conn.repr)) && conn.net.Quota() == old(conn.net.Quota())
      ensures r.None? ==> conn.eof == old(conn.eof)
      ensures r == Some(Writing) ==> old(conn.net.writes) < 5
      ensures r.Some? && r != Some(Writing) ==> Negotiate(hs, version, e, old(conn.Stream())) == Failed(r.value)
      ensures r.None? ==>
        var o := Negotiate(hs, version, e, old(conn.Stream()));
        o.Connected? && Established(o, old(conn.net.sent) + [PlainRecord(version, HANDSHAKE, HelloOf(version, e))])
    {
      hide Layer.RecordLayer.Valid, Transport.Valid, Transcript.Valid, Negotiate, FinishedRecord, ReplyRecords,
        ClientHello;
      HelloIsShort(version, e);
      AppendNil(HelloOf(version, e));
      var ok := Say(ClientHello(version, e.clientRandom, RSA_WITH_RC4_128_MD5));
      if !ok {
        return Some(Writing);
      }
      r := Negotiated(e);
      if r.None? {
        connected := true;
      }
    }
  }

  lemma HelloIsShort(version: word16, e: Entropy)
    requires EntropyOk(e)
    ensures |HelloOf(version, e)| == 45
  {
  }

  lemma ThreeParts(m0: seq<byte>, m1: seq<byte>, m2: seq<byte>, m3: seq<byte>)
    requires m0 <= m1 <= m2 <= m3
    ensures m3 == m0 + (m1[|m0|..] + m2[|m1|..] + m3[|m2|..])
  {
  }

  lemma RecordsInOrder(before: seq<seq<byte>>, certified: seq<seq<byte>>, a: seq<byte>, b: seq<byte>)
    ensures before + certified + [a] + [b] == before + (certified + [a, b])
  {
  }

  lemma ProtectsInTheClear(h: Alg, d: Direction, t: byte, version: word16, data: seq<byte>)
    requires DirectionOk(d) && !d.active && |data| <= MAX_PLAINTEXT
    ensures ProtectOf(h, d, t, version, data) == Some((d.(number := d.number + 1), PlainRecord(version, t, data)))
  {
  }

  /** A step that goes on after some messages have been taken. */
  function Resume(requested: bool, got: seq<byte>, s: Step<bool>): Step<bool> {
    match s
    case Stop(f) => Stop(f)
    case Done(more, absorbed, pending, rest) => Done(requested || more, got + absorbed, pending, rest)
  }

  lemma ResumeNothing(s: Step<bool>)
    ensures Resume(false, [], s) == s
  {
    if s.Done? {
      AppendNil(s.absorbed);
    }
  }

  lemma ResumeOnce(got: seq<byte>, m: seq<byte>, s: Step<bool>)
    ensures Resume(true, got + m, s) == Resume(true, got, Resume(true, m, s))
  {
    if s.Done? {
      Assoc(got, m, s.absorbed);
    }
  }
}
