/** What a TLS 1.0 RSA handshake comes to, given everything the server sends: the reference the client is proved
    against. */
module Negotiation {
  import opened BigInt
  import opened BigIntBytes
  import opened BitOps
  import opened Channel
  import opened Der
  import opened Framing
  import opened Handshake
  import opened Hash
  import opened Limbs
  import opened Options
  import opened Prf
  import opened Rc4
  import opened Record
  import opened Rsa
  import Layer = RecordLayer

  /** The random choices of one handshake: ClientHello.random, the premaster secret after its version, and a stock
      of nonzero padding bytes. */
  datatype Entropy = Entropy(clientRandom: seq<byte>, premasterTail: seq<byte>, padding: seq<byte>)

  predicate EntropyOk(e: Entropy) {
    |e.clientRandom| == RANDOM_LENGTH && |e.premasterTail| == PREMASTER_LENGTH - 2 && |e.padding| == Rsa.BYTES
    && NoZero(e.padding)
  }

  datatype Failure =
    | Reading(error: Error)
    | Writing
    | UnexpectedMessage(messageType: byte)
    | MalformedHello
    | WrongVersion(version: word16)
    | WrongSuite(suite: word16)
    | Compressed
    | MalformedCertificates
    | NoUsableKey
    | KeyExchangeSent
    | EncryptionFailed
    | BadFinished

  /** One step of reading: what came of it, the messages it took, and what is left. */
  datatype Step<+T> =
    | Done(value: T, absorbed: seq<byte>, pending: seq<byte>, rest: Incoming)
    | Stop(failure: Failure)

  // ---- the server's first flight ----

  /** The server must choose the version and the suite that were offered, and no compression. */
  function CheckHello(offered: word16, body: seq<byte>): (r: (Option<ServerHelloBody>, Failure))
    ensures r.1 != Writing
    ensures r.0.Some? ==>
      && ParseServerHello(body) == r.0 && r.0.value.version == offered
      && r.0.value.suite == RSA_WITH_RC4_128_MD5 && r.0.value.compression == 0
  {
    match ParseServerHello(body)
    case None => (None, MalformedHello)
    case Some(s) =>
      if s.version != offered then (None, WrongVersion(s.version))
      else if s.suite != RSA_WITH_RC4_128_MD5 then (None, WrongSuite(s.suite))
      else if s.compression != 0 then (None, Compressed)
      else (Some(s), Compressed)
  }

  function HelloStep(h: Alg, offered: word16, pending: seq<byte>, i: Incoming): (r: Step<ServerHelloBody>)
    requires DirectionOk(i.read)
    ensures r.Done? ==> DirectionOk(r.rest.read)
    ensures r.Stop? ==> r.failure != Writing
  {
    match NextMessage(h, pending, i)
    case Nothing(e) => Stop(Reading(e))
    case Got(m, p, rest) =>
      if m[0] != SERVER_HELLO then Stop(UnexpectedMessage(m[0]))
      else
        var (hello, why) := CheckHello(offered, Body(m));
        if hello.None? then Stop(why) else Done(hello.value, m, p, rest)
  }

  /** The server's own certificate is the first of the list; nothing but its key is used. */
  function CheckCertificates(body: seq<byte>): (r: (Option<(seq<byte>, Key)>, Failure))
    ensures r.1 != Writing
    ensures r.0.Some? ==> ParseCertificate(r.0.value.0) == Some(r.0.value.1)
  {
    match ParseCertificates(body)
    case None => (None, MalformedCertificates)
    case Some(certs) =>
      match ParseCertificate(certs[0])
      case None => (None, NoUsableKey)
      case Some(key) => (Some((certs[0], key)), NoUsableKey)
  }

  function CertificateStep(h: Alg, pending: seq<byte>, i: Incoming): (r: Step<(seq<byte>, Key)>)
    requires DirectionOk(i.read)
    ensures r.Done? ==> DirectionOk(r.rest.read)
    ensures r.Stop? ==> r.failure != Writing
  {
    match NextMessage(h, pending, i)
    case Nothing(e) => Stop(Reading(e))
    case Got(m, p, rest) =>
      if m[0] != CERTIFICATE then Stop(UnexpectedMessage(m[0]))
      else
        var (leaf, why) := CheckCertificates(Body(m));
        if leaf.None? then Stop(why) else Done(leaf.value, m, p, rest)
  }

  /** Requests for a certificate up to ServerHelloDone: whether there was one. */
  function OptionalStep(h: Alg, pending: seq<byte>, i: Incoming): (r: Step<bool>)
    requires DirectionOk(i.read)
    ensures r.Done? ==> DirectionOk(r.rest.read)
    ensures r.Stop? ==> r.failure != Writing
    decreases |i.bytes|, |pending|
  {
    match NextMessage(h, pending, i)
    case Nothing(e) => Stop(Reading(e))
    case Got(m, p, rest) =>
      if m[0] == SERVER_HELLO_DONE then Done(false, m, p, rest)
      else if m[0] == CERTIFICATE_REQUEST then
        match OptionalStep(h, p, rest)
        case Stop(f) => Stop(f)
        case Done(_, absorbed, p', rest') => Done(true, m + absorbed, p', rest')
      else Stop(if m[0] == SERVER_KEY_EXCHANGE then KeyExchangeSent else UnexpectedMessage(m[0]))
  }

  datatype Flight = Flight(hello: ServerHelloBody, leaf: seq<byte>, key: Key, requested: bool)

  function ServerFlight(h: Alg, offered: word16, i: Incoming): (r: Step<Flight>)
    requires DirectionOk(i.read)
    ensures r.Done? ==> DirectionOk(r.rest.read)
    ensures r.Stop? ==> r.failure != Writing
  {
    match HelloStep(h, offered, [], i)
    case Stop(f) => Stop(f)
    case Done(hello, a, p, rest) =>
      match CertificateStep(h, p, rest)
      case Stop(f) => Stop(f)
      case Done((leaf, key), b, p', rest') =>
        match OptionalStep(h, p', rest')
        case Stop(f) => Stop(f)
        case Done(requested, c, p'', rest'') => Done(Flight(hello, leaf, key, requested), a + b + c, p'', rest'')
  }

  // ---- the client's answer ----

  /** The padded premaster secret under the server's key; nothing when the key cannot be used. */
  function EncryptedPremaster(key: Key, premaster: seq<byte>, padding: seq<byte>): Option<seq<byte>>
    requires |premaster| == PREMASTER_LENGTH && |padding| == Rsa.BYTES
  {
    if !ValidKey(key) then None
    else
      var em := [0, 2] + padding[..key.k - PREMASTER_LENGTH - 3] + [0] + premaster;
      Some(BigBytes((Power(BigEndian(em), key.e) % key.n) % Bytes(key.k), key.k))
  }

  /** What is said only because a certificate was asked for. */
  function Certified(requested: bool): seq<byte> {
    if requested then EmptyCertificate() else []
  }

  function KeysOf(h: Alg, block: seq<byte>): Layer.KeyMaterial
    requires |block| == Layer.KeyBlockLength(h)
  {
    var m := DigestSize(h);
    Layer.KeyMaterial(block[..m], block[m..2 * m], block[2 * m..2 * m + KEY_LENGTH], block[2 * m + KEY_LENGTH..])
  }

  /** What follows from the secrets: the master secret, the record keys, and the client's Finished message over the
      transcript so far. */
  datatype Secrets = Secrets(master: seq<byte>, keys: Layer.KeyMaterial)

  function SecretsOf(hs: Hashes, premaster: seq<byte>, clientRandom: seq<byte>, serverRandom: seq<byte>): Secrets
    requires HashesOk(hs)
  {
    var master := MasterSecret(hs, premaster, clientRandom, serverRandom);
    Secrets(master, KeysOf(hs.md5, KeyBlock(hs, master, serverRandom, clientRandom, Layer.KeyBlockLength(hs.md5))))
  }

  datatype Reply = Reply(keyExchange: seq<byte>, secrets: Secrets, finished: seq<byte>, transcript: seq<byte>)

  /** `transcript` is what has been said so far; the reply's own transcript goes up to its Finished message. */
  function ReplyTo(hs: Hashes, offered: word16, e: Entropy, f: Flight, transcript: seq<byte>): Option<Reply>
    requires HashesOk(hs) && EntropyOk(e)
  {
    var premaster := Premaster(offered, e.premasterTail);
    match EncryptedPremaster(f.key, premaster, e.padding)
    case None => None
    case Some(c) =>
      var keyExchange := ClientKeyExchange(c);
      var said := transcript + Certified(f.requested) + keyExchange;
      var secrets := SecretsOf(hs, premaster, e.clientRandom, f.hello.random);
      var finished := Finished(hs, secrets.master, CLIENT_FINISHED, said);
      Some(Reply(keyExchange, secrets, finished, said + finished))
  }

  // ---- the server's answer ----

  function ReadKeys(keys: Layer.KeyMaterial): Direction {
    Direction(true, keys.serverMac, Keyed(keys.serverKey), 0, 0)
  }

  function WriteKeys(keys: Layer.KeyMaterial): Direction {
    Direction(true, keys.clientMac, Keyed(keys.clientKey), 0, 0)
  }

  /** After ChangeCipherSpec the server's Finished message must agree with the transcript up to ours. */
  function FinishStep(hs: Hashes, reply: Reply, pending: seq<byte>, i: Incoming): (r: Step<()>)
    requires HashesOk(hs) && DirectionOk(i.read)
    ensures r.Done? ==> DirectionOk(r.rest.read)
    ensures r.Stop? ==> r.failure != Writing
  {
    match NextCipherSpec(hs.md5, pending, i)
    case NotSwitched(e) => Stop(Reading(e))
    case Switched(rest) =>
      match NextMessage(hs.md5, [], rest.(read := ReadKeys(reply.secrets.keys)))
      case Nothing(e) => Stop(Reading(e))
      case Got(m, p, rest') =>
        if m[0] != FINISHED then Stop(UnexpectedMessage(m[0]))
        else if Body(m) != VerifyData(hs, reply.secrets.master, SERVER_FINISHED, reply.transcript) then
          Stop(BadFinished)
        else Done((), m, p, rest')
  }

  // ---- the whole handshake ----

  datatype Outcome =
    | Connected(flight: Flight, reply: Reply, absorbed: seq<byte>, serverFinished: seq<byte>, rest: Incoming)
    | Failed(failure: Failure)

  function HelloOf(offered: word16, e: Entropy): seq<byte> {
    ClientHello(offered, e.clientRandom, RSA_WITH_RC4_128_MD5)
  }

  function Negotiate(hs: Hashes, offered: word16, e: Entropy, i: Incoming): (o: Outcome)
    requires HashesOk(hs) && EntropyOk(e) && DirectionOk(i.read)
    ensures o.Connected? ==> DirectionOk(o.rest.read)
  {
    match ServerFlight(hs.md5, offered, i)
    case Stop(f) => Failed(f)
    case Done(flight, absorbed, pending, rest) =>
      match ReplyTo(hs, offered, e, flight, HelloOf(offered, e) + absorbed)
      case None => Failed(EncryptionFailed)
      case Some(reply) =>
        match FinishStep(hs, reply, pending, rest)
        case Stop(f) => Failed(f)
        case Done(_, serverFinished, _, rest') => Connected(flight, reply, absorbed, serverFinished, rest')
  }
}
