/** TLS 1.0 handshake messages and the running transcript. */
module Handshake {
  import opened BitOps
  import opened Hash
  import opened Options
  import opened Prf
  import opened Record
  import opened Seqs

  const CLIENT_HELLO: byte := 1
  const SERVER_HELLO: byte := 2
  const CERTIFICATE: byte := 11
  const SERVER_KEY_EXCHANGE: byte := 12
  const CERTIFICATE_REQUEST: byte := 13
  const SERVER_HELLO_DONE: byte := 14
  const CLIENT_KEY_EXCHANGE: byte := 16
  const FINISHED: byte := 20

  const RSA_WITH_RC4_128_MD5: word16 := 4
  const RANDOM_LENGTH: nat := 32
  const PREMASTER_LENGTH: nat := 48

  // ---- messages ----

  /** A message: its type, the length of its body in three bytes, and the body. */
  function Frame(t: byte, body: seq<byte>): seq<byte> {
    [t] + BigBytes(|body|, 3) + body
  }

  /** The length of the first message, header included, if all of it is there. */
  function MessageLength(s: seq<byte>): (r: Option<nat>)
    ensures r.Some? ==> 4 <= r.value <= |s|
  {
    if |s| < 4 then None
    else
      var len := (s[1] as int) * 0x1_0000 + (s[2] as int) * 256 + s[3];
      if |s| - 4 < len then None else Some(4 + len)
  }

  predicate IsMessage(s: seq<byte>) {
    MessageLength(s) == Some(|s|)
  }

  function Body(m: seq<byte>): seq<byte>
    requires |m| >= 4
  {
    m[4..]
  }

  lemma ThreeBytes(n: nat)
    requires n < 0x100_0000
    ensures BigBytes(n, 3) == [n / 256 / 256, n / 256 % 256, n % 256]
  {
    assert BigBytes(n / 256 / 256 / 256, 0) == [];
    assert BigBytes(n / 256 / 256, 1) == [n / 256 / 256 % 256];
    assert BigBytes(n / 256, 2) == [n / 256 / 256 % 256] + [n / 256 % 256];
  }

  /** A framed message is recognised whatever follows it. */
  lemma FrameRoundTrip(t: byte, body: seq<byte>, rest: seq<byte>)
    requires |body| < 0x100_0000
    ensures MessageLength(Frame(t, body) + rest) == Some(|Frame(t, body)|)
    ensures IsMessage(Frame(t, body)) && Frame(t, body)[0] == t && Body(Frame(t, body)) == body
  {
    ThreeBytes(|body|);
    var s := Frame(t, body) + rest;
    assert s[1] == |body| / 256 / 256 && s[2] == |body| / 256 % 256 && s[3] == |body| % 256;
    var f := Frame(t, body);
    assert f[1] == |body| / 256 / 256 && f[2] == |body| / 256 % 256 && f[3] == |body| % 256;
  }

  /** Bytes that arrive later do not change a message that was already complete. */
  lemma MessageStable(s: seq<byte>, more: seq<byte>)
    requires MessageLength(s).Some?
    ensures MessageLength(s + more) == MessageLength(s)
    ensures IsMessage(s[..MessageLength(s).value])
  {
    var n := MessageLength(s).value;
    assert forall i :: 0 <= i < 4 ==> (s + more)[i] == s[i] && s[..n][i] == s[i];
  }

  // ---- what the client sends ----

  function ClientHello(version: word16, random: seq<byte>, suite: word16): seq<byte> {
    Frame(CLIENT_HELLO,
      [version / 256, version % 256] + random + [0] + [0, 2] + [suite / 256, suite % 256] + [1, 0])
  }

  /** The premaster secret carries the version that was offered. */
  function Premaster(offered: word16, random: seq<byte>): seq<byte> {
    [offered / 256, offered % 256] + random
  }

  /** The encrypted premaster behind its own two-byte length. */
  function ClientKeyExchange(ciphertext: seq<byte>): seq<byte> {
    Frame(CLIENT_KEY_EXCHANGE, [|ciphertext| / 256 % 256, |ciphertext| % 256] + ciphertext)
  }

  function EmptyCertificate(): seq<byte> {
    Frame(CERTIFICATE, [0, 0, 0])
  }

  function Finished(hs: Hashes, master: seq<byte>, name: string, transcript: seq<byte>): seq<byte>
    requires HashesOk(hs)
  {
    Frame(FINISHED, VerifyData(hs, master, name, transcript))
  }

  // ---- what the server sends ----

  datatype ServerHelloBody = ServerHelloBody(version: word16, random: seq<byte>, session: seq<byte>, suite: word16,
                                             compression: byte)

  /** Trailing bytes are ignored. */
  function ParseServerHello(b: seq<byte>): (r: Option<ServerHelloBody>)
    ensures r.Some? ==> |r.value.random| == RANDOM_LENGTH && |r.value.session| <= 32
  {
    if |b| < 2 + 32 + 1 then None
    else
      var n := b[34];
      if n > 32 || |b| < 35 + n + 3 then None
      else Some(ServerHelloBody((b[0] as int) * 256 + b[1], b[2..34], b[35..35 + n],
                                (b[35 + n] as int) * 256 + b[36 + n], b[37 + n]))
  }

  function EncodeServerHello(s: ServerHelloBody): seq<byte>
    requires |s.session| <= 32
  {
    [s.version / 256, s.version % 256] + s.random + [|s.session|] + s.session +
    [s.suite / 256, s.suite % 256, s.compression]
  }

  lemma ServerHelloRoundTrip(s: ServerHelloBody, extensions: seq<byte>)
    requires |s.random| == RANDOM_LENGTH && |s.session| <= 32
    ensures ParseServerHello(EncodeServerHello(s) + extensions) == Some(s)
  {
    var n := |s.session|;
    var b := EncodeServerHello(s) + extensions;
    assert b[0] == s.version / 256 && b[1] == s.version % 256 && b[34] == n;
    assert b[2..34] == s.random && b[35..35 + n] == s.session;
    assert b[35 + n] == s.suite / 256 && b[36 + n] == s.suite % 256 && b[37 + n] == s.compression;
  }

  function Number24(s: seq<byte>): nat
    requires |s| >= 3
  {
    (s[0] as int) * 0x1_0000 + (s[1] as int) * 256 + s[2]
  }

  /** The entries of a certificate list, each behind its three-byte length. */
  function ParseEntries(s: seq<byte>): Option<seq<seq<byte>>>
    decreases |s|
  {
    if s == [] then Some([])
    else if |s| < 3 || |s| - 3 < Number24(s) then None
    else
      var n := Number24(s);
      match ParseEntries(s[3 + n..])
      case None => None
      case Some(more) => Some([s[3..3 + n]] + more)
  }

  /** At least one certificate is required; what follows the list is ignored. */
  function ParseCertificates(b: seq<byte>): (r: Option<seq<seq<byte>>>)
    ensures r.Some? ==> r.value != []
  {
    if |b| < 3 || |b| - 3 < Number24(b) then None
    else
      match ParseEntries(b[3..3 + Number24(b)])
      case None => None
      case Some(es) => if es == [] then None else Some(es)
  }

  function EncodeEntries(es: seq<seq<byte>>): seq<byte> {
    if es == [] then [] else BigBytes(|es[0]|, 3) + es[0] + EncodeEntries(es[1..])
  }

  lemma LengthPrefix(e: seq<byte>, rest: seq<byte>)
    requires |e| < 0x100_0000
    ensures var s := BigBytes(|e|, 3) + e + rest;
      Number24(s) == |e| && s[3..3 + |e|] == e && s[3 + |e|..] == rest
  {
    ThreeBytes(|e|);
    var n, s := |e|, BigBytes(|e|, 3) + e + rest;
    assert s[0] == n / 256 / 256 && s[1] == n / 256 % 256 && s[2] == n % 256;
  }

  lemma {:induction false} EntriesRoundTrip(es: seq<seq<byte>>)
    requires forall i :: 0 <= i < |es| ==> |es[i]| < 0x100_0000
    ensures ParseEntries(EncodeEntries(es)) == Some(es)
  {
    hide BigBytes, Number24;
    if es != [] {
      EntriesRoundTrip(es[1..]);
      LengthPrefix(es[0], EncodeEntries(es[1..]));
      var s := EncodeEntries(es);
      assert s == BigBytes(|es[0]|, 3) + es[0] + EncodeEntries(es[1..]);
      assert s != [];
      assert es == [es[0]] + es[1..];
    }
  }

  lemma CertificatesRoundTrip(es: seq<seq<byte>>, trailing: seq<byte>)
    requires es != [] && (forall i :: 0 <= i < |es| ==> |es[i]| < 0x100_0000)
    requires |EncodeEntries(es)| < 0x100_0000
    ensures ParseCertificates(BigBytes(|EncodeEntries(es)|, 3) + EncodeEntries(es) + trailing) == Some(es)
  {
    EntriesRoundTrip(es);
    LengthPrefix(EncodeEntries(es), trailing);
  }

  function Prepend(out: seq<seq<byte>>, r: Option<seq<seq<byte>>>): Option<seq<seq<byte>>> {
    if r.None? then None else Some(out + r.value)
  }

  /** Walks a certificate list, collecting its entries. */
  method CertificateList(b: seq<byte>) returns (r: Option<seq<seq<byte>>>)
    ensures r == ParseCertificates(b)
  {
    if |b| < 3 || |b| - 3 < Number24(b) {
      return None;
    }
    var list := b[3..3 + Number24(b)];
    var out: seq<seq<byte>> := [];
    ghost var all := ParseEntries(list);
    if all.Some? {
      AppendNil(all.value);
    }
    while list != []
      invariant all == Prepend(out, ParseEntries(list))
      decreases |list|
    {
      if |list| < 3 || |list| - 3 < Number24(list) {
        return None;
      }
      var n := Number24(list);
      ghost var rest := ParseEntries(list[3 + n..]);
      if rest.Some? {
        Assoc(out, [list[3..3 + n]], rest.value);
      }
      out := out + [list[3..3 + n]];
      list := list[3 + n..];
    }
    AppendNil(out);
    return if out == [] then None else Some(out);
  }

  // ---- alerts ----

  datatype AlertKind = Malformed | CloseNotify | Fatal(description: byte) | Ignorable

  /** Close-notify ends the connection at any level; other alerts end it when fatal. */
  function AlertOf(body: seq<byte>): AlertKind {
    if |body| != 2 then Malformed
    else if body[1] == 0 then CloseNotify
    else if body[0] == 2 then Fatal(body[1])
    else Ignorable
  }

  // ---- the transcript ----

  class Transcript {
    const hs: Hashes
    const md5: StreamHash
    const sha1: StreamHash
    /** Every message absorbed so far, one after the other. */
    ghost var message: seq<byte>
    ghost const repr: set<object>

    ghost predicate Valid()
      reads this, repr
    {
      && repr == {this, md5, md5.buffer, sha1, sha1.buffer}
      && HashesOk(hs) && md5.h == hs.md5 && sha1.h == hs.sha1
      && md5 != sha1 && md5.buffer != sha1.buffer
      && md5.Valid() && sha1.Valid()
      && md5.message == sha1.message == message
    }

    constructor (hs: Hashes)
      requires HashesOk(hs)
      ensures Valid() && this.hs == hs && message == []
      ensures fresh(repr) && this in repr
    {
      this.hs := hs;
      var m := new StreamHash(hs.md5);
      var s := new StreamHash(hs.sha1);
      md5, sha1, repr := m, s, {this, m, m.buffer, s, s.buffer};
      message := [];
    }

    method Update(m: seq<byte>)
      requires Valid()
      modifies repr
      ensures Valid() && message == old(message) + m
    {
      if |m| == 0 {
        AppendNil(message);
        return;
      }
      md5.Update(m);
      sha1.Update(m);
      message := message + m;
    }

    /** Both digests of the messages so far, leaving the transcript as it was. */
    method Snapshot() returns (m: seq<byte>, s: seq<byte>)
      requires Valid()
      ensures m == Digest(hs.md5, message) && s == Digest(hs.sha1, message)
      ensures Valid() && message == old(message)
    {
      hide StreamHash.Valid, Digest;
      var c := md5.Copy();
      var d := sha1.Copy();
      m := c.Finish();
      s := d.Finish();
    }

    /** The verify data of a Finished message over the transcript so far. */
    method Verify(master: seq<byte>, name: string) returns (data: seq<byte>)
      requires Valid()
      ensures data == VerifyData(hs, master, name, message)
      ensures Valid() && message == old(message)
    {
      var m, s := Snapshot();
      var out := ComputePrf(hs, master, Ascii(name), m + s, VERIFY_LENGTH);
      data := out[..];
    }
  }
}
