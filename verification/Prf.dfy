/** The TLS 1.0 pseudo-random function and the three things derived with it. */
module Prf {
  import opened BitOps
  import opened Hash
  import opened Hmac

  /** The two hashes the function mixes. */
  datatype Hashes = Hashes(md5: Alg, sha1: Alg)

  ghost predicate HashesOk(hs: Hashes) {
    AlgOk(hs.md5) && AlgOk(hs.sha1) && DigestSize(hs.md5) == 16 && DigestSize(hs.sha1) == 20
  }

  /** The hashes of TLS 1.0, whatever their compression functions do to the words they are given. */
  lemma TlsHashesOk(md5: (seq<word>, seq<byte>) -> seq<word>, sha1: (seq<word>, seq<byte>) -> seq<word>)
    ensures HashesOk(Hashes(Md5(md5), Sha1(sha1))) <==> KeepsSize(md5) && KeepsSize(sha1)
  {
  }

  function Ascii(s: string): seq<byte> {
    seq(|s|, i requires 0 <= i < |s| => (s[i] as int) % 256)
  }

  const MASTER_SECRET: string := "master secret"
  const KEY_EXPANSION: string := "key expansion"
  const CLIENT_FINISHED: string := "client finished"
  const SERVER_FINISHED: string := "server finished"

  const MASTER_LENGTH: nat := 48
  const VERIFY_LENGTH: nat := 12

  function XorSeqs(a: seq<byte>, b: seq<byte>): (r: seq<byte>)
    requires |a| == |b|
    ensures |r| == |a|
  {
    seq(|a|, i requires 0 <= i < |a| => Xor(a[i], b[i]))
  }

  function FirstHalf(secret: seq<byte>): seq<byte> {
    secret[..(|secret| + 1) / 2]
  }

  function SecondHalf(secret: seq<byte>): seq<byte> {
    secret[|secret| - (|secret| + 1) / 2..]
  }

  /** The halves are equally long and cover the secret; they share the middle byte exactly when its length is
      odd. */
  lemma HalvesOverlap(secret: seq<byte>)
    ensures |FirstHalf(secret)| == |SecondHalf(secret)|
    ensures FirstHalf(secret) + SecondHalf(secret)[|secret| % 2..] == secret
    ensures |secret| % 2 == 1 ==> FirstHalf(secret)[|secret| / 2] == SecondHalf(secret)[0]
  {
  }

  function PrfOf(hs: Hashes, secret: seq<byte>, name: seq<byte>, seed: seq<byte>, len: nat): (r: seq<byte>)
    requires HashesOk(hs)
    ensures |r| == len
  {
    XorSeqs(PHash(hs.md5, FirstHalf(secret), name + seed, len), PHash(hs.sha1, SecondHalf(secret), name + seed, len))
  }

  method XorBuffers(m: seq<byte>, s: seq<byte>) returns (out: array<byte>)
    requires |m| == |s|
    ensures fresh(out) && out[..] == XorSeqs(m, s)
  {
    out := new byte[|m|];
    for i := 0 to |m|
      invariant forall k :: 0 <= k < i ==> out[k] == Xor(m[k], s[k])
    {
      out[i] := Xor(m[i], s[i]);
    }
  }

  method ComputePrf(hs: Hashes, secret: seq<byte>, name: seq<byte>, seed: seq<byte>, outlen: nat)
    returns (out: array<byte>)
    requires HashesOk(hs)
    ensures fresh(out) && out[..] == PrfOf(hs, secret, name, seed, outlen)
  {
    hide PHash, XorSeqs;
    var half := (|secret| + 1) / 2;
    var m := ComputePHash(hs.md5, secret[..half], name + seed, outlen);
    var s := ComputePHash(hs.sha1, secret[|secret| - half..], name + seed, outlen);
    out := XorBuffers(m, s);
  }

  /** A shorter request gives the beginning of a longer one. */
  lemma ShorterPrf(hs: Hashes, secret: seq<byte>, name: seq<byte>, seed: seq<byte>, short: nat, long: nat)
    requires HashesOk(hs) && short <= long
    ensures PrfOf(hs, secret, name, seed, short) == PrfOf(hs, secret, name, seed, long)[..short]
  {
    ShorterIsPrefix(hs.md5, FirstHalf(secret), name + seed, short, long);
    ShorterIsPrefix(hs.sha1, SecondHalf(secret), name + seed, short, long);
  }

  /** The client's random number comes first here. */
  function MasterSecret(hs: Hashes, preMaster: seq<byte>, clientRandom: seq<byte>, serverRandom: seq<byte>): seq<byte>
    requires HashesOk(hs)
  {
    PrfOf(hs, preMaster, Ascii(MASTER_SECRET), clientRandom + serverRandom, MASTER_LENGTH)
  }

  /** The server's random number comes first here. */
  function KeyBlock(hs: Hashes, master: seq<byte>, serverRandom: seq<byte>, clientRandom: seq<byte>, len: nat)
    : seq<byte>
    requires HashesOk(hs)
  {
    PrfOf(hs, master, Ascii(KEY_EXPANSION), serverRandom + clientRandom, len)
  }

  /** What a Finished message says about the handshake so far. */
  function VerifyData(hs: Hashes, master: seq<byte>, name: string, transcript: seq<byte>): (r: seq<byte>)
    requires HashesOk(hs)
    ensures |r| == VERIFY_LENGTH
  {
    PrfOf(hs, master, Ascii(name), Digest(hs.md5, transcript) + Digest(hs.sha1, transcript), VERIFY_LENGTH)
  }
}
