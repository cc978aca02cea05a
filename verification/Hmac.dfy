/** Keyed hashing with one object reused for many messages, and the pseudo-random function built on it. */
module Hmac {
  import opened BitOps
  import opened Hash
  import opened Seqs

  // ---- the one-shot definition ----

  function XorAll(s: seq<byte>, c: byte): (r: seq<byte>)
    ensures |r| == |s|
  {
    seq(|s|, i requires 0 <= i < |s| => Xor(s[i], c))
  }

  /** A key made exactly one block long: hashed if it is longer, then filled up with zeros. */
  function BlockKey(h: Alg, key: seq<byte>): seq<byte> {
    var k := if |key| > BLOCK then Digest(h, key) else key;
    if |k| <= BLOCK then k + ZeroBytes(BLOCK - |k|) else k
  }

  lemma BlockKeyLength(h: Alg, key: seq<byte>)
    requires AlgOk(h)
    ensures |BlockKey(h, key)| == BLOCK
  {
    DigestLength(h, key);
  }

  function Mac(h: Alg, key: seq<byte>, m: seq<byte>): seq<byte> {
    var k := BlockKey(h, key);
    Digest(h, XorAll(k, 0x5C) + Digest(h, XorAll(k, 0x36) + m))
  }

  lemma MacFromPads(h: Alg, key: seq<byte>, ipad: seq<byte>, opad: seq<byte>, m: seq<byte>)
    requires ipad == XorAll(BlockKey(h, key), 0x36) && opad == XorAll(BlockKey(h, key), 0x5C)
    ensures Mac(h, key, m) == Digest(h, opad + Digest(h, ipad + m))
  {
  }

  lemma MacLength(h: Alg, key: seq<byte>, m: seq<byte>)
    requires AlgOk(h)
    ensures |Mac(h, key, m)| == DigestSize(h)
  {
    var k := BlockKey(h, key);
    DigestLength(h, XorAll(k, 0x5C) + Digest(h, XorAll(k, 0x36) + m));
  }

  class HMAC {
    const h: Alg
    const inner: StreamHash
    var ipad: seq<byte>
    var opad: seq<byte>
    ghost var key: seq<byte>
    /** What has been added since the last digest. */
    ghost var message: seq<byte>

    ghost predicate Valid()
      reads this, inner, inner.buffer
    {
      && AlgOk(h) && inner.h == h && inner.Valid()
      && ipad == XorAll(BlockKey(h, key), 0x36)
      && opad == XorAll(BlockKey(h, key), 0x5C)
      && inner.message == ipad + message
    }

    constructor (h: Alg, key: seq<byte>)
      requires AlgOk(h)
      ensures Valid() && this.h == h && this.key == key && message == []
      ensures |ipad| == |opad| == BLOCK
      ensures fresh(inner) && fresh(inner.buffer)
    {
      this.h := h;
      inner := new StreamHash(h);
      ipad, opad := [], [];
      new;
      Init(key);
    }

    method Init(k: seq<byte>)
      requires AlgOk(h) && inner.h == h && inner.Valid()
      modifies this, inner, inner.buffer
      ensures Valid() && key == k && message == []
      ensures |ipad| == |opad| == BLOCK
    {
      var blockKey := k;
      if |k| > 64 {
        var long := new StreamHash(h);
        long.Update(k);
        AppendNil(k);
        blockKey := long.Finish();
        DigestLength(h, k);
      }
      blockKey := blockKey + ZeroBytes(64 - |blockKey|);
      ipad := XorAll(blockKey, 0x36);
      opad := XorAll(blockKey, 0x5C);
      key := k;
      BlockKeyLength(h, k);
      Begin();
    }

    /** Starts another message under the same key. */
    method Begin()
      requires inner.Valid()
      modifies this`message, inner, inner.buffer
      ensures inner.Valid() && inner.message == ipad + message && message == []
    {
      inner.Init();
      inner.Update(ipad);
      AppendNil(ipad);
      message := [];
    }

    method Update(data: seq<byte>)
      requires Valid()
      modifies this`message, inner, inner.buffer
      ensures Valid() && message == old(message) + data
    {
      inner.Update(data);
      Assoc(ipad, message, data);
      message := message + data;
    }

    /** The MAC of the message, after which the object is ready for the next one under the same key. */
    method Finish() returns (mac: seq<byte>)
      requires Valid()
      modifies this`message, inner, inner.buffer
      ensures mac == Mac(h, key, old(message))
      ensures Valid() && message == [] && key == old(key)
    {
      hide StreamHash.Valid, Mac, XorAll, BlockKey;
      MacFromPads(h, key, ipad, opad, message);
      var digest := inner.Finish();
      mac := OuterDigest(digest);
      Begin();
    }

    method OuterDigest(digest: seq<byte>) returns (mac: seq<byte>)
      ensures mac == Digest(h, opad + digest)
    {
      var outer := new StreamHash(h);
      AppendNil(opad);
      outer.Update(opad);
      outer.Update(digest);
      mac := outer.Finish();
    }
  }

  // ---- P_hash ----

  /** A(0) is the seed, and each A(i) is the MAC of the one before. */
  function Chain(h: Alg, secret: seq<byte>, seed: seq<byte>, i: nat): seq<byte> {
    if i == 0 then seed else Mac(h, secret, Chain(h, secret, seed, i - 1))
  }

  /** The i-th block of the stream: the MAC of A(i) and the seed. */
  function Blocks(h: Alg, secret: seq<byte>, seed: seq<byte>): nat -> seq<byte> {
    (i: nat) => Mac(h, secret, Chain(h, secret, seed, i) + seed)
  }

  lemma BlockLengths(h: Alg, secret: seq<byte>, seed: seq<byte>)
    requires AlgOk(h)
    ensures Sized(Blocks(h, secret, seed), DigestSize(h))
  {
    forall i: nat
      ensures |Blocks(h, secret, seed)(i)| == DigestSize(h)
    {
      MacLength(h, secret, Chain(h, secret, seed, i) + seed);
    }
  }

  // ---- streams of equally long blocks ----

  ghost predicate Sized(f: nat -> seq<byte>, size: nat) {
    forall i: nat :: |f(i)| == size
  }

  /** The `n` blocks from the `i`-th on, one after the other. */
  function Stream(f: nat -> seq<byte>, i: nat, n: nat): seq<byte>
    decreases n
  {
    if n == 0 then [] else f(i) + Stream(f, i + 1, n - 1)
  }

  lemma {:induction false} StreamLength(f: nat -> seq<byte>, size: nat, i: nat, n: nat)
    requires Sized(f, size)
    ensures |Stream(f, i, n)| == n * size
    decreases n
  {
    if n > 0 {
      StreamLength(f, size, i + 1, n - 1);
      assert n * size == size + (n - 1) * size;
    }
  }

  lemma {:induction false} StreamSplit(f: nat -> seq<byte>, i: nat, n: nat, m: nat)
    ensures Stream(f, i, n + m) == Stream(f, i, n) + Stream(f, i + n, m)
    decreases n
  {
    if n > 0 {
      StreamSplit(f, i + 1, n - 1, m);
    }
  }

  lemma StreamPush(f: nat -> seq<byte>, i: nat, n: nat)
    ensures Stream(f, i, n + 1) == Stream(f, i, n) + f(i + n)
  {
    StreamSplit(f, i, n, 1);
    assert Stream(f, i + n, 1) == f(i + n) + Stream(f, i + n + 1, 0);
  }

  lemma Enough(f: nat -> seq<byte>, size: nat, len: nat)
    requires size > 0 && Sized(f, size)
    ensures len <= |Stream(f, 1, len)|
  {
    StreamLength(f, size, 1, len);
    MulMono(1, size, len);
  }

  /** Any stretch long enough begins with the same `len` bytes. */
  lemma StreamPrefix(f: nat -> seq<byte>, size: nat, n: nat, len: nat)
    requires size > 0 && Sized(f, size) && len <= |Stream(f, 1, n)|
    ensures len <= |Stream(f, 1, len)| && Stream(f, 1, len)[..len] == Stream(f, 1, n)[..len]
  {
    Enough(f, size, len);
    if n <= len {
      StreamSplit(f, 1, n, len - n);
    } else {
      StreamSplit(f, 1, len, n - len);
    }
  }

  /** The first `len` bytes of the endless stream of MACs A(1)+seed, A(2)+seed, and so on. */
  function PHash(h: Alg, secret: seq<byte>, seed: seq<byte>, len: nat): (r: seq<byte>)
    requires AlgOk(h)
    ensures |r| == len
  {
    BlockLengths(h, secret, seed);
    Enough(Blocks(h, secret, seed), DigestSize(h), len);
    Stream(Blocks(h, secret, seed), 1, len)[..len]
  }

  /** Asking for less gives the beginning of what asking for more gives. */
  lemma ShorterIsPrefix(h: Alg, secret: seq<byte>, seed: seq<byte>, short: nat, long: nat)
    requires AlgOk(h) && short <= long
    ensures PHash(h, secret, seed, short) == PHash(h, secret, seed, long)[..short]
  {
    BlockLengths(h, secret, seed);
    var f := Blocks(h, secret, seed);
    Enough(f, DigestSize(h), long);
    StreamPrefix(f, DigestSize(h), long, short);
  }

  /** One turn of the loop: another block, cut off where enough bytes have been made. */
  lemma StreamStep(f: nat -> seq<byte>, k: nat, out: seq<byte>, chunk: seq<byte>, len: nat)
    requires out == Stream(f, 1, k) && |out| < len && chunk == f(k + 1) && chunk != []
    ensures var n := if len - |out| < |chunk| then len - |out| else |chunk|;
      var next := out + chunk[..n];
      && |out| < |next| <= len
      && next <= Stream(f, 1, k + 1) && (|next| < len ==> next == Stream(f, 1, k + 1))
  {
    StreamPush(f, 1, k);
    assert f(1 + k) == chunk;
  }

  method ComputePHash(h: Alg, secret: seq<byte>, seed: seq<byte>, outlen: nat) returns (out: seq<byte>)
    requires AlgOk(h)
    ensures out == PHash(h, secret, seed, outlen)
  {
    if outlen == 0 {
      return [];
    }
    var mac := new HMAC(h, secret);
    var a := MacOf(mac, seed, []);
    out := [];
    ghost var k := 0;
    ProducedNothing(h, secret, seed, outlen);
    while |out| < outlen
      invariant mac.Valid() && mac.h == h && mac.key == secret && mac.message == []
      invariant fresh(mac) && fresh(mac.inner) && fresh(mac.inner.buffer)
      invariant Produced(h, secret, seed, outlen, out, a, k)
      decreases outlen - |out|
    {
      out, a := PHashTurn(mac, a, seed, outlen, out, k);
      k := k + 1;
    }
    ProducedAll(h, secret, seed, outlen, out, a, k);
  }

  lemma ProducedNothing(h: Alg, secret: seq<byte>, seed: seq<byte>, outlen: nat)
    ensures Produced(h, secret, seed, outlen, [], Mac(h, secret, seed + []), 0)
  {
    AppendNil(seed);
    assert Chain(h, secret, seed, 1) == Mac(h, secret, Chain(h, secret, seed, 0));
  }

  lemma ProducedAll(h: Alg, secret: seq<byte>, seed: seq<byte>, outlen: nat, out: seq<byte>,
                                       a: seq<byte>, k: nat)
    requires AlgOk(h) && Produced(h, secret, seed, outlen, out, a, k) && |out| == outlen
    ensures out == PHash(h, secret, seed, outlen)
  {
    BlockLengths(h, secret, seed);
    StreamPrefix(Blocks(h, secret, seed), DigestSize(h), k, outlen);
  }

  /** After `k` blocks: the bytes so far, and A(k+1) if more are wanted. */
  ghost predicate Produced(h: Alg, secret: seq<byte>, seed: seq<byte>, outlen: nat, out: seq<byte>, a: seq<byte>,
                           k: nat)
  {
    var s := Stream(Blocks(h, secret, seed), 1, k);
    && |out| <= outlen && out <= s
    && (|out| < outlen ==> a == Chain(h, secret, seed, k + 1) && out == s)
  }

  method PHashTurn(mac: HMAC, a: seq<byte>, seed: seq<byte>, outlen: nat, out: seq<byte>, ghost k: nat)
    returns (out': seq<byte>, a': seq<byte>)
    requires mac.Valid() && mac.message == [] && |out| < outlen
    requires Produced(mac.h, mac.key, seed, outlen, out, a, k)
    modifies mac, mac.inner, mac.inner.buffer
    ensures mac.Valid() && mac.message == [] && mac.key == old(mac.key)
    ensures Produced(mac.h, mac.key, seed, outlen, out', a', k + 1) && |out'| > |out|
  {
    var chunk := MacOf(mac, a, seed);
    MacLength(mac.h, mac.key, a + seed);
    StreamStep(Blocks(mac.h, mac.key, seed), k, out, chunk, outlen);
    var n := if outlen - |out| < |chunk| then outlen - |out| else |chunk|;
    out', a' := out + chunk[..n], a;
    if |out'| < outlen {
      a' := MacOf(mac, a, []);
      AppendNil(a);
    }
  }

  /** One MAC of two pieces with an object that is left ready for the next. */
  method MacOf(mac: HMAC, a: seq<byte>, b: seq<byte>) returns (r: seq<byte>)
    requires mac.Valid() && mac.message == []
    modifies mac, mac.inner, mac.inner.buffer
    ensures mac.Valid() && mac.message == [] && mac.key == old(mac.key)
    ensures r == Mac(mac.h, mac.key, a + b)
  {
    AppendNil(a);
    mac.Update(a);
    mac.Update(b);
    r := mac.Finish();
  }
}
