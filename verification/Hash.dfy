/** Streaming hashes of the MD5 and SHA-1 shape. The compression function is a parameter: what is modelled is
    how a message reaches it, block by block, however the message is cut into updates. */
module Hash {
  import opened BitOps

  type word = x: int | 0 <= x < 0x1_0000_0000

  /** The two algorithms differ in their starting words, their compression function, and the byte order of the
      message length and of the digest. */
  datatype Alg = Alg(iv: seq<word>, compress: (seq<word>, seq<byte>) -> seq<word>, bigEndian: bool)

  const BLOCK: nat := 64

  const MD5_IV: seq<word> := [0x67452301, 0xefcdab89, 0x98badcfe, 0x10325476]
  const SHA1_IV: seq<word> := [0x67452301, 0xEFCDAB89, 0x98BADCFE, 0x10325476, 0xC3D2E1F0]

  /** Compression keeps the number of words. */
  ghost predicate KeepsSize(compress: (seq<word>, seq<byte>) -> seq<word>) {
    forall s: seq<word>, b: seq<byte> {:trigger compress(s, b)} :: |compress(s, b)| == |s|
  }

  ghost predicate AlgOk(h: Alg) {
    && 0 < |h.iv| <= 16
    && KeepsSize(h.compress)
  }

  function Md5(compress: (seq<word>, seq<byte>) -> seq<word>): (h: Alg)
    ensures DigestSize(h) == 16 && (AlgOk(h) <==> KeepsSize(compress))
  {
    Alg(MD5_IV, compress, false)
  }

  function Sha1(compress: (seq<word>, seq<byte>) -> seq<word>): (h: Alg)
    ensures DigestSize(h) == 20 && (AlgOk(h) <==> KeepsSize(compress))
  {
    Alg(SHA1_IV, compress, true)
  }

  function DigestSize(h: Alg): nat {
    4 * |h.iv|
  }

  // ---- the one-shot definition ----

  /** Compresses every whole block of `m`, and ignores what is left over. */
  function Fold(h: Alg, s: seq<word>, m: seq<byte>): seq<word>
    decreases |m|
  {
    if |m| < BLOCK then s else Fold(h, h.compress(s, m[..BLOCK]), m[BLOCK..])
  }

  /** The `k` bytes of `n`, least significant first. */
  function LittleBytes(n: nat, k: nat): (r: seq<byte>)
    ensures |r| == k
  {
    if k == 0 then [] else [n % 256] + LittleBytes(n / 256, k - 1)
  }

  /** The `k` bytes of `n`, most significant first. */
  function BigBytes(n: nat, k: nat): (r: seq<byte>)
    ensures |r| == k
  {
    if k == 0 then [] else BigBytes(n / 256, k - 1) + [n % 256]
  }

  function NumberBytes(h: Alg, n: nat, k: nat): (r: seq<byte>)
    ensures |r| == k
  {
    if h.bigEndian then BigBytes(n, k) else LittleBytes(n, k)
  }

  function Output(h: Alg, s: seq<word>): (r: seq<byte>)
    ensures |r| == 4 * |s|
  {
    if s == [] then [] else NumberBytes(h, s[0], 4) + Output(h, s[1..])
  }

  /** How many bytes of 80 00 00 ... fill a message of `n` bytes up to 56 modulo 64. */
  function PadLength(n: nat): nat {
    var idx := n % BLOCK;
    if idx < 56 then 56 - idx else 120 - idx
  }

  function Padded(h: Alg, m: seq<byte>): seq<byte> {
    m + ([0x80] + ZeroBytes(PadLength(|m|) - 1)) + NumberBytes(h, 8 * |m|, 8)
  }

  function Digest(h: Alg, m: seq<byte>): seq<byte> {
    Output(h, Fold(h, h.iv, Padded(h, m)))
  }

  /** The padded message is a whole number of blocks, with at most one block added. */
  lemma PaddedIsWhole(h: Alg, m: seq<byte>)
    ensures |Padded(h, m)| % BLOCK == 0
    ensures |m| + 9 <= |Padded(h, m)| <= |m| + 72
  {
    var q, idx := |m| / BLOCK, |m| % BLOCK;
    assert |Padded(h, m)| == |m| + PadLength(|m|) + 8;
    DivModUnique(|Padded(h, m)|, BLOCK, if idx < 56 then q + 1 else q + 2, 0);
  }

  lemma {:induction false} FoldAppend(h: Alg, s: seq<word>, a: seq<byte>, b: seq<byte>)
    requires |a| % BLOCK == 0
    ensures Fold(h, s, a + b) == Fold(h, Fold(h, s, a), b)
    decreases |a|
  {
    if |a| == 0 {
      assert a + b == b;
    } else {
      assert (a + b)[..BLOCK] == a[..BLOCK] && (a + b)[BLOCK..] == a[BLOCK..] + b;
      FoldAppend(h, h.compress(s, a[..BLOCK]), a[BLOCK..], b);
    }
  }

  lemma {:induction false} FoldSize(h: Alg, s: seq<word>, m: seq<byte>)
    requires AlgOk(h)
    ensures |Fold(h, s, m)| == |s|
    decreases |m|
  {
    if |m| >= BLOCK {
      FoldSize(h, h.compress(s, m[..BLOCK]), m[BLOCK..]);
    }
  }

  lemma DigestLength(h: Alg, m: seq<byte>)
    requires AlgOk(h)
    ensures |Digest(h, m)| == DigestSize(h)
  {
    FoldSize(h, h.iv, Padded(h, m));
  }

  /** What a message does to the state is done by its whole blocks. */
  lemma FoldWhole(h: Alg, s: seq<word>, m: seq<byte>)
    ensures Fold(h, s, m) == Fold(h, s, m[..|m| - |m| % BLOCK])
  {
    var n := |m| - |m| % BLOCK;
    assert m == m[..n] + m[n..];
    FoldAppend(h, s, m[..n], m[n..]);
  }

  // ---- the streaming object ----

  class StreamHash {
    const h: Alg
    /** Message length in bits. */
    var count: nat
    var state: seq<word>
    const buffer: array<byte>
    /** The message so far. */
    ghost var message: seq<byte>

    /** The whole blocks are in the state, and the rest is in the buffer. */
    ghost predicate Valid()
      reads this, buffer
    {
      && buffer.Length == BLOCK
      && count == 8 * |message|
      && state == Fold(h, h.iv, message)
      && buffer[..|message| % BLOCK] == message[|message| - |message| % BLOCK..]
    }

    constructor (h: Alg)
      ensures Valid() && fresh(buffer) && this.h == h && message == []
    {
      this.h := h;
      buffer := new byte[64](_ => 0);
      count, state := 0, h.iv;
      message := [];
    }

    method Init()
      requires buffer.Length == BLOCK
      modifies this, buffer
      ensures Valid() && message == []
    {
      for i := 0 to 64 {
        buffer[i] := 0;
      }
      count, state, message := 0, h.iv, [];
    }

    method Transform(block: seq<byte>)
      modifies this`state
      ensures state == h.compress(old(state), block)
    {
      state := h.compress(state, block);
    }

    /** Copies `data` into the buffer from `idx`. */
    method Store(idx: nat, data: seq<byte>)
      requires buffer.Length == BLOCK && idx + |data| <= BLOCK
      modifies buffer
      ensures buffer[..idx + |data|] == old(buffer[..idx]) + data
    {
      ghost var b := buffer[..idx];
      for i := 0 to |data|
        invariant buffer[..idx + i] == b + data[..i]
      {
        buffer[idx + i] := data[i];
      }
    }

    method Update(data: seq<byte>)
      requires Valid()
      modifies this, buffer
      ensures Valid() && message == old(message) + data
    {
      var idx := count / 8 % 64;
      count := count + 8 * |data|;
      var part := 64 - idx;
      var i := 0;
      ghost var m := message;
      assert m + data[..0] == m;
      if |data| >= part {
        i := Compress(idx, data, m);
        idx := 0;
      }
      Store(idx, data[i..]);
      message := m + data;
      Tail(h, m, data, i, idx);
    }

    /** Fills the buffer up to a block, and then takes whole blocks straight from the data. */
    method Compress(idx: nat, data: seq<byte>, ghost m: seq<byte>) returns (i: nat)
      requires buffer.Length == BLOCK && idx == |m| % BLOCK && |data| >= 64 - idx
      requires state == Fold(h, h.iv, m) && buffer[..idx] == m[|m| - idx..]
      modifies this`state, buffer
      ensures 0 < i <= |data| < i + 64 && (|m| + i) % 64 == 0
      ensures state == Fold(h, h.iv, m + data[..i])
    {
      var part := 64 - idx;
      Store(idx, data[..part]);
      assert buffer[..] == buffer[..64];
      FirstBlock(h, m, data[..part]);
      Transform(buffer[..]);
      i := part;
      while i + 63 < |data|
        invariant part <= i <= |data| && (|m| + i) % 64 == 0
        invariant state == Fold(h, h.iv, m + data[..i])
      {
        FoldsNextBlock(h, m + data[..i], data[i..i + 64]);
        assert m + data[..i + 64] == (m + data[..i]) + data[i..i + 64];
        Transform(data[i..i + 64]);
        i := i + 64;
      }
    }

    /** The digest of the message so far, after which the object is ready for another one. */
    method Finish() returns (digest: seq<byte>)
      requires Valid()
      modifies this, buffer
      ensures digest == Digest(h, old(message))
      ensures Valid() && message == []
    {
      hide Fold, Output, BigBytes, LittleBytes;
      ghost var m := message;
      var bits := NumberBytes(h, count, 8);
      var idx := count / 8 % 64;
      var padLen := if idx < 56 then 56 - idx else 120 - idx;
      Update([0x80] + ZeroBytes(padLen - 1));
      Update(bits);
      assert message == Padded(h, m);
      digest := Output(h, state);
      Init();
    }

    /** An object in the same state, which can be finished without disturbing this one. */
    method Copy() returns (c: StreamHash)
      requires Valid()
      ensures fresh(c) && fresh(c.buffer) && c.Valid() && c.h == h && c.message == message
    {
      c := new StreamHash(h);
      c.count, c.state, c.message := count, state, message;
      for i := 0 to 64
        invariant c.buffer[..i] == buffer[..i]
        invariant c.count == count && c.state == state && c.message == message
      {
        c.buffer[i] := buffer[i];
      }
      var k := |message| % BLOCK;
      assert c.buffer[..k] == c.buffer[..64][..k] == buffer[..64][..k] == buffer[..k];
    }
  }

  /** Filling the buffer up completes a block. */
  lemma {:induction false} FirstBlock(h: Alg, m: seq<byte>, part: seq<byte>)
    requires |m| % BLOCK + |part| == BLOCK
    ensures var block := m[|m| - |m| % BLOCK..] + part;
      Fold(h, h.iv, m + part) == h.compress(Fold(h, h.iv, m), block)
  {
    var n := |m| - |m| % BLOCK;
    FoldWhole(h, h.iv, m);
    assert m + part == m[..n] + (m[n..] + part);
    FoldsNextBlock(h, m[..n], m[n..] + part);
  }

  lemma FoldsNextBlock(h: Alg, m: seq<byte>, block: seq<byte>)
    requires |m| % BLOCK == 0 && |block| == BLOCK
    ensures Fold(h, h.iv, m + block) == h.compress(Fold(h, h.iv, m), block)
  {
    FoldAppend(h, h.iv, m, block);
    assert block[..BLOCK] == block;
    var s := Fold(h, h.iv, m);
    assert Fold(h, s, block) == Fold(h, h.compress(s, block), block[BLOCK..]);
  }

  /** The bytes after the last whole block stay in the buffer. */
  lemma {:induction false} Tail(h: Alg, m: seq<byte>, data: seq<byte>, i: nat, idx: nat)
    requires i <= |data| && idx + (|data| - i) < BLOCK
    requires if i == 0 then idx == |m| % BLOCK else idx == 0 && (|m| + i) % BLOCK == 0
    ensures Fold(h, h.iv, m + data) == Fold(h, h.iv, m + data[..i])
    ensures |m + data| % BLOCK == idx + (|data| - i)
    ensures var t := m + data;
      t[|t| - |t| % BLOCK..] == (if i == 0 then m[|m| - |m| % BLOCK..] else []) + data[i..]
  {
    var t, u := m + data, m + data[..i];
    var base := if i == 0 then |m| - idx else |m| + i;
    DivModUnique(|t|, BLOCK, base / BLOCK, idx + (|data| - i));
    assert |u| - |u| % BLOCK == base == |t| - |t| % BLOCK;
    assert t[..base] == u[..base];
    assert t[base..] == (if i == 0 then m[|m| - idx..] else []) + data[i..];
    FoldWhole(h, h.iv, t);
    FoldWhole(h, h.iv, u);
  }
}
