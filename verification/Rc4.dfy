/** The stream cipher, keyed directly for TLS or through MD5 for the console, with its continuous keystream. */
module Rc4 {
  import opened BitOps
  import opened Hash
  import opened Seqs

  /** The box and its two indices. */
  datatype Cipher = Cipher(box: seq<byte>, i: nat, j: nat)

  /** The box holds every byte exactly once. */
  ghost predicate Permutation(box: seq<byte>) {
    |box| == 256 && forall a, b :: 0 <= a < b < 256 ==> box[a] != box[b]
  }

  ghost predicate CipherOk(c: Cipher) {
    Permutation(c.box) && c.i < 256 && c.j < 256
  }

  function Swap(box: seq<byte>, a: nat, b: nat): (r: seq<byte>)
    requires a < |box| && b < |box|
    ensures |r| == |box|
  {
    box[a := box[b]][b := box[a]]
  }

  lemma SwapPermutes(box: seq<byte>, a: nat, b: nat)
    requires Permutation(box) && a < 256 && b < 256
    ensures Permutation(Swap(box, a, b))
  {
  }

  // ---- the keystream ----

  function Next(c: Cipher): (r: (Cipher, byte))
    requires |c.box| == 256
    ensures |r.0.box| == 256
  {
    var i := (c.i + 1) % 256;
    var j := (c.j + c.box[i]) % 256;
    var box := Swap(c.box, i, j);
    (Cipher(box, i, j), box[((box[i] as int) + box[j]) % 256])
  }

  function After(c: Cipher, n: nat): (r: Cipher)
    requires |c.box| == 256
    ensures |r.box| == 256
    decreases n
  {
    if n == 0 then c else After(Next(c).0, n - 1)
  }

  function Keystream(c: Cipher, n: nat): (r: seq<byte>)
    requires |c.box| == 256
    ensures |r| == n
    decreases n
  {
    if n == 0 then [] else [Next(c).1] + Keystream(Next(c).0, n - 1)
  }

  lemma NextIsOk(c: Cipher)
    requires CipherOk(c)
    ensures CipherOk(Next(c).0)
  {
    var i := (c.i + 1) % 256;
    SwapPermutes(c.box, i, (c.j + c.box[i]) % 256);
  }

  /** However long the keystream runs, the box stays a permutation. */
  lemma {:induction false} AfterIsOk(c: Cipher, n: nat)
    requires CipherOk(c)
    ensures CipherOk(After(c, n))
    decreases n
  {
    if n > 0 {
      NextIsOk(c);
      AfterIsOk(Next(c).0, n - 1);
    }
  }

  lemma {:induction false} AfterSplit(c: Cipher, n: nat, m: nat)
    requires |c.box| == 256
    ensures After(c, n + m) == After(After(c, n), m)
    decreases n
  {
    hide Next;
    if n > 0 {
      AfterSplit(Next(c).0, n - 1, m);
    }
  }

  /** The keystream goes on where it stopped. */
  lemma {:induction false} KeystreamSplit(c: Cipher, n: nat, m: nat)
    requires |c.box| == 256
    ensures Keystream(c, n + m) == Keystream(c, n) + Keystream(After(c, n), m)
    decreases n
  {
    hide Next;
    if n == 0 {
      AppendNil(Keystream(c, m));
    } else {
      var (next, k) := Next(c);
      KeystreamSplit(next, n - 1, m);
      Assoc([k], Keystream(next, n - 1), Keystream(After(c, n), m));
    }
  }

  function Crypt(c: Cipher, data: seq<byte>): (r: seq<byte>)
    requires |c.box| == 256
    ensures |r| == |data|
  {
    var k := Keystream(c, |data|);
    seq(|data|, i requires 0 <= i < |data| => Xor(data[i], k[i]))
  }

  /** Two ciphers in step undo each other. */
  lemma CryptTwice(c: Cipher, data: seq<byte>)
    requires |c.box| == 256
    ensures Crypt(c, Crypt(c, data)) == data
  {
    hide Keystream;
    var k, e := Keystream(c, |data|), Crypt(c, data);
    forall i | 0 <= i < |data|
      ensures Crypt(c, e)[i] == data[i]
    {
      XorCancel(data[i], k[i]);
    }
  }

  /** Encrypting in one go or in pieces is the same. */
  lemma {:induction false} CryptSplit(c: Cipher, a: seq<byte>, b: seq<byte>)
    requires |c.box| == 256
    ensures Crypt(c, a + b) == Crypt(c, a) + Crypt(After(c, |a|), b)
  {
    hide Next, Keystream;
    KeystreamSplit(c, |a|, |b|);
  }

  // ---- the key schedule ----

  /** A key of unusable length stands for a single zero byte. */
  function Effective(key: seq<byte>): (r: seq<byte>)
    ensures 0 < |r| <= 256
  {
    if key == [] || |key| > 256 then [0] else key
  }

  function Identity(): (r: seq<byte>)
    ensures |r| == 256
  {
    seq(256, i requires 0 <= i < 256 => i)
  }

  /** The box and the running index after `n` rounds of scheduling. */
  function Schedule(key: seq<byte>, n: nat): (r: (seq<byte>, nat))
    requires n <= 256
    ensures |r.0| == 256 && r.1 < 256
  {
    if n == 0 then (Identity(), 0)
    else
      var (box, j) := Schedule(key, n - 1);
      var k := Effective(key);
      var j' := (j + box[n - 1] + k[(n - 1) % |k|]) % 256;
      (Swap(box, n - 1, j'), j')
  }

  lemma {:induction false} SchedulePermutes(key: seq<byte>, n: nat)
    requires n <= 256
    ensures Permutation(Schedule(key, n).0)
  {
    if n > 0 {
      SchedulePermutes(key, n - 1);
      SwapPermutes(Schedule(key, n - 1).0, n - 1, Schedule(key, n).1);
    }
  }

  function Keyed(key: seq<byte>): (c: Cipher)
    ensures |c.box| == 256
  {
    Cipher(Schedule(key, 256).0, 0, 0)
  }

  lemma KeyedIsOk(key: seq<byte>)
    ensures CipherOk(Keyed(key))
  {
    SchedulePermutes(key, 256);
  }

  class RC4 {
    const box: array<byte>
    var i: nat
    var j: nat
    /** The session key the console's rekeying starts from, and the current derived key. */
    var pre: seq<byte>
    var key: seq<byte>

    ghost predicate Valid()
      reads this, box
    {
      box.Length == 256 && CipherOk(Model())
    }

    ghost function Model(): Cipher
      reads this, box
    {
      Cipher(box[..], i, j)
    }

    /** Keyed directly, as TLS does. */
    constructor Raw(key: seq<byte>)
      ensures Valid() && Model() == Keyed(key) && fresh(box)
    {
      box := new byte[256];
      i, j, pre := 0, 0, [];
      this.key := Effective(key);
      new;
      RunSchedule();
      KeyedIsOk(key);
      EffectiveTwice(key);
    }

    /** Keyed from a session key, through MD5. */
    constructor FromSeed(md5: Alg, seed: seq<byte>)
      requires AlgOk(md5) && DigestSize(md5) == 16
      ensures Valid() && fresh(box) && pre == seed && key == Digest(md5, seed + ZeroBytes(16))
      ensures Model() == Keyed(key)
    {
      box := new byte[256];
      i, j, pre, key := 0, 0, seed, ZeroBytes(16);
      new;
      UpdateKey(md5);
    }

    /** The next key is the digest of the session key and the current key; the keystream starts again. */
    method UpdateKey(md5: Alg)
      requires box.Length == 256 && AlgOk(md5) && DigestSize(md5) == 16
      modifies this, box
      ensures Valid() && pre == old(pre) && key == Digest(md5, old(pre) + old(key))
      ensures Model() == Keyed(key)
    {
      DigestLength(md5, pre + key);
      key := DeriveKey(md5);
      RunSchedule();
      KeyedIsOk(key);
    }

    method DeriveKey(md5: Alg) returns (next: seq<byte>)
      ensures next == Digest(md5, pre + key)
    {
      var d := new StreamHash(md5);
      AppendNil(pre);
      d.Update(pre);
      d.Update(key);
      next := d.Finish();
    }

    method RunSchedule()
      requires box.Length == 256 && 0 < |key| <= 256
      modifies this`i, this`j, box
      ensures box[..] == Schedule(key, 256).0 && i == j == 0
    {
      for n := 0 to 256
        invariant forall m :: 0 <= m < n ==> box[m] == m
      {
        box[n] := n;
      }
      assert box[..] == Schedule(key, 0).0;
      j := 0;
      i := 0;
      while i < 256
        invariant 0 <= i <= 256
        invariant (box[..], j) == Schedule(key, i)
        decreases 256 - i
      {
        ScheduleRound();
      }
      i := 0;
      j := 0;
    }

    method Exchange(a: nat, b: nat)
      requires box.Length == 256 && a < 256 && b < 256
      modifies box
      ensures box[..] == Swap(old(box[..]), a, b)
    {
      box[a], box[b] := box[b], box[a];
    }

    method ScheduleRound()
      requires box.Length == 256 && 0 < |key| <= 256 && i < 256 && (box[..], j) == Schedule(key, i)
      modifies this`i, this`j, box
      ensures i == old(i) + 1 && (box[..], j) == Schedule(key, i)
    {
      j := (j + box[i] + key[i % |key|]) % 256;
      Exchange(i, j);
      i := i + 1;
    }

    method RandomValue() returns (k: byte)
      requires Valid()
      modifies this`i, this`j, box
      ensures Valid() && (Model(), k) == Next(old(Model()))
    {
      NextIsOk(Model());
      i := (i + 1) % 256;
      j := (j + box[i]) % 256;
      Exchange(i, j);
      return box[((box[i] as int) + box[j]) % 256];
    }

    /** Combines a buffer with the keystream in place; the next call goes on from there. */
    method CryptInPlace(buf: array<byte>)
      requires Valid() && buf != box
      modifies this`i, this`j, box, buf
      ensures Valid() && Model() == After(old(Model()), buf.Length)
      ensures buf[..] == Crypt(old(Model()), old(buf[..]))
    {
      hide Next, Keystream, CipherOk, Xor;
      ghost var c, data := Model(), buf[..];
      var k := 0;
      while k < buf.Length
        invariant 0 <= k <= buf.Length && Valid()
        invariant Model() == After(c, k)
        invariant forall m :: k <= m < |data| ==> buf[m] == data[m]
        invariant forall m :: 0 <= m < k ==> buf[m] == Crypt(c, data)[m]
      {
        var r := RandomValue();
        KeystreamAt(c, k, |data|);
        buf[k] := Xor(buf[k], r);
        k := k + 1;
      }
    }
  }

  lemma EffectiveTwice(key: seq<byte>)
    ensures Keyed(Effective(key)) == Keyed(key)
  {
    SameSchedule(key, 256);
  }

  lemma {:induction false} SameSchedule(key: seq<byte>, n: nat)
    requires n <= 256
    ensures Schedule(Effective(key), n) == Schedule(key, n)
  {
    if n > 0 {
      SameSchedule(key, n - 1);
    }
  }

  lemma {:induction false} KeystreamAt(c: Cipher, k: nat, n: nat)
    requires |c.box| == 256 && k < n
    ensures Keystream(c, n)[k] == Next(After(c, k)).1
    ensures After(c, k + 1) == Next(After(c, k)).0
    decreases k
  {
    if k == 0 {
      assert After(c, 1) == After(Next(c).0, 0);
    } else {
      KeystreamAt(Next(c).0, k - 1, n - 1);
    }
  }
}
