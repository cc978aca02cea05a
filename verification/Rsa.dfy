/** RSA encryption under a public key, with type 2 padding. */
module Rsa {
  import opened BitOps
  import opened Limbs
  import opened BigInt
  import opened BigIntBytes
  import opened Options

  /** Limbs and bytes of the 2048-bit integers the key exchange uses. */
  const LIMBS: nat := 64
  const BYTES: nat := 256

  /** A public key as numbers: the modulus, the exponent, and the modulus size in bytes. */
  datatype Key = Key(n: nat, e: nat, k: nat)

  predicate ValidKey(key: Key) {
    64 <= key.k <= BYTES && key.e >= 3 && key.n != 0
  }

  /** What a key taken from a certificate also satisfies: the modulus is exactly `k` bytes long. */
  ghost predicate ExactKey(key: Key) {
    && ValidKey(key) && key.e < BASE
    && Bytes(key.k - 1) <= key.n < Bytes(key.k)
  }

  class RsaPublicKey {
    const n: array<limb>
    var e: limb
    var k: nat

    ghost predicate Sized()
    {
      n.Length == LIMBS
    }

    ghost function Model(): Key
      reads this, n
    {
      Key(Value(n[..]), e, k)
    }

    constructor ()
      ensures Sized() && Model() == Key(0, 0, 0) && fresh(n)
    {
      n := new limb[LIMBS];
      e, k := 0, 0;
      new;
      Clear(n);
    }

    method Valid() returns (ok: bool)
      requires Sized()
      ensures ok == ValidKey(Model())
    {
      var zero := IsZero(n);
      ok := k >= 64 && k <= BYTES && e >= 3 && !zero;
    }
  }

  lemma TailValue(s: seq<byte>, k: nat)
    requires k <= |s|
    ensures BigEndian(s[|s| - k..]) == BigEndian(s) % Bytes(k)
  {
    BigEndianSplit(s, |s| - k);
    BigEndianBound(s[|s| - k..]);
    DivModUnique(BigEndian(s), Bytes(k), BigEndian(s[..|s| - k]), BigEndian(s[|s| - k..]));
  }

  /** `m^e mod n` as exactly `k` big-endian bytes. It is refused exactly when the key is unusable or the input
      is too large for the integer type. */
  method PublicOp(key: RsaPublicKey, input: seq<byte>) returns (ok: bool, out: seq<byte>)
    requires key.Sized()
    ensures var m := key.Model();
      && (ok <==> ValidKey(m) && BigEndian(input) < Bytes(BYTES))
      && (ok ==> |out| == m.k && BigEndian(out) == (Power(BigEndian(input), m.e) % m.n) % Bytes(m.k))
      && (ok && m.n <= Bytes(m.k) ==> BigEndian(out) == Power(BigEndian(input), m.e) % m.n)
  {
    hide BigEndian, Bytes, Value, Power, Pow;
    out := [];
    ghost var m := key.Model();
    BytesOfLimbs(LIMBS);
    ok := key.Valid();
    if !ok {
      return;
    }
    var x := new limb[LIMBS];
    var c := new limb[LIMBS];
    ok := FromBytes(x, input);
    if !ok {
      return;
    }
    ok := ModExp(x, key.e, key.n, c);
    var full := new byte[BYTES];
    ToBytes(c, full);
    out := full[BYTES - key.k..];
    assert full[..][BYTES - key.k..] == out;
    TailValue(full[..], key.k);
    InRange(Power(BigEndian(input), m.e), m.n, Bytes(m.k));
  }

  lemma InRange(x: nat, n: nat, w: nat)
    requires 0 < n && 0 < w
    ensures n <= w ==> (x % n) % w == x % n
  {
    if n <= w {
      DivModUnique(x % n, w, 0, x % n);
    }
  }

  // ---- padding ----

  predicate NoZero(s: seq<byte>) {
    forall i :: 0 <= i < |s| ==> s[i] != 0
  }

  method CopyInto(buf: array<byte>, at: nat, s: seq<byte>)
    requires at + |s| <= buf.Length
    modifies buf
    ensures buf[..at + |s|] == old(buf[..at]) + s
  {
    ghost var before := buf[..at];
    for i := 0 to |s|
      invariant buf[..at + i] == before + s[..i]
    {
      buf[at + i] := s[i];
    }
  }

  /** The message behind 00 02, at least eight padding bytes, and a zero. `ps` supplies the random bytes. */
  method Pad(k: nat, msg: seq<byte>, ps: seq<byte>) returns (em: Option<seq<byte>>)
    requires k >= 12 && |msg| + 11 <= k ==> |ps| == k - |msg| - 3 && NoZero(ps)
    ensures em.Some? <==> k >= 12 && |msg| + 11 <= k
    ensures em.Some? ==> |em.value| == k && em.value == [0, 2] + ps + [0] + msg
  {
    if k < 12 || |msg| + 11 > k {
      return None;
    }
    var buf := new byte[k](_ => 0);
    var pslen := k - |msg| - 3;
    buf[0] := 0;
    buf[1] := 2;
    assert buf[..2] == [0, 2];
    CopyInto(buf, 2, ps);
    buf[2 + pslen] := 0;
    assert buf[..3 + pslen] == [0, 2] + ps + [0];
    CopyInto(buf, 3 + pslen, msg);
    assert buf[..] == buf[..k];
    em := Some(buf[..]);
  }

  function FirstZero(s: seq<byte>): (r: nat)
    ensures r <= |s|
  {
    if s == [] || s[0] == 0 then 0 else 1 + FirstZero(s[1..])
  }

  /** How the other side takes a padded message apart. */
  function Unpad(em: seq<byte>): Option<seq<byte>> {
    if |em| < 11 || em[0] != 0 || em[1] != 2 then None
    else
      var z := FirstZero(em[2..]);
      if z < 8 || 2 + z >= |em| then None else Some(em[2 + z + 1..])
  }

  lemma {:induction false} FirstZeroAfter(ps: seq<byte>, rest: seq<byte>)
    requires NoZero(ps)
    ensures FirstZero(ps + [0] + rest) == |ps|
  {
    if ps != [] {
      FirstZeroAfter(ps[1..], rest);
      assert (ps + [0] + rest)[1..] == ps[1..] + [0] + rest;
    } else {
      assert ps + [0] + rest == [0] + rest;
    }
  }

  /** Padding can be undone whatever the message, zero bytes included, and the padded block is always smaller
      than a modulus of `k` bytes, so the public operation does not reduce it first. */
  lemma PadRoundTrip(ps: seq<byte>, msg: seq<byte>, key: Key)
    requires NoZero(ps) && |ps| >= 8 && ExactKey(key) && key.k == |ps| + |msg| + 3
    ensures var em := [0, 2] + ps + [0] + msg;
      Unpad(em) == Some(msg) && BigEndian(em) < key.n
  {
    var em: seq<byte> := [0, 2] + ps + [0] + msg;
    assert em[2..] == ps + [0] + msg;
    FirstZeroAfter(ps, msg);
    assert em[2 + |ps| + 1..] == msg;
    LeadingByte(em);
    BigEndianBound(em[1..]);
  }
}
