/** Loading and storing the fixed-width integers as big-endian bytes. */
module BigIntBytes {
  import opened BitOps
  import opened Limbs
  import opened BigInt

  function Bytes(n: nat): (r: nat)
    ensures r > 0
  {
    if n == 0 then 1 else 256 * Bytes(n - 1)
  }

  lemma {:induction false} BytesAdd(a: nat, b: nat)
    ensures Bytes(a + b) == Bytes(a) * Bytes(b)
  {
    if a > 0 {
      BytesAdd(a - 1, b);
      assert 256 * Bytes(a - 1) * Bytes(b) == 256 * (Bytes(a - 1) * Bytes(b));
    }
  }

  lemma {:induction false} BytesMono(a: nat, b: nat)
    requires a <= b
    ensures Bytes(a) <= Bytes(b)
  {
    if a < b {
      BytesMono(a, b - 1);
    }
  }

  lemma {:induction false} BytesOfLimbs(n: nat)
    ensures Bytes(4 * n) == Pow(n)
  {
    if n > 0 {
      BytesOfLimbs(n - 1);
      BytesAdd(4, 4 * (n - 1));
      BytesUpToFour();
    }
  }

  lemma BytesUpToFour()
    ensures Bytes(0) == 1 && Bytes(1) == 256 && Bytes(2) == 0x1_0000 && Bytes(3) == 0x100_0000 && Bytes(4) == BASE
  {
    assert Bytes(1) == 256 * Bytes(0) && Bytes(2) == 256 * Bytes(1);
    assert Bytes(3) == 256 * Bytes(2) && Bytes(4) == 256 * Bytes(3);
  }

  // ---- big-endian strings ----

  lemma {:induction false} BigEndianSplit(s: seq<byte>, k: nat)
    requires k <= |s|
    ensures BigEndian(s) == BigEndian(s[..k]) * Bytes(|s| - k) + BigEndian(s[k..])
    decreases |s|
  {
    var n := |s| - 1;
    if k == |s| {
      assert s[..k] == s && s[k..] == [];
    } else {
      BigEndianSplit(s[..n], k);
      assert s[..n][..k] == s[..k] && s[..n][k..] == s[k..][..n - k];
      assert s[k..][n - k] == s[n];
      PushDigit(BigEndian(s[..k]), Bytes(n - k), BigEndian(s[k..][..n - k]), s[n]);
    }
  }

  lemma PushDigit(h: int, w: int, l: int, d: int)
    ensures (h * w + l) * 256 + d == h * (256 * w) + (l * 256 + d)
  {
    assert h * (256 * w) == 256 * (h * w);
  }

  lemma {:induction false} BigEndianBound(s: seq<byte>)
    ensures BigEndian(s) < Bytes(|s|)
  {
    if s != [] {
      BigEndianBound(s[..|s| - 1]);
    }
  }

  lemma BigEndianOne(b: byte)
    ensures BigEndian([b]) == b
  {
    assert [b][..0] == [];
  }

  /** A leading zero adds nothing; any other leading byte makes the number that long. */
  lemma LeadingByte(s: seq<byte>)
    requires s != []
    ensures s[0] == 0 ==> BigEndian(s) == BigEndian(s[1..])
    ensures s[0] != 0 ==> BigEndian(s) >= Bytes(|s| - 1)
  {
    BigEndianSplit(s, 1);
    assert s[..1] == [s[0]];
    BigEndianOne(s[0]);
    if s[0] != 0 {
      MulMono(1, s[0], Bytes(|s| - 1));
    }
  }

  // ---- loading ----

  /** The value has its low `q` bytes clear, limb by limb. */
  ghost predicate Clean(v: seq<limb>, q: nat) {
    && (forall k :: 0 <= k < |v| && 4 * (k + 1) <= q ==> v[k] == 0)
    && (forall k :: 0 <= k < |v| && 4 * k < q < 4 * (k + 1) ==> v[k] % Bytes(q - 4 * k) == 0)
  }

  lemma OrShifted(h: nat, b: byte, m: nat)
    ensures Or(h * Bytes(m + 1), Shl(b, 8 * m)) == h * Bytes(m + 1) + b * Bytes(m)
  {
    Pow2OfBytes(m);
    Pow2OfBytes(m + 1);
    ShlIsMul(b, 8 * m);
    ShlIsMul(h, 8 * (m + 1));
    DigitLess(0, b, 256, Bytes(m));
    OrDisjoint(Shl(b, 8 * m), h, 8 * (m + 1));
  }

  lemma MultipleOf(h: nat, b: nat, w: nat)
    requires w > 0
    ensures (h * (256 * w) + b * w) % w == 0
  {
    assert h * (256 * w) + b * w == (h * 256 + b) * w;
    DivModUnique((h * 256 + b) * w, w, h * 256 + b, 0);
  }

  /** Or-ing a byte in below bytes that are already there adds it. */
  lemma OrByte(x: limb, b: byte, m: nat)
    requires m < 4 && x % Bytes(m + 1) == 0
    ensures Or(x, Shl(b, 8 * m)) == x + b * Bytes(m) < BASE
    ensures (x + b * Bytes(m)) % Bytes(m) == 0
  {
    var h := x / Bytes(m + 1);
    assert x == h * Bytes(m + 1);
    OrShifted(h, b, m);
    MultipleOf(h, b, Bytes(m));
    RoomForByte(x, b, m);
  }

  lemma RoomForByte(x: limb, b: byte, m: nat)
    requires m < 4 && x % Bytes(m + 1) == 0
    ensures x + b * Bytes(m) < BASE
  {
    BytesUpToFour();
    match m
    case 0 =>
    case 1 =>
    case 2 =>
    case _ =>
  }

  lemma {:induction false} Pow2OfBytes(n: nat)
    ensures Pow2(8 * n) == Bytes(n)
  {
    if n > 0 {
      Pow2OfBytes(n - 1);
      Pow2Add(8, 8 * (n - 1));
      Pow2Values();
    }
  }

  /** Clearing continues one byte further down. */
  lemma CleanBelow(s: seq<limb>, q: nat, x: limb)
    requires q / 4 < |s| && Clean(s, q + 1) && x % Bytes(q % 4) == 0
    ensures Clean(s[q / 4 := x], q)
  {
    var t := s[q / 4 := x];
    forall k | 0 <= k < |s| && 4 * (k + 1) <= q
      ensures t[k] == 0
    {
      assert s[k] == 0;
    }
    forall k | 0 <= k < |s| && 4 * k < q < 4 * (k + 1)
      ensures t[k] % Bytes(q - 4 * k) == 0
    {
      assert k == q / 4;
    }
  }

  lemma CleanHere(s: seq<limb>, q: nat)
    requires q / 4 < |s| && Clean(s, q + 1)
    ensures s[q / 4] % Bytes(q % 4 + 1) == 0
  {
    BytesUpToFour();
    var k := q / 4;
    if q % 4 == 3 {
      assert s[k] == 0;
    } else {
      assert 4 * k < q + 1 < 4 * (k + 1);
    }
  }

  lemma ByteWeight(b: nat, sig: nat)
    ensures b * Bytes(sig % 4) * Pow(sig / 4) == b * Bytes(sig)
  {
    BytesOfLimbs(sig / 4);
    BytesAdd(sig % 4, 4 * (sig / 4));
    assert b * Bytes(sig % 4) * Pow(sig / 4) == b * (Bytes(sig % 4) * Pow(sig / 4));
  }

  /** Puts one byte in place, the more significant ones being there already. */
  method PutByte(v: array<limb>, sig: nat, b: byte)
    requires sig < 4 * v.Length && Clean(v[..], sig + 1)
    modifies v
    ensures Clean(v[..], sig)
    ensures Value(v[..]) == old(Value(v[..])) + b * Bytes(sig)
  {
    ghost var s := v[..];
    CleanHere(s, sig);
    OrByte(v[sig / 4], b, sig % 4);
    var x: limb := Or(v[sig / 4], Shl(b, 8 * (sig % 4)));
    ValueUpdate(s, sig / 4, x);
    CleanBelow(s, sig, x);
    ByteWeight(b, sig);
    v[sig / 4] := x;
    assert v[..] == s[sig / 4 := x];
  }

  /** Loads a big-endian string. It is refused exactly when the value does not fit, and then `v` is zero. */
  method FromBytes(v: array<limb>, p: seq<byte>) returns (ok: bool)
    modifies v
    ensures ok <==> BigEndian(p) < Pow(v.Length)
    ensures Value(v[..]) == if ok then BigEndian(p) else 0
  {
    Clear(v);
    var q := DropZeros(p, 4 * v.Length);
    BytesOfLimbs(v.Length);
    if |q| > 4 * v.Length {
      LeadingByte(q);
      BytesMono(4 * v.Length, |q| - 1);
      return false;
    }
    BigEndianBound(q);
    BytesMono(|q|, 4 * v.Length);
    Load(v, q);
    return true;
  }

  /** Leading zeros beyond the width are tolerated. */
  method DropZeros(p: seq<byte>, width: nat) returns (q: seq<byte>)
    ensures BigEndian(q) == BigEndian(p)
    ensures |q| > width ==> q[0] != 0
  {
    q := p;
    while |q| > width && q[0] == 0
      invariant BigEndian(q) == BigEndian(p)
      decreases |q|
    {
      LeadingByte(q);
      q := q[1..];
    }
  }

  method Load(v: array<limb>, q: seq<byte>)
    requires |q| <= 4 * v.Length && forall k :: 0 <= k < v.Length ==> v[k] == 0
    modifies v
    ensures Value(v[..]) == BigEndian(q)
  {
    hide BigEndian, Bytes;
    ValueZeros(v[..]);
    ZeroIsClean(v[..], |q|);
    NoBytes(q);
    var i := 0;
    while i < |q|
      invariant 0 <= i <= |q| && Clean(v[..], |q| - i)
      invariant Value(v[..]) == BigEndian(q[..i]) * Bytes(|q| - i)
    {
      var sig := |q| - 1 - i;
      NextByte(q, i);
      PutByte(v, sig, q[i]);
      i := i + 1;
    }
    assert q[..|q|] == q;
  }

  lemma ZeroIsClean(s: seq<limb>, q: nat)
    requires forall k :: 0 <= k < |s| ==> s[k] == 0
    ensures Clean(s, q)
  {
    forall k | 0 <= k < |s| && 4 * k < q < 4 * (k + 1)
      ensures s[k] % Bytes(q - 4 * k) == 0
    {
      DivModUnique(0, Bytes(q - 4 * k), 0, 0);
    }
  }

  lemma NoBytes(q: seq<byte>)
    ensures BigEndian(q[..0]) == 0 && Bytes(0) == 1
  {
  }

  lemma NextByte(q: seq<byte>, i: nat)
    requires i < |q|
    ensures var w := Bytes(|q| - 1 - i);
      BigEndian(q[..i]) * Bytes(|q| - i) + q[i] * w == BigEndian(q[..i + 1]) * w
  {
    assert q[..i + 1][..i] == q[..i];
    Horner(BigEndian(q[..i]), q[i], Bytes(|q| - 1 - i));
  }

  lemma Horner(x: int, b: int, w: int)
    ensures x * (256 * w) + b * w == (x * 256 + b) * w
  {
  }

  // ---- storing ----

  lemma ByteBelow(x: nat)
    ensures x == Shr(x, 8) * 256 + Low(x, 8) && Low(x, 8) < 256
  {
    Pow2Values();
    ShrIsDiv(x, 8);
  }

  /** Stores the value big-endian, padded with zeros to the full width. */
  method ToBytes(v: array<limb>, out: array<byte>)
    requires out.Length == 4 * v.Length
    modifies out
    ensures BigEndian(out[..]) == Value(v[..])
  {
    var n := out.Length;
    ghost var s := v[..];
    ShrWords(s, v.Length);
    var i := 0;
    while i < n
      invariant 0 <= i <= n && v[..] == s
      invariant BigEndian(out[..i]) == Shr(Value(s), 8 * (n - i))
    {
      var sig := n - 1 - i;
      FieldOfLimb(s, sig / 4, 8 * (sig % 4), 8);
      assert 32 * (sig / 4) + 8 * (sig % 4) == 8 * sig;
      ShrAdd(Value(s), 8 * sig, 8);
      ByteBelow(Shr(Value(s), 8 * sig));
      ghost var before := out[..i];
      Pow2Values();
      out[i] := Low(Shr(v[sig / 4], 8 * (sig % 4)), 8);
      assert out[..i + 1] == before + [out[i]];
      assert out[..i + 1][..i] == before;
      i := i + 1;
    }
    assert out[..n] == out[..];
  }
}
