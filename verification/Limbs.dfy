/** Little-endian strings of 32-bit limbs and big-endian strings of bytes, as numbers. */
module Limbs {
  import opened BitOps

  const BASE: nat := 0x1_0000_0000

  type limb = x: int | 0 <= x < 0x1_0000_0000

  /** What a 64-bit accumulator can hold. */
  type wide = x: int | 0 <= x < 0x1_0000_0000_0000_0000

  function Pow(n: nat): (r: nat)
    ensures r > 0
  {
    if n == 0 then 1 else BASE * Pow(n - 1)
  }

  function Value(s: seq<limb>): nat {
    if s == [] then 0 else Value(s[..|s| - 1]) + s[|s| - 1] * Pow(|s| - 1)
  }

  function BigEndian(s: seq<byte>): nat {
    if s == [] then 0 else BigEndian(s[..|s| - 1]) * 256 + s[|s| - 1]
  }

  // ---- powers and products ----

  lemma {:induction false} PowAdd(a: nat, b: nat)
    ensures Pow(a + b) == Pow(a) * Pow(b)
  {
    if a == 0 {
    } else {
      PowAdd(a - 1, b);
      assert Pow(a) * Pow(b) == BASE * Pow(a - 1) * Pow(b) == BASE * (Pow(a - 1) * Pow(b));
    }
  }

  lemma {:induction false} PowMono(a: nat, b: nat)
    requires a <= b
    ensures Pow(a) <= Pow(b)
  {
    if a < b {
      PowMono(a, b - 1);
    }
  }

  lemma MulBound(x: int, y: int, m: int, n: int)
    requires 0 <= x <= m && 0 <= y <= n
    ensures 0 <= x * y <= m * n
  {
    MulMono(x, m, y);
    MulMono(y, n, m);
  }

  lemma Distribute(p: int, h: int, x: int, q: int)
    ensures p * (h + x * q) == p * h + x * (p * q)
  {
    assert p * (h + x * q) == p * h + p * (x * q);
    assert p * (x * q) == x * (p * q);
  }

  lemma DigitLess(low: int, x: int, y: int, p: int)
    requires low < p && 0 < p && x < y
    ensures low + x * p < y * p
  {
    MulMono(x + 1, y, p);
    assert (x + 1) * p == x * p + p;
  }

  lemma Pow2Of32()
    ensures Pow2(32) == BASE == Pow(1)
  {
    Pow2Values();
    Pow2Add(8, 8);
    Pow2Add(16, 16);
  }

  // ---- the value of a limb string ----

  lemma ValuePush(s: seq<limb>, x: limb)
    ensures Value(s + [x]) == Value(s) + x * Pow(|s|)
  {
    assert (s + [x])[..|s|] == s;
  }

  lemma ValuePrefix(s: seq<limb>, k: nat)
    requires k < |s|
    ensures Value(s[..k + 1]) == Value(s[..k]) + s[k] * Pow(k)
  {
    assert s[..k + 1] == s[..k] + [s[k]];
    ValuePush(s[..k], s[k]);
  }

  lemma {:induction false} ValueBound(s: seq<limb>)
    ensures Value(s) < Pow(|s|)
  {
    if s != [] {
      var n := |s| - 1;
      ValueBound(s[..n]);
      DigitLess(Value(s[..n]), s[n], BASE, Pow(n));
    }
  }

  lemma {:induction false} ValueUpdate(s: seq<limb>, k: nat, x: limb)
    requires k < |s|
    ensures Value(s[k := x]) == Value(s) + (x - s[k]) * Pow(k)
  {
    var n := |s| - 1;
    if k == n {
      assert s[k := x][..n] == s[..n];
      assert (x - s[k]) * Pow(k) == x * Pow(k) - s[k] * Pow(k);
    } else {
      assert s[k := x][..n] == s[..n][k := x];
      ValueUpdate(s[..n], k, x);
    }
  }

  /** A limb string is its low part plus its high part shifted up. */
  lemma {:induction false} ValueSplit(s: seq<limb>, k: nat)
    requires k <= |s|
    ensures Value(s) == Value(s[..k]) + Pow(k) * Value(s[k..])
    decreases |s|
  {
    var n := |s| - 1;
    if k == |s| {
      assert s[..k] == s && s[k..] == [];
    } else {
      ValueSplit(s[..n], k);
      assert s[..n][..k] == s[..k] && s[..n][k..] == s[k..][..n - k];
      assert s[k..][n - k] == s[n];
      PowAdd(k, n - k);
      Distribute(Pow(k), Value(s[k..][..n - k]), s[n], Pow(n - k));
    }
  }

  lemma FirstLimb(s: seq<limb>)
    requires s != []
    ensures Value(s) == s[0] + BASE * Value(s[1..])
  {
    ValueSplit(s, 1);
    assert s[..1] == [] + [s[0]];
    ValuePush([], s[0]);
    assert Pow(0) == 1 && Pow(1) == BASE;
  }

  lemma {:induction false} ValueZeros(s: seq<limb>)
    requires forall i :: 0 <= i < |s| ==> s[i] == 0
    ensures Value(s) == 0
  {
    if s != [] {
      ValueZeros(s[..|s| - 1]);
    }
  }

  lemma ValueIsZero(s: seq<limb>)
    ensures Value(s) == 0 <==> forall i :: 0 <= i < |s| ==> s[i] == 0
  {
    if exists i :: 0 <= i < |s| && s[i] != 0 {
      var i :| 0 <= i < |s| && s[i] != 0;
      assert Value(s[i..]) > 0 by {
        FirstLimb(s[i..]);
      }
      ValueSplit(s, i);
      MulMono(1, Value(s[i..]), Pow(i));
    } else {
      ValueZeros(s);
    }
  }

  /** The highest limb at which two strings differ decides which is the larger. */
  lemma ValueCompare(a: seq<limb>, b: seq<limb>, k: nat)
    requires k < |a| == |b| && a[k + 1..] == b[k + 1..] && a[k] < b[k]
    ensures Value(a) < Value(b)
  {
    ValueSplit(a, k + 1);
    ValueSplit(b, k + 1);
    ValuePrefix(a, k);
    ValuePrefix(b, k);
    ValueBound(a[..k]);
    DigitLess(Value(a[..k]), a[k], b[k], Pow(k));
  }

  // ---- bits of a limb string ----

  lemma {:induction false} ShrAdd(x: nat, a: nat, b: nat)
    ensures Shr(x, a + b) == Shr(Shr(x, a), b)
  {
    if a > 0 {
      ShrAdd(x / 2, a - 1, b);
    }
  }

  lemma HalfSum(x: nat, y: nat, m: nat)
    requires m > 0
    ensures (x + Pow2(m) * y) / 2 == x / 2 + Pow2(m - 1) * y
    ensures (x + Pow2(m) * y) % 2 == x % 2
  {
    var p := Pow2(m - 1);
    assert (2 * p) * y == 2 * (p * y);
  }

  lemma {:induction false} LowShr(x: nat, y: nat, m: nat, j: nat, n: nat)
    requires j + n <= m
    ensures Low(Shr(x + Pow2(m) * y, j), n) == Low(Shr(x, j), n)
    decreases j + n
  {
    hide Pow2;
    if j > 0 {
      HalfSum(x, y, m);
      LowShr(x / 2, y, m - 1, j - 1, n);
    } else if n > 0 {
      HalfSum(x, y, m);
      LowShr(x / 2, y, m - 1, 0, n - 1);
    }
  }

  lemma LowShrLimb(x: nat, y: nat, j: nat, n: nat)
    requires j + n <= 32
    ensures Low(Shr(x + BASE * y, j), n) == Low(Shr(x, j), n)
  {
    LowShrWidth(x, y, 32, BASE, j, n) by {
      Pow2Of32();
    }
  }

  lemma LowShrWidth(x: nat, y: nat, m: nat, p: nat, j: nat, n: nat)
    requires j + n <= m && p == Pow2(m)
    ensures Low(Shr(x + p * y, j), n) == Low(Shr(x, j), n)
  {
    LowShr(x, y, m, j, n);
  }

  lemma ShrLimb(x: nat)
    ensures Shr(x, 32) == x / BASE
  {
    Pow2Of32();
    ShrIsDiv(x, 32);
  }

  lemma {:induction false} ShrWords(s: seq<limb>, k: nat)
    requires k <= |s|
    ensures Shr(Value(s), 32 * k) == Value(s[k..])
  {
    if k == 0 {
      assert s[0..] == s;
    } else {
      ShrWords(s, k - 1);
      ShrAdd(Value(s), 32 * (k - 1), 32);
      var t := s[k - 1..];
      FirstLimb(t);
      assert t[1..] == s[k..];
      ShrLimb(Value(t));
      DivModUnique(Value(t), BASE, Value(s[k..]), t[0]);
    }
  }

  /** Any field that lies inside one limb can be read from that limb. */
  lemma {:induction false} FieldOfLimb(s: seq<limb>, k: nat, j: nat, n: nat)
    requires k < |s| && j + n <= 32
    ensures Low(Shr(Value(s), 32 * k + j), n) == Low(Shr(s[k], j), n)
  {
    ShrWords(s, k);
    ShrAdd(Value(s), 32 * k, j);
    var t := s[k..];
    FirstLimb(t);
    LowShrLimb(t[0], Value(t[1..]), j, n);
  }
}
