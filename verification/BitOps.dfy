/** Bits of natural numbers, and the bitwise operators the sources use, on plain integers. */
module BitOps {
  type byte = x: int | 0 <= x < 256

  function Pow2(n: nat): (r: nat)
    ensures r > 0
  {
    if n == 0 then 1 else 2 * Pow2(n - 1)
  }

  function Bit(b: bool): (r: nat)
    ensures r <= 1
  {
    if b then 1 else 0
  }

  /** The low `n` bits of `x`, least significant first. */
  function ToBits(x: nat, n: nat): (bits: seq<bool>)
    ensures |bits| == n
  {
    if n == 0 then [] else [x % 2 == 1] + ToBits(x / 2, n - 1)
  }

  /** The value of a bit string read least significant bit first. */
  function Lsb(bits: seq<bool>): nat {
    if bits == [] then 0 else Bit(bits[0]) + 2 * Lsb(bits[1..])
  }

  /** The value of a bit string read most significant bit first. */
  function Msb(bits: seq<bool>): nat {
    if bits == [] then 0 else 2 * Msb(bits[..|bits| - 1]) + Bit(bits[|bits| - 1])
  }

  function Zeros(n: nat): (bits: seq<bool>)
    ensures |bits| == n && forall i :: 0 <= i < n ==> !bits[i]
  {
    seq(n, _ => false)
  }

  function ZeroBytes(n: nat): seq<byte> {
    seq(n, _ => 0)
  }

  /** The number of zero bits before the first one, `|bits|` when there is no one. */
  function LeadingZeros(bits: seq<bool>): (r: nat)
    ensures r <= |bits|
  {
    if bits == [] || bits[0] then 0 else 1 + LeadingZeros(bits[1..])
  }

  /** The number of zero bits after the last one, `|bits|` when there is no one. */
  function TrailingZeros(bits: seq<bool>): (r: nat)
    ensures r <= |bits|
  {
    if bits == [] || bits[|bits| - 1] then 0 else 1 + TrailingZeros(bits[..|bits| - 1])
  }

  lemma {:induction false} LeadingZerosMeaning(bits: seq<bool>)
    ensures var r := LeadingZeros(bits);
      (forall i :: 0 <= i < r ==> !bits[i]) && (r < |bits| ==> bits[r])
  {
    if bits != [] && !bits[0] {
      LeadingZerosMeaning(bits[1..]);
      assert forall i :: 0 < i < |bits| ==> bits[i] == bits[1..][i - 1];
    }
  }

  lemma {:induction false} TrailingZerosMeaning(bits: seq<bool>)
    ensures var r := TrailingZeros(bits);
      (forall i :: |bits| - r <= i < |bits| ==> !bits[i]) && (r < |bits| ==> bits[|bits| - 1 - r])
  {
    if bits != [] && !bits[|bits| - 1] {
      TrailingZerosMeaning(bits[..|bits| - 1]);
    }
  }

  /** `x << n`. */
  function Shl(x: nat, n: nat): nat {
    if n == 0 then x else 2 * Shl(x, n - 1)
  }

  /** `x >> n`. */
  function Shr(x: nat, n: nat): nat {
    if n == 0 then x else Shr(x / 2, n - 1)
  }

  /** The low `n` bits of `x`. */
  function Low(x: nat, n: nat): (r: nat)
    ensures r < Pow2(n)
  {
    if n == 0 then 0 else x % 2 + 2 * Low(x / 2, n - 1)
  }

  /** Bitwise or. */
  function Or(x: nat, y: nat): nat
    decreases x + y
  {
    if x == 0 then y
    else if y == 0 then x
    else 2 * Or(x / 2, y / 2) + (if x % 2 == 1 || y % 2 == 1 then 1 else 0)
  }

  /** Bitwise exclusive or of two `n`-bit numbers. */
  function XorBits(x: nat, y: nat, n: nat): (r: nat)
    ensures r < Pow2(n)
  {
    if n == 0 then 0
    else 2 * XorBits(x / 2, y / 2, n - 1) + (if x % 2 == y % 2 then 0 else 1)
  }

  function Xor(x: byte, y: byte): byte {
    assert Pow2(8) == 256;
    XorBits(x, y, 8)
  }

  // ---- powers of two ----

  lemma {:induction false} Pow2Add(a: nat, b: nat)
    ensures Pow2(a + b) == Pow2(a) * Pow2(b)
  {
    if a == 0 {
    } else {
      Pow2Add(a - 1, b);
      calc {
        Pow2(a) * Pow2(b);
        2 * Pow2(a - 1) * Pow2(b);
        2 * (Pow2(a - 1) * Pow2(b));
        2 * Pow2(a - 1 + b);
      }
    }
  }

  lemma Pow2Values()
    ensures Pow2(1) == 2 && Pow2(2) == 4 && Pow2(3) == 8 && Pow2(4) == 16
    ensures Pow2(5) == 32 && Pow2(6) == 64 && Pow2(7) == 128 && Pow2(8) == 256
  {
  }

  lemma {:induction false} Pow2Mono(a: nat, b: nat)
    requires a <= b
    ensures Pow2(a) <= Pow2(b)
  {
    if a < b {
      Pow2Mono(a, b - 1);
    }
  }

  lemma DivModUnique(x: int, d: int, q: int, r: int)
    requires d > 0 && 0 <= r < d && x == q * d + r
    ensures x / d == q && x % d == r
  {
    var q', r' := x / d, x % d;
    assert x == q' * d + r';
    assert (q - q') * d == r' - r;
    if q > q' {
      MulMono(1, q - q', d);
    } else if q < q' {
      MulMono(q - q', -1, d);
    }
  }

  lemma MulMono(a: int, b: int, m: int)
    requires a <= b && m >= 0
    ensures a * m <= b * m
  {
  }

  // ---- shifts and masks ----

  lemma {:induction false} ShlIsMul(x: nat, n: nat)
    ensures Shl(x, n) == x * Pow2(n)
  {
    if n > 0 {
      ShlIsMul(x, n - 1);
      assert x * Pow2(n) == 2 * (x * Pow2(n - 1));
    }
  }

  lemma HalfDivision(x: nat, p: nat, q: nat, r: nat)
    requires p > 0 && x / 2 / p == q && x / 2 % p == r
    ensures x / (2 * p) == q && x % (2 * p) == 2 * r + x % 2
  {
    assert x / 2 == q * p + r;
    assert 2 * (q * p) == q * (2 * p);
    DivModUnique(x, 2 * p, q, 2 * r + x % 2);
  }

  lemma {:induction false} ShrIsDiv(x: nat, n: nat)
    ensures Shr(x, n) == x / Pow2(n)
    ensures Low(x, n) == x % Pow2(n)
  {
    if n > 0 {
      ShrIsDiv(x / 2, n - 1);
      HalfDivision(x, Pow2(n - 1), Shr(x / 2, n - 1), Low(x / 2, n - 1));
    }
  }

  lemma {:induction false} ShrShl(x: nat, n: nat)
    ensures Shr(Shl(x, n), n) == x
  {
    if n > 0 {
      ShrShl(x, n - 1);
    }
  }

  lemma {:induction false} ShlBound(x: nat, y: nat, n: nat, k: nat)
    requires x < Pow2(n) && y < Pow2(k)
    ensures x + Shl(y, n) < Pow2(n + k)
  {
    if n > 0 {
      ShlBound(x / 2, y, n - 1, k);
    }
  }

  lemma {:induction false} ShrBound(x: nat, n: nat, k: nat)
    requires k <= n && x < Pow2(n)
    ensures Shr(x, k) < Pow2(n - k)
  {
    if k > 0 {
      ShrBound(x / 2, n - 1, k - 1);
    }
  }

  // ---- bit strings and numbers ----

  lemma {:induction false} ToBitsLsb(bits: seq<bool>)
    ensures Lsb(bits) < Pow2(|bits|)
    ensures ToBits(Lsb(bits), |bits|) == bits
  {
    if bits == [] {
    } else {
      ToBitsLsb(bits[1..]);
      assert Lsb(bits) / 2 == Lsb(bits[1..]);
    }
  }

  lemma {:induction false} LsbToBits(x: nat, n: nat)
    requires x < Pow2(n)
    ensures Lsb(ToBits(x, n)) == x
  {
    if n > 0 {
      LsbToBits(x / 2, n - 1);
      assert ToBits(x, n)[1..] == ToBits(x / 2, n - 1);
    }
  }

  /** Splitting a bit string is masking and shifting the number. */
  lemma {:induction false} ToBitsSplit(x: nat, n: nat, k: nat)
    requires k <= n
    ensures ToBits(x, n)[..k] == ToBits(Low(x, k), k)
    ensures ToBits(x, n)[k..] == ToBits(Shr(x, k), n - k)
  {
    if k == 0 {
    } else {
      ToBitsSplit(x / 2, n - 1, k - 1);
      assert Low(x, k) / 2 == Low(x / 2, k - 1);
      assert ToBits(x, n)[..k] == [x % 2 == 1] + ToBits(x / 2, n - 1)[..k - 1];
      assert ToBits(x, n)[k..] == ToBits(x / 2, n - 1)[k - 1..];
    }
  }

  /** Appending bits above `n` bits that are already there. */
  lemma {:induction false} ToBitsAppend(x: nat, n: nat, y: nat, k: nat)
    requires x < Pow2(n)
    ensures ToBits(x + Shl(y, n), n + k) == ToBits(x, n) + ToBits(y, k)
  {
    if n == 0 {
      assert ToBits(x, n) == [];
    } else {
      var s := x + Shl(y, n);
      assert s % 2 == x % 2 && s / 2 == x / 2 + Shl(y, n - 1);
      ToBitsAppend(x / 2, n - 1, y, k);
    }
  }

  lemma {:induction false} MsbAppendZeros(bits: seq<bool>, k: nat)
    ensures Msb(bits + Zeros(k)) == Shl(Msb(bits), k)
  {
    if k == 0 {
      assert bits + Zeros(0) == bits;
    } else {
      MsbAppendZeros(bits, k - 1);
      assert (bits + Zeros(k))[..|bits| + k - 1] == bits + Zeros(k - 1);
    }
  }

  lemma {:induction false} MsbBound(bits: seq<bool>)
    ensures Msb(bits) < Pow2(|bits|)
  {
    if bits != [] {
      MsbBound(bits[..|bits| - 1]);
    }
  }

  lemma {:induction false} ToBitsZero(n: nat)
    ensures ToBits(0, n) == Zeros(n)
  {
    if n > 0 {
      ToBitsZero(n - 1);
      assert Zeros(n) == [false] + Zeros(n - 1);
    }
  }

  // ---- the bitwise operators ----

  /** Or of numbers with no bit in common is their sum. */
  lemma {:induction false} OrDisjoint(x: nat, y: nat, k: nat)
    requires x < Pow2(k)
    ensures Or(x, Shl(y, k)) == x + Shl(y, k)
    ensures Or(Shl(y, k), x) == x + Shl(y, k)
  {
    if k > 0 {
      OrDisjoint(x / 2, y, k - 1);
    }
  }

  lemma {:induction false} XorBitsCancel(x: nat, k: nat, n: nat)
    requires x < Pow2(n)
    ensures XorBits(XorBits(x, k, n), k, n) == x
  {
    if n > 0 {
      XorBitsCancel(x / 2, k / 2, n - 1);
    }
  }

  /** Exclusive or with the same byte twice gives the byte back. */
  lemma XorCancel(x: byte, k: byte)
    ensures Xor(Xor(x, k), k) == x
  {
    Pow2Values();
    XorBitsCancel(x, k, 8);
  }
}
