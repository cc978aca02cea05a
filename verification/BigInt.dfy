/** Fixed-width unsigned integers held as little-endian limbs, as far as an RSA public-key operation needs
    them. Every method is written for any number of limbs. */
module BigInt {
  import opened BitOps
  import opened Limbs

  function Power(b: nat, e: nat): nat {
    if e == 0 then 1 else b * Power(b, e - 1)
  }

  // ---- multiplication ----

  /** Storing the low digit of `t` at weight `p` and carrying the rest adds `t - was` at that weight. */
  lemma CarryOut(t: nat, was: int, p: int, base: nat)
    requires base > 0
    ensures (t % base - was) * p + (t / base) * (base * p) == (t - was) * p
  {
    var q, r := t / base, t % base;
    assert t == q * base + r;
    assert q * (base * p) == (q * base) * p;
    assert (r - was) * p + (q * base) * p == (r - was + q * base) * p;
  }

  lemma Widen(a: int, low: int, b: int, pi: int, pj: int)
    ensures (a * b) * (pi * pj) == (a * (b * pj)) * pi
    ensures a * (low + b * pj) * pi == a * low * pi + (a * b) * (pi * pj)
  {
    assert (a * b) * (pi * pj) == (a * (b * pj)) * pi;
    assert a * (low + b * pj) == a * low + a * (b * pj);
    assert (a * low + a * (b * pj)) * pi == a * low * pi + a * (b * pj) * pi;
  }

  lemma NoOverflow(a: limb, b: limb, x: limb, carry: limb)
    ensures 0 <= a * b + x + carry < 0x1_0000_0000_0000_0000
  {
    MulBound(a, b, 0xFFFF_FFFF, 0xFFFF_FFFF);
  }

  /** Stores the low digit of a 64-bit sum in limb `k` and returns the rest as the carry. */
  method PutDigit(out: array<limb>, k: nat, t: wide) returns (carry: limb)
    requires k < out.Length
    modifies out
    ensures Value(out[..]) + carry * Pow(k + 1) == old(Value(out[..])) + (t - old(out[k])) * Pow(k)
  {
    var digit: limb := t % BASE;
    ghost var s := out[..];
    ValueUpdate(s, k, digit);
    CarryOut(t, out[k], Pow(k), BASE);
    out[k] := digit;
    assert out[..] == s[k := digit];
    carry := t / BASE;
  }

  /** Adds `a * b` shifted up by `i` limbs to `out`, all but the last carry. */
  method MulRow(x: limb, b: array<limb>, out: array<limb>, i: nat) returns (carry: limb)
    requires out != b && i + b.Length <= out.Length
    modifies out
    ensures Value(out[..]) + carry * Pow(i + b.Length) == old(Value(out[..])) + x * Value(b[..]) * Pow(i)
  {
    carry := 0;
    var j := 0;
    while j < b.Length
      invariant 0 <= j <= b.Length
      invariant Value(out[..]) + carry * Pow(i + j) == old(Value(out[..])) + x * Value(b[..j]) * Pow(i)
    {
      NoOverflow(x, b[j], out[i + j], carry);
      var t: wide := x * b[j] + out[i + j] + carry;
      ValuePrefix(b[..], j);
      assert b[..][..j] == b[..j] && b[..][..j + 1] == b[..j + 1];
      PowAdd(i, j);
      Widen(x, Value(b[..j]), b[j], Pow(i), Pow(j));
      Collect(x * b[j], carry, t - out[i + j], Pow(i + j));
      carry := PutDigit(out, i + j, t);
      j := j + 1;
    }
    assert b[..b.Length] == b[..];
  }

  lemma Collect(product: int, carry: int, sum: int, p: int)
    requires sum == product + carry
    ensures sum * p == product * p + carry * p
  {
  }

  /** The whole double-width product: schoolbook rows, each followed by its carry. */
  method MulWide(a: array<limb>, b: array<limb>, out: array<limb>)
    requires out != a && out != b && a.Length == b.Length && out.Length == 2 * a.Length
    modifies out
    ensures Value(out[..]) == Value(a[..]) * Value(b[..])
  {
    var n := a.Length;
    Clear(out);
    var i := 0;
    while i < n
      invariant 0 <= i <= n
      invariant Value(out[..]) == Value(a[..i]) * Value(b[..])
    {
      ValuePrefix(a[..], i);
      assert a[..][..i] == a[..i] && a[..][..i + 1] == a[..i + 1];
      RowProduct(Value(a[..i]), a[i], Pow(i), Value(b[..]));
      if a[i] != 0 {
        var carry := MulRow(a[i], b, out, i);
        ProductFits(a[..i + 1], b[..], i + 1 + n, 2 * n);
        AddCarry(out, i + n, carry);
      }
      i := i + 1;
    }
    assert a[..n] == a[..];
  }

  lemma RowProduct(low: int, x: int, p: int, b: int)
    ensures (low + x * p) * b == low * b + x * b * p
  {
    assert (low + x * p) * b == low * b + (x * p) * b;
  }

  lemma ProductFits(a: seq<limb>, b: seq<limb>, n: nat, m: nat)
    requires |a| + |b| == n <= m
    ensures Value(a) * Value(b) < Pow(m)
  {
    ValueBound(a);
    ValueBound(b);
    PowAdd(|a|, |b|);
    PowMono(n, m);
    MulLess(Value(a), Value(b), Pow(|a|), Pow(|b|));
  }

  lemma MulLess(x: nat, y: nat, p: nat, q: nat)
    requires x < p && y < q
    ensures x * y < p * q
  {
    MulMono(x, p - 1, y);
    MulMono(y, q, p - 1);
    assert (p - 1) * q == p * q - q;
  }

  method Clear(out: array<limb>)
    modifies out
    ensures Value(out[..]) == 0 && forall k :: 0 <= k < out.Length ==> out[k] == 0
  {
    for k := 0 to out.Length
      invariant forall j :: 0 <= j < k ==> out[j] == 0
    {
      out[k] := 0;
    }
    ValueZeros(out[..]);
  }

  lemma CarryIsZero(v: nat, carry: nat, p: nat)
    requires v + carry * p < p
    ensures carry == 0
  {
    if carry > 0 {
      MulMono(1, carry, p);
    }
  }

  /** Propagates a carry upwards from limb `from`. Nothing is lost when the sum fits. */
  method AddCarry(out: array<limb>, from: nat, c: limb)
    requires from <= out.Length
    requires Value(out[..]) + c * Pow(from) < Pow(out.Length)
    modifies out
    ensures Value(out[..]) == old(Value(out[..])) + c * Pow(from)
  {
    var carry: limb := c;
    var k := from;
    while carry != 0 && k < out.Length
      invariant from <= k <= out.Length
      invariant Value(out[..]) + carry * Pow(k) == old(Value(out[..])) + c * Pow(from)
      decreases out.Length - k
    {
      var t: wide := out[k] + carry;
      carry := PutDigit(out, k, t);
      k := k + 1;
    }
    if k == out.Length {
      CarryIsZero(Value(out[..]), carry, Pow(k));
    }
    assert carry * Pow(k) == 0;
  }

  // ---- reduction ----

  /** The number of bits up to and including the highest one. */
  method BitLengthOf(p: array<limb>) returns (n: nat)
    ensures n <= 32 * p.Length
    ensures Shr(Value(p[..]), n) == 0
    ensures n > 0 ==> Shr(Value(p[..]), n - 1) == 1
  {
    var i := p.Length;
    assert p[i..] == [];
    while i > 0
      invariant 0 <= i <= p.Length
      invariant forall k :: i <= k < p.Length ==> p[k] == 0
    {
      i := i - 1;
      if p[i] != 0 {
        var b, x := 0, p[i];
        Pow2Of32();
        while x != 0
          invariant x == Shr(p[i], b) && b <= 32 && x < Pow2(32 - b)
          invariant b > 0 && x == 0 ==> Shr(p[i], b - 1) == 1
          decreases x
        {
          assert b < 32;
          ShrAdd(p[i], b, 1);
          x := x / 2;
          b := b + 1;
        }
        TopLimb(p[..], i, b);
        return 32 * i + b;
      }
    }
    ValueZeros(p[..]);
    return 0;
  }

  lemma TopLimb(s: seq<limb>, i: nat, b: nat)
    requires i < |s| && (forall k :: i < k < |s| ==> s[k] == 0)
    requires b > 0 && Shr(s[i], b) == 0 && Shr(s[i], b - 1) == 1
    ensures Shr(Value(s), 32 * i + b) == 0 && Shr(Value(s), 32 * i + b - 1) == 1
  {
    ShrWords(s, i);
    ShrAdd(Value(s), 32 * i, b);
    ShrAdd(Value(s), 32 * i, b - 1);
    FirstLimb(s[i..]);
    ValueZeros(s[i..][1..]);
  }

  /** Doubling a limb and or-ing the bit from below in, with the top bit going out as the next carry. */
  lemma ShiftLimb(x: limb, carry: nat)
    requires carry <= 1
    ensures Or(Shl(x, 1) % BASE, carry) == Shl(x, 1) % BASE + carry < BASE
    ensures Or(Shl(x, 1) % BASE, carry) + (x / 0x8000_0000) * BASE == 2 * x + carry
  {
    var h := x % 0x8000_0000;
    assert Shl(x, 1) == 2 * x && Shl(h, 1) == 2 * h;
    assert (2 * x) % BASE == 2 * h;
    assert Pow2(1) == 2;
    OrDisjoint(carry, h, 1);
  }

  method ShiftAt(acc: array<limb>, i: nat, carry: nat) returns (next: nat)
    requires i < acc.Length && carry <= 1
    modifies acc
    ensures next <= 1 && acc[i] as int + next * BASE == 2 * old(acc[i]) as int + carry
    ensures acc[..i] == old(acc[..i]) && acc[i + 1..] == old(acc[i + 1..])
    ensures i == 0 && carry == 0 ==> acc[0] % 2 == 0
    ensures i > 0 ==> acc[0] == old(acc[0])
  {
    ShiftLimb(acc[i], carry);
    next := acc[i] / 0x8000_0000;
    var x: limb := Or(Shl(acc[i], 1) % BASE, carry);
    acc[i] := x;
  }

  /** Shifts `acc` left by one bit and brings `bit` in at the bottom. */
  method ShiftIn(acc: array<limb>, bit: nat)
    requires acc.Length > 0 && bit <= 1 && 2 * Value(acc[..]) + bit < Pow(acc.Length)
    modifies acc
    ensures Value(acc[..]) == 2 * old(Value(acc[..])) + bit
  {
    ghost var s := acc[..];
    var carry := 0;
    var i := 0;
    while i < acc.Length
      invariant 0 <= i <= acc.Length && 0 <= carry <= 1
      invariant acc[i..] == s[i..]
      invariant Value(acc[..i]) + carry * Pow(i) == 2 * Value(s[..i])
      invariant i > 0 ==> acc[0] % 2 == 0
    {
      ghost var low := acc[..i];
      assert acc[i] == s[i] && acc[i + 1..] == s[i + 1..] by {
        assert acc[i] == acc[i..][0] && acc[i..][1..] == acc[i + 1..] && s[i..][1..] == s[i + 1..];
      }
      ValuePrefix(s, i);
      var next := ShiftAt(acc, i, carry);
      ShiftSum(Value(low), Value(s[..i]), s[i], acc[i], carry, next, Pow(i));
      assert acc[..i + 1] == low + [acc[i]] by {
        assert acc[..i] == low;
      }
      ValuePush(low, acc[i]);
      carry := next;
      i := i + 1;
    }
    assert acc[..acc.Length] == acc[..] && s[..acc.Length] == s;
    CarryIsZero(Value(acc[..]), carry, Pow(acc.Length));
    BringDown(acc, bit);
  }

  lemma ShiftSum(low: int, s: int, si: int, x: int, carry: int, next: int, p: int)
    requires low + carry * p == 2 * s && x + next * BASE == 2 * si + carry
    ensures low + x * p + next * (BASE * p) == 2 * (s + si * p)
  {
    assert next * (BASE * p) == (next * BASE) * p;
    assert (x + next * BASE) * p == x * p + (next * BASE) * p;
    assert (2 * si + carry) * p == 2 * (si * p) + carry * p;
  }

  method BringDown(acc: array<limb>, bit: nat)
    requires acc.Length > 0 && bit <= 1 && acc[0] % 2 == 0
    modifies acc
    ensures Value(acc[..]) == old(Value(acc[..])) + bit
  {
    ghost var s := acc[..];
    var h := acc[0] / 2;
    assert Shl(h, 1) == acc[0] && Pow2(1) == 2;
    OrDisjoint(bit, h, 1);
    var x: limb := Or(acc[0], bit);
    ValueUpdate(s, 0, x);
    acc[0] := x;
    assert acc[..] == s[0 := x];
  }

  /** The sign of `acc - n`, where `acc` has one limb more. */
  method CmpExt(acc: array<limb>, n: array<limb>) returns (r: int)
    requires acc.Length == n.Length + 1
    ensures r > 0 <==> Value(acc[..]) > Value(n[..])
    ensures r < 0 <==> Value(acc[..]) < Value(n[..])
  {
    var l := n.Length;
    ValuePrefix(acc[..], l);
    assert acc[..][..l + 1] == acc[..] && acc[..][..l] == acc[..l];
    if acc[l] != 0 {
      ValueBound(n[..]);
      MulMono(1, acc[l], Pow(l));
      return 1;
    }
    assert Value(acc[..]) == Value(acc[..l]) by {
      assert acc[l] * Pow(l) == 0;
    }
    var i := l;
    while i > 0
      invariant 0 <= i <= l
      invariant acc[i..l] == n[i..]
    {
      i := i - 1;
      if acc[i] != n[i] {
        assert acc[..l][i + 1..] == acc[i + 1..l] && n[..][i + 1..] == n[i + 1..];
        if acc[i] > n[i] {
          ValueCompare(n[..], acc[..l], i);
          return 1;
        } else {
          ValueCompare(acc[..l], n[..], i);
          return -1;
        }
      }
    }
    assert acc[..l] == n[..];
    return 0;
  }

  /** What a 64-bit register holds after a subtraction. */
  function Wrap64(x: int): wide {
    x % 0x1_0000_0000_0000_0000
  }

  lemma BorrowDigit(a: limb, n: limb, borrow: nat)
    requires borrow <= 1
    ensures var d := Wrap64(a - n - borrow);
      d % BASE == a - n - borrow + (if d / BASE != 0 then BASE else 0)
  {
    var x := a - n - borrow;
    if x < 0 {
      assert Wrap64(x) == x + 0x1_0000_0000_0000_0000 == (x + BASE) + BASE * 0xFFFF_FFFF;
    }
  }

  /** Subtracts one limb and the borrow in 64 bits, and returns the next borrow. */
  method SubLimb(acc: array<limb>, i: nat, n: limb, borrow: nat) returns (next: nat)
    requires i < acc.Length && borrow <= 1
    modifies acc
    ensures next <= 1
    ensures var x := old(acc[i]) - n - borrow + next * BASE;
      0 <= x < BASE && acc[..] == old(acc[..])[i := x]
  {
    BorrowDigit(acc[i], n, borrow);
    var d: wide := Wrap64(acc[i] - n - borrow);
    acc[i] := d % BASE;
    next := if d / BASE != 0 then 1 else 0;
  }

  method SubExt(acc: array<limb>, n: array<limb>)
    requires acc != n && acc.Length == n.Length + 1 && Value(acc[..]) >= Value(n[..])
    modifies acc
    ensures Value(acc[..]) == old(Value(acc[..])) - Value(n[..])
  {
    ghost var s := acc[..];
    var l := n.Length;
    var borrow: nat := 0;
    var i := 0;
    while i < l
      invariant 0 <= i <= l && borrow <= 1
      invariant acc[i..] == s[i..]
      invariant Value(acc[..i]) - borrow * Pow(i) == Value(s[..i]) - Value(n[..i])
    {
      ghost var low := acc[..i];
      assert acc[i] == s[i..][0];
      var next := SubLimb(acc, i, n[i], borrow);
      SubPrefix(acc[..], s, n[..], low, i, borrow, next);
      assert n[..][..i] == n[..i] && n[..][..i + 1] == n[..i + 1] && acc[..][..i + 1] == acc[..i + 1];
      assert acc[i + 1..] == s[i..][1..];
      borrow := next;
      i := i + 1;
    }
    assert n[..l] == n[..];
    TopBorrow(acc, s, n[..], borrow);
  }

  lemma SubPrefix(t: seq<limb>, s: seq<limb>, n: seq<limb>, low: seq<limb>, i: nat, borrow: nat,
                                     next: nat)
    requires i < |n| < |t| == |s| && t[..i] == low
    requires Value(low) - borrow * Pow(i) == Value(s[..i]) - Value(n[..i])
    requires t[i] == s[i] - n[i] - borrow + next * BASE
    ensures Value(t[..i + 1]) - next * Pow(i + 1) == Value(s[..i + 1]) - Value(n[..i + 1])
  {
    ValuePrefix(t, i);
    ValuePrefix(s, i);
    ValuePrefix(n, i);
    BorrowSum(Value(low), Value(s[..i]), Value(n[..i]), s[i], n[i], t[i], borrow, next, Pow(i));
  }

  lemma BorrowSum(low: int, s: int, n: int, si: int, ni: int, x: int, borrow: int, next: int, p: int)
    requires low - borrow * p == s - n && x == si - ni - borrow + next * BASE
    ensures low + x * p - next * (BASE * p) == s + si * p - (n + ni * p)
  {
    assert next * (BASE * p) == (next * BASE) * p;
    assert (si - ni - borrow + next * BASE) * p == si * p - ni * p - borrow * p + (next * BASE) * p;
  }

  lemma BorrowFits(low: nat, s: int, n: int, top: nat, borrow: nat, p: nat)
    requires low < p && low - borrow * p == s - n && s + top * p >= n
    ensures top >= borrow
  {
    assert (top - borrow) * p == top * p - borrow * p;
    MulMono(top - borrow, if top < borrow then -1 else top - borrow, p);
  }

  method TopBorrow(acc: array<limb>, ghost s: seq<limb>, ghost n: seq<limb>, borrow: nat)
    requires |s| == acc.Length == |n| + 1 && borrow <= 1 && acc[|n|] == s[|n|]
    requires Value(acc[..|n|]) - borrow * Pow(|n|) == Value(s[..|n|]) - Value(n) && Value(s) >= Value(n)
    modifies acc
    ensures Value(acc[..]) == Value(s) - Value(n)
  {
    var l := acc.Length - 1;
    ghost var low := acc[..l];
    ValuePrefix(s, l);
    assert s[..l + 1] == s;
    ValueBound(low);
    BorrowFits(Value(low), Value(s[..l]), Value(n), s[l], borrow, Pow(l));
    acc[l] := acc[l] - borrow;
    assert acc[..] == low + [acc[l]];
    ValuePush(low, acc[l]);
    assert (s[l] - borrow) * Pow(l) == s[l] * Pow(l) - borrow * Pow(l);
  }

  /** Bringing one more bit down and subtracting once keeps a remainder a remainder. */
  lemma RemainderStep(x: nat, b: nat, n: nat)
    requires n > 0 && b <= 1
    ensures var y := 2 * (x % n) + b; y < 2 * n && (2 * x + b) % n == if y >= n then y - n else y
  {
    var q, y := x / n, 2 * (x % n) + b;
    assert x == q * n + x % n;
    assert 2 * (q * n) == (2 * q) * n && (2 * q) * n + n == (2 * q + 1) * n;
    if y >= n {
      DivModUnique(2 * x + b, n, 2 * q + 1, y - n);
    } else {
      DivModUnique(2 * x + b, n, 2 * q, y);
    }
  }

  lemma NextBit(w: seq<limb>, bit: nat)
    requires bit < 32 * |w|
    ensures Shr(Value(w), bit) == 2 * Shr(Value(w), bit + 1) + Shr(w[bit / 32], bit % 32) % 2
  {
    FieldOfLimb(w, bit / 32, bit % 32, 1);
    ShrAdd(Value(w), bit, 1);
    var x, y := Shr(Value(w), bit), Shr(w[bit / 32], bit % 32);
    assert Low(x, 1) == x % 2 && Low(y, 1) == y % 2;
  }

  /** There is room in the extra limb for twice the remainder. */
  lemma Headroom(n: seq<limb>, y: nat)
    requires y < 2 * Value(n)
    ensures y < Pow(|n| + 1)
  {
    ValueBound(n);
  }

  /** One bit of long division: shift, compare, subtract if it goes. */
  method DivideBit(acc: array<limb>, w: array<limb>, n: array<limb>, bit: nat)
    requires acc != w && acc != n && acc.Length == n.Length + 1 && Value(n[..]) > 0 && bit < 32 * w.Length
    requires Value(acc[..]) == Shr(Value(w[..]), bit + 1) % Value(n[..])
    modifies acc
    ensures Value(acc[..]) == Shr(Value(w[..]), bit) % Value(n[..])
  {
    NextBit(w[..], bit);
    var b := Shr(w[bit / 32], bit % 32) % 2;
    RemainderStep(Shr(Value(w[..]), bit + 1), b, Value(n[..]));
    Headroom(n[..], 2 * Value(acc[..]) + b);
    ShiftIn(acc, b);
    var c := CmpExt(acc, n);
    if c >= 0 {
      SubExt(acc, n);
    }
  }

  /** Binary long division: `r` is the remainder of `w` by `n`. `r` may be any of the operands. */
  method ModWide(w: array<limb>, n: array<limb>, r: array<limb>)
    requires w.Length == 2 * n.Length && r.Length == n.Length && Value(n[..]) > 0
    modifies r
    ensures Value(r[..]) == old(Value(w[..]) % Value(n[..]))
  {
    var l := n.Length;
    ghost var x, d := Value(w[..]), Value(n[..]);
    var acc := new limb[l + 1];
    Clear(acc);
    var bit := BitLengthOf(w);
    DivModUnique(0, d, 0, 0);
    while bit > 0
      invariant 0 <= bit <= 32 * w.Length && acc.Length == l + 1
      invariant Value(acc[..]) == Shr(x, bit) % d
      invariant n[..] == old(n[..]) && w[..] == old(w[..]) && r[..] == old(r[..])
    {
      bit := bit - 1;
      DivideBit(acc, w, n, bit);
    }
    TopIsZero(acc[..], n[..]);
    ghost var rest := acc[..l];
    for i := 0 to l
      invariant acc[..l] == rest && r[..i] == rest[..i]
    {
      r[i] := acc[i];
    }
    assert r[..] == rest;
  }

  lemma {:induction false} TopIsZero(acc: seq<limb>, n: seq<limb>)
    requires |acc| == |n| + 1 && Value(acc) < Value(n)
    ensures Value(acc[..|n|]) == Value(acc)
  {
    ValuePrefix(acc, |n|);
    assert acc[..|n| + 1] == acc;
    ValueBound(n);
    var t: nat := acc[|n|];
    if t > 0 {
      MulMono(1, t, Pow(|n|));
    } else {
      assert t * Pow(|n|) == 0;
    }
  }

  method Extend(a: array<limb>) returns (w: array<limb>)
    ensures fresh(w) && w.Length == 2 * a.Length && Value(w[..]) == Value(a[..])
  {
    w := new limb[2 * a.Length];
    Clear(w);
    for i := 0 to a.Length
      invariant w[..i] == a[..i]
      invariant forall k :: i <= k < w.Length ==> w[k] == 0
    {
      w[i] := a[i];
    }
    ValueSplit(w[..], a.Length);
    assert w[..][..a.Length] == w[..a.Length] == a[..];
    ValueZeros(w[..][a.Length..]);
  }

  method ModNarrow(a: array<limb>, n: array<limb>, out: array<limb>)
    requires a.Length == n.Length == out.Length && Value(n[..]) > 0
    modifies out
    ensures Value(out[..]) == old(Value(a[..]) % Value(n[..]))
  {
    var w := Extend(a);
    ModWide(w, n, out);
  }

  /** `out = a * b mod n`. Writing over an operand is safe: the product is complete before `out` changes. */
  method MulMod(a: array<limb>, b: array<limb>, n: array<limb>, out: array<limb>)
    requires a.Length == b.Length == n.Length == out.Length && Value(n[..]) > 0
    modifies out
    ensures Value(out[..]) == old((Value(a[..]) * Value(b[..])) % Value(n[..]))
  {
    var w := new limb[2 * a.Length];
    MulWide(a, b, w);
    ModWide(w, n, out);
  }

  // ---- exponentiation ----

  lemma AddMultiple(x: nat, k: nat, n: nat)
    requires n > 0
    ensures (x + k * n) % n == x % n
  {
    assert x == (x / n) * n + x % n;
    assert (x / n + k) * n == (x / n) * n + k * n;
    DivModUnique(x + k * n, n, x / n + k, x % n);
  }

  lemma DropMultiple(a: nat, b: nat, n: nat)
    requires n > 0
    ensures ((a % n) * b) % n == (a * b) % n
  {
    var q, r := a / n, a % n;
    assert a == q * n + r;
    assert (q * n + r) * b == (q * n) * b + r * b;
    assert (q * n) * b == (q * b) * n;
    AddMultiple(r * b, q * b, n);
  }

  lemma ModProduct(a: nat, b: nat, n: nat)
    requires n > 0
    ensures ((a % n) * (b % n)) % n == (a * b) % n
    ensures ((a % n) * b) % n == (a * b) % n
  {
    DropMultiple(a, b, n);
    DropMultiple(b, a % n, n);
    assert (b % n) * (a % n) == (a % n) * (b % n) && b * (a % n) == (a % n) * b;
  }

  lemma {:induction false} PowerAdd(b: nat, i: nat, j: nat)
    ensures Power(b, i + j) == Power(b, i) * Power(b, j)
  {
    if i > 0 {
      PowerAdd(b, i - 1, j);
      assert b * Power(b, i - 1) * Power(b, j) == b * (Power(b, i - 1) * Power(b, j));
    }
  }

  lemma {:induction false} PowerMod(b: nat, e: nat, n: nat)
    requires n > 0
    ensures Power(b % n, e) % n == Power(b, e) % n
  {
    if e > 0 {
      PowerMod(b, e - 1, n);
      ModProduct(b, Power(b, e - 1), n);
      ModProduct(b % n, Power(b % n, e - 1), n);
      RemainderTwice(b, n);
    }
  }

  lemma RemainderTwice(b: nat, n: nat)
    requires n > 0
    ensures (b % n) % n == b % n
  {
    DivModUnique(b % n, n, 0, b % n);
  }

  /** Squaring, and multiplying once more when the exponent's next bit is set. */
  lemma SquareAndMultiply(b: nat, k: nat, bit: nat, n: nat)
    requires n > 0 && bit <= 1
    ensures var s := ((Power(b, k) % n) * (Power(b, k) % n)) % n;
      Power(b, 2 * k + bit) % n == if bit == 1 then (s * b) % n else s
  {
    ModProduct(Power(b, k), Power(b, k), n);
    PowerAdd(b, k, k);
    if bit == 1 {
      PowerAdd(b, 2 * k, 1);
      assert Power(b, 1) == b * Power(b, 0) == b;
      ModProduct(Power(b, 2 * k), b, n);
    }
  }

  method IsZero(v: array<limb>) returns (zero: bool)
    ensures zero <==> Value(v[..]) == 0
  {
    ValueIsZero(v[..]);
    var i := 0;
    while i < v.Length
      invariant 0 <= i <= v.Length && forall k :: 0 <= k < i ==> v[k] == 0
    {
      if v[i] != 0 {
        assert v[..][i] != 0;
        return false;
      }
      i := i + 1;
    }
    return true;
  }

  method CopyTo(from: array<limb>, to: array<limb>)
    requires from.Length == to.Length
    modifies to
    ensures to[..] == old(from[..])
  {
    ghost var s := from[..];
    for i := 0 to from.Length
      invariant to[..i] == s[..i] && from[i..] == s[i..]
    {
      assert from[i..][0] == s[i];
      to[i] := from[i];
    }
  }

  /** The position of the exponent's highest bit. */
  method TopBit(e: limb) returns (top: nat)
    requires e != 0
    ensures top < 32 && Shr(e, top) == 1
  {
    top := 31;
    Pow2Of32();
    ShrBound(e, 32, 32);
    while top > 0 && Shr(e, top) % 2 == 0
      invariant top < 32 && Shr(e, top + 1) == 0
    {
      ShrAdd(e, top, 1);
      top := top - 1;
    }
    ShrAdd(e, top, 1);
  }

  /** `out = m^e mod n` by squaring and multiplying from the exponent's top bit. It is refused exactly when
      the modulus or the exponent is zero, and then `out` is left alone. */
  method ModExp(m: array<limb>, e: limb, n: array<limb>, out: array<limb>) returns (ok: bool)
    requires m.Length == n.Length == out.Length
    modifies out
    ensures ok <==> old(Value(n[..])) != 0 && e != 0
    ensures ok ==> Value(out[..]) == Power(old(Value(m[..])), e) % old(Value(n[..]))
    ensures !ok ==> out[..] == old(out[..])
  {
    var zero := IsZero(n);
    if zero || e == 0 {
      return false;
    }
    ghost var x, d := Value(m[..]), Value(n[..]);
    var base := new limb[n.Length];
    ModNarrow(m, n, base);
    var top := TopBit(e);
    var acc := new limb[n.Length];
    CopyTo(base, acc);
    RemainderTwice(x, d);
    assert Power(x % d, 1) == (x % d) * Power(x % d, 0) == x % d;
    var i := top;
    while i > 0
      invariant 0 <= i <= top && n[..] == old(n[..]) && out[..] == old(out[..])
      invariant Value(base[..]) == x % d && Value(acc[..]) == Power(x % d, Shr(e, i)) % d
    {
      i := i - 1;
      ExponentBit(acc, base, n, e, i, x % d);
    }
    CopyTo(acc, out);
    PowerMod(x, e, d);
    return true;
  }

  /** The part of the loop that handles exponent bit `i`; `acc` is both operand and result. */
  method ExponentBit(acc: array<limb>, base: array<limb>, n: array<limb>, e: limb, i: nat, ghost b: nat)
    requires acc != base && acc != n && acc.Length == base.Length == n.Length && Value(n[..]) > 0
    requires Value(base[..]) == b && Value(acc[..]) == Power(b, Shr(e, i + 1)) % Value(n[..])
    modifies acc
    ensures Value(acc[..]) == Power(b, Shr(e, i)) % Value(n[..])
  {
    ShrAdd(e, i, 1);
    SquareAndMultiply(b, Shr(e, i + 1), Shr(e, i) % 2, Value(n[..]));
    MulMod(acc, acc, n, acc);
    if Shr(e, i) % 2 == 1 {
      MulMod(acc, base, n, acc);
    }
  }
}
