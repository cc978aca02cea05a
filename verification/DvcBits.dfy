/** The decoder's bit reader: bytes go in least significant bit first, fields come out most significant
    bit first, and a long enough run of zero bits is reported as a reset marker. */
module DvcBits {
  import opened BitOps

  const HUNT := 43
  const ZERO_RUN: nat := 30

  /** Bits not yet read (oldest first), the length of the zero run they end in, and the last field read. */
  datatype Window = Window(bits: seq<bool>, zeros: nat, code: nat)

  const EMPTY := Window([], 0, 0)

  function ByteBits(c: byte): (bits: seq<bool>)
    ensures |bits| == 8
  {
    ToBits(c, 8)
  }

  /** Adds a byte; the second result says that more than 30 zero bits in a row have been seen. */
  function AddByte(w: Window, c: byte): (Window, bool) {
    var run := w.zeros + LeadingZeros(ByteBits(c));
    if run > ZERO_RUN then (Window(w.bits + ByteBits(c), run, w.code), true)
    else (Window(w.bits + ByteBits(c), if c == 0 then run else TrailingZeros(ByteBits(c)), w.code), false)
  }

  /** Reads an `n`-bit field; reading no bits leaves the last field in place. */
  function Take(w: Window, n: nat): (w': Window)
    requires n <= |w.bits|
    ensures w'.zeros == w.zeros && w'.bits == w.bits[n..]
  {
    if n == 0 then w else Window(w.bits[n..], w.zeros, Msb(w.bits[..n]))
  }

  lemma ByteBitsZero(c: byte)
    ensures c == 0 <==> LeadingZeros(ByteBits(c)) == 8
    ensures c == 0 <==> TrailingZeros(ByteBits(c)) == 8
    ensures c == 0 ==> ByteBits(c) == Zeros(8)
  {
    Pow2Values();
    ToBitsZero(8);
    LsbToBits(c, 8);
    var b := ByteBits(c);
    LeadingZerosMeaning(b);
    TrailingZerosMeaning(b);
    if LeadingZeros(b) == 8 || TrailingZeros(b) == 8 {
      assert b == Zeros(8);
      LsbToBits(0, 8);
    }
  }

  /** The mirror of a byte holds, in its top bits, any field of fewer bits read the other way round. */
  lemma MirrorOfField(x: nat, n: nat)
    requires n <= 8 && x < Pow2(n)
    ensures Shr(Msb(ToBits(x, 8)), 8 - n) == Msb(ToBits(x, n))
  {
    ToBitsAppend(x, n, 0, 8 - n);
    ShlIsMul(0, n);
    ToBitsZero(8 - n);
    MsbAppendZeros(ToBits(x, n), 8 - n);
    ShrShl(Msb(ToBits(x, n)), 8 - n);
  }

  lemma OneBit(x: nat, n: nat)
    requires n > 0
    ensures Msb(ToBits(x, n)[..1]) == x % 2
    ensures Shr(x, 1) == x / 2
  {
    var b := ToBits(x, n)[..1];
    assert b[..0] == [] && b[0] == (x % 2 == 1);
  }

  lemma {:induction false} LeadingZerosPush(bits: seq<bool>, b: bool)
    ensures LeadingZeros(bits + [b]) ==
      if LeadingZeros(bits) < |bits| then LeadingZeros(bits) else if b then |bits| else |bits| + 1
  {
    if bits == [] {
      assert bits + [b] == [b];
    } else {
      assert (bits + [b])[1..] == bits[1..] + [b];
      LeadingZerosPush(bits[1..], b);
    }
  }

  /** What one more bit does to the mirrored value and to the two zero counts. */
  lemma ExtendPrefix(bits: seq<bool>, i: nat)
    requires i < |bits|
    ensures Msb(bits[..i + 1]) == 2 * Msb(bits[..i]) + Bit(bits[i])
    ensures TrailingZeros(bits[..i + 1]) == if bits[i] then 0 else 1 + TrailingZeros(bits[..i])
    ensures LeadingZeros(bits[..i + 1]) ==
      if LeadingZeros(bits[..i]) < i then LeadingZeros(bits[..i]) else if bits[i] then i else i + 1
  {
    assert bits[..i + 1] == bits[..i] + [bits[i]];
    assert bits[..i + 1][..i] == bits[..i];
    LeadingZerosPush(bits[..i], bits[i]);
  }

  /** Or-ing a byte in above the pending bits appends its bits. */
  lemma AppendByte(acc: nat, count: nat, c: byte)
    requires acc < Pow2(count)
    ensures var s := Or(acc, Shl(c, count));
      s < Pow2(count + 8) && ToBits(s, count + 8) == ToBits(acc, count) + ByteBits(c)
  {
    hide Or, Shl, ToBits, Pow2;
    Pow2Values();
    OrDisjoint(acc, c, count);
    ShlBound(acc, c, count, 8);
    ToBitsAppend(acc, count, c, 8);
  }

  class BitReader {
    var acc: nat
    var count: nat
    var zeroCount: nat
    var code: nat
    var state: int
    var next: int
    const reversal: array<int>
    const left: array<int>
    const right: array<int>

    ghost predicate Tables()
      reads reversal, left, right
    {
      && reversal.Length == left.Length == right.Length == 256
      && reversal != left && reversal != right && left != right
      && TablesTo(256)
    }

    ghost predicate TablesTo(n: nat)
      requires reversal.Length == left.Length == right.Length == 256 && n <= 256
      reads reversal, left, right
    {
      && (forall i: byte :: i < n ==> reversal[i] == Msb(ByteBits(i)))
      && (forall i: byte :: i < n ==> right[i] == LeadingZeros(ByteBits(i)))
      && (forall i: byte :: i < n ==> left[i] == TrailingZeros(ByteBits(i)))
    }

    /** The accumulator holds exactly the pending bits and fits in 32 bits. */
    ghost predicate Valid()
      reads this, reversal, left, right
    {
      Tables() && acc < Pow2(count) && count <= 24
    }

    ghost function Pending(): Window
      reads this
    {
      Window(ToBits(acc, count), zeroCount, code)
    }

    constructor ()
      ensures Valid() && Pending() == EMPTY && state == next == 0
      ensures fresh(reversal) && fresh(left) && fresh(right)
    {
      acc, count, zeroCount, code, state, next := 0, 0, 0, 0, 0, 0;
      reversal, left, right := new int[256], new int[256], new int[256];
      new;
      InitReversal();
    }

    method InitReversal()
      requires reversal.Length == left.Length == right.Length == 256
      requires reversal != left && reversal != right && left != right
      modifies reversal, left, right
      ensures Tables()
    {
      var n := 0;
      while n < 256
        invariant 0 <= n <= 256
        invariant TablesTo(n)
      {
        InitEntry(n);
        n := n + 1;
      }
    }

    method InitEntry(n: byte)
      requires reversal.Length == left.Length == right.Length == 256
      requires reversal != left && reversal != right && left != right && TablesTo(n)
      modifies reversal, left, right
      ensures TablesTo(n + 1)
    {
      var mirror, low, high := Mirror(n);
      reversal[n], right[n], left[n] := mirror, low, high;
    }

    /** The inner loop of the table set-up: one pass over the bits of `n`. */
    static method Mirror(n: byte) returns (mirror: nat, low: nat, high: nat)
      ensures mirror == Msb(ByteBits(n))
      ensures low == LeadingZeros(ByteBits(n))
      ensures high == TrailingZeros(ByteBits(n))
    {
      ghost var bits: seq<bool> := ByteBits(n);
      mirror, low, high := 0, 8, 8;
      var rest, i := n, 0;
      while i < 8
        invariant 0 <= i <= 8
        invariant ToBits(rest, 8 - i) == bits[i..]
        invariant mirror == Msb(bits[..i])
        invariant low == if LeadingZeros(bits[..i]) < i then LeadingZeros(bits[..i]) else 8
        invariant high == 8 - i + TrailingZeros(bits[..i])
      {
        assert bits[i..][0] == bits[i] && bits[i..][1..] == bits[i + 1..];
        ExtendPrefix(bits, i);
        mirror := mirror * 2;
        if rest % 2 == 1 {
          if low > i {
            low := i;
          }
          mirror := mirror + 1;
          high := 7 - i;
        }
        rest := rest / 2;
        i := i + 1;
      }
      assert bits[..8] == bits;
    }

    method Append(c: byte)
      requires Valid() && count <= 16
      modifies this`acc, this`count
      ensures Valid() && Pending() == old(Pending()).(bits := old(Pending()).bits + ByteBits(c))
    {
      AppendByte(acc, count, c);
      acc := Or(acc, Shl(c, count));
      count := count + 8;
    }

    method AddBits(c: byte) returns (hunt: bool)
      requires Valid() && count <= 16
      modifies this`acc, this`count, this`zeroCount, this`state, this`next
      ensures Valid()
      ensures (Pending(), hunt) == AddByte(old(Pending()), c)
      ensures if hunt then state == next == HUNT else state == old(state) && next == old(next)
    {
      hide ToBits, LeadingZeros, TrailingZeros, Msb;
      ByteBitsZero(c);
      Append(c);
      zeroCount := zeroCount + right[c];
      if zeroCount > ZERO_RUN {
        state, next := HUNT, HUNT;
        return true;
      }
      if c != 0 {
        zeroCount := left[c];
      }
      return false;
    }

    method GetBits(n: nat)
      requires Valid() && n <= count && n <= 8
      modifies this`acc, this`count, this`code
      ensures Valid() && Pending() == Take(old(Pending()), n)
    {
      if n == 0 {
        return;
      }
      ToBitsSplit(acc, count, n);
      ShrBound(acc, count, n);
      if n == 1 {
        OneBit(acc, count);
        code := acc % 2;
        acc := acc / 2;
        count := count - 1;
        return;
      }
      Pow2Mono(n, 8);
      Pow2Values();
      var field := Low(acc, n);
      MirrorOfField(field, n);
      count := count - n;
      acc := Shr(acc, n);
      code := Shr(reversal[field], 8 - n);
    }
  }
}
