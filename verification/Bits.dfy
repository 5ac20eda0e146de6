/** Numbers as bits, most significant first, and as bytes in either order. */
module Bits {

  type byte = b: int | 0 <= b < 256

  type u32 = v: int | 0 <= v < 0x1_0000_0000

  function Pow2(n: nat): (p: nat)
    ensures p > 0
  {
    if n == 0 then 1 else 2 * Pow2(n - 1)
  }

  lemma {:induction false} Pow2Plus(a: nat, b: nat)
    ensures Pow2(a + b) == Pow2(a) * Pow2(b)
  {
    if b > 0 {
      Pow2Plus(a, b - 1);
      assert Pow2(a + b) == 2 * Pow2(a + b - 1);
    }
  }

  lemma Pow2Values()
    ensures Pow2(1) == 2 && Pow2(2) == 4 && Pow2(3) == 8 && Pow2(7) == 128 && Pow2(8) == 256
    ensures Pow2(16) == 0x1_0000 && Pow2(32) == 0x1_0000_0000 && Pow2(64) == 0x1_0000_0000_0000_0000
  {
    assert Pow2(4) == 16;
    Pow2Plus(4, 4);
    assert Pow2(7) == 128;
    Pow2Plus(8, 8);
    Pow2Plus(16, 16);
    Pow2Plus(32, 32);
  }

  /** The low `n` bits of `v`, most significant first. */
  function BitsOf(v: nat, n: nat): (bits: seq<bool>)
    ensures |bits| == n
  {
    if n == 0 then [] else BitsOf(v / 2, n - 1) + [v % 2 == 1]
  }

  function ValueOf(bits: seq<bool>): (v: nat)
    ensures v < Pow2(|bits|)
  {
    if bits == [] then 0
    else 2 * ValueOf(bits[..|bits| - 1]) + (if bits[|bits| - 1] then 1 else 0)
  }

  lemma {:induction false} BitsOfValue(bits: seq<bool>)
    ensures BitsOf(ValueOf(bits), |bits|) == bits
  {
    if bits != [] {
      BitsOfValue(bits[..|bits| - 1]);
    }
  }

  lemma {:induction false} ValueOfBits(v: nat, n: nat)
    ensures ValueOf(BitsOf(v, n)) == v % Pow2(n)
  {
    if n > 0 {
      ValueOfBits(v / 2, n - 1);
      assert BitsOf(v, n)[..n - 1] == BitsOf(v / 2, n - 1);
      DivTwice(v, 2, Pow2(n - 1));
    }
  }

  lemma {:induction false} BitsOfMod(v: nat, n: nat, m: nat)
    requires n <= m
    ensures BitsOf(v % Pow2(m), n) == BitsOf(v, n)
  {
    if n > 0 {
      DivTwice(v, 2, Pow2(m - 1));
      BitsOfMod(v / 2, n - 1, m - 1);
    }
  }

  function Zeros(n: nat): (bits: seq<bool>)
    ensures |bits| == n
  {
    seq(n, _ => false)
  }

  lemma {:induction false} BitsOfShift(v: nat, n: nat, m: nat)
    ensures BitsOf(v * Pow2(m), n + m) == BitsOf(v, n) + Zeros(m)
  {
    if m > 0 {
      BitsOfShift(v, n, m - 1);
      TwiceTimes(v, Pow2(m - 1));
    }
  }

  lemma TwiceTimes(v: nat, p: nat)
    ensures 2 * (v * p) == v * (2 * p)
  {
  }

  lemma {:induction false} ValueOfZeros(bits: seq<bool>, m: nat)
    ensures ValueOf(bits + Zeros(m)) == ValueOf(bits) * Pow2(m)
  {
    var all := bits + Zeros(m);
    if m == 0 {
      assert all == bits;
    } else {
      assert all[..|all| - 1] == bits + Zeros(m - 1);
      ValueOfZeros(bits, m - 1);
      TwiceTimes(ValueOf(bits), Pow2(m - 1));
    }
  }

  // --- division ---

  lemma MulGrows(d: nat, k: int)
    ensures k >= 1 ==> d * k >= d
    ensures k <= -1 ==> d * k + d <= 0
  {
    if k >= 1 {
      assert d * k == d * (k - 1) + d;
    } else if k <= -1 {
      assert d * k == d * (k + 1) - d;
    }
  }

  lemma UniqueDivMod(v: nat, d: nat, q: nat, r: nat)
    requires d > 0 && v == d * q + r && r < d
    ensures v / d == q && v % d == r
  {
    var k := v / d - q;
    assert v == d * (v / d) + v % d;
    assert d * (v / d) == d * q + d * k;
    MulGrows(d, k);
  }

  lemma MulDiv(v: nat, d: nat)
    requires d > 0
    ensures v * d / d == v
  {
    assert v * d == d * v + 0;
    UniqueDivMod(v * d, d, v, 0);
  }

  /** Dividing by `d` and then by `p` is dividing by `d * p`. */
  lemma DivTwice(v: nat, d: nat, p: nat)
    requires d > 0 && p > 0
    ensures d * p > 0
    ensures v / (d * p) == v / d / p
    ensures v % (d * p) == v % d + d * (v / d % p)
  {
    TwoDigits(v, d, p, v / d, v % d, v / d / p, v / d % p);
    UniqueDivMod(v, d * p, v / d / p, d * (v / d % p) + v % d);
  }

  lemma TwoDigits(v: nat, d: nat, p: nat, w: nat, s: nat, q: nat, r: nat)
    requires v == d * w + s && s < d
    requires w == p * q + r && r < p
    ensures d * p > 0
    ensures v == (d * p) * q + (d * r + s) && 0 <= d * r + s < d * p
  {
    MulGrows(d, p);
    MulGrows(d, p - r);
    assert d * (p - r) == d * p - d * r;
    assert d * (p * q + r) == d * (p * q) + d * r;
    assert d * (p * q) == (d * p) * q;
  }

  // --- bytes ---

  function ByteBits(b: byte): (bits: seq<bool>)
    ensures |bits| == 8
  {
    BitsOf(b, 8)
  }

  function ByteOf(bits: seq<bool>): byte
    requires |bits| == 8
  {
    Pow2Values();
    ValueOf(bits)
  }

  lemma ByteRoundTrip(b: byte)
    ensures ByteOf(ByteBits(b)) == b
  {
    hide BitsOf, ValueOf, Pow2;
    Pow2Values();
    ValueOfBits(b, 8);
  }

  /** `b & (0x80 >> k) != 0`. */
  predicate Bit(b: byte, k: nat)
    requires k < 8
  {
    ByteBits(b)[k]
  }

  /** `b | (0x80 >> k)`. */
  function SetBit(b: byte, k: nat): (r: byte)
    requires k < 8
    ensures ByteBits(r) == ByteBits(b)[k := true]
  {
    BitsOfValue(ByteBits(b)[k := true]);
    ByteOf(ByteBits(b)[k := true])
  }

  lemma ByteBitsOfZero()
    ensures ByteBits(0) == Zeros(8)
  {
    BitsOfZero(8);
  }

  lemma {:induction false} BitsOfZero(n: nat)
    ensures BitsOf(0, n) == Zeros(n)
  {
    if n > 0 {
      BitsOfZero(n - 1);
    }
  }

  /** `b << m`, within a byte. */
  function ShiftUp(b: byte, m: nat): byte {
    b * Pow2(m) % 256
  }

  /** `b >> m`. */
  function ShiftDown(b: byte, m: nat): byte {
    DivSmaller(b, Pow2(m));
    b / Pow2(m)
  }

  lemma DivSmaller(b: nat, d: nat)
    requires d > 0
    ensures 0 <= b / d <= b
  {
    MulGrows(b / d, d);
    if b / d > 0 {
      assert b == d * (b / d) + b % d;
    }
  }

  /** Shifting up by `8 - n` brings the low `n` bits to the top and clears the rest. */
  lemma ShiftUpBits(b: byte, n: nat)
    requires n <= 8
    ensures ByteBits(ShiftUp(b, 8 - n)) == BitsOf(b, n) + Zeros(8 - n)
  {
    hide BitsOf, Pow2;
    Pow2Values();
    BitsOfMod(b * Pow2(8 - n), 8, 8);
    BitsOfShift(b, n, 8 - n);
  }

  lemma ShiftDownValue(bits: seq<bool>, m: nat)
    requires |bits| + m == 8
    ensures ShiftDown(ByteOf(bits + Zeros(m)), m) == ValueOf(bits)
  {
    ValueOfZeros(bits, m);
    MulDiv(ValueOf(bits), Pow2(m));
  }

  // --- byte order ---

  function LeBytes(v: nat, n: nat): (bytes: seq<byte>)
    ensures |bytes| == n
  {
    if n == 0 then [] else [v % 256] + LeBytes(v / 256, n - 1)
  }

  function LeValue(bytes: seq<byte>): nat {
    if bytes == [] then 0 else bytes[0] + 256 * LeValue(bytes[1..])
  }

  function BeBytes(v: nat, n: nat): (bytes: seq<byte>)
    ensures |bytes| == n
  {
    if n == 0 then [] else BeBytes(v / 256, n - 1) + [v % 256]
  }

  function BeValue(bytes: seq<byte>): nat {
    if bytes == [] then 0 else 256 * BeValue(bytes[..|bytes| - 1]) + bytes[|bytes| - 1]
  }

  lemma LowBytes(v: nat, k: nat)
    ensures v % Pow2(k + 8) == v % 256 + 256 * (v / 256 % Pow2(k))
  {
    hide Pow2;
    Pow2Values();
    Pow2Plus(k, 8);
    DivTwice(v, 256, Pow2(k));
  }

  lemma {:induction false} LeRoundTrip(v: nat, n: nat)
    ensures LeValue(LeBytes(v, n)) == v % Pow2(8 * n)
  {
    if n > 0 {
      LeRoundTrip(v / 256, n - 1);
      LowBytes(v, 8 * n - 8);
    }
  }

  lemma {:induction false} BeRoundTrip(v: nat, n: nat)
    ensures BeValue(BeBytes(v, n)) == v % Pow2(8 * n)
  {
    if n > 0 {
      BeRoundTrip(v / 256, n - 1);
      assert BeBytes(v, n)[..n - 1] == BeBytes(v / 256, n - 1);
      LowBytes(v, 8 * n - 8);
    }
  }

  // --- an octet, bit by bit ---

  /** The low eight bits of a number as they go out, most significant first. */
  function Octet(v: nat): (bits: seq<bool>)
    ensures |bits| == 8
  {
    [v / 128 % 2 == 1, v / 64 % 2 == 1, v / 32 % 2 == 1, v / 16 % 2 == 1,
     v / 8 % 2 == 1, v / 4 % 2 == 1, v / 2 % 2 == 1, v % 2 == 1]
  }

  lemma {:induction false} BitsOfAt(v: nat, n: nat, k: nat)
    requires k < n
    ensures BitsOf(v, n)[k] == (v / Pow2(n - 1 - k) % 2 == 1)
  {
    if k < n - 1 {
      BitsOfAt(v / 2, n - 1, k);
      DivTwice(v, 2, Pow2(n - 2 - k));
      assert Pow2(n - 1 - k) == 2 * Pow2(n - 2 - k);
    }
  }

  lemma OctetAt(v: nat, j: nat)
    requires j < 8
    ensures Octet(v)[j] == (v / Pow2(7 - j) % 2 == 1)
  {
    assert Pow2(0) == 1 && Pow2(1) == 2 && Pow2(2) == 4 && Pow2(3) == 8;
    assert Pow2(4) == 16 && Pow2(5) == 32 && Pow2(6) == 64 && Pow2(7) == 128;
    hide Pow2;
  }

  /** The last `n` bits of an octet are the low `n` of its number. */
  lemma OctetIs(v: nat, n: nat)
    requires n <= 8
    ensures BitsOf(v, n) == Octet(v)[8 - n..]
  {
    hide Pow2, BitsOf, Octet;
    forall k | 0 <= k < n ensures BitsOf(v, n)[k] == Octet(v)[8 - n..][k] {
      BitsOfAt(v, n, k);
      OctetAt(v, 8 - n + k);
    }
  }

  lemma ByteIsOctet(b: byte)
    ensures ByteBits(b) == Octet(b)
  {
    OctetIs(b, 8);
    hide BitsOf, Octet;
  }

  /** An octet is that of the number's low eight bits. */
  lemma OctetOfLow(v: nat)
    ensures Octet(v % 256) == Octet(v)
  {
    Pow2Values();
    ValueOfBits(v, 8);
    BitsOfValue(BitsOf(v, 8));
    hide BitsOf, ValueOf, Octet, Pow2;
    OctetIs(v, 8);
    OctetIs(v % 256, 8);
  }
}
