/**
  The bit stream of the game protocol: an in-place writer and an offset-walking reader, each
  proved against functions on an append-only sequence of bits.
 */
module BitStream {
  import opened Wrappers
  import opened Bits
  import Utf8

  const ID_USER_PACKET_ENUM: nat := 134
  const MAX_SHORT_STRING: nat := 255

  datatype BitError =
    | OutOfBounds(wanted: nat, available: nat)
    | BadUtf8
    | LargeStringLength

  type BitResult<+T> = Result<T, BitError>

  /** A read and the offset it stops at, whether or not it succeeds. */
  datatype Read<+T> = Got(value: T, at: nat) | Failed(error: BitError, at: nat) {
    predicate IsFailure() { Failed? }
    function PropagateFailure<U>(): Read<U>
      requires Failed?
    {
      Failed(error, at)
    }
    function Extract(): (T, nat)
      requires Got?
    {
      (value, at)
    }
  }

  function Stopped<T>(r: BitResult<T>, at: nat): Read<T> {
    match r
    case Ok(v) => Got(v, at)
    case Err(e) => Failed(e, at)
  }

  // --- what each write appends ---

  /** Whole bytes in order; a trailing part of a byte gives its low bits; missing bytes are zero. */
  function EncBits(bytes: seq<byte>, n: nat): (s: seq<bool>)
    ensures |s| == n
  {
    if n == 0 then []
    else
      var b := if bytes == [] then 0 else bytes[0];
      if n < 8 then BitsOf(b, n)
      else ByteBits(b) + EncBits(if bytes == [] then [] else bytes[1..], n - 8)
  }

  function EncU16(v: nat): (s: seq<bool>)
    ensures |s| == 16
  {
    EncBits(BeBytes(v, 2), 16)
  }

  function EncU32(v: nat): (s: seq<bool>)
    ensures |s| == 32
  {
    EncBits(BeBytes(v, 4), 32)
  }

  function EncLe(v: nat, n: nat): (s: seq<bool>)
    ensures |s| == n
  {
    EncBits(LeBytes(v, 4), n)
  }

  function EncU64(v: nat): (s: seq<bool>)
    ensures |s| == 64
  {
    EncBits(LeBytes(v, 8), 64)
  }

  function EncBytes(bytes: seq<byte>): (s: seq<bool>)
    ensures |s| == 8 * |bytes|
  {
    EncBits(bytes, 8 * |bytes|)
  }

  function EncMsb(bytes: seq<byte>, n: nat): (s: seq<bool>)
    ensures |s| == n
  {
    seq(n, k requires 0 <= k < n => k / 8 < |bytes| && Bit(bytes[k / 8], k % 8))
  }

  function EncAlign(at: nat): seq<bool> { Zeros((8 - at % 8) % 8) }

  function EncCompressed(v: nat): seq<bool> {
    if v < 0x80 then [false] + EncLe(v, 7) else [true] + EncLe(v, 32)
  }

  function EncOptional(v: Option<nat>): seq<bool> {
    match v
    case None => [false]
    case Some(x) => [true] + EncU32(x)
  }

  function EncString(text: seq<byte>): seq<bool> {
    if text == [] then [false] else [true] + (EncLength(|text|) + EncBytes(text))
  }

  function EncLength(n: nat): seq<bool> {
    if n < MAX_SHORT_STRING then [false] + ByteBits(n) else [true] + EncU32(n)
  }

  function EncPacketId(id: nat): seq<bool> {
    hide At, ByteBits;
    var wire := id + ID_USER_PACKET_ENUM;
    if wire >= 255 then ByteBits(0xFF) + ByteBits((wire - 255) % 256) else ByteBits(wire)
  }

  // --- what each read returns ---

  function ReadBits(s: seq<bool>, at: nat, n: nat): (r: Read<seq<bool>>)
    requires at <= |s|
    ensures r.Got? ==> at + n <= |s| && r == Got(s[at..at + n], at + n)
    ensures r.Failed? ==> r.at == at && at + n > |s|
  {
    if |s| - at < n then Failed(OutOfBounds(n, |s| - at), at) else Got(s[at..at + n], at + n)
  }

  function ReadBit(s: seq<bool>, at: nat): (r: Read<bool>)
    requires at <= |s|
    ensures r.at <= |s|
  {
    var (bits, at1) :- ReadBits(s, at, 1);
    Got(bits[0], at1)
  }

  function ReadByte(s: seq<bool>, at: nat): (r: Read<byte>)
    requires at <= |s|
    ensures r.at <= |s|
  {
    var (bits, at1) :- ReadBits(s, at, 8);
    Got(ByteOf(bits), at1)
  }

  function ReadBytes(s: seq<bool>, at: nat, count: nat): (r: Read<seq<byte>>)
    requires at <= |s|
    ensures r.at <= |s|
    ensures r.Got? ==> |r.value| == count && r.at == at + 8 * count
    decreases count
  {
    if count == 0 then Got([], at)
    else
      var (bytes, at1) :- ReadBytes(s, at, count - 1);
      var (b, at2) :- ReadByte(s, at1);
      Got(bytes + [b], at2)
  }

  function ReadU16(s: seq<bool>, at: nat): (r: Read<nat>)
    requires at <= |s|
    ensures r.at <= |s|
  {
    var (bytes, at1) :- ReadBytes(s, at, 2);
    Got(BeValue(bytes), at1)
  }

  function ReadU32(s: seq<bool>, at: nat): (r: Read<nat>)
    requires at <= |s|
    ensures r.at <= |s|
  {
    var (bytes, at1) :- ReadBytes(s, at, 4);
    Got(BeValue(bytes), at1)
  }

  function ReadU64(s: seq<bool>, at: nat): (r: Read<nat>)
    requires at <= |s|
    ensures r.at <= |s|
  {
    var (bytes, at1) :- ReadBytes(s, at, 8);
    Got(LeValue(bytes), at1)
  }

  /** Eight bits at a time; the trailing few bits are a byte of their own. */
  function Chunks(bits: seq<bool>): (bytes: seq<byte>)
    ensures |bytes| == (|bits| + 7) / 8
  {
    if bits == [] then []
    else if |bits| < 8 then [ByteOf(Zeros(8 - |bits|) + bits)]
    else [ByteOf(bits[..8])] + Chunks(bits[8..])
  }

  /** The first `n` bytes, with zeros for those missing. */
  function Fit(bytes: seq<byte>, n: nat): (r: seq<byte>)
    ensures |r| == n
  {
    seq(n, i requires 0 <= i < n => if i < |bytes| then bytes[i] else 0)
  }

  function ReadLe(s: seq<bool>, at: nat, n: nat): (r: Read<nat>)
    requires at <= |s|
    ensures r.at <= |s|
  {
    var (bits, at1) :- ReadBits(s, at, n);
    Got(LeValue(Fit(Chunks(bits), 4)), at1)
  }

  /** Bits packed from the top of each byte, the last one padded with zeros. */
  function Packed(bits: seq<bool>): (bytes: seq<byte>)
    ensures |bytes| == (|bits| + 7) / 8
  {
    seq((|bits| + 7) / 8, i requires 0 <= i < (|bits| + 7) / 8 => ByteOf(Window(bits, i)))
  }

  function Window(bits: seq<bool>, i: nat): (w: seq<bool>)
    ensures |w| == 8
  {
    seq(8, k requires 0 <= k < 8 => 8 * i + k < |bits| && bits[8 * i + k])
  }

  function ReadMsb(s: seq<bool>, at: nat, n: nat): (r: Read<seq<byte>>)
    requires at <= |s|
    ensures r.at <= |s|
  {
    var (bits, at1) :- ReadBits(s, at, n);
    Got(Packed(bits), at1)
  }

  function ReadAlign(s: seq<bool>, at: nat): (r: Read<()>)
    requires at <= |s|
    ensures r.at <= |s|
    decreases |s| - at
  {
    if at % 8 == 0 then Got((), at)
    else
      var (_, at1) :- ReadBit(s, at);
      ReadAlign(s, at1)
  }

  function ReadAlignedBytes(s: seq<bool>, at: nat, count: nat): (r: Read<seq<byte>>)
    requires at <= |s|
    ensures r.at <= |s|
  {
    var (_, at1) :- ReadAlign(s, at);
    if |s| - at1 < 8 * count then Failed(OutOfBounds(8 * count, |s| - at1), at1)
    else ReadBytes(s, at1, count)
  }

  function ReadCompressed(s: seq<bool>, at: nat): (r: Read<nat>)
    requires at <= |s|
    ensures r.at <= |s|
  {
    var (large, at1) :- ReadBit(s, at);
    ReadLe(s, at1, if large then 32 else 7)
  }

  function ReadOptional(s: seq<bool>, at: nat): (r: Read<Option<nat>>)
    requires at <= |s|
    ensures r.at <= |s|
  {
    var (present, at1) :- ReadBit(s, at);
    if present then
      var (v, at2) :- ReadU32(s, at1);
      Got(Some(v), at2)
    else
      Got(None, at1)
  }

  function ReadString(s: seq<bool>, at: nat): (r: Read<seq<byte>>)
    requires at <= |s|
    ensures r.at <= |s|
  {
    var (present, at1) :- ReadBit(s, at);
    if !present then Got([], at1)
    else
      var (large, at2) :- ReadBit(s, at1);
      if large then Failed(LargeStringLength, at2)
      else
        var (length, at3) :- ReadByte(s, at2);
        if |s| - at3 < 8 * length then Failed(OutOfBounds(8 * length, |s| - at3), at3)
        else
          var (text, at4) :- ReadBytes(s, at3, length);
          if Utf8.Valid(text) then Got(text, at4) else Failed(BadUtf8, at4)
  }

  function ReadPacketId(s: seq<bool>, at: nat): (r: Read<nat>)
    requires at <= |s|
    ensures r.at <= |s|
  {
    var (first, at1) :- ReadByte(s, at);
    if first == 0xFF then
      var (second, at2) :- ReadByte(s, at1);
      Got(PacketOrdinal(255 + second), at2)
    else
      Got(PacketOrdinal(first), at1)
  }

  function PacketOrdinal(wire: nat): nat {
    if wire < ID_USER_PACKET_ENUM then 0 else wire - ID_USER_PACKET_ENUM
  }

  // --- bits of a buffer ---

  predicate BitAt(data: seq<byte>, i: nat)
    requires i < 8 * |data|
  {
    Bit(data[i / 8], i % 8)
  }

  /** The first `n` bits of a buffer. */
  function BufferBits(data: seq<byte>, n: nat): (s: seq<bool>)
    requires n <= 8 * |data|
    ensures |s| == n
  {
    seq(n, i requires 0 <= i < n <= 8 * |data| => BitAt(data, i))
  }

  /** Set bit `n` of a buffer: `data[n / 8] |= 0x80 >> (n % 8)`. */
  function SetAt(data: seq<byte>, n: nat): (r: seq<byte>)
    requires n < 8 * |data|
    ensures |r| == |data|
    ensures forall i: nat | i < 8 * |data| :: BitAt(r, i) == (i == n || BitAt(data, i))
  {
    data[n / 8 := SetBit(data[n / 8], n % 8)]
  }

  /** Growing a buffer by a clear byte. */
  lemma PushZero(data: seq<byte>)
    ensures forall i: nat | i < 8 * |data| :: BitAt(data + [0], i) == BitAt(data, i)
    ensures forall i: nat | 8 * |data| <= i < 8 * |data| + 8 :: !BitAt(data + [0], i)
  {
    ByteBitsOfZero();
  }

  /** A buffer as long as its `n` bits need, and clear beyond them. */
  ghost predicate Tight(data: seq<byte>, n: nat) {
    |data| == (n + 7) / 8 && forall i: nat | n <= i < 8 * |data| :: !BitAt(data, i)
  }

  /** The buffer after one more bit: a fresh byte on a boundary, then the bit set in the last byte. */
  function PushBit(data: seq<byte>, n: nat, bit: bool): seq<byte>
    requires |data| == (n + 7) / 8
  {
    var grown := if n % 8 == 0 then data + [0] else data;
    if bit then SetAt(grown, n) else grown
  }

  lemma PushBitAppends(data: seq<byte>, n: nat, bit: bool)
    requires Tight(data, n)
    ensures Tight(PushBit(data, n, bit), n + 1)
    ensures BufferBits(PushBit(data, n, bit), n + 1) == BufferBits(data, n) + [bit]
  {
    var grown := if n % 8 == 0 then data + [0] else data;
    if n % 8 == 0 {
      PushZero(data);
    }
    var pushed := PushBit(data, n, bit);
    forall i: nat | i < 8 * |pushed|
      ensures BitAt(pushed, i) == if i == n then bit else i < n && BitAt(data, i)
    {
      assert BitAt(grown, i) == (i < n && BitAt(data, i));
    }
  }

  /** A buffer is its bits, packed. */
  lemma BufferIsPacked(data: seq<byte>, n: nat)
    requires |data| == (n + 7) / 8
    requires forall i: nat | n <= i < 8 * |data| :: !BitAt(data, i)
    ensures data == Packed(BufferBits(data, n))
  {
    var packed := Packed(BufferBits(data, n));
    forall i | 0 <= i < |data| ensures data[i] == packed[i] {
      var window := Window(BufferBits(data, n), i);
      forall k: nat | k < 8 ensures window[k] == ByteBits(data[i])[k] {
        assert (8 * i + k) / 8 == i && (8 * i + k) % 8 == k;
        assert window[k] == BitAt(data, 8 * i + k);
      }
      assert window == ByteBits(data[i]);
      ByteRoundTrip(data[i]);
    }
  }

  lemma Assoc(a: seq<bool>, b: seq<bool>, c: seq<bool>)
    ensures (a + b) + c == a + (b + c)
  {
  }

  // --- reading back what was written ---

  /** `code` stands in `s` at offset `at`. */
  ghost predicate At(s: seq<bool>, at: nat, code: seq<bool>) {
    at + |code| <= |s| && s[at..at + |code|] == code
  }

  lemma AtSplit(s: seq<bool>, at: nat, a: seq<bool>, b: seq<bool>)
    requires At(s, at, a + b)
    ensures At(s, at, a) && At(s, at + |a|, b)
  {
    assert a == (a + b)[..|a|] && b == (a + b)[|a|..];
    assert s[at..at + |a|] == s[at..at + |a + b|][..|a|];
    assert s[at + |a|..at + |a + b|] == s[at..at + |a + b|][|a|..];
  }

  lemma BitRoundTrip(s: seq<bool>, at: nat, b: bool)
    requires At(s, at, [b])
    ensures ReadBit(s, at) == Got(b, at + 1)
  {
    assert s[at..at + 1][0] == b;
  }

  lemma ByteAtRoundTrip(s: seq<bool>, at: nat, b: byte)
    requires At(s, at, ByteBits(b))
    ensures ReadByte(s, at) == Got(b, at + 8)
  {
    ByteRoundTrip(b);
  }

  lemma {:induction false} EncBytesSnoc(bytes: seq<byte>, b: byte)
    ensures EncBytes(bytes + [b]) == EncBytes(bytes) + ByteBits(b)
  {
    if bytes == [] {
      assert [b][1..] == [];
      assert EncBits([b], 8) == ByteBits(b) + EncBits([], 0);
    } else {
      assert (bytes + [b])[1..] == bytes[1..] + [b];
      EncBytesSnoc(bytes[1..], b);
    }
  }

  lemma {:induction false} BytesRoundTrip(s: seq<bool>, at: nat, bytes: seq<byte>)
    requires At(s, at, EncBytes(bytes))
    ensures ReadBytes(s, at, |bytes|) == Got(bytes, at + 8 * |bytes|)
  {
    if bytes != [] {
      var init, last := bytes[..|bytes| - 1], bytes[|bytes| - 1];
      assert bytes == init + [last];
      EncBytesSnoc(init, last);
      AtSplit(s, at, EncBytes(init), ByteBits(last));
      BytesRoundTrip(s, at, init);
      ByteAtRoundTrip(s, at + 8 * |init|, last);
    }
  }

  lemma U32RoundTrip(s: seq<bool>, at: nat, v: nat)
    requires At(s, at, EncU32(v))
    ensures ReadU32(s, at) == Got(v % 0x1_0000_0000, at + 32)
  {
    BytesRoundTrip(s, at, BeBytes(v, 4));
    BeRoundTrip(v, 4);
    Pow2Values();
  }

  lemma U16RoundTrip(s: seq<bool>, at: nat, v: nat)
    requires At(s, at, EncU16(v))
    ensures ReadU16(s, at) == Got(v % 0x1_0000, at + 16)
  {
    BytesRoundTrip(s, at, BeBytes(v, 2));
    BeRoundTrip(v, 2);
    Pow2Values();
  }

  lemma U64RoundTrip(s: seq<bool>, at: nat, v: nat)
    requires At(s, at, EncU64(v))
    ensures ReadU64(s, at) == Got(v % 0x1_0000_0000_0000_0000, at + 64)
  {
    BytesRoundTrip(s, at, LeBytes(v, 8));
    LeRoundTrip(v, 8);
    Pow2Values();
  }

  /** The chunks of a little-endian code carry the value's low bits. */
  lemma {:induction false} LeChunks(v: nat, m: nat, n: nat)
    ensures LeValue(Fit(Chunks(EncBits(LeBytes(v, m), n)), m)) == v % Pow2(if n < 8 * m then n else 8 * m)
  {
    hide EncBits, LeBytes, Pow2;
    if m == 0 || n == 0 {
      assert Pow2(0) == 1 by { OneBit(); }
      NoChunk(v, m, n);
    } else {
      if n < 8 {
        LastChunk(v, m, n);
      } else {
        LeChunks(v / 256, m - 1, n - 8);
        NextChunk(v, m, n);
        var k := (if n < 8 * m then n else 8 * m) - 8;
        LowBytes(v, k);
      }
    }
  }

  lemma OneBit()
    ensures Pow2(0) == 1
  {
  }

  lemma NoChunk(v: nat, m: nat, n: nat)
    requires m == 0 || n == 0
    ensures LeValue(Fit(Chunks(EncBits(LeBytes(v, m), n)), m)) == 0
  {
    if n == 0 {
      assert Fit(Chunks(EncBits(LeBytes(v, m), n)), m) == Fit([], m);
      AllZero(m);
    }
  }

  lemma LastChunk(v: nat, m: nat, n: nat)
    requires m > 0 && 0 < n < 8
    ensures LeValue(Fit(Chunks(EncBits(LeBytes(v, m), n)), m)) == v % Pow2(n)
  {
    var fit := Fit(Chunks(EncBits(LeBytes(v, m), n)), m);
    LowBits(v % 256, n);
    ModMod(v, n);
    assert fit[1..] == Fit([], m - 1);
    AllZero(m - 1);
  }

  lemma NextChunk(v: nat, m: nat, n: nat)
    requires m > 0 && n >= 8
    ensures LeValue(Fit(Chunks(EncBits(LeBytes(v, m), n)), m))
         == v % 256 + 256 * LeValue(Fit(Chunks(EncBits(LeBytes(v / 256, m - 1), n - 8)), m - 1))
  {
    var code := EncBits(LeBytes(v, m), n);
    var rest := EncBits(LeBytes(v / 256, m - 1), n - 8);
    assert LeBytes(v, m)[1..] == LeBytes(v / 256, m - 1);
    assert code == ByteBits(v % 256) + rest;
    assert code[..8] == ByteBits(v % 256) && code[8..] == rest;
    ByteRoundTrip(v % 256);
    assert Chunks(code) == [v % 256] + Chunks(rest);
    assert Fit(Chunks(code), m)[1..] == Fit(Chunks(rest), m - 1);
  }

  lemma {:induction false} AllZero(m: nat)
    ensures LeValue(Fit([], m)) == 0
  {
    if m > 0 {
      assert Fit([], m)[1..] == Fit([], m - 1);
      AllZero(m - 1);
    }
  }

  lemma LowBits(b: byte, n: nat)
    requires 0 < n < 8
    ensures Chunks(BitsOf(b, n)) == [b % Pow2(n)]
  {
    var bits := Zeros(8 - n) + BitsOf(b, n);
    ValueOfBits(b, n);
    LeadingZeros(BitsOf(b, n), 8 - n);
  }

  lemma {:induction false} LeadingZeros(bits: seq<bool>, m: nat)
    ensures ValueOf(Zeros(m) + bits) == ValueOf(bits)
    decreases |bits| + m
  {
    var all := Zeros(m) + bits;
    if bits != [] {
      assert all[..|all| - 1] == Zeros(m) + bits[..|bits| - 1];
      LeadingZeros(bits[..|bits| - 1], m);
    } else if m > 0 {
      assert all[..|all| - 1] == Zeros(m - 1) + bits;
      LeadingZeros(bits, m - 1);
    }
  }

  lemma ModMod(v: nat, n: nat)
    requires n < 8
    ensures v % 256 % Pow2(n) == v % Pow2(n)
  {
    ValueOfBits(v % 256, n);
    ValueOfBits(v, n);
    Pow2Values();
    BitsOfMod(v, n, 8);
  }

  /** A little-endian field of any width gives back the value modulo the width, at most 32 bits of it. */
  lemma LeRoundTrips(s: seq<bool>, at: nat, v: nat, n: nat)
    requires At(s, at, EncLe(v, n))
    ensures ReadLe(s, at, n) == Got(v % Pow2(if n < 32 then n else 32), at + n)
  {
    LeChunks(v, 4, n);
  }

  /** The width of a field declared with a maximum: as many bits as the maximum itself has. */
  function RangedBits(max: nat): (n: nat)
    ensures max < Pow2(n) && (n > 0 ==> Pow2(n - 1) <= max)
  {
    if max == 0 then 0 else 1 + RangedBits(max / 2)
  }

  lemma {:induction false} Pow2Grows(m: nat, n: nat)
    requires m <= n
    ensures Pow2(m) <= Pow2(n)
  {
    if m < n {
      Pow2Grows(m, n - 1);
    }
  }

  /** No narrower field holds the maximum, and no 32-bit maximum needs more than 32 bits. */
  lemma RangedIsLeast(max: nat, n: nat)
    ensures max < Pow2(n) <==> RangedBits(max) <= n
    ensures max < 0x1_0000_0000 ==> RangedBits(max) <= 32
  {
    Pow2Values();
    var width := RangedBits(max);
    if width <= n {
      Pow2Grows(width, n);
    } else {
      Pow2Grows(n, width - 1);
    }
    if width > 32 {
      Pow2Grows(32, width - 1);
    }
  }

  /** Every value up to the maximum comes back whole from a field of that width. */
  lemma RangedRoundTrip(s: seq<bool>, at: nat, v: nat, max: u32)
    requires v <= max && At(s, at, EncLe(v, RangedBits(max)))
    ensures ReadLe(s, at, RangedBits(max)) == Got(v, at + RangedBits(max))
  {
    hide At, EncLe, ReadLe;
    RangedIsLeast(max, 32);
    LeRoundTrips(s, at, v, RangedBits(max));
    SmallMod(v, Pow2(RangedBits(max)));
  }

  lemma SmallMod(v: nat, p: nat)
    requires v < p
    ensures v % p == v
  {
  }

  lemma {:induction false} AlignRoundTrip(s: seq<bool>, at: nat)
    requires At(s, at, EncAlign(at))
    ensures ReadAlign(s, at) == Got((), at + |EncAlign(at)|)
    ensures (at + |EncAlign(at)|) % 8 == 0
    decreases |EncAlign(at)|
  {
    if at % 8 != 0 {
      assert EncAlign(at) == [false] + EncAlign(at + 1);
      AtSplit(s, at, [false], EncAlign(at + 1));
      BitRoundTrip(s, at, false);
      AlignRoundTrip(s, at + 1);
    }
  }

  lemma LeNarrow(s: seq<bool>, at: nat, v: nat)
    requires At(s, at, EncLe(v, 7)) && v < 0x80
    ensures ReadLe(s, at, 7) == Got(v, at + 7)
  {
    hide *;
    LeRoundTrips(s, at, v, 7);
    Pow2Values();
  }

  lemma LeWide(s: seq<bool>, at: nat, v: nat)
    requires At(s, at, EncLe(v, 32))
    ensures ReadLe(s, at, 32) == Got(v % 0x1_0000_0000, at + 32)
  {
    hide *;
    LeRoundTrips(s, at, v, 32);
    Pow2Values();
  }

  lemma CompressedRoundTrip(s: seq<bool>, at: nat, v: nat)
    requires At(s, at, EncCompressed(v))
    ensures ReadCompressed(s, at) == Got(v % 0x1_0000_0000, at + |EncCompressed(v)|)
  {
    if v < 0x80 {
      AtSplit(s, at, [false], EncLe(v, 7));
      BitRoundTrip(s, at, false);
      LeNarrow(s, at + 1, v);
    } else {
      AtSplit(s, at, [true], EncLe(v, 32));
      BitRoundTrip(s, at, true);
      LeWide(s, at + 1, v);
    }
  }

  function Wrap32(v: Option<nat>): Option<nat> {
    match v
    case None => None
    case Some(x) => Some(x % 0x1_0000_0000)
  }

  lemma OptionalRoundTrip(s: seq<bool>, at: nat, v: Option<nat>)
    requires At(s, at, EncOptional(v))
    ensures ReadOptional(s, at) == Got(Wrap32(v), at + |EncOptional(v)|)
  {
    match v
    case None => BitRoundTrip(s, at, false);
    case Some(x) =>
      AtSplit(s, at, [true], EncU32(x));
      BitRoundTrip(s, at, true);
      U32RoundTrip(s, at + 1, x);
  }

  /** A string comes back exactly when it is short; a longer one is refused. */
  lemma StringRoundTrip(s: seq<bool>, at: nat, text: seq<byte>)
    requires At(s, at, EncString(text)) && Utf8.Valid(text)
    ensures ReadString(s, at) == (
      if |text| < 255 then Got(text, at + |EncString(text)|)
      else Failed(LargeStringLength, at + 2))
  {
    if text == [] {
      BitRoundTrip(s, at, false);
    } else {
      var large := |text| >= MAX_SHORT_STRING;
      AtSplit(s, at, [true], EncLength(|text|) + EncBytes(text));
      AtSplit(s, at + 1, EncLength(|text|), EncBytes(text));
      AtSplit(s, at + 1, [large], if large then EncU32(|text|) else ByteBits(|text|));
      BitRoundTrip(s, at, true);
      BitRoundTrip(s, at + 1, large);
      if !large {
        ByteAtRoundTrip(s, at + 2, |text|);
        BytesRoundTrip(s, at + 10, text);
      }
    }
  }

  /** A packet id comes back exactly up to 376; above that the escape byte wraps. */
  lemma PacketIdRoundTrip(s: seq<bool>, at: nat, id: nat)
    requires At(s, at, EncPacketId(id))
    ensures ReadPacketId(s, at).Got? && ReadPacketId(s, at).at == at + |EncPacketId(id)|
    ensures ReadPacketId(s, at).value == id <==> id <= 376
  {
    hide At, ByteBits;
    var wire := id + ID_USER_PACKET_ENUM;
    if wire >= 255 {
      AtSplit(s, at, ByteBits(0xFF), ByteBits((wire - 255) % 256));
      ByteAtRoundTrip(s, at, 0xFF);
      ByteAtRoundTrip(s, at + 8, (wire - 255) % 256);
    } else {
      ByteAtRoundTrip(s, at, wire);
    }
  }

  /** A payload of `n` bits comes back as its first `n` bits, padded with zeros. */
  lemma MsbRoundTrip(s: seq<bool>, at: nat, bytes: seq<byte>, n: nat)
    requires At(s, at, EncMsb(bytes, n))
    ensures ReadMsb(s, at, n) == Got(Packed(EncMsb(bytes, n)), at + n)
    ensures n == 8 * |bytes| ==> Packed(EncMsb(bytes, n)) == bytes
  {
    if n == 8 * |bytes| {
      forall i | 0 <= i < |bytes| ensures Packed(EncMsb(bytes, n))[i] == bytes[i] {
        assert Window(EncMsb(bytes, n), i) == ByteBits(bytes[i]);
        ByteRoundTrip(bytes[i]);
      }
    }
  }

  // --- the same, octet by octet ---

  /** Four octets, most significant first. */
  function BigEndian(v: nat): seq<bool> {
    Octet(v / 0x100_0000) + (Octet(v / 0x1_0000) + (Octet(v / 0x100) + Octet(v)))
  }

  /** Four octets, least significant first. */
  function LittleEndian(v: nat): seq<bool> {
    Octet(v) + (Octet(v / 0x100) + (Octet(v / 0x1_0000) + Octet(v / 0x100_0000)))
  }

  lemma BytesAre(v: nat)
    ensures LeBytes(v, 4) == [v % 256, v / 0x100 % 256, v / 0x1_0000 % 256, v / 0x100_0000 % 256]
    ensures BeBytes(v, 4) == [v / 0x100_0000 % 256, v / 0x1_0000 % 256, v / 0x100 % 256, v % 256]
  {
    assert v / 256 / 256 == v / 0x1_0000 && v / 0x1_0000 / 256 == v / 0x100_0000;
    assert LeBytes(v / 0x100_0000, 1) == [v / 0x100_0000 % 256];
    assert LeBytes(v / 0x1_0000, 2) == [v / 0x1_0000 % 256] + LeBytes(v / 0x100_0000, 1);
    assert LeBytes(v / 0x100, 3) == [v / 0x100 % 256] + LeBytes(v / 0x1_0000, 2);
    assert BeBytes(v / 0x100_0000, 1) == [v / 0x100_0000 % 256];
    assert BeBytes(v / 0x1_0000, 2) == BeBytes(v / 0x100_0000, 1) + [v / 0x1_0000 % 256];
    assert BeBytes(v / 0x100, 3) == BeBytes(v / 0x1_0000, 2) + [v / 0x100 % 256];
  }

  lemma EncBitsNext(b: byte, rest: seq<byte>, n: nat)
    requires n >= 8
    ensures EncBits([b] + rest, n) == Octet(b) + EncBits(rest, n - 8)
  {
    ByteIsOctet(b);
    assert ([b] + rest)[1..] == rest;
  }

  lemma EncBitsLast(b: byte, rest: seq<byte>, n: nat)
    requires n < 8
    ensures EncBits([b] + rest, n) == Octet(b)[8 - n..]
  {
    OctetIs(b, n);
  }

  lemma {:induction false} EncBitsNone(n: nat)
    ensures EncBits([], n) == Zeros(n)
  {
    ByteBitsOfZero();
    if n >= 8 {
      EncBitsNone(n - 8);
      assert Zeros(8) + Zeros(n - 8) == Zeros(n);
    } else {
      OctetIs(0, n);
      assert Octet(0)[8 - n..] == Zeros(n);
    }
  }

  lemma {:induction false} EncBitsOctets(bytes: seq<byte>, k: nat)
    requires k < 8 * |bytes|
    ensures EncBits(bytes, 8 * |bytes|)[k] == Octet(bytes[k / 8])[k % 8]
  {
    hide EncBits, Octet;
    var (first, rest) := (bytes[0], bytes[1..]);
    assert bytes == [first] + rest;
    EncBitsNext(first, rest, 8 * |bytes|);
    if k >= 8 {
      EncBitsOctets(rest, k - 8);
      OneLess(k);
    } else {
      assert k / 8 == 0 && k % 8 == k;
    }
  }

  lemma OneLess(k: nat)
    requires k >= 8
    ensures (k - 8) / 8 == k / 8 - 1 && (k - 8) % 8 == k % 8
  {
  }

  lemma FourOctets(bytes: seq<byte>, a: nat, b: nat, c: nat, e: nat)
    requires bytes == [a % 256, b % 256, c % 256, e % 256]
    ensures EncBits(bytes, 32) == Octet(a) + (Octet(b) + (Octet(c) + Octet(e)))
  {
    hide EncBits, Octet, Zeros;
    LeOctets(bytes, a, b, c, e, 32);
    NoZeros();
  }

  lemma NoZeros()
    ensures Zeros(0) == []
  {
  }

  /** A 32-bit value goes out big-endian. */
  lemma U32Wire(v: nat)
    ensures EncU32(v) == BigEndian(v)
  {
    BytesAre(v);
    hide BeBytes, LeBytes, EncBits, Octet;
    FourOctets(BeBytes(v, 4), v / 0x100_0000, v / 0x1_0000, v / 0x100, v);
  }

  lemma FourJoined(bytes: seq<byte>, a: byte, b: byte, c: byte, e: byte)
    requires bytes == [a, b, c, e]
    ensures bytes == [a] + [b, c, e] && [b, c, e] == [b] + [c, e] && [c, e] == [c] + [e] && [e] == [e] + []
  {
  }

  /** A 16-bit value goes out big-endian. */
  lemma U16Wire(v: nat)
    ensures EncU16(v) == Octet(v / 0x100) + Octet(v)
  {
    assert BeBytes(v / 0x100, 1) == [v / 0x100 % 256];
    assert BeBytes(v, 2) == [v / 0x100 % 256] + [v % 256];
    hide BeBytes, EncBits, Octet;
    OctetOfLow(v / 0x100);
    OctetOfLow(v);
    EncBitsNext(v / 0x100 % 256, [v % 256], 16);
    EncBitsNext(v % 256, [], 8);
    EncBitsNone(0);
    assert [v % 256] == [v % 256] + [];
  }

  /** A field goes out little-endian: its whole octets, then the low bits of the last; zeros past 32 bits. */
  lemma LeWire(v: nat, n: nat)
    ensures n < 8 ==> EncLe(v, n) == Octet(v)[8 - n..]
    ensures 8 <= n < 16 ==> EncLe(v, n) == Octet(v) + Octet(v / 0x100)[16 - n..]
    ensures 16 <= n < 24 ==> EncLe(v, n) == Octet(v) + (Octet(v / 0x100) + Octet(v / 0x1_0000)[24 - n..])
    ensures 24 <= n < 32 ==>
      EncLe(v, n) == Octet(v) + (Octet(v / 0x100) + (Octet(v / 0x1_0000) + Octet(v / 0x100_0000)[32 - n..]))
    ensures n == 32 ==> EncLe(v, n) == LittleEndian(v)
    ensures n > 32 ==>
      EncLe(v, n)
      == Octet(v) + (Octet(v / 0x100) + (Octet(v / 0x1_0000) + (Octet(v / 0x100_0000) + Zeros(n - 32))))
  {
    hide BeBytes, LeBytes, EncBits, Octet, Zeros;
    BytesAre(v);
    LeOctets(LeBytes(v, 4), v, v / 0x100, v / 0x1_0000, v / 0x100_0000, n);
    NoZeros();
  }

  lemma LeOctets(bytes: seq<byte>, a: nat, b: nat, c: nat, e: nat, n: nat)
    requires bytes == [a % 256, b % 256, c % 256, e % 256]
    ensures n < 8 ==> EncBits(bytes, n) == Octet(a)[8 - n..]
    ensures 8 <= n < 16 ==> EncBits(bytes, n) == Octet(a) + Octet(b)[16 - n..]
    ensures 16 <= n < 24 ==> EncBits(bytes, n) == Octet(a) + (Octet(b) + Octet(c)[24 - n..])
    ensures 24 <= n < 32 ==> EncBits(bytes, n) == Octet(a) + (Octet(b) + (Octet(c) + Octet(e)[32 - n..]))
    ensures n >= 32 ==> EncBits(bytes, n) == Octet(a) + (Octet(b) + (Octet(c) + (Octet(e) + Zeros(n - 32))))
  {
    hide EncBits, Octet, Zeros;
    var (w, x, y, z) := (a % 256, b % 256, c % 256, e % 256);
    FourJoined(bytes, w, x, y, z);
    OctetOfLow(a);
    OctetOfLow(b);
    OctetOfLow(c);
    OctetOfLow(e);
    LowOctets(w, [x, y, z], n);
    if n >= 8 {
      LowOctets(x, [y, z], n - 8);
    }
    if n >= 16 {
      LowOctets(y, [z], n - 16);
    }
    if n >= 24 {
      LowOctets(z, [], n - 24);
    }
    if n >= 32 {
      EncBitsNone(n - 32);
    }
  }

  lemma LowOctets(b: byte, rest: seq<byte>, n: nat)
    ensures n < 8 ==> EncBits([b] + rest, n) == Octet(b)[8 - n..]
    ensures n >= 8 ==> EncBits([b] + rest, n) == Octet(b) + EncBits(rest, n - 8)
  {
    hide EncBits, Octet;
    if n < 8 {
      EncBitsLast(b, rest, n);
    } else {
      EncBitsNext(b, rest, n);
    }
  }

  /** Eight octets, least significant first. */
  lemma U64Wire(v: nat)
    ensures EncU64(v) == LittleEndian(v) + LittleEndian(v / 0x1_0000_0000)
  {
    hide LeBytes, BeBytes, EncBits, Octet;
    var high := v / 0x1_0000_0000;
    EightBytes(v);
    BytesAre(v);
    BytesAre(high);
    FourOctets(LeBytes(v, 4), v, v / 0x100, v / 0x1_0000, v / 0x100_0000);
    FourOctets(LeBytes(high, 4), high, high / 0x100, high / 0x1_0000, high / 0x100_0000);
    EncBitsJoined(LeBytes(v, 4), LeBytes(high, 4));
  }

  lemma EightBytes(v: nat)
    ensures LeBytes(v, 8) == LeBytes(v, 4) + LeBytes(v / 0x1_0000_0000, 4)
  {
    assert v / 256 / 256 / 256 / 256 == v / 0x1_0000_0000;
    FourMore(v, v / 256 / 256, v / 256 / 256 / 256 / 256, 4);
    FourMore(v, v / 256 / 256, v / 256 / 256 / 256 / 256, 0);
    hide LeBytes;
  }

  lemma FourMore(v: nat, a: nat, b: nat, n: nat)
    requires a == v / 256 / 256 && b == a / 256 / 256
    ensures LeBytes(v, n + 4) == [v % 256, v / 256 % 256, a % 256, a / 256 % 256] + LeBytes(b, n)
    ensures LeBytes(b, 0) == []
  {
    assert LeBytes(b, 0) == [];
    hide LeBytes;
    TwoMore(v, v / 256, a, n + 2);
    TwoMore(a, a / 256, b, n);
  }

  lemma TwoMore(v: nat, w: nat, x: nat, n: nat)
    requires w == v / 256 && x == w / 256
    ensures LeBytes(v, n + 2) == [v % 256, w % 256] + LeBytes(x, n)
  {
    OneMore(v, w, n + 1);
    OneMore(w, x, n);
    hide LeBytes;
  }

  lemma OneMore(v: nat, w: nat, n: nat)
    requires w == v / 256
    ensures LeBytes(v, n + 1) == [v % 256] + LeBytes(w, n)
  {
  }

  lemma {:induction false} EncBitsJoined(a: seq<byte>, b: seq<byte>)
    ensures EncBits(a + b, 8 * |a + b|) == EncBits(a, 8 * |a|) + EncBits(b, 8 * |b|)
  {
    hide EncBits, Octet;
    if a == [] {
      assert a + b == b;
      EncBitsNone(0);
    } else {
      var (first, rest) := (a[0], a[1..]);
      assert a == [first] + rest && a + b == [first] + (rest + b);
      EncBitsNext(first, rest + b, 8 * |a + b|);
      EncBitsNext(first, rest, 8 * |a|);
      EncBitsJoined(rest, b);
      Assoc(Octet(first), EncBits(rest, 8 * |rest|), EncBits(b, 8 * |b|));
    }
  }

  /** Under 128 a flag and seven bits; otherwise a flag and four octets, least significant first. */
  lemma CompressedWire(v: nat)
    ensures EncCompressed(v) == if v < 128 then [false] + Octet(v)[1..] else [true] + LittleEndian(v)
  {
    hide EncLe, Octet;
    LeWire(v, if v < 128 then 7 else 32);
    assert Zeros(0) == [];
  }

  lemma OptionalWire(v: Option<nat>)
    ensures EncOptional(v) == if v.Some? then [true] + BigEndian(v.value) else [false]
  {
    hide EncU32;
    if v.Some? {
      U32Wire(v.value);
    }
  }

  lemma LengthWire(n: nat)
    ensures EncLength(n) == if n < 255 then [false] + Octet(n) else [true] + BigEndian(n)
  {
    U32Wire(n);
    hide EncU32, Octet, ByteBits, BigEndian;
    if n < 255 {
      ByteIsOctet(n);
    }
  }

  lemma TwoFlags(a: bool, b: bool, c: seq<bool>, e: seq<bool>)
    ensures [a] + (([b] + c) + e) == [a, b] + c + e
  {
  }

  /** Text: nothing is one clear bit; under 255 bytes one octet of length, otherwise four, most significant first. */
  lemma StringWire(text: seq<byte>)
    ensures text == [] ==> EncString(text) == [false]
    ensures 0 < |text| < 255 ==> EncString(text) == [true, false] + Octet(|text|) + EncBytes(text)
    ensures |text| >= 255 ==> EncString(text) == [true, true] + BigEndian(|text|) + EncBytes(text)
  {
    LengthWire(|text|);
    hide EncLength, EncBytes, Octet, BigEndian;
    TwoFlags(true, false, Octet(|text|), EncBytes(text));
    TwoFlags(true, true, BigEndian(|text|), EncBytes(text));
  }

  /** The text itself goes out octet by octet. */
  lemma BytesWire(text: seq<byte>, k: nat)
    requires k < 8 * |text|
    ensures EncBytes(text)[k] == Octet(text[k / 8])[k % 8]
  {
    EncBitsOctets(text, k);
  }

  /** Ids up to 120 are one octet, 134 higher; the rest are 255 and an octet 121 lower. */
  lemma PacketIdWire(id: nat)
    ensures EncPacketId(id) == if id <= 120 then Octet(id + 134) else Octet(255) + Octet(id - 121)
  {
    hide Octet, ByteBits;
    if id <= 120 {
      ByteIsOctet(id + 134);
    } else {
      var low := (id - 121) % 256;
      ByteIsOctet(255);
      ByteIsOctet(low);
      OctetOfLow(id - 121);
    }
  }

  /** A tight buffer's octets are the bits it holds and then clear ones. */
  lemma PackedOctets(data: seq<byte>, n: nat)
    requires Tight(data, n)
    ensures forall k | 0 <= k < 8 * |data| :: Octet(data[k / 8])[k % 8] == (k < n && BufferBits(data, n)[k])
  {
    hide Octet, ByteBits;
    forall k: nat | k < 8 * |data| ensures Octet(data[k / 8])[k % 8] == BitAt(data, k) {
      ByteIsOctet(data[k / 8]);
    }
  }

  lemma MsbWire(bytes: seq<byte>, n: nat, k: nat)
    requires k < n
    ensures EncMsb(bytes, n)[k] == (k / 8 < |bytes| && Octet(bytes[k / 8])[k % 8])
  {
    if k / 8 < |bytes| {
      ByteIsOctet(bytes[k / 8]);
      hide Octet, ByteBits;
    }
  }

  lemma AtFits(s: seq<bool>, at: nat, w: seq<bool>)
    requires At(s, at, w)
    ensures at + |w| <= |s|
  {
  }

  /** A short text that is not UTF-8 is refused, once it is read. */
  lemma MalformedRefused(s: seq<bool>, at: nat, text: seq<byte>)
    requires At(s, at, EncString(text)) && !Utf8.Valid(text) && 0 < |text| < 255
    ensures ReadString(s, at) == Failed(BadUtf8, at + |EncString(text)|)
  {
    hide At, EncBytes, ByteBits, ReadBytes, ReadBit, ReadByte, Utf8.Valid;
    AtSplit(s, at, [true], EncLength(|text|) + EncBytes(text));
    AtSplit(s, at + 1, EncLength(|text|), EncBytes(text));
    AtSplit(s, at + 1, [false], ByteBits(|text|));
    BitRoundTrip(s, at, true);
    BitRoundTrip(s, at + 1, false);
    ByteAtRoundTrip(s, at + 2, |text|);
    BytesRoundTrip(s, at + 10, text);
    AtFits(s, at + 10, EncBytes(text));
  }

  /** A first octet other than 255 is the whole id: 134 less, and 0 for one that is no game packet. */
  lemma PacketIdOf(s: seq<bool>, at: nat, b: byte)
    requires At(s, at, Octet(b)) && b != 255
    ensures ReadPacketId(s, at) == Got(if b < 134 then 0 else b - 134, at + 8)
  {
    ByteIsOctet(b);
    ByteAtRoundTrip(s, at, b);
    hide At, Octet, ByteBits, ReadByte;
  }
}
