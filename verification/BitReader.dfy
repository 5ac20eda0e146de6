/** The reader: the inverse of the writer, bounds-checked at every step. */
module BitReading {
  import opened Wrappers
  import opened Numbers
  import opened Bits
  import opened BitStream
  import Utf8

  class BitReader {
    const data: seq<byte>
    const bits: nat
    var offset: nat

    /** The readable bits of `data`. */
    ghost const source: seq<bool>

    ghost predicate Valid()
      reads this
    {
      |source| == bits <= 8 * |data| && source == BufferBits(data, bits) && offset <= bits
    }

    constructor (data: seq<byte>, bits: nat)
      ensures Valid() && this.data == data && offset == 0
      ensures this.bits == Min(bits, 8 * |data|)
    {
      this.data := data;
      this.bits := Min(bits, 8 * |data|);
      source := BufferBits(data, Min(bits, 8 * |data|));
      offset := 0;
    }

    method Require(wanted: nat) returns (r: BitResult<()>)
      requires Valid()
      ensures r == if bits - offset < wanted then Err(OutOfBounds(wanted, bits - offset)) else Ok(())
    {
      if bits - offset < wanted {
        return Err(OutOfBounds(wanted, bits - offset));
      }
      return Ok(());
    }

    method NextBit() returns (r: BitResult<bool>)
      requires Valid()
      modifies this`offset
      ensures Valid() && Stopped(r, offset) == ReadBit(source, old(offset))
      ensures old(offset) < bits ==> r == Ok(source[old(offset)]) && offset == old(offset) + 1
    {
      var _ :- Require(1);
      var b := data[offset / 8];
      var bit := Bit(b, offset % 8);
      offset := offset + 1;
      return Ok(bit);
    }

    /** `count` bits into the top of a byte. */
    method NextByteBits(count: nat) returns (r: BitResult<byte>)
      requires Valid() && count <= 8
      modifies this`offset
      ensures Valid() && Stopped(r, offset) == ReadTop(source, old(offset), count)
      ensures old(offset) + count <= bits ==> r.Ok? && offset == old(offset) + count
    {
      hide BufferBits, ByteBits, ByteOf, SetBit;
      var _ :- Require(count);
      var b: byte := 0;
      ghost var s, start := source, offset;
      ByteBitsOfZero();
      for index := 0 to count
        invariant Valid() && offset == start + index && start + count <= bits
        invariant ByteBits(b) == s[start..start + index] + Zeros(8 - index)
      {
        var bit := NextBit();
        Extend(s, start, index, bit.value);
        if bit.value {
          b := SetBit(b, index);
        }
      }
      ByteRoundTrip(b);
      return Ok(b);
    }

    method NextU8() returns (r: BitResult<byte>)
      requires Valid()
      modifies this`offset
      ensures Valid() && Stopped(r, offset) == ReadByte(source, old(offset))
      ensures old(offset) + 8 <= bits ==> r.Ok? && offset == old(offset) + 8
    {
      r := NextByteBits(8);
      NoPadding(source, old(offset));
    }

    method NextBytes(count: nat) returns (r: BitResult<seq<byte>>)
      requires Valid()
      modifies this`offset
      ensures Valid() && Stopped(r, offset) == ReadBytes(source, old(offset), count)
    {
      hide BufferBits;
      var bytes: seq<byte> := [];
      ghost var s, start := source, offset;
      for i := 0 to count
        invariant Valid()
        invariant ReadBytes(s, start, i) == Got(bytes, offset)
      {
        ghost var here := offset;
        var b := NextU8();
        if b.Err? {
          FailsFurther(s, start, i + 1, count);
          return Err(b.error);
        }
        bytes := bytes + [b.value];
      }
      return Ok(bytes);
    }

    method NextU32() returns (r: BitResult<nat>)
      requires Valid()
      modifies this`offset
      ensures Valid() && Stopped(r, offset) == ReadU32(source, old(offset))
    {
      var bytes :- NextBytes(4);
      return Ok(BeValue(bytes));
    }

    method NextU16() returns (r: BitResult<nat>)
      requires Valid()
      modifies this`offset
      ensures Valid() && Stopped(r, offset) == ReadU16(source, old(offset))
    {
      var bytes :- NextBytes(2);
      return Ok(BeValue(bytes));
    }

    method NextU64Le() returns (r: BitResult<nat>)
      requires Valid()
      modifies this`offset
      ensures Valid() && Stopped(r, offset) == ReadU64(source, old(offset))
    {
      var bytes :- NextBytes(8);
      return Ok(LeValue(bytes));
    }

    /** The next whole byte of a field, or what is left of it as a byte of its own. */
    method NextChunk(remaining: nat) returns (b: byte)
      requires Valid() && remaining > 0 && offset + remaining <= bits
      modifies this`offset
      ensures Valid() && offset == old(offset) + Min(remaining, 8)
      ensures Chunks(source[old(offset)..old(offset) + remaining])
           == [b] + Chunks(source[offset..old(offset) + remaining])
    {
      hide BufferBits;
      ghost var at, end := offset, offset + remaining;
      if remaining >= 8 {
        var whole := NextU8();
        b := whole.value;
        WholeChunk(source, at, end);
      } else {
        var top := NextByteBits(remaining);
        b := ShiftDown(top.value, 8 - remaining);
        PartChunk(source, at, end);
      }
    }

    method NextBitsLe(n: nat) returns (r: BitResult<nat>)
      requires Valid()
      modifies this`offset
      ensures Valid() && Stopped(r, offset) == ReadLe(source, old(offset), n)
    {
      var _ :- Require(n);
      var bytes := NextField(n);
      return Ok(LeValue(bytes));
    }

    /** The chunks of the next `n` bits; those past the fourth are read and dropped. */
    method NextField(n: nat) returns (bytes: seq<byte>)
      requires Valid() && offset + n <= bits
      modifies this`offset
      ensures Valid() && offset == old(offset) + n
      ensures bytes == Fit(Chunks(source[old(offset)..offset]), 4)
    {
      hide BufferBits;
      bytes := [0, 0, 0, 0];
      var remaining, index := n, 0;
      ghost var end := offset + n;
      ghost var left := Chunks(source[offset..end]);
      ghost var all := left;
      while remaining > 0
        invariant Valid() && offset + remaining == end <= bits
        invariant left == Chunks(source[offset..end])
        invariant Stored(bytes, index, left, all)
      {
        var b := NextChunk(remaining);
        Store(bytes, index, left, all, b);
        remaining := if remaining >= 8 then remaining - 8 else 0;
        if index < 4 {
          bytes := bytes[index := b];
        }
        left := left[1..];
        index := index + 1;
      }
      assert source[offset..end] == [];
    }

    method AlignToByte() returns (r: BitResult<()>)
      requires Valid()
      modifies this`offset
      ensures Valid() && Stopped(r, offset) == ReadAlign(source, old(offset))
    {
      hide BufferBits;
      while offset % 8 != 0
        invariant Valid()
        invariant ReadAlign(source, offset) == ReadAlign(source, old(offset))
        decreases bits - offset
      {
        var _ :- NextBit();
      }
      return Ok(());
    }

    method NextAlignedBytes(count: nat) returns (r: BitResult<seq<byte>>)
      requires Valid()
      modifies this`offset
      ensures Valid() && Stopped(r, offset) == ReadAlignedBytes(source, old(offset), count)
    {
      var _ :- AlignToByte();
      var _ :- Require(count * 8);
      r := NextBytes(count);
    }

    method NextBitsMsb(n: nat) returns (r: BitResult<seq<byte>>)
      requires Valid()
      modifies this`offset
      ensures Valid() && Stopped(r, offset) == ReadMsb(source, old(offset), n)
    {
      hide BufferBits, Marked, SetAt, Packed;
      var _ :- Require(n);
      var out: seq<byte> := seq((n + 7) / 8, _ => 0);
      ghost var s, start := source, offset;
      ghost var all := s[start..start + n];
      AllClear(out, all);
      for index := 0 to n
        invariant Valid() && offset == start + index && |out| == (n + 7) / 8
        invariant Marked(out, index, all)
      {
        var bit := NextBit();
        MarkNext(out, index, all);
        if bit.value {
          out := SetAt(out, index);
        }
      }
      AllMarked(out, all);
      return Ok(out);
    }

    method SkipBits(n: nat) returns (r: BitResult<()>)
      requires Valid()
      modifies this`offset
      ensures Valid() && r.Ok? == (n <= bits - old(offset))
      ensures offset == if r.Ok? then old(offset) + n else old(offset)
    {
      var _ :- Require(n);
      offset := offset + n;
      return Ok(());
    }

    method NextCompressedU32() returns (r: BitResult<nat>)
      requires Valid()
      modifies this`offset
      ensures Valid() && Stopped(r, offset) == ReadCompressed(source, old(offset))
    {
      var large :- NextBit();
      r := NextBitsLe(if large then 32 else 7);
    }

    method NextString() returns (r: BitResult<seq<byte>>)
      requires Valid()
      modifies this`offset
      ensures Valid() && Stopped(r, offset) == ReadString(source, old(offset))
      ensures old(offset) + 2 <= bits && source[old(offset)] && source[old(offset) + 1] ==> r == Err(LargeStringLength)
      ensures r.Ok? ==> |r.value| < 256 && Utf8.Valid(r.value)
    {
      var present :- NextBit();
      if !present {
        return Ok([]);
      }
      var large :- NextBit();
      if large {
        return Err(LargeStringLength);
      }
      var b :- NextU8();
      var length: nat := b;
      var _ :- Require(length * 8);
      var text :- NextBytes(length);
      if !Utf8.Valid(text) {
        return Err(BadUtf8);
      }
      return Ok(text);
    }

    method NextOptionalU32() returns (r: BitResult<Option<nat>>)
      requires Valid()
      modifies this`offset
      ensures Valid() && Stopped(r, offset) == ReadOptional(source, old(offset))
    {
      var present :- NextBit();
      if present {
        var v :- NextU32();
        return Ok(Some(v));
      }
      return Ok(None);
    }

    method NextPacketId() returns (r: BitResult<nat>)
      requires Valid()
      modifies this`offset
      ensures Valid() && Stopped(r, offset) == ReadPacketId(source, old(offset))
    {
      var first :- NextU8();
      if first == 0xFF {
        var b :- NextU8();
        var second: nat := b;
        return Ok(PacketOrdinal(255 + second));
      }
      return Ok(PacketOrdinal(first));
    }
  }

  /** A byte read into its top bits. */
  function ReadTop(s: seq<bool>, at: nat, count: nat): Read<byte>
    requires at <= |s| && count <= 8
  {
    var (bits, at1) :- ReadBits(s, at, count);
    Got(ByteOf(bits + Zeros(8 - count)), at1)
  }

  lemma Extend(s: seq<bool>, start: nat, n: nat, bit: bool)
    requires start + n < |s| && n < 8 && s[start + n] == bit
    ensures s[start..start + n + 1] + Zeros(7 - n)
         == (if bit then (s[start..start + n] + Zeros(8 - n))[n := true] else s[start..start + n] + Zeros(8 - n))
  {
  }

  /** Once a run of bytes fails, a longer run fails in the same place. */
  lemma {:induction false} FailsFurther(s: seq<bool>, at: nat, n: nat, count: nat)
    requires at <= |s| && n <= count
    requires ReadBytes(s, at, n).Failed?
    ensures ReadBytes(s, at, count) == ReadBytes(s, at, n)
  {
    if n < count {
      FailsFurther(s, at, n, count - 1);
    }
  }

  lemma AllClear(data: seq<byte>, all: seq<bool>)
    requires |all| <= 8 * |data|
    requires forall i | 0 <= i < |data| :: data[i] == 0
    ensures Marked(data, 0, all)
  {
    ByteBitsOfZero();
  }

  /** The first `index` of the bits `all` have been set where they are set, and nothing else. */
  ghost predicate Marked(out: seq<byte>, index: nat, all: seq<bool>) {
    index <= |all| <= 8 * |out| && forall i: nat | i < 8 * |out| :: BitAt(out, i) == (i < index && all[i])
  }

  lemma MarkNext(out: seq<byte>, index: nat, all: seq<bool>)
    requires Marked(out, index, all) && index < |all|
    ensures Marked(if all[index] then SetAt(out, index) else out, index + 1, all)
  {
  }

  lemma AllMarked(out: seq<byte>, all: seq<bool>)
    requires Marked(out, |all|, all) && |out| == (|all| + 7) / 8
    ensures out == Packed(all)
  {
    BufferIsPacked(out, |all|);
    assert BufferBits(out, |all|) == all;
  }

  /** `index` of the chunks `all` have been taken, and `bytes` holds the first four of those. */
  ghost predicate Stored(bytes: seq<byte>, index: nat, left: seq<byte>, all: seq<byte>) {
    index + |left| == |all| && left == all[index..] && bytes == Fit(all[..index], 4)
  }

  lemma Store(bytes: seq<byte>, index: nat, left: seq<byte>, all: seq<byte>, b: byte)
    requires Stored(bytes, index, left, all) && left != [] && left[0] == b
    ensures Stored(if index < 4 then bytes[index := b] else bytes, index + 1, left[1..], all)
  {
  }

  lemma NoPadding(s: seq<bool>, at: nat)
    requires at <= |s|
    ensures ReadTop(s, at, 8) == ReadByte(s, at)
  {
    if at + 8 <= |s| {
      assert s[at..at + 8] + Zeros(0) == s[at..at + 8];
    }
  }

  lemma WholeChunk(s: seq<bool>, at: nat, end: nat)
    requires at + 8 <= end <= |s|
    ensures Chunks(s[at..end]) == [ByteOf(s[at..at + 8])] + Chunks(s[at + 8..end])
  {
    assert s[at..end][..8] == s[at..at + 8] && s[at..end][8..] == s[at + 8..end];
  }

  lemma PartChunk(s: seq<bool>, at: nat, end: nat)
    requires at < end <= |s| && end - at < 8
    ensures Chunks(s[at..end]) == [ShiftDown(ByteOf(s[at..end] + Zeros(8 - (end - at))), 8 - (end - at))]
    ensures Chunks(s[end..end]) == []
  {
    ShiftDownValue(s[at..end], 8 - (end - at));
    LeadingZeros(s[at..end], 8 - (end - at));
  }
}
