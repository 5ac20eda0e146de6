/** The writer: bits fill each byte of a growing buffer from the most significant end. */
module BitWriting {
  import opened Wrappers
  import opened Bits
  import opened BitStream

  class BitWriter {
    var data: seq<byte>
    var bits: nat

    /** The buffer is as long as the bits need and clear beyond them. */
    ghost predicate Valid()
      reads this
    {
      Tight(data, bits)
    }

    /** Everything written so far, one bit at a time. */
    ghost function Written(): (w: seq<bool>)
      requires Valid()
      reads this
      ensures |w| == bits
    {
      BufferBits(data, bits)
    }

    constructor ()
      ensures Valid() && Written() == []
    {
      data := [];
      bits := 0;
    }

    method WriteBit(bit: bool)
      requires Valid()
      modifies this
      ensures Valid() && Written() == old(Written()) + [bit]
    {
      PushBitAppends(data, bits, bit);
      var offset := bits % 8;
      if offset == 0 {
        data := data + [0];
      }
      if bit {
        data := SetAt(data, bits);
      }
      bits := bits + 1;
    }

    method WriteByteBits(value: byte, count: nat)
      requires Valid() && count <= 8
      modifies this
      ensures Valid() && Written() == old(Written()) + ByteBits(value)[..count]
    {
      hide Tight, BufferBits;
      for index := 0 to count
        invariant Valid() && Written() == old(Written()) + ByteBits(value)[..index]
      {
        WriteBit(Bit(value, index));
        assert ByteBits(value)[..index + 1] == ByteBits(value)[..index] + [Bit(value, index)];
      }
    }

    method WriteU8(value: byte)
      requires Valid()
      modifies this
      ensures Valid() && Written() == old(Written()) + ByteBits(value)
      ensures Written() == old(Written()) + Octet(value)
    {
      hide Tight, BufferBits, ByteBits, Octet;
      WriteByteBits(value, 8);
      ByteIsOctet(value);
    }

    method WriteBits(bytes: seq<byte>, n: nat)
      requires Valid()
      modifies this
      ensures Valid() && Written() == old(Written()) + EncBits(bytes, n)
    {
      hide Tight, BufferBits, BitsOf, ByteBits, ShiftUp, Pow2;
      var remaining, index := n, 0;
      ghost var rest := bytes;
      while remaining > 0
        invariant Valid()
        invariant rest == if index <= |bytes| then bytes[index..] else []
        invariant Written() + EncBits(rest, remaining) == old(Written()) + EncBits(bytes, n)
      {
        var b: byte := if index < |bytes| then bytes[index] else 0;
        ghost var so_far := Written();
        if remaining >= 8 {
          WriteByteBits(b, 8);
          remaining := remaining - 8;
          rest := if rest == [] then [] else rest[1..];
          assert so_far + (ByteBits(b) + EncBits(rest, remaining)) == Written() + EncBits(rest, remaining);
        } else {
          ShiftUpBits(b, remaining);
          WriteByteBits(ShiftUp(b, 8 - remaining), remaining);
          assert EncBits(rest, remaining) == BitsOf(b, remaining);
          remaining := 0;
          rest := if rest == [] then [] else rest[1..];
        }
        index := index + 1;
      }
    }

    method WriteU32(value: nat)
      requires Valid()
      modifies this
      ensures Valid() && Written() == old(Written()) + EncU32(value)
      ensures Written()
           == old(Written())
              + (Octet(value / 0x100_0000) + (Octet(value / 0x1_0000) + (Octet(value / 0x100) + Octet(value))))
    {
      hide Tight, BufferBits, Octet, EncBits, BeBytes;
      WriteBits(BeBytes(value, 4), 32);
      U32Wire(value);
    }

    method WriteU16(value: nat)
      requires Valid()
      modifies this
      ensures Valid() && Written() == old(Written()) + EncU16(value)
      ensures Written() == old(Written()) + (Octet(value / 0x100) + Octet(value))
    {
      hide Tight, BufferBits, Octet, EncBits, BeBytes;
      WriteBits(BeBytes(value, 2), 16);
      U16Wire(value);
    }

    method WriteBitsLe(value: nat, n: nat)
      requires Valid()
      modifies this
      ensures Valid() && Written() == old(Written()) + EncLe(value, n)
    {
      WriteBits(LeBytes(value, 4), n);
    }

    method WriteU64Le(value: nat)
      requires Valid()
      modifies this
      ensures Valid() && Written() == old(Written()) + EncU64(value)
      ensures Written() == old(Written()) + (LittleEndian(value) + LittleEndian(value / 0x1_0000_0000))
    {
      hide Tight, BufferBits, Octet, EncBits, LeBytes;
      WriteBits(LeBytes(value, 8), 64);
      U64Wire(value);
    }

    method AlignToByte()
      requires Valid()
      modifies this
      ensures Valid() && bits % 8 == 0
      ensures Written() == old(Written()) + EncAlign(old(bits))
      ensures bits < old(bits) + 8 && forall k | old(bits) <= k < bits :: !Written()[k]
    {
      hide Tight, BufferBits;
      while bits % 8 != 0
        invariant Valid() && old(bits) <= bits <= old(bits) + |EncAlign(old(bits))|
        invariant Written() == old(Written()) + Zeros(bits - old(bits))
        decreases old(bits) + 8 - bits
      {
        WriteBit(false);
      }
    }

    method WriteAlignedBytes(bytes: seq<byte>)
      requires Valid()
      modifies this
      ensures Valid()
      ensures Written() == old(Written()) + EncAlign(old(bits)) + EncBytes(bytes)
    {
      hide Tight, BufferBits;
      AlignToByte();
      ghost var aligned := Written();
      for i := 0 to |bytes|
        invariant Valid() && Written() == aligned + EncBytes(bytes[..i])
      {
        WriteU8(bytes[i]);
        assert bytes[..i + 1] == bytes[..i] + [bytes[i]];
        EncBytesSnoc(bytes[..i], bytes[i]);
      }
      assert bytes[..|bytes|] == bytes;
    }

    method WriteBitsMsb(bytes: seq<byte>, n: nat)
      requires Valid()
      modifies this
      ensures Valid() && Written() == old(Written()) + EncMsb(bytes, n)
      ensures forall k | 0 <= k < n ::
        Written()[old(bits) + k] == (k / 8 < |bytes| && Octet(bytes[k / 8])[k % 8])
    {
      hide Tight, BufferBits, Octet, EncMsb, ByteBits;
      for index := 0 to n
        invariant Valid() && Written() == old(Written()) + EncMsb(bytes, n)[..index]
      {
        var b: byte := if index / 8 < |bytes| then bytes[index / 8] else 0;
        MsbNext(bytes, n, index, b);
        WriteBit(Bit(b, index % 8));
      }
      assert EncMsb(bytes, n)[..n] == EncMsb(bytes, n);
      MsbSuffix(old(Written()), Written(), bytes, n);
    }

    method WriteCompressedU32(value: nat)
      requires Valid()
      modifies this
      ensures Valid() && Written() == old(Written()) + EncCompressed(value)
      ensures value < 128 ==> Written() == old(Written()) + ([false] + Octet(value)[1..])
      ensures value >= 128 ==> Written() == old(Written()) + ([true] + LittleEndian(value))
    {
      hide Tight, BufferBits, Octet, LittleEndian, EncLe;
      CompressedWire(value);
      ghost var w := Written();
      if value < 0x80 {
        WriteBit(false);
        WriteBitsLe(value, 7);
        Assoc(w, [false], EncLe(value, 7));
      } else {
        WriteBit(true);
        WriteBitsLe(value, 32);
        Assoc(w, [true], EncLe(value, 32));
      }
    }

    method WriteString(text: seq<byte>)
      requires Valid()
      modifies this
      ensures Valid() && Written() == old(Written()) + EncString(text)
      ensures text == [] ==> Written() == old(Written()) + [false]
      ensures 0 < |text| < 255 ==> Written() == old(Written()) + ([true, false] + Octet(|text|) + EncBytes(text))
      ensures |text| >= 255 ==> Written() == old(Written()) + ([true, true] + BigEndian(|text|) + EncBytes(text))
    {
      hide Tight, BufferBits, EncLength, EncBytes, EncBits, Octet, BigEndian;
      StringWire(text);
      if text == [] {
        WriteBit(false);
        return;
      }
      WriteBit(true);
      WriteLength(|text|);
      ghost var framed := Written();
      WriteText(text);
      StringParts(old(Written()), framed, text);
    }

    method WriteText(text: seq<byte>)
      requires Valid()
      modifies this
      ensures Valid() && Written() == old(Written()) + EncBytes(text)
      ensures forall k | 0 <= k < 8 * |text| :: Written()[old(bits) + k] == Octet(text[k / 8])[k % 8]
    {
      hide Tight, BufferBits, Octet, EncBits;
      WriteBits(text, |text| * 8);
      TextSuffix(old(Written()), Written(), text);
    }

    method WriteLength(n: nat)
      requires Valid()
      modifies this
      ensures Valid() && Written() == old(Written()) + EncLength(n)
    {
      hide Tight, BufferBits;
      if n < MAX_SHORT_STRING {
        WriteBit(false);
        WriteU8(n);
        Assoc(old(Written()), [false], ByteBits(n));
      } else {
        WriteBit(true);
        WriteU32(n);
        Assoc(old(Written()), [true], EncU32(n));
      }
    }

    method WriteOptionalU32(value: Option<nat>)
      requires Valid()
      modifies this
      ensures Valid() && Written() == old(Written()) + EncOptional(value)
      ensures Written() == old(Written()) + if value.Some? then [true] + BigEndian(value.value) else [false]
    {
      hide Tight, BufferBits, BigEndian, EncU32;
      OptionalWire(value);
      WriteBit(value.Some?);
      if value.Some? {
        WriteU32(value.value);
      }
    }

    method WritePacketId(id: nat)
      requires Valid()
      modifies this
      ensures Valid() && Written() == old(Written()) + EncPacketId(id)
      ensures id <= 120 ==> Written() == old(Written()) + Octet(id + 134)
      ensures id > 120 ==> Written() == old(Written()) + (Octet(255) + Octet(id - 121))
    {
      hide Tight, BufferBits, Octet, ByteBits;
      PacketIdWire(id);
      var wire := id + ID_USER_PACKET_ENUM;
      if wire >= 255 {
        WriteU8(0xFF);
        WriteU8((wire - 255) % 256);
        Assoc(old(Written()), ByteBits(0xFF), ByteBits((wire - 255) % 256));
      } else {
        WriteU8(wire);
      }
    }

    /** The buffer is the bits written, packed and padded with zeros. */
    method IntoBytes() returns (bytes: seq<byte>)
      requires Valid()
      ensures bytes == Packed(Written())
      ensures |bytes| == (bits + 7) / 8
      ensures forall k | 0 <= k < 8 * |bytes| :: Octet(bytes[k / 8])[k % 8] == (k < bits && Written()[k])
    {
      BufferIsPacked(data, bits);
      PackedOctets(data, bits);
      bytes := data;
    }
  }

  lemma StringParts(before: seq<bool>, framed: seq<bool>, text: seq<byte>)
    requires text != [] && framed == before + [true] + EncLength(|text|)
    ensures framed + EncBytes(text) == before + EncString(text)
  {
    Assoc(before + [true], EncLength(|text|), EncBytes(text));
    Assoc(before, [true], EncLength(|text|) + EncBytes(text));
  }

  lemma TextSuffix(before: seq<bool>, after: seq<bool>, text: seq<byte>)
    requires after == before + EncBytes(text)
    ensures forall k | 0 <= k < 8 * |text| :: after[|before| + k] == Octet(text[k / 8])[k % 8]
  {
    hide EncBytes, Octet;
    forall k | 0 <= k < 8 * |text| ensures after[|before| + k] == Octet(text[k / 8])[k % 8] {
      BytesWire(text, k);
    }
  }

  lemma MsbSuffix(before: seq<bool>, after: seq<bool>, bytes: seq<byte>, n: nat)
    requires after == before + EncMsb(bytes, n)
    ensures forall k | 0 <= k < n :: after[|before| + k] == (k / 8 < |bytes| && Octet(bytes[k / 8])[k % 8])
  {
    hide EncMsb, Octet;
    forall k | 0 <= k < n
      ensures after[|before| + k] == (k / 8 < |bytes| && Octet(bytes[k / 8])[k % 8])
    {
      MsbWire(bytes, n, k);
    }
  }

  lemma MsbNext(bytes: seq<byte>, n: nat, k: nat, b: byte)
    requires k < n && b == if k / 8 < |bytes| then bytes[k / 8] else 0
    ensures EncMsb(bytes, n)[..k + 1] == EncMsb(bytes, n)[..k] + [Bit(b, k % 8)]
  {
    ByteBitsOfZero();
    hide ByteBits;
    assert EncMsb(bytes, n)[..k + 1] == EncMsb(bytes, n)[..k] + [EncMsb(bytes, n)[k]];
  }
}
