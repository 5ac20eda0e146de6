/**
  Whole packets as programs of writes, and the mirrored programs of reads.
 */
module Programs {
  import opened Wrappers
  import opened Bits
  import opened BitStream
  import opened BitWriting
  import opened BitReading
  import Utf8

  /** One field: what is written, or what was read back in its place. */
  datatype Field =
    | Flag(flag: bool)
    | U8(u8: byte)
    | U16(u16: nat)
    | U32(u32: nat)
    | U64(u64: nat)
    | Le(le: nat, width: nat)
    | Msb(payload: seq<byte>, count: nat)
    | Align
    | Aligned(block: seq<byte>)
    | Compressed(compressed: nat)
    | Optional(optional: Option<nat>)
    | Text(text: seq<byte>)
    | PacketId(id: nat)

  /** The values the writer's parameter types allow. */
  predicate Typed(f: Field) {
    match f
    case U16(v) => v < 0x1_0000
    case U32(v) => v < 0x1_0000_0000
    case U64(v) => v < 0x1_0000_0000_0000_0000
    case Le(v, _) => v < 0x1_0000_0000
    case Compressed(v) => v < 0x1_0000_0000
    case Optional(Some(v)) => v < 0x1_0000_0000
    case Text(t) => Utf8.Valid(t)
    case PacketId(id) => id + ID_USER_PACKET_ENUM < 0x1_0000
    case _ => true
  }

  /** The fields the reader can give back. */
  predicate Carried(f: Field) {
    match f
    case Text(t) => |t| < 255
    case PacketId(id) => id <= 376
    case _ => true
  }

  /** What a reader should find: a narrow field keeps its low bits, a payload its first bits. */
  function Expected(f: Field): Field {
    match f
    case Le(v, n) => Le(v % Pow2(if n < 32 then n else 32), n)
    case Msb(p, n) => Msb(Packed(EncMsb(p, n)), n)
    case _ => f
  }

  function Enc(f: Field, at: nat): seq<bool> {
    match f
    case Flag(b) => [b]
    case U8(b) => ByteBits(b)
    case U16(v) => EncU16(v)
    case U32(v) => EncU32(v)
    case U64(v) => EncU64(v)
    case Le(v, n) => EncLe(v, n)
    case Msb(p, n) => EncMsb(p, n)
    case Align => EncAlign(at)
    case Aligned(bytes) => EncAlign(at) + EncBytes(bytes)
    case Compressed(v) => EncCompressed(v)
    case Optional(v) => EncOptional(v)
    case Text(t) => EncString(t)
    case PacketId(id) => EncPacketId(id)
  }

  function Wrap<T, U>(r: Read<T>, make: T -> U): (w: Read<U>)
    ensures w.at == r.at
  {
    match r
    case Got(v, at) => Got(make(v), at)
    case Failed(e, at) => Failed(e, at)
  }

  /** Read a field of the same kind and shape as `f`. */
  function Mirror(f: Field, s: seq<bool>, at: nat): (r: Read<Field>)
    requires at <= |s|
    ensures r.at <= |s|
  {
    match f
    case Flag(_) => Wrap(ReadBit(s, at), b => Flag(b))
    case U8(_) => Wrap(ReadByte(s, at), b => U8(b))
    case U16(_) => Wrap(ReadU16(s, at), v => U16(v))
    case U32(_) => Wrap(ReadU32(s, at), v => U32(v))
    case U64(_) => Wrap(ReadU64(s, at), v => U64(v))
    case Le(_, n) => Wrap(ReadLe(s, at, n), v => Le(v, n))
    case Msb(_, n) => Wrap(ReadMsb(s, at, n), p => Msb(p, n))
    case Align => Wrap(ReadAlign(s, at), _ => Align)
    case Aligned(bytes) => Wrap(ReadAlignedBytes(s, at, |bytes|), b => Aligned(b))
    case Compressed(_) => Wrap(ReadCompressed(s, at), v => Compressed(v))
    case Optional(_) => Wrap(ReadOptional(s, at), v => Optional(v))
    case Text(_) => Wrap(ReadString(s, at), t => Text(t))
    case PacketId(_) => Wrap(ReadPacketId(s, at), id => PacketId(id))
  }

  function EncAll(fields: seq<Field>, at: nat): seq<bool> {
    if fields == [] then []
    else Enc(fields[0], at) + EncAll(fields[1..], at + |Enc(fields[0], at)|)
  }

  function MirrorAll(fields: seq<Field>, s: seq<bool>, at: nat): (r: Read<seq<Field>>)
    requires at <= |s|
    ensures r.at <= |s|
  {
    if fields == [] then Got([], at)
    else
      var (f, at1) :- Mirror(fields[0], s, at);
      var (rest, at2) :- MirrorAll(fields[1..], s, at1);
      Got([f] + rest, at2)
  }

  function ExpectedAll(fields: seq<Field>): (r: seq<Field>)
    ensures |r| == |fields|
  {
    seq(|fields|, i requires 0 <= i < |fields| => Expected(fields[i]))
  }

  lemma NumberRoundTrip(f: Field, s: seq<bool>, at: nat)
    requires f.U8? || f.U16? || f.U32? || f.U64? || f.Le? || f.Compressed?
    requires Typed(f) && At(s, at, Enc(f, at))
    ensures Mirror(f, s, at) == Got(Expected(f), at + |Enc(f, at)|)
  {
    hide ReadBit, ReadByte, ReadBytes, ReadU16, ReadU32, ReadU64, ReadLe, ReadMsb, ReadAlign;
    hide ReadCompressed, ReadOptional, ReadString, ReadPacketId, ByteBits, BitsOf, EncBits;
    hide EncU16, EncU32, EncU64, EncLe, EncMsb, EncCompressed, EncString, EncPacketId, Pow2, Packed;
    match f
    case U8(b) => ByteAtRoundTrip(s, at, b);
    case U16(v) => U16RoundTrip(s, at, v);
    case U32(v) => U32RoundTrip(s, at, v);
    case U64(v) => U64RoundTrip(s, at, v);
    case Le(v, n) => LeRoundTrips(s, at, v, n);
    case Compressed(v) => CompressedRoundTrip(s, at, v);
  }

  lemma BlockRoundTrip(f: Field, s: seq<bool>, at: nat)
    requires f.Flag? || f.Msb? || f.Align? || f.Aligned?
    requires At(s, at, Enc(f, at))
    ensures Mirror(f, s, at) == Got(Expected(f), at + |Enc(f, at)|)
  {
    hide ReadBit, ReadByte, ReadBytes, ReadU16, ReadU32, ReadU64, ReadLe, ReadMsb, ReadAlign;
    hide ReadCompressed, ReadOptional, ReadString, ReadPacketId, ByteBits, BitsOf, EncBits;
    hide EncU16, EncU32, EncU64, EncLe, EncMsb, EncCompressed, EncString, EncPacketId, Pow2, Packed;
    match f
    case Flag(b) => BitRoundTrip(s, at, b);
    case Msb(p, n) => MsbRoundTrip(s, at, p, n);
    case Align => AlignRoundTrip(s, at);
    case Aligned(bytes) =>
      AtSplit(s, at, EncAlign(at), EncBytes(bytes));
      AlignRoundTrip(s, at);
      BytesRoundTrip(s, at + |EncAlign(at)|, bytes);
  }

  /** One field comes back, and reading stops where writing did, exactly when it is carried. */
  lemma FieldRoundTrip(f: Field, s: seq<bool>, at: nat)
    requires Typed(f) && At(s, at, Enc(f, at))
    ensures Mirror(f, s, at) == Got(Expected(f), at + |Enc(f, at)|) <==> Carried(f)
    ensures Mirror(f, s, at).Got? ==> Mirror(f, s, at).at == at + |Enc(f, at)|
  {
    hide ReadBit, ReadByte, ReadBytes, ReadU16, ReadU32, ReadU64, ReadLe, ReadMsb, ReadAlign;
    hide ReadCompressed, ReadOptional, ReadString, ReadPacketId, ByteBits, BitsOf, EncBits;
    hide EncU16, EncU32, EncU64, EncLe, EncMsb, EncCompressed, EncString, EncPacketId, Pow2, Packed;
    match f
    case Optional(v) => OptionalRoundTrip(s, at, v);
    case Text(t) => StringRoundTrip(s, at, t);
    case PacketId(id) => PacketIdRoundTrip(s, at, id);
    case Flag(_) | Msb(_, _) | Align | Aligned(_) => BlockRoundTrip(f, s, at);
    case _ => NumberRoundTrip(f, s, at);
  }

  /** The mirrored program reads back every field and stops at the last bit written. */
  lemma {:induction false} ProgramRoundTrip(fields: seq<Field>, s: seq<bool>, at: nat)
    requires forall f | f in fields :: Typed(f)
    requires At(s, at, EncAll(fields, at))
    ensures MirrorAll(fields, s, at) == Got(ExpectedAll(fields), at + |EncAll(fields, at)|)
      <==> forall f | f in fields :: Carried(f)
  {
    hide Enc, Mirror, Typed, Carried, Expected;
    if fields == [] {
      return;
    }
    var f, rest := fields[0], fields[1..];
    var next := at + |Enc(f, at)|;
    AtSplit(s, at, Enc(f, at), EncAll(rest, next));
    FieldRoundTrip(f, s, at);
    ProgramRoundTrip(rest, s, next);
    assert ExpectedAll(fields) == [Expected(f)] + ExpectedAll(rest);
    var r := MirrorAll(fields, s, at);
    if r.Got? {
      assert r.value[0] == Mirror(f, s, at).value && r.value[1..] == MirrorAll(rest, s, next).value;
    }
    assert forall g :: g in fields <==> g == f || g in rest;
  }

  /** A packed buffer reads as the bits it holds, then zeros to the end of its last byte. */
  lemma PackedReadsBack(w: seq<bool>)
    ensures BufferBits(Packed(w), 8 * |Packed(w)|) == w + Zeros(8 * |Packed(w)| - |w|)
  {
    var s := BufferBits(Packed(w), 8 * |Packed(w)|);
    forall i | 0 <= i < |s| ensures s[i] == (i < |w| && w[i]) {
      BitsOfValue(Window(w, i / 8));
      assert s[i] == Window(w, i / 8)[i % 8];
    }
  }

  // --- the same, through the writer and the reader themselves ---

  method WriteField(writer: BitWriter, f: Field)
    requires writer.Valid()
    modifies writer
    ensures writer.Valid()
    ensures writer.Written() == old(writer.Written()) + Enc(f, old(writer.bits))
  {
    match f
    case Flag(b) => writer.WriteBit(b);
    case U8(b) => writer.WriteU8(b);
    case U16(v) => writer.WriteU16(v);
    case U32(v) => writer.WriteU32(v);
    case U64(v) => writer.WriteU64Le(v);
    case Le(v, n) => writer.WriteBitsLe(v, n);
    case Msb(p, n) => writer.WriteBitsMsb(p, n);
    case Align => writer.AlignToByte();
    case Aligned(bytes) =>
      writer.WriteAlignedBytes(bytes);
      Assoc(old(writer.Written()), EncAlign(old(writer.bits)), EncBytes(bytes));
    case Compressed(v) => writer.WriteCompressedU32(v);
    case Optional(v) => writer.WriteOptionalU32(v);
    case Text(t) => writer.WriteString(t);
    case PacketId(id) => writer.WritePacketId(id);
  }

  method ReadField(reader: BitReader, f: Field) returns (r: BitResult<Field>)
    requires reader.Valid()
    modifies reader`offset
    ensures reader.Valid() && Stopped(r, reader.offset) == Mirror(f, reader.source, old(reader.offset))
  {
    match f {
      case Flag(_) => { var v :- reader.NextBit(); return Ok(Flag(v)); }
      case U8(_) => { var v :- reader.NextU8(); return Ok(U8(v)); }
      case U16(_) => { var v :- reader.NextU16(); return Ok(U16(v)); }
      case U32(_) => { var v :- reader.NextU32(); return Ok(U32(v)); }
      case U64(_) => { var v :- reader.NextU64Le(); return Ok(U64(v)); }
      case Le(_, n) => { var v :- reader.NextBitsLe(n); return Ok(Le(v, n)); }
      case Msb(_, n) => { var v :- reader.NextBitsMsb(n); return Ok(Msb(v, n)); }
      case Align => { var _ :- reader.AlignToByte(); return Ok(Align); }
      case Aligned(bytes) => { var v :- reader.NextAlignedBytes(|bytes|); return Ok(Aligned(v)); }
      case Compressed(_) => { var v :- reader.NextCompressedU32(); return Ok(Compressed(v)); }
      case Optional(_) => { var v :- reader.NextOptionalU32(); return Ok(Optional(v)); }
      case Text(_) => { var v :- reader.NextString(); return Ok(Text(v)); }
      case PacketId(_) => { var v :- reader.NextPacketId(); return Ok(PacketId(v)); }
    }
  }

  lemma {:induction false} EncAllSnoc(fields: seq<Field>, f: Field, at: nat)
    ensures EncAll(fields + [f], at) == EncAll(fields, at) + Enc(f, at + |EncAll(fields, at)|)
  {
    hide Enc, Mirror;
    if fields == [] {
      assert [f][1..] == [];
    } else {
      var next := at + |Enc(fields[0], at)|;
      assert (fields + [f])[1..] == fields[1..] + [f];
      EncAllSnoc(fields[1..], f, next);
    }
  }

  lemma {:induction false} MirrorAllSnoc(fields: seq<Field>, f: Field, s: seq<bool>, at: nat)
    requires at <= |s| && MirrorAll(fields, s, at).Got?
    ensures MirrorAll(fields + [f], s, at) ==
      var so_far := MirrorAll(fields, s, at);
      var last := Mirror(f, s, so_far.at);
      if last.Got? then Got(so_far.value + [last.value], last.at) else Failed(last.error, last.at)
  {
    hide Enc, Mirror;
    if fields == [] {
      assert fields + [f] == [f] && [f][1..] == [];
      var last := Mirror(f, s, at);
      if last.Got? {
        assert [last.value] + [] == [] + [last.value];
      }
    } else {
      assert (fields + [f])[1..] == fields[1..] + [f];
      var first := Mirror(fields[0], s, at);
      MirrorAllSnoc(fields[1..], f, s, first.at);
      var rest, last := MirrorAll(fields[1..], s, first.at), Mirror(f, s, MirrorAll(fields[1..], s, first.at).at);
      assert MirrorAll(fields, s, at) == Got([first.value] + rest.value, rest.at);
      if last.Got? {
        assert [first.value] + (rest.value + [last.value]) == ([first.value] + rest.value) + [last.value];
      }
    }
  }

  /** Write a packet, hand over its bytes, and read it back with the same shapes. */
  method SendAndReceive(fields: seq<Field>) returns (received: seq<Field>, sent: nat, consumed: nat)
    requires forall f | f in fields :: Typed(f) && Carried(f)
    ensures received == ExpectedAll(fields)
    ensures sent == |EncAll(fields, 0)| == consumed
  {
    hide Enc, Mirror, Typed, Carried, Expected;
    var writer := new BitWriter();
    for i := 0 to |fields|
      invariant fresh(writer) && writer.Valid() && writer.Written() == EncAll(fields[..i], 0)
    {
      WriteField(writer, fields[i]);
      assert fields[..i + 1] == fields[..i] + [fields[i]];
      EncAllSnoc(fields[..i], fields[i], 0);
    }
    assert fields[..|fields|] == fields;
    sent := writer.bits;
    var bytes := writer.IntoBytes();
    var reader := new BitReader(bytes, 8 * |bytes|);
    ghost var code := EncAll(fields, 0);
    PackedReadsBack(code);
    received := [];
    for i := 0 to |fields|
      invariant fresh(reader) && reader.Valid() && reader.source == code + Zeros(8 * |bytes| - |code|)
      invariant MirrorAll(fields[..i], reader.source, 0) == Got(received, reader.offset)
    {
      assert fields[..i + 1] == fields[..i] + [fields[i]];
      MirrorAllSnoc(fields[..i], fields[i], reader.source, 0);
      PrefixReadable(fields, i + 1, reader.source);
      var f := ReadField(reader, fields[i]);
      received := received + [f.value];
    }
    ProgramRoundTrip(fields, reader.source, 0);
    consumed := reader.offset;
  }

  /** A prefix of a readable program is readable. */
  lemma PrefixReadable(fields: seq<Field>, n: nat, s: seq<bool>)
    requires n <= |fields| && forall f | f in fields :: Typed(f) && Carried(f)
    requires At(s, 0, EncAll(fields, 0))
    ensures MirrorAll(fields[..n], s, 0).Got?
  {
    EncAllPrefix(fields, n, 0);
    var a := EncAll(fields[..n], 0);
    assert EncAll(fields, 0) == a + EncAll(fields, 0)[|a|..];
    AtSplit(s, 0, a, EncAll(fields, 0)[|a|..]);
    ProgramRoundTrip(fields[..n], s, 0);
  }

  lemma {:induction false} EncAllPrefix(fields: seq<Field>, n: nat, at: nat)
    requires n <= |fields|
    ensures EncAll(fields[..n], at) <= EncAll(fields, at)
  {
    hide Enc;
    if n > 0 {
      assert fields[..n][1..] == fields[1..][..n - 1];
      EncAllPrefix(fields[1..], n - 1, at + |Enc(fields[0], at)|);
    }
  }
}
