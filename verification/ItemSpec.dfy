/** An item, its materials and what it teaches, as packets carry them. */
module Items {
  import opened Wrappers
  import opened Bits
  import opened BitStream
  import opened BitWriting
  import opened BitReading
  import opened Appearance
  import Utf8

  const DEFAULT_MATERIALS: nat := 4

  /** `32 - leading_zeros(4)`. */
  const COUNT_BITS: nat := 3

  datatype ItemSpec = ItemSpec(nameHash: Id, materials: seq<Id>, teachItem: Id, uuid: seq<byte>)

  const DEFAULT_SPEC := ItemSpec(None, [Some(0), Some(0), Some(0), Some(0)], None, [])

  /** A list of the default length or more saturates the short count and repeats it in full. */
  function EncSpecCount(n: nat): seq<bool> {
    if n < DEFAULT_MATERIALS then EncLe(n, COUNT_BITS)
    else EncLe(DEFAULT_MATERIALS, COUNT_BITS) + ([true] + EncU32(n))
  }

  function EncSpec(i: ItemSpec): seq<bool> {
    EncId(i.nameHash) + (EncSpecCount(|i.materials|) + (EncIds(i.materials)
      + (EncId(i.teachItem) + EncString(i.uuid))))
  }

  function ReadSpecCount(s: seq<bool>, at: nat): (r: Read<nat>)
    requires at <= |s|
    ensures r.at <= |s|
  {
    var (short, at1) :- ReadLe(s, at, COUNT_BITS);
    if short >= DEFAULT_MATERIALS then
      var (_, at2) :- ReadBit(s, at1);
      ReadU32(s, at2)
    else
      Got(short, at1)
  }

  function ReadSpec(s: seq<bool>, at: nat): (r: Read<ItemSpec>)
    requires at <= |s|
    ensures r.at <= |s|
  {
    var (nameHash, at1) :- ReadId(s, at);
    var (count, at2) :- ReadSpecCount(s, at1);
    var (materials, at3) :- ReadIds(s, at2, count);
    var (teachItem, at4) :- ReadId(s, at3);
    var (uuid, at5) :- ReadString(s, at4);
    Got(ItemSpec(nameHash, materials, teachItem, uuid), at5)
  }

  lemma SpecCountRoundTrip(s: seq<bool>, at: nat, n: nat)
    requires At(s, at, EncSpecCount(n)) && n < 0x1_0000_0000
    ensures ReadSpecCount(s, at) == Got(n, at + |EncSpecCount(n)|)
  {
    hide EncLe, ReadLe, EncU32, ReadU32;
    assert Pow2(3) == 8;
    if n < DEFAULT_MATERIALS {
      LeRoundTrips(s, at, n, COUNT_BITS);
    } else {
      AtSplit(s, at, EncLe(DEFAULT_MATERIALS, COUNT_BITS), [true] + EncU32(n));
      AtSplit(s, at + COUNT_BITS, [true], EncU32(n));
      LeRoundTrips(s, at, DEFAULT_MATERIALS, COUNT_BITS);
      BitRoundTrip(s, at + COUNT_BITS, true);
      U32RoundTrip(s, at + COUNT_BITS + 1, n);
    }
  }

  /** A spec comes back at every list length, exactly when its uuid is a short string. */
  lemma SpecRoundTrip(s: seq<bool>, at: nat, i: ItemSpec)
    requires At(s, at, EncSpec(i))
    requires |i.materials| < 0x1_0000_0000 && Utf8.Valid(i.uuid)
    ensures ReadSpec(s, at) == Got(i, at + |EncSpec(i)|) <==> |i.uuid| < 255
  {
    hide EncId, ReadId, EncIds, ReadIds, EncSpecCount, ReadSpecCount, EncString, ReadString;
    var a, b, c := EncId(i.nameHash), EncSpecCount(|i.materials|), EncIds(i.materials);
    var d, e := EncId(i.teachItem), EncString(i.uuid);
    AtSplit(s, at, a, b + (c + (d + e)));
    IdRoundTrip(s, at, i.nameHash);
    var at1 := at + |a|;
    AtSplit(s, at1, b, c + (d + e));
    SpecCountRoundTrip(s, at1, |i.materials|);
    var at2 := at1 + |b|;
    AtSplit(s, at2, c, d + e);
    IdsRoundTrip(s, at2, i.materials);
    var at3 := at2 + |c|;
    AtSplit(s, at3, d, e);
    IdRoundTrip(s, at3, i.teachItem);
    StringRoundTrip(s, at3 + |d|, i.uuid);
  }

  function Present(ids: seq<Id>): nat {
    if ids == [] then 0
    else Present(ids[..|ids| - 1]) + (if ids[|ids| - 1].Some? then 1 else 0)
  }

  function IdBits(v: Id): nat { if v.Some? then 33 else 1 }

  lemma {:induction false} IdsLength(ids: seq<Id>)
    ensures |EncIds(ids)| == |ids| + 32 * Present(ids)
  {
    if ids != [] {
      IdsLength(ids[..|ids| - 1]);
    }
  }

  /** The width of a spec, in closed form; the default one is 171 bits wide. */
  lemma SpecLength(i: ItemSpec)
    ensures |EncSpec(i)| == IdBits(i.nameHash) + IdBits(i.teachItem)
      + (if |i.materials| < 4 then 3 else 36)
      + |i.materials| + 32 * Present(i.materials)
      + (if i.uuid == [] then 1 else if |i.uuid| < 255 then 10 + 8 * |i.uuid| else 34 + 8 * |i.uuid|)
    ensures |EncSpec(DEFAULT_SPEC)| == 171
  {
    SpecLengthOf(i);
    SpecLengthOf(DEFAULT_SPEC);
    var m := DEFAULT_SPEC.materials;
    assert m[..3] == [Some(0), Some(0), Some(0)] && m[..3][..2] == [Some(0), Some(0)];
    assert Present(m[..3][..2][..1]) == 1;
    assert Present(m[..3][..2]) == 2;
    assert Present(m) == 4;
  }

  lemma SpecLengthOf(i: ItemSpec)
    ensures |EncSpec(i)| == IdBits(i.nameHash) + IdBits(i.teachItem)
      + (if |i.materials| < 4 then 3 else 36)
      + |i.materials| + 32 * Present(i.materials)
      + (if i.uuid == [] then 1 else if |i.uuid| < 255 then 10 + 8 * |i.uuid| else 34 + 8 * |i.uuid|)
  {
    hide EncId, EncIds, EncLe, EncU32, EncBytes, ByteBits;
    IdsLength(i.materials);
  }

  method EncodeSpec(writer: BitWriter, i: ItemSpec)
    requires writer.Valid()
    modifies writer
    ensures writer.Valid() && writer.Written() == old(writer.Written()) + EncSpec(i)
  {
    hide EncId, EncIds, EncSpecCount, EncString, Tight, BufferBits;
    ghost var w := writer.Written();
    EncodeId(writer, i.nameHash);
    WriteSpecCount(writer, |i.materials|);
    WriteIds(writer, i.materials);
    EncodeId(writer, i.teachItem);
    writer.WriteString(i.uuid);
    Regroup5(w, EncId(i.nameHash), EncSpecCount(|i.materials|), EncIds(i.materials),
      EncId(i.teachItem), EncString(i.uuid));
  }

  lemma Regroup5(w: seq<bool>, a: seq<bool>, b: seq<bool>, c: seq<bool>, d: seq<bool>, e: seq<bool>)
    ensures w + a + b + c + d + e == w + (a + (b + (c + (d + e))))
  {
  }

  method WriteSpecCount(writer: BitWriter, n: nat)
    requires writer.Valid()
    modifies writer
    ensures writer.Valid() && writer.Written() == old(writer.Written()) + EncSpecCount(n)
  {
    hide EncLe, EncU32, Tight, BufferBits;
    if n < DEFAULT_MATERIALS {
      writer.WriteBitsLe(n, COUNT_BITS);
    } else {
      ghost var w := writer.Written();
      writer.WriteBitsLe(DEFAULT_MATERIALS, COUNT_BITS);
      writer.WriteBit(true);
      writer.WriteU32(n);
      Assoc(w + EncLe(DEFAULT_MATERIALS, COUNT_BITS), [true], EncU32(n));
      Assoc(w, EncLe(DEFAULT_MATERIALS, COUNT_BITS), [true] + EncU32(n));
    }
  }

  method DecodeSpec(reader: BitReader) returns (r: BitResult<ItemSpec>)
    requires reader.Valid()
    modifies reader`offset
    ensures reader.Valid() && Stopped(r, reader.offset) == ReadSpec(reader.source, old(reader.offset))
  {
    hide ReadId, ReadIds, ReadLe, ReadU32, ReadString, BufferBits;
    var nameHash :- DecodeId(reader);
    var count :- DecodeSpecCount(reader);
    var materials :- DecodeIds(reader, count);
    var teachItem :- DecodeId(reader);
    var uuid :- reader.NextString();
    return Ok(ItemSpec(nameHash, materials, teachItem, uuid));
  }

  method DecodeSpecCount(reader: BitReader) returns (r: BitResult<nat>)
    requires reader.Valid()
    modifies reader`offset
    ensures reader.Valid() && Stopped(r, reader.offset) == ReadSpecCount(reader.source, old(reader.offset))
  {
    hide ReadLe, ReadU32, BufferBits;
    var short :- reader.NextBitsLe(COUNT_BITS);
    if short >= DEFAULT_MATERIALS {
      var _ :- reader.NextBit();
      r := reader.NextU32();
    } else {
      return Ok(short);
    }
  }

  /** Three bits of count, or four and a full count from four on; the fields follow in order. */
  lemma SpecWire(i: ItemSpec)
    ensures EncSpec(i)
         == EncId(i.nameHash) + ((if |i.materials| < 4 then Octet(|i.materials|)[5..]
                                  else [true, false, false] + ([true] + BigEndian(|i.materials|)))
            + (EncIds(i.materials) + (EncId(i.teachItem) + EncString(i.uuid))))
  {
    hide EncId, EncIds, EncString, EncLe, EncU32, Octet, BigEndian;
    var n := |i.materials|;
    if n < 4 {
      LeWire(n, 3);
    } else {
      LeWire(4, 3);
      FourInThree();
      U32Wire(n);
    }
  }

  lemma FourInThree()
    ensures Octet(4)[5..] == [true, false, false]
  {
  }
}
