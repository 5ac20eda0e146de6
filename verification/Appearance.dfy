/** A character's appearance on the wire and in storage. */
module Appearance {
  import opened Wrappers
  import opened Bits
  import opened BitStream
  import opened BitWriting
  import opened BitReading
  import Programs

  const GENDER_BITS: nat := 2
  const DEFAULT_MATERIAL_COUNT: nat := 3
  const DEFAULT_ATTACHMENT_COUNT: nat := 1

  type Id = Option<u32>

  datatype Gender = Male | Female | Unknown(value: u32)

  datatype Attachment = Attachment(attachment: Id, material: Id)

  datatype CustomisationData = CustomisationData(
    gender: Gender,
    tribe: Id,
    materials: seq<Id>,
    attachments: seq<Attachment>)

  /** What a character looks like before the creator has run. */
  function Unchosen(): CustomisationData {
    CustomisationData(Male, None, [None, None, None], [Attachment(None, None)])
  }

  function GenderValue(g: Gender): u32 {
    match g
    case Male => 0
    case Female => 1
    case Unknown(v) => v
  }

  function GenderFrom(v: u32): Gender {
    match v
    case 0 => Male
    case 1 => Female
    case _ => Unknown(v)
  }

  /** The two-bit field has one spelling of each gender: a third value is 2 or 3. */
  predicate Canonical(g: Gender) {
    g.Unknown? ==> 2 <= g.value <= 3
  }

  // --- the code ---

  function EncId(v: Id): (s: seq<bool>)
    ensures |s| == if v.Some? then 33 else 1
  {
    EncOptional(v)
  }

  function EncIds(ids: seq<Id>): (s: seq<bool>) {
    if ids == [] then [] else EncIds(ids[..|ids| - 1]) + EncId(ids[|ids| - 1])
  }

  function EncAttachment(a: Attachment): seq<bool> {
    EncId(a.attachment) + EncId(a.material)
  }

  function EncAttachments(list: seq<Attachment>): seq<bool> {
    if list == [] then []
    else EncAttachments(list[..|list| - 1]) + EncAttachment(list[|list| - 1])
  }

  function EncCount(count: nat, default: nat): seq<bool> {
    if count == default then [false] else [true] + EncU32(count)
  }

  function EncGender(g: Gender): seq<bool> { EncLe(GenderValue(g), GENDER_BITS) }

  function EncAppearance(c: CustomisationData): seq<bool> {
    EncGender(c.gender) + (EncId(c.tribe)
      + ((EncCount(|c.materials|, DEFAULT_MATERIAL_COUNT) + EncIds(c.materials))
        + (EncCount(|c.attachments|, DEFAULT_ATTACHMENT_COUNT) + EncAttachments(c.attachments))))
  }

  // --- reading it back ---

  function ReadId(s: seq<bool>, at: nat): (r: Read<Id>)
    requires at <= |s|
    ensures r.at <= |s|
  {
    var (v, at1) :- ReadOptional(s, at);
    Got(Narrow(v), at1)
  }

  /** A 32-bit read, as the 32-bit value it is. */
  function Narrow(v: Option<nat>): Id {
    match v
    case None => None
    case Some(x) => Some(x % 0x1_0000_0000)
  }

  function ReadIds(s: seq<bool>, at: nat, count: nat): (r: Read<seq<Id>>)
    requires at <= |s|
    ensures r.at <= |s|
    ensures r.Got? ==> |r.value| == count
    decreases count
  {
    if count == 0 then Got([], at)
    else
      var (init, at1) :- ReadIds(s, at, count - 1);
      var (last, at2) :- ReadId(s, at1);
      Got(init + [last], at2)
  }

  function ReadAttachment(s: seq<bool>, at: nat): (r: Read<Attachment>)
    requires at <= |s|
    ensures r.at <= |s|
  {
    var (a, at1) :- ReadId(s, at);
    var (m, at2) :- ReadId(s, at1);
    Got(Attachment(a, m), at2)
  }

  function ReadAttachments(s: seq<bool>, at: nat, count: nat): (r: Read<seq<Attachment>>)
    requires at <= |s|
    ensures r.at <= |s|
    ensures r.Got? ==> |r.value| == count
    decreases count
  {
    if count == 0 then Got([], at)
    else
      var (init, at1) :- ReadAttachments(s, at, count - 1);
      var (last, at2) :- ReadAttachment(s, at1);
      Got(init + [last], at2)
  }

  function ReadCount(s: seq<bool>, at: nat, default: nat): (r: Read<nat>)
    requires at <= |s|
    ensures r.at <= |s|
  {
    var (escape, at1) :- ReadBit(s, at);
    if escape then ReadU32(s, at1) else Got(default, at1)
  }

  function ReadGender(s: seq<bool>, at: nat): (r: Read<Gender>)
    requires at <= |s|
    ensures r.at <= |s|
  {
    var (v, at1) :- ReadLe(s, at, GENDER_BITS);
    Got(GenderFrom(v % 0x1_0000_0000), at1)
  }

  function ReadAppearance(s: seq<bool>, at: nat): (r: Read<CustomisationData>)
    requires at <= |s|
    ensures r.at <= |s|
  {
    var (gender, at1) :- ReadGender(s, at);
    var (tribe, at2) :- ReadId(s, at1);
    var (m, at3) :- ReadCount(s, at2, DEFAULT_MATERIAL_COUNT);
    var (materials, at4) :- ReadIds(s, at3, m);
    var (a, at5) :- ReadCount(s, at4, DEFAULT_ATTACHMENT_COUNT);
    var (attachments, at6) :- ReadAttachments(s, at5, a);
    Got(CustomisationData(gender, tribe, materials, attachments), at6)
  }

  // --- round trips ---

  lemma IdRoundTrip(s: seq<bool>, at: nat, v: Id)
    requires At(s, at, EncId(v))
    ensures ReadId(s, at) == Got(v, at + |EncId(v)|)
  {
    OptionalRoundTrip(s, at, v);
  }

  lemma {:induction false} IdsRoundTrip(s: seq<bool>, at: nat, ids: seq<Id>)
    requires At(s, at, EncIds(ids))
    ensures ReadIds(s, at, |ids|) == Got(ids, at + |EncIds(ids)|)
  {
    hide EncId, ReadId;
    if ids != [] {
      var init, last := ids[..|ids| - 1], ids[|ids| - 1];
      AtSplit(s, at, EncIds(init), EncId(last));
      IdsRoundTrip(s, at, init);
      IdRoundTrip(s, at + |EncIds(init)|, last);
      assert ids == init + [last];
    }
  }

  lemma AttachmentRoundTrip(s: seq<bool>, at: nat, a: Attachment)
    requires At(s, at, EncAttachment(a))
    ensures ReadAttachment(s, at) == Got(a, at + |EncAttachment(a)|)
  {
    hide EncId, ReadId;
    AtSplit(s, at, EncId(a.attachment), EncId(a.material));
    IdRoundTrip(s, at, a.attachment);
    IdRoundTrip(s, at + |EncId(a.attachment)|, a.material);
  }

  lemma {:induction false} AttachmentsRoundTrip(s: seq<bool>, at: nat, list: seq<Attachment>)
    requires At(s, at, EncAttachments(list))
    ensures ReadAttachments(s, at, |list|) == Got(list, at + |EncAttachments(list)|)
  {
    hide EncAttachment, ReadAttachment;
    if list != [] {
      var init, last := list[..|list| - 1], list[|list| - 1];
      AtSplit(s, at, EncAttachments(init), EncAttachment(last));
      AttachmentsRoundTrip(s, at, init);
      AttachmentRoundTrip(s, at + |EncAttachments(init)|, last);
      assert list == init + [last];
    }
  }

  lemma CountRoundTrip(s: seq<bool>, at: nat, count: nat, default: nat)
    requires At(s, at, EncCount(count, default)) && count < 0x1_0000_0000
    ensures ReadCount(s, at, default) == Got(count, at + |EncCount(count, default)|)
  {
    hide EncU32, ReadU32;
    if count == default {
      BitRoundTrip(s, at, false);
    } else {
      AtSplit(s, at, [true], EncU32(count));
      BitRoundTrip(s, at, true);
      U32RoundTrip(s, at + 1, count);
    }
  }

  lemma GenderRoundTrip(s: seq<bool>, at: nat, g: Gender)
    requires At(s, at, EncGender(g))
    ensures ReadGender(s, at) == Got(GenderFrom(GenderValue(g) % 4), at + GENDER_BITS)
    ensures GenderFrom(GenderValue(g) % 4) == g <==> Canonical(g)
  {
    hide EncLe, ReadLe;
    LeRoundTrips(s, at, GenderValue(g), GENDER_BITS);
    assert Pow2(2) == 4;
  }

  /** Decoding where an appearance was encoded gives it back, with the gender's low two bits. */
  lemma AppearanceRoundTrip(s: seq<bool>, at: nat, c: CustomisationData)
    requires At(s, at, EncAppearance(c))
    requires |c.materials| < 0x1_0000_0000 && |c.attachments| < 0x1_0000_0000
    ensures ReadAppearance(s, at)
         == Got(c.(gender := GenderFrom(GenderValue(c.gender) % 4)), at + |EncAppearance(c)|)
    ensures GenderFrom(GenderValue(c.gender) % 4) == c.gender <==> Canonical(c.gender)
  {
    hide At, EncId, ReadId, EncIds, ReadIds, EncAttachments, ReadAttachments;
    hide EncCount, ReadCount, ReadGender, EncGender;
    var g, t := EncGender(c.gender), EncId(c.tribe);
    var m := EncCount(|c.materials|, DEFAULT_MATERIAL_COUNT);
    var ms := EncIds(c.materials);
    var a := EncCount(|c.attachments|, DEFAULT_ATTACHMENT_COUNT);
    var as_ := EncAttachments(c.attachments);
    AtSplit(s, at, g, t + ((m + ms) + (a + as_)));
    GenderRoundTrip(s, at, c.gender);
    var at1 := at + |g|;
    AtSplit(s, at1, t, (m + ms) + (a + as_));
    IdRoundTrip(s, at1, c.tribe);
    var at2 := at1 + |t|;
    AtSplit(s, at2, m + ms, a + as_);
    AtSplit(s, at2, m, ms);
    CountRoundTrip(s, at2, |c.materials|, DEFAULT_MATERIAL_COUNT);
    IdsRoundTrip(s, at2 + |m|, c.materials);
    var at3 := at2 + |m| + |ms|;
    AtSplit(s, at3, a, as_);
    CountRoundTrip(s, at3, |c.attachments|, DEFAULT_ATTACHMENT_COUNT);
    AttachmentsRoundTrip(s, at3 + |a|, c.attachments);
    assert |g| == GENDER_BITS by { GenderLength(c.gender); }
  }

  lemma GenderLength(g: Gender)
    ensures |EncGender(g)| == GENDER_BITS
  {
  }

  /** The stored bytes of an appearance decode to it exactly when its gender is canonical. */
  lemma StorageRoundTrip(c: CustomisationData)
    requires |c.materials| < 0x1_0000_0000 && |c.attachments| < 0x1_0000_0000
    ensures var bytes := Packed(EncAppearance(c));
      var r := ReadAppearance(BufferBits(bytes, 8 * |bytes|), 0);
      r.Got? && (r.value == c <==> Canonical(c.gender))
  {
    hide EncAppearance, ReadAppearance, GenderFrom, GenderValue, Packed, BufferBits;
    var w := EncAppearance(c);
    Programs.PackedReadsBack(w);
    var bytes := Packed(w);
    var s := BufferBits(bytes, 8 * |bytes|);
    assert s[..|w|] == w;
    AppearanceRoundTrip(s, 0, c);
    assert c.(gender := c.gender) == c;
  }

  /** A gender its two bits can hold, and lists their counts can. */
  predicate Storable(c: CustomisationData) {
    Canonical(c.gender) && |c.materials| < 0x1_0000_0000 && |c.attachments| < 0x1_0000_0000
  }

  lemma ReadCountFits(s: seq<bool>, at: nat, default: nat)
    requires at <= |s| && default < 0x1_0000_0000
    ensures ReadCount(s, at, default).Got? ==> ReadCount(s, at, default).value < 0x1_0000_0000
  {
    hide ReadBit;
    var escape := ReadBit(s, at);
    if escape.Got? && escape.value {
      var bytes := ReadBytes(s, escape.at, 4);
      hide ReadBytes;
      if bytes.Got? {
        var v := bytes.value;
        assert BeValue(v) < 0x1_0000_0000 by {
          assert BeValue(v[..3][..2][..1]) < 0x100;
          assert BeValue(v[..3][..2]) < 0x1_0000;
          assert BeValue(v[..3]) < 0x100_0000;
        }
      }
    }
  }

  lemma ReadListsFit(s: seq<bool>, at: nat)
    requires at <= |s|
    ensures var r := ReadAppearance(s, at);
      r.Got? ==> |r.value.materials| < 0x1_0000_0000 && |r.value.attachments| < 0x1_0000_0000
  {
    hide ReadGender, ReadId, ReadCount, ReadIds, ReadAttachments;
    var r := ReadAppearance(s, at);
    if r.Got? {
      var gender := ReadGender(s, at);
      var tribe := ReadId(s, gender.at);
      var m := ReadCount(s, tribe.at, DEFAULT_MATERIAL_COUNT);
      ReadCountFits(s, tribe.at, DEFAULT_MATERIAL_COUNT);
      var materials := ReadIds(s, m.at, m.value);
      ReadCountFits(s, materials.at, DEFAULT_ATTACHMENT_COUNT);
    }
  }

  /** The stored bytes of any appearance decode to it exactly when it can be stored. */
  lemma StoredComesBack(c: CustomisationData)
    ensures var bytes := Packed(EncAppearance(c));
      var r := ReadAppearance(BufferBits(bytes, 8 * |bytes|), 0);
      (r.Got? && r.value == c) <==> Storable(c)
  {
    hide EncAppearance, ReadAppearance, Canonical, Packed, BufferBits;
    var bytes := Packed(EncAppearance(c));
    ReadListsFit(BufferBits(bytes, 8 * |bytes|), 0);
    if |c.materials| < 0x1_0000_0000 && |c.attachments| < 0x1_0000_0000 {
      StorageRoundTrip(c);
    }
  }

  // --- through the writer and the reader ---

  method EncodeId(writer: BitWriter, v: Id)
    requires writer.Valid()
    modifies writer
    ensures writer.Valid() && writer.Written() == old(writer.Written()) + EncId(v)
  {
    writer.WriteOptionalU32(v);
  }

  method WriteCount(writer: BitWriter, count: nat, default: nat)
    requires writer.Valid()
    modifies writer
    ensures writer.Valid() && writer.Written() == old(writer.Written()) + EncCount(count, default)
  {
    hide EncU32;
    if count == default {
      writer.WriteBit(false);
    } else {
      writer.WriteBit(true);
      writer.WriteU32(count);
      Assoc(old(writer.Written()), [true], EncU32(count));
    }
  }

  method WriteIds(writer: BitWriter, ids: seq<Id>)
    requires writer.Valid()
    modifies writer
    ensures writer.Valid() && writer.Written() == old(writer.Written()) + EncIds(ids)
  {
    hide EncId, Tight, BufferBits;
    for i := 0 to |ids|
      invariant writer.Valid() && writer.Written() == old(writer.Written()) + EncIds(ids[..i])
    {
      EncodeId(writer, ids[i]);
      assert ids[..i + 1][..i] == ids[..i];
      Assoc(old(writer.Written()), EncIds(ids[..i]), EncId(ids[i]));
    }
    assert ids[..|ids|] == ids;
  }

  method WriteAttachments(writer: BitWriter, list: seq<Attachment>)
    requires writer.Valid()
    modifies writer
    ensures writer.Valid() && writer.Written() == old(writer.Written()) + EncAttachments(list)
  {
    hide EncId, Tight, BufferBits;
    for i := 0 to |list|
      invariant writer.Valid() && writer.Written() == old(writer.Written()) + EncAttachments(list[..i])
    {
      ghost var w := writer.Written();
      EncodeId(writer, list[i].attachment);
      EncodeId(writer, list[i].material);
      Assoc(w, EncId(list[i].attachment), EncId(list[i].material));
      assert list[..i + 1][..i] == list[..i];
      Assoc(old(writer.Written()), EncAttachments(list[..i]), EncAttachment(list[i]));
    }
    assert list[..|list|] == list;
  }

  method Encode(writer: BitWriter, c: CustomisationData)
    requires writer.Valid()
    modifies writer
    ensures writer.Valid() && writer.Written() == old(writer.Written()) + EncAppearance(c)
  {
    hide EncId, EncIds, EncAttachments, EncCount, EncLe, Tight, BufferBits;
    ghost var w := writer.Written();
    writer.WriteBitsLe(GenderValue(c.gender), GENDER_BITS);
    EncodeId(writer, c.tribe);
    WriteCount(writer, |c.materials|, DEFAULT_MATERIAL_COUNT);
    WriteIds(writer, c.materials);
    WriteCount(writer, |c.attachments|, DEFAULT_ATTACHMENT_COUNT);
    WriteAttachments(writer, c.attachments);
    Regroup(w, EncGender(c.gender), EncId(c.tribe),
      EncCount(|c.materials|, DEFAULT_MATERIAL_COUNT), EncIds(c.materials),
      EncCount(|c.attachments|, DEFAULT_ATTACHMENT_COUNT), EncAttachments(c.attachments));
  }

  lemma Regroup(w: seq<bool>, a: seq<bool>, b: seq<bool>, c: seq<bool>, d: seq<bool>, e: seq<bool>, f: seq<bool>)
    ensures w + a + b + c + d + e + f == w + (a + (b + ((c + d) + (e + f))))
  {
  }

  method DecodeId(reader: BitReader) returns (r: BitResult<Id>)
    requires reader.Valid()
    modifies reader`offset
    ensures reader.Valid() && Stopped(r, reader.offset) == ReadId(reader.source, old(reader.offset))
  {
    var v :- reader.NextOptionalU32();
    return Ok(Narrow(v));
  }

  method DecodeCount(reader: BitReader, default: nat) returns (r: BitResult<nat>)
    requires reader.Valid()
    modifies reader`offset
    ensures reader.Valid() && Stopped(r, reader.offset) == ReadCount(reader.source, old(reader.offset), default)
  {
    var escape :- reader.NextBit();
    if escape {
      r := reader.NextU32();
    } else {
      return Ok(default);
    }
  }

  method DecodeIds(reader: BitReader, count: nat) returns (r: BitResult<seq<Id>>)
    requires reader.Valid()
    modifies reader`offset
    ensures reader.Valid() && Stopped(r, reader.offset) == ReadIds(reader.source, old(reader.offset), count)
  {
    hide ReadId, BufferBits;
    var ids: seq<Id> := [];
    ghost var start := reader.offset;
    for i := 0 to count
      invariant reader.Valid() && ReadIds(reader.source, start, i) == Got(ids, reader.offset)
    {
      var id := DecodeId(reader);
      if id.Err? {
        IdsFailFurther(reader.source, start, i + 1, count);
        return Err(id.error);
      }
      ids := ids + [id.value];
    }
    return Ok(ids);
  }

  lemma {:induction false} IdsFailFurther(s: seq<bool>, at: nat, n: nat, count: nat)
    requires at <= |s| && n <= count && ReadIds(s, at, n).Failed?
    ensures ReadIds(s, at, count) == ReadIds(s, at, n)
  {
    hide ReadId;
    if n < count {
      IdsFailFurther(s, at, n, count - 1);
    }
  }

  method DecodeAttachment(reader: BitReader) returns (r: BitResult<Attachment>)
    requires reader.Valid()
    modifies reader`offset
    ensures reader.Valid() && Stopped(r, reader.offset) == ReadAttachment(reader.source, old(reader.offset))
  {
    hide ReadId, BufferBits;
    var a :- DecodeId(reader);
    var m :- DecodeId(reader);
    return Ok(Attachment(a, m));
  }

  method DecodeAttachments(reader: BitReader, count: nat) returns (r: BitResult<seq<Attachment>>)
    requires reader.Valid()
    modifies reader`offset
    ensures reader.Valid()
    ensures Stopped(r, reader.offset) == ReadAttachments(reader.source, old(reader.offset), count)
  {
    hide ReadAttachment, BufferBits;
    var list: seq<Attachment> := [];
    ghost var start := reader.offset;
    for i := 0 to count
      invariant reader.Valid() && ReadAttachments(reader.source, start, i) == Got(list, reader.offset)
    {
      var a := DecodeAttachment(reader);
      if a.Err? {
        AttachmentsFailFurther(reader.source, start, i + 1, count);
        return Err(a.error);
      }
      list := list + [a.value];
    }
    return Ok(list);
  }

  lemma {:induction false} AttachmentsFailFurther(s: seq<bool>, at: nat, n: nat, count: nat)
    requires at <= |s| && n <= count && ReadAttachments(s, at, n).Failed?
    ensures ReadAttachments(s, at, count) == ReadAttachments(s, at, n)
  {
    hide ReadAttachment;
    if n < count {
      AttachmentsFailFurther(s, at, n, count - 1);
    }
  }

  method Decode(reader: BitReader) returns (r: BitResult<CustomisationData>)
    requires reader.Valid()
    modifies reader`offset
    ensures reader.Valid() && Stopped(r, reader.offset) == ReadAppearance(reader.source, old(reader.offset))
  {
    hide ReadId, ReadCount, ReadIds, ReadAttachments, ReadLe, BufferBits;
    var g :- reader.NextBitsLe(GENDER_BITS);
    var tribe :- DecodeId(reader);
    var m :- DecodeCount(reader, DEFAULT_MATERIAL_COUNT);
    var materials :- DecodeIds(reader, m);
    var a :- DecodeCount(reader, DEFAULT_ATTACHMENT_COUNT);
    var attachments :- DecodeAttachments(reader, a);
    return Ok(CustomisationData(GenderFrom(g % 0x1_0000_0000), tribe, materials, attachments));
  }

  /** Save an appearance as the bytes of its own encoding, and load it again. */
  method SaveAndLoad(c: CustomisationData) returns (r: BitResult<CustomisationData>)
    requires |c.materials| < 0x1_0000_0000 && |c.attachments| < 0x1_0000_0000
    ensures r.Ok? && (r.value == c <==> Canonical(c.gender))
  {
    hide EncAppearance, ReadAppearance, Tight, Canonical;
    var writer := new BitWriter();
    Encode(writer, c);
    assert writer.Written() == EncAppearance(c);
    var bytes := writer.IntoBytes();
    StorageRoundTrip(c);
    var reader := new BitReader(bytes, 8 * |bytes|);
    r := Decode(reader);
  }

  // --- the code, bit by bit ---

  /** An id is a flag and, when there, four octets. */
  lemma IdWire(v: Id)
    ensures EncId(v) == if v.Some? then [true] + BigEndian(v.value) else [false]
  {
    hide BigEndian;
    OptionalWire(v);
  }

  /** Ids follow one another from the first on. */
  lemma {:induction false} IdsWire(v: Id, rest: seq<Id>)
    ensures EncIds([]) == [] && EncIds([v] + rest) == EncId(v) + EncIds(rest)
  {
    hide EncId;
    var all := [v] + rest;
    if rest == [] {
      assert all[..0] == [] && all[0] == v;
    } else {
      var init, last := rest[..|rest| - 1], rest[|rest| - 1];
      assert all[..|all| - 1] == [v] + init;
      IdsWire(v, init);
      Assoc(EncId(v), EncIds(init), EncId(last));
    }
  }

  /** Attachments follow one another from the first on, each before its material. */
  lemma {:induction false} AttachmentsWire(a: Attachment, rest: seq<Attachment>)
    ensures EncAttachments([]) == []
    ensures EncAttachments([a] + rest) == (EncId(a.attachment) + EncId(a.material)) + EncAttachments(rest)
  {
    hide EncId;
    var all := [a] + rest;
    if rest == [] {
      assert all[..0] == [] && all[0] == a;
    } else {
      var init, last := rest[..|rest| - 1], rest[|rest| - 1];
      assert all[..|all| - 1] == [a] + init;
      AttachmentsWire(a, init);
      Assoc(EncId(a.attachment) + EncId(a.material), EncAttachments(init), EncAttachment(last));
    }
  }

  lemma GenderWire(g: Gender)
    ensures EncGender(g) == match g
      case Male => [false, false]
      case Female => [false, true]
      case Unknown(v) => [v / 2 % 2 == 1, v % 2 == 1]
  {
    hide EncLe, Octet;
    LeWire(GenderValue(g), 2);
    LastTwo(GenderValue(g));
  }

  lemma LastTwo(v: nat)
    ensures Octet(v)[6..] == [v / 2 % 2 == 1, v % 2 == 1]
  {
  }

  lemma CountWire(count: nat, default: nat)
    ensures EncCount(count, default) == if count == default then [false] else [true] + BigEndian(count)
  {
    hide EncU32, BigEndian;
    U32Wire(count);
  }

  /** Gender and tribe, then each list behind its count; three materials and one attachment need no count. */
  lemma AppearanceWire(c: CustomisationData)
    ensures EncAppearance(c)
         == EncGender(c.gender) + (EncId(c.tribe)
            + (((if |c.materials| == 3 then [false] else [true] + BigEndian(|c.materials|)) + EncIds(c.materials))
               + ((if |c.attachments| == 1 then [false] else [true] + BigEndian(|c.attachments|))
                  + EncAttachments(c.attachments))))
  {
    hide EncGender, EncId, EncIds, EncAttachments, EncCount, BigEndian;
    CountWire(|c.materials|, 3);
    CountWire(|c.attachments|, 1);
  }
}
