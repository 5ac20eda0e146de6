/** The client's `data.pc` archive: a parser, and the builder it inverts. */
module DataPc {
  import opened Wrappers
  import opened Bits
  import Utf8

  const TABLE: nat := 0x17c
  const STRIDE: nat := 48
  const SECTOR: nat := 16
  const DICT_COUNT: nat := 0x28
  const DICT_RECORDS: nat := 0x30
  const DICT_RECORD: nat := 16
  const MAX_ENTRIES: nat := 4096
  const NO_NAME: u32 := 0xFFFF_FFFF

  const BDAT: seq<byte> := [0x42, 0x44, 0x41, 0x54]
  const DICT: seq<byte> := [0x44, 0x49, 0x43, 0x54]

  datatype Error =
    | Truncated(need: nat, size: nat)
    | EntryCount(count: nat)
    | Inflate
    | Size(got: nat, want: nat)

  type ArchiveResult<+T> = Result<T, Error>

  datatype Member = Member(name: Option<seq<byte>>, tag: seq<byte>, data: seq<byte>)

  datatype Entry = Entry(hash: u32, tag: seq<byte>, start: nat, packed: nat, unpacked: nat)

  type Names = map<u32, seq<byte>>

  /** Zlib, as the archive uses it: decompression may fail. */
  type Inflater = seq<byte> -> Option<seq<byte>>

  // --- reading one thing at a known place ---

  function Slice(bytes: seq<byte>, from: nat, to: nat): (r: ArchiveResult<seq<byte>>)
    requires from <= to
    ensures r.Ok? <==> to <= |bytes|
    ensures r.Ok? ==> r.value == bytes[from..to]
  {
    if to <= |bytes| then Ok(bytes[from..to]) else Err(Truncated(to, |bytes|))
  }

  function ReadU32(bytes: seq<byte>, at: nat): (r: ArchiveResult<u32>)
    ensures r.Ok? <==> at + 4 <= |bytes|
  {
    var four :- Slice(bytes, at, at + 4);
    FourBytes(four);
    Ok(LeValue(four))
  }

  lemma FourBytes(bytes: seq<byte>)
    requires |bytes| == 4
    ensures LeValue(bytes) < 0x1_0000_0000
  {
    assert LeValue(bytes[3..]) < 0x100;
    assert LeValue(bytes[2..]) < 0x1_0000;
    assert LeValue(bytes[1..]) < 0x100_0000;
  }

  function EntryAt(index: nat): nat { TABLE + index * STRIDE }

  function ReadEntry(bytes: seq<byte>, index: nat): ArchiveResult<Entry> {
    var at := EntryAt(index);
    var start :- ReadU32(bytes, at + 0x04);
    var hash :- ReadU32(bytes, at + 0x08);
    var unpacked :- ReadU32(bytes, at + 0x0c);
    var packed :- ReadU32(bytes, at + 0x10);
    var tag :- Slice(bytes, at + 0x18, at + 0x1c);
    Ok(Entry(hash, tag, start * SECTOR, packed, unpacked))
  }

  function Payload(bytes: seq<byte>, e: Entry): ArchiveResult<seq<byte>> {
    Slice(bytes, e.start, e.start + e.packed)
  }

  // --- the name table ---

  /** Where the first NUL at or after `from` stands, or the length when there is none. */
  function FirstNul(bytes: seq<byte>, from: nat): (end: nat)
    requires from <= |bytes|
    ensures from <= end <= |bytes|
    ensures end < |bytes| ==> bytes[end] == 0
    ensures forall k | from <= k < end :: bytes[k] != 0
    decreases |bytes| - from
  {
    if from == |bytes| || bytes[from] == 0 then from else FirstNul(bytes, from + 1)
  }

  /** The name one record adds, if it is well formed. */
  function RecordName(dict: seq<byte>, count: nat, index: nat): Option<(u32, seq<byte>)> {
    var at := DICT_RECORDS + index * DICT_RECORD;
    var offset, hash := ReadU32(dict, at), ReadU32(dict, at + 8);
    if offset.Err? || hash.Err? then None
    else
      var from := DICT_RECORDS + count * DICT_RECORD + offset.value;
      if from > |dict| then None
      else
        var end := FirstNul(dict, from);
        if end == |dict| || !Utf8.Valid(dict[from..end]) then None
        else Some((hash.value, dict[from..end]))
  }

  function RecordCount(dict: seq<byte>): nat {
    var count := ReadU32(dict, DICT_COUNT);
    if count.Err? then 0
    else if count.value < |dict| / DICT_RECORD then count.value
    else |dict| / DICT_RECORD
  }

  function DictNames(dict: seq<byte>, count: nat, n: nat): Names {
    if n == 0 then map[]
    else
      var names := DictNames(dict, count, n - 1);
      match RecordName(dict, count, n - 1)
      case None => names
      case Some((hash, name)) => names[hash := name]
  }

  method ParseDict(dict: seq<byte>) returns (names: Names)
    ensures names == DictNames(dict, RecordCount(dict), RecordCount(dict))
  {
    names := map[];
    var held := ReadU32(dict, DICT_COUNT);
    if held.Err? {
      return;
    }
    var count := if held.value < |dict| / DICT_RECORD then held.value else |dict| / DICT_RECORD;
    for index := 0 to count
      invariant names == DictNames(dict, count, index)
    {
      var record := RecordName(dict, count, index);
      if record.Some? {
        names := names[record.value.0 := record.value.1];
      }
    }
  }

  // --- the layout, in numbers ---

  /** Four bytes, least significant first. */
  function Word(bytes: seq<byte>, at: nat): nat
    requires at + 4 <= |bytes|
  {
    var (a: nat, b: nat, c: nat, e: nat) := (bytes[at], bytes[at + 1], bytes[at + 2], bytes[at + 3]);
    a + 0x100 * b + 0x1_0000 * c + 0x100_0000 * e
  }

  lemma WordIs(bytes: seq<byte>, at: nat)
    ensures ReadU32(bytes, at).Ok? ==> at + 4 <= |bytes| && ReadU32(bytes, at).value == Word(bytes, at)
    ensures ReadU32(bytes, at).Err? ==> at + 4 > |bytes| && ReadU32(bytes, at).error == Truncated(at + 4, |bytes|)
  {
    if at + 4 <= |bytes| {
      var four := bytes[at..at + 4];
      assert four[1..][1..] == four[2..] && four[2..][1..] == four[3..] && four[3..][1..] == [];
      assert LeValue(four[3..]) == four[3];
      assert LeValue(four[2..]) == four[2] + 256 * LeValue(four[3..]);
      assert LeValue(four[1..]) == four[1] + 256 * LeValue(four[2..]);
    }
  }

  /** Row `i` of the table and the bytes it points to are all there. */
  ghost predicate RowThere(bytes: seq<byte>, i: nat) {
    0x17c + 48 * i + 0x1c <= |bytes|
    && 16 * Word(bytes, 0x17c + 48 * i + 0x04) + Word(bytes, 0x17c + 48 * i + 0x10) <= |bytes|
  }

  /** The bytes row `i` points to: as many as it says, from sixteen times its sector on. */
  ghost function RowBytes(bytes: seq<byte>, i: nat): seq<byte>
    requires RowThere(bytes, i)
  {
    var from := 16 * Word(bytes, 0x17c + 48 * i + 0x04);
    bytes[from..from + Word(bytes, 0x17c + 48 * i + 0x10)]
  }

  /** Row `i` can be unpacked: its two sizes agree, or its bytes inflate to as many as it says. */
  ghost predicate RowOpens(bytes: seq<byte>, inflate: Inflater, i: nat) {
    RowThere(bytes, i)
    && (Word(bytes, 0x17c + 48 * i + 0x0c) == Word(bytes, 0x17c + 48 * i + 0x10)
        || (inflate(RowBytes(bytes, i)).Some?
            && |inflate(RowBytes(bytes, i)).value| == Word(bytes, 0x17c + 48 * i + 0x0c)))
  }

  /** What becomes of row `i`: its hash, its tag, and its bytes, as they are when its two sizes agree. */
  ghost predicate RowIs(bytes: seq<byte>, inflate: Inflater, i: nat, hash: u32, tag: seq<byte>, data: seq<byte>) {
    RowOpens(bytes, inflate, i)
    && hash == Word(bytes, 0x17c + 48 * i + 0x08)
    && tag == bytes[0x17c + 48 * i + 0x18..0x17c + 48 * i + 0x1c]
    && data == if Word(bytes, 0x17c + 48 * i + 0x0c) == Word(bytes, 0x17c + 48 * i + 0x10)
               then RowBytes(bytes, i) else inflate(RowBytes(bytes, i)).value
  }

  lemma EntryIs(bytes: seq<byte>, i: nat)
    ensures ReadEntry(bytes, i).Ok? <==> 0x17c + 48 * i + 0x1c <= |bytes|
    ensures ReadEntry(bytes, i).Ok? ==>
      var at := 0x17c + 48 * i;
      ReadEntry(bytes, i).value
      == Entry(Word(bytes, at + 0x08), bytes[at + 0x18..at + 0x1c], 16 * Word(bytes, at + 0x04),
               Word(bytes, at + 0x10), Word(bytes, at + 0x0c))
  {
    var at := 0x17c + 48 * i;
    WordIs(bytes, at + 0x04);
    WordIs(bytes, at + 0x08);
    WordIs(bytes, at + 0x0c);
    WordIs(bytes, at + 0x10);
    hide ReadU32, Word;
  }

  lemma MemberIs(bytes: seq<byte>, names: Names, inflate: Inflater, i: nat)
    ensures ReadMember(bytes, names, inflate, i).Ok? <==> RowOpens(bytes, inflate, i)
    ensures ReadMember(bytes, names, inflate, i).Ok? ==>
      var (hash, member) := ReadMember(bytes, names, inflate, i).value;
      RowIs(bytes, inflate, i, hash, member.tag, member.data)
      && member.name == if hash in names then Some(names[hash]) else None
  {
    hide ReadEntry, Word;
    EntryIs(bytes, i);
    var entry := ReadEntry(bytes, i);
    if RowThere(bytes, i) {
      var raw := Payload(bytes, entry.value);
      assert raw == Ok(RowBytes(bytes, i));
    }
  }

  /** Record `j` of a name table gives `name` for `hash`: the bytes up to the first zero, when they are text. */
  ghost predicate Gives(dict: seq<byte>, count: nat, j: nat, hash: u32, name: seq<byte>) {
    0x30 + 16 * j + 12 <= |dict|
    && hash == Word(dict, 0x30 + 16 * j + 8)
    && var from := 0x30 + 16 * count + Word(dict, 0x30 + 16 * j);
    from + |name| < |dict| && dict[from..from + |name|] == name && dict[from + |name|] == 0
    && 0 !in name && Utf8.Valid(name)
  }

  lemma RecordIs(dict: seq<byte>, count: nat, j: nat, hash: u32, name: seq<byte>)
    ensures Gives(dict, count, j, hash, name) <==>
      var record := RecordName(dict, count, j);
      record.Some? && record.value.0 == hash && record.value.1 == name
  {
    var at := 0x30 + 16 * j;
    WordIs(dict, at);
    WordIs(dict, at + 8);
    hide ReadU32, Word, Utf8.Valid, FirstNul;
    var offset, h := ReadU32(dict, at), ReadU32(dict, at + 8);
    if offset.Ok? && h.Ok? && 0x30 + 16 * count + offset.value <= |dict| {
      var from := 0x30 + 16 * count + offset.value;
      var end := FirstNul(dict, from);
      if Gives(dict, count, j, hash, name) {
        assert forall k | from <= k < from + |name| :: dict[k] == name[k - from];
      }
    }
  }

  /** Record `j` is the last of the first `n` to give that hash a name, and gives it `name`. */
  ghost predicate LastGives(dict: seq<byte>, count: nat, n: nat, j: nat, hash: u32, name: seq<byte>) {
    j < n && Gives(dict, count, j, hash, name)
    && forall k, other | j < k < n :: !Gives(dict, count, k, hash, other)
  }

  /** The last record of a hash names it, and no hash is named without one. */
  lemma {:induction false} DictNamesAre(dict: seq<byte>, count: nat, n: nat, hash: u32, name: seq<byte>)
    ensures (hash in DictNames(dict, count, n) && DictNames(dict, count, n)[hash] == name)
       <==> exists j: nat :: LastGives(dict, count, n, j, hash, name)
  {
    hide Gives, RecordName, LastGives;
    if n == 0 {
      NoneGives(dict, count, hash, name);
    } else {
      var last := n - 1;
      DictNamesAre(dict, count, last, hash, name);
      var record := RecordName(dict, count, last);
      forall other: seq<byte>
        ensures Gives(dict, count, last, hash, other)
           <==> record.Some? && record.value.0 == hash && record.value.1 == other
      {
        RecordIs(dict, count, last, hash, other);
      }
      if record.Some? && record.value.0 == hash {
        LastIsLast(dict, count, n, last, hash, record.value.1, name);
      } else {
        LastWasBefore(dict, count, n, last, hash, name);
      }
    }
  }

  lemma NoneGives(dict: seq<byte>, count: nat, hash: u32, name: seq<byte>)
    ensures forall j: nat :: !LastGives(dict, count, 0, j, hash, name)
  {
  }

  lemma LastIsLast(dict: seq<byte>, count: nat, n: nat, last: nat, hash: u32, given: seq<byte>, name: seq<byte>)
    requires n == last + 1 && forall other: seq<byte> :: Gives(dict, count, last, hash, other) <==> other == given
    ensures (exists j: nat :: LastGives(dict, count, n, j, hash, name)) <==> name == given
  {
    hide Gives;
    assert Gives(dict, count, last, hash, given);
    if name == given {
      assert LastGives(dict, count, n, last, hash, name);
    }
  }

  lemma LastWasBefore(dict: seq<byte>, count: nat, n: nat, last: nat, hash: u32, name: seq<byte>)
    requires n == last + 1 && forall other: seq<byte> :: !Gives(dict, count, last, hash, other)
    ensures (exists j: nat :: LastGives(dict, count, n, j, hash, name))
       <==> (exists j: nat :: LastGives(dict, count, last, j, hash, name))
  {
    hide Gives;
    forall j: nat
      ensures LastGives(dict, count, n, j, hash, name) <==> LastGives(dict, count, last, j, hash, name)
    {
      assert j == last ==> !Gives(dict, count, j, hash, name);
      forall k: nat, other: seq<byte> | k == last ensures !Gives(dict, count, k, hash, other) {
      }
    }
  }

  lemma RecordCountIs(dict: seq<byte>)
    ensures RecordCount(dict)
         == if |dict| < 0x2c then 0
            else if Word(dict, 0x28) < |dict| / 16 then Word(dict, 0x28) else |dict| / 16
  {
    WordIs(dict, 0x28);
    hide Word, ReadU32;
  }

  // --- the archive ---

  /** The names given by the last name table among the first `n` entries. */
  function ScanNames(bytes: seq<byte>, n: nat): ArchiveResult<Names> {
    if n == 0 then Ok(map[])
    else
      var names :- ScanNames(bytes, n - 1);
      var entry :- ReadEntry(bytes, n - 1);
      if entry.tag == DICT then
        var dict :- Payload(bytes, entry);
        Ok(DictNames(dict, RecordCount(dict), RecordCount(dict)))
      else
        Ok(names)
  }

  function ReadMember(bytes: seq<byte>, names: Names, inflate: Inflater, index: nat): ArchiveResult<(u32, Member)> {
    var entry :- ReadEntry(bytes, index);
    var raw :- Payload(bytes, entry);
    var data :- Unpack(entry, raw, inflate);
    if |data| != entry.unpacked then Err(Size(|data|, entry.unpacked))
    else Ok((entry.hash, Member(NameOf(names, entry.hash), entry.tag, data)))
  }

  function NameOf(names: Names, hash: u32): Option<seq<byte>> {
    if hash in names then Some(names[hash]) else None
  }

  /** Stored raw when the two sizes agree, compressed otherwise. */
  function Unpack(e: Entry, raw: seq<byte>, inflate: Inflater): ArchiveResult<seq<byte>> {
    if e.packed == e.unpacked then Ok(raw)
    else
      match inflate(raw)
      case None => Err(Inflate)
      case Some(data) => Ok(data)
  }

  function ReadMembers(bytes: seq<byte>, names: Names, inflate: Inflater, n: nat): (r: ArchiveResult<seq<(u32, Member)>>)
    ensures r.Ok? ==> |r.value| == n
  {
    if n == 0 then Ok([])
    else
      var members :- ReadMembers(bytes, names, inflate, n - 1);
      var member :- ReadMember(bytes, names, inflate, n - 1);
      Ok(members + [member])
  }

  function Parsed(bytes: seq<byte>, inflate: Inflater): ArchiveResult<seq<(u32, Member)>> {
    var count :- ReadU32(bytes, 0x0c);
    if count == 0 || count > MAX_ENTRIES then Err(EntryCount(count))
    else
      var names :- ScanNames(bytes, count);
      ReadMembers(bytes, names, inflate, count)
  }

  method Parse(bytes: seq<byte>, inflate: Inflater) returns (r: ArchiveResult<seq<(u32, Member)>>)
    ensures r == Parsed(bytes, inflate)
    ensures r.Ok? <==>
      (|bytes| >= 16 && 1 <= Word(bytes, 0x0c) <= 4096
       && forall i: nat | i < Word(bytes, 0x0c) :: RowOpens(bytes, inflate, i))
    ensures r.Ok? ==> |r.value| == Word(bytes, 0x0c) && forall i | 0 <= i < |r.value| ::
      RowIs(bytes, inflate, i, r.value[i].0, r.value[i].1.tag, r.value[i].1.data)
    ensures |bytes| < 16 ==> r == Err(Truncated(16, |bytes|))
    ensures |bytes| >= 16 && !(1 <= Word(bytes, 0x0c) <= 4096) ==> r == Err(EntryCount(Word(bytes, 0x0c)))
  {
    hide ReadEntry, ReadMember, ReadU32, DictNames, RecordCount, RowOpens, RowIs, Word;
    ParsedIs(bytes, inflate);
    var count: nat :- ReadU32(bytes, 0x0c);
    if count == 0 || count > MAX_ENTRIES {
      return Err(EntryCount(count));
    }
    var names: Names := map[];
    for index := 0 to count
      invariant ScanNames(bytes, index) == Ok(names)
    {
      var entry := ReadEntry(bytes, index);
      if entry.Err? {
        ScanFails(bytes, index + 1, count);
        return Err(entry.error);
      }
      if entry.value.tag == DICT {
        var dict := Payload(bytes, entry.value);
        if dict.Err? {
          ScanFails(bytes, index + 1, count);
          return Err(dict.error);
        }
        names := ParseDict(dict.value);
      }
    }
    var members: seq<(u32, Member)> := [];
    for index := 0 to count
      invariant ReadMembers(bytes, names, inflate, index) == Ok(members)
    {
      var member := ReadMember(bytes, names, inflate, index);
      if member.Err? {
        MembersFail(bytes, names, inflate, index + 1, count);
        return Err(member.error);
      }
      members := members + [member.value];
    }
    return Ok(members);
  }

  lemma {:induction false} ScanFails(bytes: seq<byte>, n: nat, count: nat)
    requires n <= count && ScanNames(bytes, n).Err?
    ensures ScanNames(bytes, count) == ScanNames(bytes, n)
  {
    hide ReadEntry;
    if n < count {
      ScanFails(bytes, n, count - 1);
    }
  }

  lemma {:induction false} MembersFail(bytes: seq<byte>, names: Names, inflate: Inflater, n: nat, count: nat)
    requires n <= count && ReadMembers(bytes, names, inflate, n).Err?
    ensures ReadMembers(bytes, names, inflate, count) == ReadMembers(bytes, names, inflate, n)
  {
    hide ReadMember;
    if n < count {
      MembersFail(bytes, names, inflate, n, count - 1);
    }
  }

  // --- what a parse gives, row by row ---

  /** Row `i` is tagged `DICT`. */
  ghost predicate IsTable(bytes: seq<byte>, i: nat) {
    0x17c + 48 * i + 0x1c <= |bytes|
    && bytes[0x17c + 48 * i + 0x18..0x17c + 48 * i + 0x1c] == [0x44, 0x49, 0x43, 0x54]
  }

  lemma {:induction false} ScanIs(bytes: seq<byte>, n: nat)
    requires forall i: nat | i < n :: RowThere(bytes, i)
    ensures ScanNames(bytes, n).Ok?
    ensures (forall i: nat | i < n :: !IsTable(bytes, i)) ==> ScanNames(bytes, n).value == map[]
    ensures forall k: nat | k < n && IsTable(bytes, k) && (forall i: nat | k < i < n :: !IsTable(bytes, i)) ::
      var dict := RowBytes(bytes, k);
      ScanNames(bytes, n).value == DictNames(dict, RecordCount(dict), RecordCount(dict))
  {
    hide ReadEntry, DictNames, RecordCount, RowThere, RowBytes, IsTable;
    if n > 0 {
      ScanIs(bytes, n - 1);
      RowEntry(bytes, n - 1);
    }
  }

  lemma {:induction false} MembersAre(bytes: seq<byte>, names: Names, inflate: Inflater, n: nat)
    ensures var r := ReadMembers(bytes, names, inflate, n);
      && (r.Ok? <==> forall i: nat | i < n :: RowOpens(bytes, inflate, i))
      && (r.Ok? ==> forall i: nat | i < n ::
            RowIs(bytes, inflate, i, r.value[i].0, r.value[i].1.tag, r.value[i].1.data)
            && r.value[i].1.name == if r.value[i].0 in names then Some(names[r.value[i].0]) else None)
  {
    hide ReadMember, RowOpens, RowIs;
    if n > 0 {
      MembersAre(bytes, names, inflate, n - 1);
      MemberIs(bytes, names, inflate, n - 1);
    }
  }

  lemma {:induction false} ScanNeeds(bytes: seq<byte>, n: nat)
    ensures ScanNames(bytes, n).Err? ==> exists i: nat :: i < n && !RowThere(bytes, i)
  {
    hide ReadEntry, DictNames, RecordCount, RowThere;
    if n > 0 {
      ScanNeeds(bytes, n - 1);
      if RowThere(bytes, n - 1) {
        RowEntry(bytes, n - 1);
      }
    }
  }

  lemma RowEntry(bytes: seq<byte>, i: nat)
    requires RowThere(bytes, i)
    ensures var entry := ReadEntry(bytes, i);
      entry.Ok? && Payload(bytes, entry.value) == Ok(RowBytes(bytes, i))
      && (entry.value.tag == DICT <==> IsTable(bytes, i))
  {
    hide ReadEntry, Word;
    EntryIs(bytes, i);
  }

  lemma ParsedIs(bytes: seq<byte>, inflate: Inflater)
    ensures var r := Parsed(bytes, inflate);
      && (r.Ok? <==>
          (|bytes| >= 16 && 1 <= Word(bytes, 0x0c) <= 4096
           && forall i: nat | i < Word(bytes, 0x0c) :: RowOpens(bytes, inflate, i)))
      && (r.Ok? ==> |r.value| == Word(bytes, 0x0c) && forall i | 0 <= i < |r.value| ::
            RowIs(bytes, inflate, i, r.value[i].0, r.value[i].1.tag, r.value[i].1.data))
      && (|bytes| < 16 ==> r == Err(Truncated(16, |bytes|)))
      && (|bytes| >= 16 && !(1 <= Word(bytes, 0x0c) <= 4096) ==> r == Err(EntryCount(Word(bytes, 0x0c))))
  {
    hide ReadU32, Word, RowIs, RowOpens, RowThere, ReadMembers, ScanNames;
    WordIs(bytes, 0x0c);
    if |bytes| >= 16 && 1 <= Word(bytes, 0x0c) <= 4096 {
      var count := Word(bytes, 0x0c);
      var names := ScanNames(bytes, count);
      if names.Ok? {
        MembersAre(bytes, names.value, inflate, count);
      } else {
        ScanNeeds(bytes, count);
        var i: nat :| i < count && !RowThere(bytes, i);
        OpensIsThere(bytes, inflate, i);
      }
    }
  }

  /**
    A member bears the name that the last name table gives its hash: the name of the last record of
    that hash, each record two words of 16 bytes from 0x30 on; and none when there is no table.
   */
  lemma NamedBy(bytes: seq<byte>, inflate: Inflater, i: nat, name: seq<byte>)
    requires Parsed(bytes, inflate).Ok? && i < |Parsed(bytes, inflate).value|
    ensures Parsed(bytes, inflate).value[i].1.name == Some(name)
       <==> exists k: nat, j: nat ::
            k < Word(bytes, 0x0c) && IsTable(bytes, k) && RowThere(bytes, k)
            && (forall later: nat | k < later < Word(bytes, 0x0c) :: !IsTable(bytes, later))
            && var dict := RowBytes(bytes, k);
               LastGives(dict, RecordCount(dict), RecordCount(dict), j, Parsed(bytes, inflate).value[i].0, name)
  {
    hide ReadU32, Word, RowIs, RowOpens, RowThere, RowBytes, IsTable;
    hide ReadMembers, ScanNames, DictNames, LastGives, RecordCount;
    WordIs(bytes, 0x0c);
    var count := Word(bytes, 0x0c);
    var names := ScanNames(bytes, count).value;
    MembersAre(bytes, names, inflate, count);
    var hash := Parsed(bytes, inflate).value[i].0;
    forall r: nat | r < count ensures RowThere(bytes, r) {
      OpensIsThere(bytes, inflate, r);
    }
    ScanIs(bytes, count);
    if tables :| 0 <= tables < count && IsTable(bytes, tables) {
      var k := LastTable(bytes, count, tables);
      var dict := RowBytes(bytes, k);
      DictNamesAre(dict, RecordCount(dict), RecordCount(dict), hash, name);
    }
  }

  lemma OpensIsThere(bytes: seq<byte>, inflate: Inflater, i: nat)
    ensures RowOpens(bytes, inflate, i) ==> RowThere(bytes, i)
  {
  }

  lemma {:induction false} LastTable(bytes: seq<byte>, count: nat, i: nat) returns (k: nat)
    requires i < count && IsTable(bytes, i)
    ensures i <= k < count && IsTable(bytes, k) && forall later: nat | k < later < count :: !IsTable(bytes, later)
    decreases count - i
  {
    hide IsTable;
    if next: nat :| i < next < count && IsTable(bytes, next) {
      k := LastTable(bytes, count, next);
    } else {
      k := i;
    }
  }

  /** The members that are files, i.e. everything but the name table. */
  function Files(members: seq<(u32, Member)>): seq<Member> {
    if members == [] then []
    else
      var last := members[|members| - 1].1;
      Files(members[..|members| - 1]) + (if last.tag == BDAT then [last] else [])
  }

  /** A member is a file exactly when its tag spells `BDAT`. */
  lemma {:induction false} FilesAre(members: seq<(u32, Member)>, file: Member)
    ensures file in Files(members)
       <==> file.tag == [0x42, 0x44, 0x41, 0x54] && exists i :: 0 <= i < |members| && members[i].1 == file
  {
    if members != [] {
      var init := members[..|members| - 1];
      FilesAre(init, file);
      assert forall i | 0 <= i < |init| :: init[i] == members[i];
    }
  }

  // --- line endings ---

  const CR: byte := 13
  const LF: byte := 10

  predicate CrLfAt(bytes: seq<byte>, i: nat) {
    i + 1 < |bytes| && bytes[i] == CR && bytes[i + 1] == LF
  }

  function Unix(bytes: seq<byte>): (out: seq<byte>)
    ensures |out| <= |bytes|
  {
    if bytes == [] then []
    else if CrLfAt(bytes, 0) then Unix(bytes[1..])
    else [bytes[0]] + Unix(bytes[1..])
  }

  method ToUnixLineEndings(bytes: seq<byte>) returns (out: seq<byte>)
    ensures out == Unix(bytes)
  {
    out := [];
    var index := 0;
    while index < |bytes|
      invariant index <= |bytes| && out + Unix(bytes[index..]) == Unix(bytes)
    {
      assert bytes[index..][1..] == bytes[index + 1..];
      if bytes[index] == CR && index + 1 < |bytes| && bytes[index + 1] == LF {
        index := index + 1;
        continue;
      }
      assert out + ([bytes[index]] + Unix(bytes[index + 1..])) == (out + [bytes[index]]) + Unix(bytes[index + 1..]);
      out := out + [bytes[index]];
      index := index + 1;
    }
    assert bytes[index..] == [];
  }

  ghost predicate HasCrLf(bytes: seq<byte>) {
    exists i: nat :: CrLfAt(bytes, i)
  }

  predicate CrCrLfAt(bytes: seq<byte>, i: nat) {
    i + 2 < |bytes| && bytes[i] == CR && CrLfAt(bytes, i + 1)
  }

  ghost predicate HasCrCrLf(bytes: seq<byte>) {
    exists i: nat :: CrCrLfAt(bytes, i)
  }

  lemma TailHas(bytes: seq<byte>)
    requires bytes != []
    ensures HasCrLf(bytes) <==> CrLfAt(bytes, 0) || HasCrLf(bytes[1..])
    ensures HasCrCrLf(bytes) <==> CrCrLfAt(bytes, 0) || HasCrCrLf(bytes[1..])
  {
    var tail := bytes[1..];
    if HasCrLf(bytes) && !CrLfAt(bytes, 0) {
      var i: nat :| CrLfAt(bytes, i);
      assert CrLfAt(tail, i - 1);
    }
    if HasCrLf(tail) {
      var i: nat :| CrLfAt(tail, i);
      assert CrLfAt(bytes, i + 1);
    }
    if HasCrCrLf(bytes) && !CrCrLfAt(bytes, 0) {
      var i: nat :| CrCrLfAt(bytes, i);
      assert CrCrLfAt(tail, i - 1);
    }
    if HasCrCrLf(tail) {
      var i: nat :| CrCrLfAt(tail, i);
      assert CrCrLfAt(bytes, i + 1);
    }
  }

  /** A second pass changes something exactly when a first left a CRLF, from a CR CR LF. */
  lemma {:induction false} UnixLeaves(bytes: seq<byte>)
    ensures HasCrLf(Unix(bytes)) <==> HasCrCrLf(bytes)
    ensures |Unix(bytes)| > 0 <==> |bytes| > 0
    ensures |bytes| > 0 ==> Unix(bytes)[0] == if CrLfAt(bytes, 0) then LF else bytes[0]
  {
    if bytes != [] {
      UnixLeaves(bytes[1..]);
      TailHas(bytes);
      if !CrLfAt(bytes, 0) {
        TailHas(Unix(bytes));
        assert Unix(bytes)[1..] == Unix(bytes[1..]);
      }
    }
  }

  lemma {:induction false} UnixFixed(bytes: seq<byte>)
    ensures Unix(bytes) == bytes <==> !HasCrLf(bytes)
  {
    if bytes != [] {
      TailHas(bytes);
      UnixFixed(bytes[1..]);
      if !CrLfAt(bytes, 0) {
        assert Unix(bytes)[1..] == Unix(bytes[1..]);
        assert bytes == [bytes[0]] + bytes[1..];
      }
    }
  }

  /** Normalising twice is normalising once exactly when no CR stands before a CRLF. */
  lemma UnixIdempotent(bytes: seq<byte>)
    ensures Unix(Unix(bytes)) == Unix(bytes) <==> !HasCrCrLf(bytes)
  {
    UnixLeaves(bytes);
    UnixFixed(Unix(bytes));
  }

  /** `"\r\r\n"` becomes `"\r\n"`, which is not yet normalised. */
  lemma UnixNotIdempotent()
    ensures Unix([13, 13, 10]) == [13, 10] && Unix(Unix([13, 13, 10])) == [10]
  {
    var all := [CR, CR, LF];
    assert all[1..] == [CR, LF] && [CR, LF][1..] == [LF] && [LF][1..] == [];
    assert Unix([LF]) == [LF];
    assert Unix([CR, LF]) == [LF];
  }
}
