/** Building an archive, and what the parser makes of it. */
module DataPcBuilder {
  import opened Wrappers
  import opened Bits
  import opened DataPc
  import Utf8

  datatype File = File(name: seq<byte>, body: seq<byte>, compress: bool)

  /** One payload as the table describes it. */
  datatype Stored = Stored(hash: u32, tag: seq<byte>, stored: seq<byte>, unpacked: nat)

  type Deflater = seq<byte> -> seq<byte>

  function FileHash(index: nat): nat { 0x1000_0000 + index }

  function Clear(n: nat): (bytes: seq<byte>)
    ensures |bytes| == n
  {
    seq(n, _ => 0)
  }

  // --- the name table ---

  function NameArea(files: seq<File>, n: nat): seq<byte>
    requires n <= |files|
  {
    if n == 0 then [] else NameArea(files, n - 1) + files[n - 1].name + [0]
  }

  function Record(files: seq<File>, i: nat): (r: seq<byte>)
    requires i < |files|
    ensures |r| == DICT_RECORD
  {
    LeBytes(|NameArea(files, i)|, 4) + LeBytes(0, 4) + LeBytes(FileHash(i), 4) + LeBytes(0, 4)
  }

  function Records(files: seq<File>, n: nat): (r: seq<byte>)
    requires n <= |files|
    ensures |r| == n * DICT_RECORD
  {
    if n == 0 then [] else Records(files, n - 1) + Record(files, n - 1)
  }

  function DictBytes(files: seq<File>): seq<byte> {
    Clear(DICT_COUNT) + LeBytes(|files|, 4) + Clear(4) + Records(files, |files|) + NameArea(files, |files|)
  }

  // --- the payloads ---

  function StoredBody(f: File, deflate: Deflater): seq<byte> {
    if f.compress then deflate(f.body) else f.body
  }

  function Payloads(files: seq<File>, deflate: Deflater): (p: seq<Stored>)
    requires |files| < MAX_ENTRIES
    ensures |p| == |files| + 1
  {
    seq(|files|, i requires 0 <= i < |files| =>
      Stored(FileHash(i), BDAT, StoredBody(files[i], deflate), |files[i].body|))
    + [Stored(NO_NAME, DICT, DictBytes(files), |DictBytes(files)|)]
  }

  // --- what a finished archive holds ---

  ghost predicate Holds(out: seq<byte>, at: nat, bytes: seq<byte>) {
    at + |bytes| <= |out| && out[at..at + |bytes|] == bytes
  }

  ghost predicate EntryHolds(out: seq<byte>, index: nat, p: Stored, sector: nat) {
    Holds(out, EntryAt(index) + 0x04, LeBytes(sector, 4)) &&
    Holds(out, EntryAt(index) + 0x08, LeBytes(p.hash, 4)) &&
    Holds(out, EntryAt(index) + 0x0c, LeBytes(p.unpacked, 4)) &&
    Holds(out, EntryAt(index) + 0x10, LeBytes(|p.stored|, 4)) &&
    Holds(out, EntryAt(index) + 0x18, p.tag) &&
    Holds(out, sector * SECTOR, p.stored)
  }

  /** An archive of `payloads`, each starting at its sector, the last one ending the file. */
  ghost predicate Archive(out: seq<byte>, payloads: seq<Stored>, sectors: seq<nat>) {
    |payloads| == |sectors| > 0 &&
    Holds(out, 0x0c, LeBytes(|payloads|, 4)) &&
    (forall i | 0 <= i < |payloads| :: EntryHolds(out, i, payloads[i], sectors[i])) &&
    |out| == sectors[|sectors| - 1] * SECTOR + |payloads[|payloads| - 1].stored|
  }

  /** `out[at..at + |bytes|].copy_from_slice(bytes)`. */
  function Patch(out: seq<byte>, at: nat, bytes: seq<byte>): (r: seq<byte>)
    requires at + |bytes| <= |out|
    ensures |r| == |out| && Holds(r, at, bytes)
  {
    out[..at] + bytes + out[at + |bytes|..]
  }

  lemma PatchKeeps(out: seq<byte>, at: nat, bytes: seq<byte>, at2: nat, kept: seq<byte>)
    requires at + |bytes| <= |out| && Holds(out, at2, kept)
    requires at2 + |kept| <= at || at + |bytes| <= at2
    ensures Holds(Patch(out, at, bytes), at2, kept)
  {
    var r := Patch(out, at, bytes);
    assert forall i | at2 <= i < at2 + |kept| :: r[i] == out[i];
  }

  lemma AppendKeeps(out: seq<byte>, more: seq<byte>, at: nat, kept: seq<byte>)
    requires Holds(out, at, kept)
    ensures Holds(out + more, at, kept)
  {
    assert (out + more)[at..at + |kept|] == out[at..at + |kept|];
  }

  /** Writing within the table row of `index` leaves the other rows and the payloads alone. */
  lemma PatchRow(out: seq<byte>, at: nat, bytes: seq<byte>, index: nat, count: nat, j: nat, p: Stored, sector: nat)
    requires index < count && j < count && j != index && |p.tag| == 4
    requires EntryAt(index) <= at && at + |bytes| <= EntryAt(index + 1) <= |out|
    requires EntryAt(count) <= sector * SECTOR && EntryHolds(out, j, p, sector)
    ensures EntryHolds(Patch(out, at, bytes), j, p, sector)
  {
    RowsApart(index, j);
    RowsApart(index, count);
    PatchKeeps(out, at, bytes, EntryAt(j) + 0x04, LeBytes(sector, 4));
    PatchKeeps(out, at, bytes, EntryAt(j) + 0x08, LeBytes(p.hash, 4));
    PatchKeeps(out, at, bytes, EntryAt(j) + 0x0c, LeBytes(p.unpacked, 4));
    PatchKeeps(out, at, bytes, EntryAt(j) + 0x10, LeBytes(|p.stored|, 4));
    PatchKeeps(out, at, bytes, EntryAt(j) + 0x18, p.tag);
    PatchKeeps(out, at, bytes, sector * SECTOR, p.stored);
  }

  lemma RowsApart(i: nat, j: nat)
    ensures i < j ==> EntryAt(i + 1) <= EntryAt(j)
    ensures j < i ==> EntryAt(j + 1) <= EntryAt(i)
  {
  }

  lemma AppendRow(out: seq<byte>, more: seq<byte>, j: nat, p: Stored, sector: nat)
    requires EntryHolds(out, j, p, sector)
    ensures EntryHolds(out + more, j, p, sector)
  {
    AppendKeeps(out, more, EntryAt(j) + 0x04, LeBytes(sector, 4));
    AppendKeeps(out, more, EntryAt(j) + 0x08, LeBytes(p.hash, 4));
    AppendKeeps(out, more, EntryAt(j) + 0x0c, LeBytes(p.unpacked, 4));
    AppendKeeps(out, more, EntryAt(j) + 0x10, LeBytes(|p.stored|, 4));
    AppendKeeps(out, more, EntryAt(j) + 0x18, p.tag);
    AppendKeeps(out, more, sector * SECTOR, p.stored);
  }

  /** The rows and payloads of the first `n` entries are in place. */
  ghost predicate Placed(out: seq<byte>, payloads: seq<Stored>, sectors: seq<nat>, n: nat) {
    n <= |payloads| && n == |sectors| && EntryAt(|payloads|) <= |out| &&
    Holds(out, 0x0c, LeBytes(|payloads|, 4)) &&
    forall j | 0 <= j < n :: EntryAt(|payloads|) <= sectors[j] * SECTOR && EntryHolds(out, j, payloads[j], sectors[j])
  }

  lemma PlacedAppend(out: seq<byte>, more: seq<byte>, payloads: seq<Stored>, sectors: seq<nat>, n: nat)
    requires Placed(out, payloads, sectors, n)
    ensures Placed(out + more, payloads, sectors, n)
  {
    hide EntryHolds;
    AppendKeeps(out, more, 0x0c, LeBytes(|payloads|, 4));
    forall j | 0 <= j < n ensures EntryHolds(out + more, j, payloads[j], sectors[j]) {
      AppendRow(out, more, j, payloads[j], sectors[j]);
    }
  }

  lemma PlacedPatch(out: seq<byte>, at: nat, bytes: seq<byte>, payloads: seq<Stored>, sectors: seq<nat>, n: nat)
    requires Placed(out, payloads, sectors, n) && n < |payloads|
    requires forall p | p in payloads :: |p.tag| == 4
    requires EntryAt(n) <= at && at + |bytes| <= EntryAt(n + 1)
    ensures at + |bytes| <= |out| && Placed(Patch(out, at, bytes), payloads, sectors, n)
  {
    hide EntryHolds;
    RowsApart(n, |payloads|);
    PatchKeeps(out, at, bytes, 0x0c, LeBytes(|payloads|, 4));
    forall j | 0 <= j < n ensures EntryHolds(Patch(out, at, bytes), j, payloads[j], sectors[j]) {
      PatchRow(out, at, bytes, n, |payloads|, j, payloads[j], sectors[j]);
    }
  }

  /** Write the table row of entry `n`, whose payload will start at `sector`. */
  method WriteRow(out: seq<byte>, ghost payloads: seq<Stored>, ghost sectors: seq<nat>, n: nat, p: Stored, sector: nat)
    returns (r: seq<byte>)
    requires Placed(out, payloads, sectors, n) && n < |payloads| && payloads[n] == p
    requires forall q | q in payloads :: |q.tag| == 4
    ensures |r| == |out| && Placed(r, payloads, sectors, n)
    ensures RowHolds(r, n, p, sector)
  {
    hide Placed, Holds;
    var at := EntryAt(n);
    PlacedPatch(out, at + 0x04, LeBytes(sector, 4), payloads, sectors, n);
    var r1 := Patch(out, at + 0x04, LeBytes(sector, 4));
    PlacedPatch(r1, at + 0x08, LeBytes(p.hash, 4), payloads, sectors, n);
    var r2 := Patch(r1, at + 0x08, LeBytes(p.hash, 4));
    PlacedPatch(r2, at + 0x0c, LeBytes(p.unpacked, 4), payloads, sectors, n);
    var r3 := Patch(r2, at + 0x0c, LeBytes(p.unpacked, 4));
    PlacedPatch(r3, at + 0x10, LeBytes(|p.stored|, 4), payloads, sectors, n);
    var r4 := Patch(r3, at + 0x10, LeBytes(|p.stored|, 4));
    PlacedPatch(r4, at + 0x18, p.tag, payloads, sectors, n);
    r := Patch(r4, at + 0x18, p.tag);
    PatchKeeps(r1, at + 0x08, LeBytes(p.hash, 4), at + 0x04, LeBytes(sector, 4));
    PatchKeeps(r2, at + 0x0c, LeBytes(p.unpacked, 4), at + 0x04, LeBytes(sector, 4));
    PatchKeeps(r3, at + 0x10, LeBytes(|p.stored|, 4), at + 0x04, LeBytes(sector, 4));
    PatchKeeps(r4, at + 0x18, p.tag, at + 0x04, LeBytes(sector, 4));
    PatchKeeps(r2, at + 0x0c, LeBytes(p.unpacked, 4), at + 0x08, LeBytes(p.hash, 4));
    PatchKeeps(r3, at + 0x10, LeBytes(|p.stored|, 4), at + 0x08, LeBytes(p.hash, 4));
    PatchKeeps(r4, at + 0x18, p.tag, at + 0x08, LeBytes(p.hash, 4));
    PatchKeeps(r3, at + 0x10, LeBytes(|p.stored|, 4), at + 0x0c, LeBytes(p.unpacked, 4));
    PatchKeeps(r4, at + 0x18, p.tag, at + 0x0c, LeBytes(p.unpacked, 4));
    PatchKeeps(r4, at + 0x18, p.tag, at + 0x10, LeBytes(|p.stored|, 4));
  }

  /** Every field of one row is in place, with the payload itself still to come. */
  ghost predicate RowHolds(out: seq<byte>, n: nat, p: Stored, sector: nat) {
    Holds(out, EntryAt(n) + 0x04, LeBytes(sector, 4)) &&
    Holds(out, EntryAt(n) + 0x08, LeBytes(p.hash, 4)) &&
    Holds(out, EntryAt(n) + 0x0c, LeBytes(p.unpacked, 4)) &&
    Holds(out, EntryAt(n) + 0x10, LeBytes(|p.stored|, 4)) &&
    Holds(out, EntryAt(n) + 0x18, p.tag)
  }

  lemma RowAppended(before: seq<byte>, n: nat, p: Stored, sector: nat)
    requires RowHolds(before, n, p, sector) && |before| == sector * SECTOR
    ensures EntryHolds(before + p.stored, n, p, sector)
  {
    AppendKeeps(before, p.stored, EntryAt(n) + 0x04, LeBytes(sector, 4));
    AppendKeeps(before, p.stored, EntryAt(n) + 0x08, LeBytes(p.hash, 4));
    AppendKeeps(before, p.stored, EntryAt(n) + 0x0c, LeBytes(p.unpacked, 4));
    AppendKeeps(before, p.stored, EntryAt(n) + 0x10, LeBytes(|p.stored|, 4));
    AppendKeeps(before, p.stored, EntryAt(n) + 0x18, p.tag);
    var out := before + p.stored;
    assert out[sector * SECTOR..sector * SECTOR + |p.stored|] == p.stored;
    assert Holds(out, sector * SECTOR, p.stored);
    hide Holds;
  }

  lemma PlacedNext(before: seq<byte>, p: Stored, payloads: seq<Stored>, sectors: seq<nat>, n: nat, sector: nat)
    requires Placed(before, payloads, sectors, n) && n < |payloads| && payloads[n] == p
    requires |before| == sector * SECTOR && RowHolds(before, n, p, sector)
    ensures Placed(before + p.stored, payloads, sectors + [sector], n + 1)
  {
    hide EntryHolds, RowHolds, Holds;
    var out := before + p.stored;
    PlacedAppend(before, p.stored, payloads, sectors, n);
    RowAppended(before, n, p, sector);
    forall j | 0 <= j < n + 1 ensures EntryHolds(out, j, payloads[j], (sectors + [sector])[j]) {
      if j < n {
        assert (sectors + [sector])[j] == sectors[j];
      }
    }
  }

  method BuildDict(files: seq<File>) returns (dict: seq<byte>)
    ensures dict == DictBytes(files)
  {
    var records: seq<byte>, names: seq<byte> := [], [];
    for index := 0 to |files|
      invariant records == Records(files, index) && names == NameArea(files, index)
    {
      records := records + (LeBytes(|names|, 4) + LeBytes(0, 4) + LeBytes(FileHash(index), 4) + LeBytes(0, 4));
      names := names + files[index].name + [0];
    }
    dict := Clear(DICT_COUNT) + LeBytes(|files|, 4);
    dict := dict + Clear(DICT_RECORDS - |dict|);
    dict := dict + records + names;
  }

  /** Build an archive of `files`; `sectors` says where each payload was put. */
  method Synthetic(files: seq<File>, deflate: Deflater) returns (out: seq<byte>, ghost sectors: seq<nat>)
    requires |files| < MAX_ENTRIES
    ensures Archive(out, Payloads(files, deflate), sectors)
  {
    hide EntryHolds, DictBytes;
    var count := |files| + 1;
    out := Clear(TABLE + count * STRIDE);
    out := Patch(out, 0x0c, LeBytes(count, 4));
    var dict := BuildDict(files);
    var payloads: seq<Stored> := [];
    for index := 0 to |files|
      invariant |payloads| == index && payloads == Payloads(files, deflate)[..index]
    {
      var body := if files[index].compress then deflate(files[index].body) else files[index].body;
      payloads := payloads + [Stored(FileHash(index), BDAT, body, |files[index].body|)];
    }
    payloads := payloads + [Stored(NO_NAME, DICT, dict, |dict|)];
    assert payloads == Payloads(files, deflate);
    sectors := [];
    for index := 0 to |payloads|
      invariant Placed(out, payloads, sectors, index)
      invariant index > 0 ==> |out| == sectors[index - 1] * SECTOR + |payloads[index - 1].stored|
    {
      out, sectors := PlaceNext(out, payloads, sectors, index);
    }
  }

  /** Pad to a sector, describe entry `index` in the table, and append its payload. */
  method PlaceNext(before: seq<byte>, payloads: seq<Stored>, ghost sectors: seq<nat>, index: nat)
    returns (out: seq<byte>, ghost placed: seq<nat>)
    requires Placed(before, payloads, sectors, index) && index < |payloads|
    requires forall p | p in payloads :: |p.tag| == 4
    ensures Placed(out, payloads, placed, index + 1)
    ensures |out| == placed[index] * SECTOR + |payloads[index].stored|
  {
    hide EntryHolds;
    out := before;
    while |out| % SECTOR != 0
      invariant Placed(out, payloads, sectors, index)
      decreases (SECTOR - |out| % SECTOR) % SECTOR
    {
      PlacedAppend(out, [0], payloads, sectors, index);
      out := out + [0];
    }
    var sector := |out| / SECTOR;
    out := WriteRow(out, payloads, sectors, index, payloads[index], sector);
    PlacedNext(out, payloads[index], payloads, sectors, index, sector);
    out := out + payloads[index].stored;
    placed := sectors + [sector];
  }

  // --- what the parser makes of it ---

  /** Every number the format keeps in four bytes fits there. */
  ghost predicate Fits(payloads: seq<Stored>, out: seq<byte>) {
    |out| < 0x1_0000_0000 * SECTOR && |payloads| <= MAX_ENTRIES &&
    forall p | p in payloads :: |p.tag| == 4 && |p.stored| < 0x1_0000_0000 && p.unpacked < 0x1_0000_0000
  }

  lemma U32Back(out: seq<byte>, at: nat, v: nat)
    requires Holds(out, at, LeBytes(v, 4)) && v < 0x1_0000_0000
    ensures ReadU32(out, at) == Ok(v)
  {
    LeRoundTrip(v, 4);
    Pow2Values();
    hide LeBytes, LeValue;
  }

  /** A row of the table reads back as what was placed there. */
  lemma EntryBack(out: seq<byte>, i: nat, p: Stored, sector: nat)
    requires EntryHolds(out, i, p, sector) && |p.tag| == 4
    requires sector < 0x1_0000_0000 && |p.stored| < 0x1_0000_0000 && p.unpacked < 0x1_0000_0000
    ensures ReadEntry(out, i) == Ok(Entry(p.hash, p.tag, sector * SECTOR, |p.stored|, p.unpacked))
    ensures Payload(out, Entry(p.hash, p.tag, sector * SECTOR, |p.stored|, p.unpacked)) == Ok(p.stored)
  {
    hide ReadU32;
    U32Back(out, EntryAt(i) + 0x04, sector);
    U32Back(out, EntryAt(i) + 0x08, p.hash);
    U32Back(out, EntryAt(i) + 0x0c, p.unpacked);
    U32Back(out, EntryAt(i) + 0x10, |p.stored|);
  }

  lemma ArchiveEntry(out: seq<byte>, payloads: seq<Stored>, sectors: seq<nat>, i: nat)
    requires Archive(out, payloads, sectors) && Fits(payloads, out) && i < |payloads|
    ensures var p := payloads[i];
      var e := Entry(p.hash, p.tag, sectors[i] * SECTOR, |p.stored|, p.unpacked);
      ReadEntry(out, i) == Ok(e) && Payload(out, e) == Ok(p.stored)
  {
    hide ReadEntry, Payload;
    assert EntryHolds(out, i, payloads[i], sectors[i]);
    assert payloads[i] in payloads;
    EntryBack(out, i, payloads[i], sectors[i]);
  }

  // --- the name table comes back ---

  /** Names that can be told apart in the table: UTF-8 with no NUL. */
  predicate GoodName(name: seq<byte>) {
    Utf8.Valid(name) && 0 !in name
  }

  function NamesOf(files: seq<File>, n: nat): Names
    requires n <= |files| <= MAX_ENTRIES
  {
    if n == 0 then map[] else NamesOf(files, n - 1)[FileHash(n - 1) := files[n - 1].name]
  }

  lemma {:induction false} NamesOfAt(files: seq<File>, n: nat)
    requires n <= |files| <= MAX_ENTRIES
    ensures forall h: u32 :: h in NamesOf(files, n) <==> 0x1000_0000 <= h < FileHash(n)
    ensures forall i | 0 <= i < n :: FileHash(i) in NamesOf(files, n) && NamesOf(files, n)[FileHash(i)] == files[i].name
  {
    if n > 0 {
      NamesOfAt(files, n - 1);
    }
  }

  lemma {:induction false} RecordInPlace(files: seq<File>, i: nat, n: nat)
    requires i < n <= |files|
    ensures Holds(Records(files, n), i * DICT_RECORD, Record(files, i))
  {
    if i < n - 1 {
      RecordInPlace(files, i, n - 1);
      AppendKeeps(Records(files, n - 1), Record(files, n - 1), i * DICT_RECORD, Record(files, i));
    }
  }

  lemma {:induction false} NameInPlace(files: seq<File>, i: nat, n: nat)
    requires i < n <= |files|
    ensures Holds(NameArea(files, n), |NameArea(files, i)|, files[i].name + [0])
  {
    assert NameArea(files, n) == NameArea(files, n - 1) + (files[n - 1].name + [0]);
    if i < n - 1 {
      NameInPlace(files, i, n - 1);
      AppendKeeps(NameArea(files, n - 1), files[n - 1].name + [0], |NameArea(files, i)|, files[i].name + [0]);
    }
  }

  lemma HoldsWithin(head: seq<byte>, body: seq<byte>, tail: seq<byte>, at: nat, kept: seq<byte>)
    requires Holds(body, at, kept)
    ensures Holds(head + body + tail, |head| + at, kept)
  {
    assert (head + body + tail)[|head| + at..|head| + at + |kept|] == body[at..at + |kept|];
  }

  lemma HoldsPart(out: seq<byte>, at: nat, a: seq<byte>, b: seq<byte>)
    requires Holds(out, at, a + b)
    ensures Holds(out, at, a) && Holds(out, at + |a|, b)
  {
    var s := out[at..at + |a + b|];
    assert s[..|a|] == a && s[|a|..] == b;
  }

  lemma DictParts(files: seq<File>)
    requires |DictBytes(files)| < 0x1_0000_0000
    ensures ReadU32(DictBytes(files), DICT_COUNT) == Ok(|files|)
    ensures RecordCount(DictBytes(files)) == |files|
    ensures forall i | 0 <= i < |files| ::
      Holds(DictBytes(files), DICT_RECORDS + i * DICT_RECORD, Record(files, i))
      && Holds(DictBytes(files), DICT_RECORDS + |files| * DICT_RECORD + |NameArea(files, i)|, files[i].name + [0])
  {
    hide LeBytes, Clear, Records, NameArea, Record, RecordCount, ReadU32;
    var n := |files|;
    var dict := DictBytes(files);
    var start, count, gap := Clear(DICT_COUNT), LeBytes(n, 4), Clear(4);
    var records, names := Records(files, n), NameArea(files, n);
    assert dict == (start + count + gap) + records + names;
    assert dict == (start + count + gap + records) + names + [];
    assert dict == start + count + (gap + records + names);
    HoldsWithin(start, count, gap + records + names, 0, count);
    U32Back(dict, DICT_COUNT, n);
    CountOf(dict, n);
    forall i | 0 <= i < n
      ensures Holds(dict, DICT_RECORDS + i * DICT_RECORD, Record(files, i))
      ensures Holds(dict, DICT_RECORDS + n * DICT_RECORD + |NameArea(files, i)|, files[i].name + [0])
    {
      RecordInPlace(files, i, n);
      HoldsWithin(start + count + gap, records, names, i * DICT_RECORD, Record(files, i));
      NameInPlace(files, i, n);
      HoldsWithin(start + count + gap + records, names, [], |NameArea(files, i)|, files[i].name + [0]);
    }
  }

  lemma CountOf(dict: seq<byte>, n: nat)
    requires ReadU32(dict, DICT_COUNT) == Ok(n) && |dict| >= DICT_RECORDS + n * DICT_RECORD
    ensures RecordCount(dict) == n
  {
    hide ReadU32;
  }

  lemma NulFound(dict: seq<byte>, from: nat, name: seq<byte>)
    requires Holds(dict, from, name + [0]) && 0 !in name
    ensures FirstNul(dict, from) == from + |name| < |dict|
  {
    var s := dict[from..from + |name| + 1];
    assert s == name + [0];
    assert dict[from + |name|] == s[|name|];
    forall k | from <= k < from + |name| ensures dict[k] != 0 {
      assert dict[k] == s[k - from] == name[k - from];
    }
  }

  lemma RecordBack(files: seq<File>, i: nat)
    requires i < |files| < MAX_ENTRIES && |DictBytes(files)| < 0x1_0000_0000 && GoodName(files[i].name)
    ensures RecordName(DictBytes(files), |files|, i) == Some((FileHash(i), files[i].name))
  {
    hide DictBytes, Record, NameArea, RecordCount, ReadU32;
    var dict := DictBytes(files);
    DictParts(files);
    NameFound(dict, |files|, i, |NameArea(files, i)|, FileHash(i), files[i].name) by {
      assert Holds(dict, DICT_RECORDS + i * DICT_RECORD, Record(files, i));
      RecordFields(dict, DICT_RECORDS + i * DICT_RECORD, files, i);
      assert Holds(dict, DICT_RECORDS + |files| * DICT_RECORD + |NameArea(files, i)|, files[i].name + [0]);
    }
  }

  lemma RecordFields(dict: seq<byte>, at: nat, files: seq<File>, i: nat)
    requires i < |files| < MAX_ENTRIES && |NameArea(files, i)| < 0x1_0000_0000
    requires Holds(dict, at, Record(files, i))
    ensures ReadU32(dict, at) == Ok(|NameArea(files, i)|) && ReadU32(dict, at + 8) == Ok(FileHash(i))
  {
    hide LeBytes, NameArea, ReadU32;
    var a, b, c := LeBytes(|NameArea(files, i)|, 4), LeBytes(0, 4), LeBytes(FileHash(i), 4);
    assert Record(files, i) == a + (b + (c + b));
    HoldsPart(dict, at, a, b + (c + b));
    HoldsPart(dict, at + 4, b, c + b);
    HoldsPart(dict, at + 8, c, b);
    U32Back(dict, at, |NameArea(files, i)|);
    U32Back(dict, at + 8, FileHash(i));
  }

  lemma NameFound(dict: seq<byte>, count: nat, i: nat, offset: nat, hash: u32, name: seq<byte>)
    requires ReadU32(dict, DICT_RECORDS + i * DICT_RECORD) == Ok(offset)
    requires ReadU32(dict, DICT_RECORDS + i * DICT_RECORD + 8) == Ok(hash)
    requires Holds(dict, DICT_RECORDS + count * DICT_RECORD + offset, name + [0]) && GoodName(name)
    ensures RecordName(dict, count, i) == Some((hash, name))
  {
    hide ReadU32;
    var from := DICT_RECORDS + count * DICT_RECORD + offset;
    NulFound(dict, from, name);
    HoldsPart(dict, from, name, [0]);
  }

  lemma {:induction false} DictBack(files: seq<File>, n: nat)
    requires n <= |files| < MAX_ENTRIES && |DictBytes(files)| < 0x1_0000_0000
    requires forall f | f in files :: GoodName(f.name)
    ensures DictNames(DictBytes(files), |files|, n) == NamesOf(files, n)
  {
    hide RecordName, DictBytes, GoodName;
    if n > 0 {
      DictBack(files, n - 1);
      RecordBack(files, n - 1);
    }
  }

  // --- the whole archive comes back ---

  ghost predicate Undoes(inflate: Inflater, deflate: Deflater) {
    forall body: seq<byte> :: inflate(deflate(body)) == Some(body)
  }

  /** A compressed body no shorter or longer than the original is mistaken for a raw one. */
  predicate Distinguished(f: File, deflate: Deflater) {
    f.compress && |deflate(f.body)| == |f.body| ==> deflate(f.body) == f.body
  }

  function Recovered(f: File, deflate: Deflater): seq<byte> {
    if f.compress && |deflate(f.body)| == |f.body| then deflate(f.body) else f.body
  }

  function FileMember(files: seq<File>, i: nat, deflate: Deflater): (u32, Member)
    requires i < |files| <= MAX_ENTRIES
  {
    (FileHash(i), Member(Some(files[i].name), BDAT, Recovered(files[i], deflate)))
  }

  /** What the parser returns: the files in order under their names, and the name table. */
  function ParsedMembers(files: seq<File>, deflate: Deflater, n: nat): (r: seq<(u32, Member)>)
    requires n <= |files| <= MAX_ENTRIES
    ensures |r| == n
  {
    seq(n, i requires 0 <= i < n => FileMember(files, i, deflate))
  }

  function Original(f: File): Member { Member(Some(f.name), BDAT, f.body) }

  function Originals(files: seq<File>): (r: seq<Member>)
    ensures |r| == |files|
  {
    seq(|files|, i requires 0 <= i < |files| => Original(files[i]))
  }

  lemma {:induction false} ScanArchive(out: seq<byte>, files: seq<File>, deflate: Deflater, sectors: seq<nat>, n: nat)
    requires |files| < MAX_ENTRIES && n <= |files|
    requires Archive(out, Payloads(files, deflate), sectors) && Fits(Payloads(files, deflate), out)
    ensures ScanNames(out, n) == Ok(map[])
  {
    hide ReadEntry, Payload, Archive, Fits, DictBytes;
    if n > 0 {
      ScanArchive(out, files, deflate, sectors, n - 1);
      ArchiveEntry(out, Payloads(files, deflate), sectors, n - 1);
    }
  }

  lemma ArchiveNames(out: seq<byte>, files: seq<File>, deflate: Deflater, sectors: seq<nat>)
    requires |files| < MAX_ENTRIES && forall f | f in files :: GoodName(f.name)
    requires Archive(out, Payloads(files, deflate), sectors) && Fits(Payloads(files, deflate), out)
    ensures ScanNames(out, |files| + 1) == Ok(NamesOf(files, |files|))
  {
    hide ReadEntry, Payload, Archive, DictBytes, RecordCount, GoodName;
    var payloads := Payloads(files, deflate);
    ScanArchive(out, files, deflate, sectors, |files|);
    ArchiveEntry(out, payloads, sectors, |files|);
    assert payloads[|files|] in payloads;
    DictParts(files);
    DictBack(files, |files|);
  }

  /** A member whose row and payload are known. */
  lemma MemberFrom(out: seq<byte>, names: Names, inflate: Inflater, i: nat, e: Entry, raw: seq<byte>, data: seq<byte>)
    requires ReadEntry(out, i) == Ok(e) && Payload(out, e) == Ok(raw)
    requires if e.packed == e.unpacked then data == raw else inflate(raw) == Some(data)
    requires |data| == e.unpacked
    ensures ReadMember(out, names, inflate, i) == Ok((e.hash, Member(NameOf(names, e.hash), e.tag, data)))
  {
    hide ReadEntry, Payload;
  }

  lemma {:induction false} MemberBack(out: seq<byte>, files: seq<File>, deflate: Deflater, inflate: Inflater, sectors: seq<nat>, i: nat)
    requires i < |files| < MAX_ENTRIES && Undoes(inflate, deflate)
    requires Archive(out, Payloads(files, deflate), sectors) && Fits(Payloads(files, deflate), out)
    ensures ReadMember(out, NamesOf(files, |files|), inflate, i) == Ok(FileMember(files, i, deflate))
  {
    hide ReadEntry, ReadMember, Payload, EntryHolds, Fits, DictBytes, NamesOf;
    var f := files[i];
    var p := Stored(FileHash(i), BDAT, StoredBody(f, deflate), |f.body|);
    assert Payloads(files, deflate)[i] == p;
    ArchiveEntry(out, Payloads(files, deflate), sectors, i);
    NamesOfAt(files, |files|);
    var e := Entry(p.hash, p.tag, sectors[i] * SECTOR, |p.stored|, p.unpacked);
    MemberFrom(out, NamesOf(files, |files|), inflate, i, e, p.stored, Recovered(f, deflate));
  }

  lemma {:induction false} TableBack(out: seq<byte>, files: seq<File>, deflate: Deflater, inflate: Inflater, sectors: seq<nat>)
    requires |files| < MAX_ENTRIES
    requires Archive(out, Payloads(files, deflate), sectors) && Fits(Payloads(files, deflate), out)
    ensures ReadMember(out, NamesOf(files, |files|), inflate, |files|)
         == Ok((NO_NAME, Member(None, DICT, DictBytes(files))))
  {
    hide ReadEntry, ReadMember, Payload, EntryHolds, Fits, DictBytes, NamesOf;
    var dict := DictBytes(files);
    var p := Stored(NO_NAME, DICT, dict, |dict|);
    assert Payloads(files, deflate)[|files|] == p;
    ArchiveEntry(out, Payloads(files, deflate), sectors, |files|);
    NamesOfAt(files, |files|);
    var e := Entry(p.hash, p.tag, sectors[|files|] * SECTOR, |p.stored|, p.unpacked);
    MemberFrom(out, NamesOf(files, |files|), inflate, |files|, e, dict, dict);
  }

  lemma {:induction false} MembersBack(
    out: seq<byte>, files: seq<File>, deflate: Deflater, inflate: Inflater, sectors: seq<nat>, n: nat)
    requires n <= |files| < MAX_ENTRIES && Undoes(inflate, deflate)
    requires Archive(out, Payloads(files, deflate), sectors) && Fits(Payloads(files, deflate), out)
    ensures ReadMembers(out, NamesOf(files, |files|), inflate, n) == Ok(ParsedMembers(files, deflate, n))
  {
    hide ReadMember, Archive, Fits, NamesOf, FileMember, Undoes, Payloads;
    if n > 0 {
      MembersBack(out, files, deflate, inflate, sectors, n - 1);
      MemberBack(out, files, deflate, inflate, sectors, n - 1);
      assert ParsedMembers(files, deflate, n)
        == ParsedMembers(files, deflate, n - 1) + [FileMember(files, n - 1, deflate)];
    }
  }

  lemma {:induction false} FilesOf(files: seq<File>, deflate: Deflater, n: nat)
    requires n <= |files| < MAX_ENTRIES
    ensures Files(ParsedMembers(files, deflate, n)) == seq(n, i requires 0 <= i < n => FileMember(files, i, deflate).1)
  {
    if n > 0 {
      FilesOf(files, deflate, n - 1);
      var members := ParsedMembers(files, deflate, n);
      assert members[..n - 1] == ParsedMembers(files, deflate, n - 1);
      assert members[n - 1].1.tag == BDAT;
    }
  }

  lemma HeaderBack(out: seq<byte>, files: seq<File>, deflate: Deflater, sectors: seq<nat>)
    requires |files| < MAX_ENTRIES
    requires Archive(out, Payloads(files, deflate), sectors)
    ensures ReadU32(out, 0x0c) == Ok(|files| + 1)
  {
    hide EntryHolds, DictBytes;
    U32Back(out, 0x0c, |files| + 1);
  }

  /**
    A built archive always parses, and what it holds is exactly the files it was built from, in
    order and under their names, if and only if no compressed body has its original's length.
   */
  lemma ParseBuilt(out: seq<byte>, files: seq<File>, deflate: Deflater, inflate: Inflater, sectors: seq<nat>)
    requires |files| < MAX_ENTRIES && Undoes(inflate, deflate)
    requires forall f | f in files :: GoodName(f.name)
    requires Archive(out, Payloads(files, deflate), sectors) && Fits(Payloads(files, deflate), out)
    ensures Parsed(out, inflate).Ok?
    ensures Files(Parsed(out, inflate).value) == Originals(files)
       <==> forall f | f in files :: Distinguished(f, deflate)
  {
    hide ReadU32, ScanNames, ReadMember, Archive, Fits, GoodName, Undoes, NamesOf, Payloads, DictBytes;
    HeaderBack(out, files, deflate, sectors);
    ArchiveNames(out, files, deflate, sectors);
    MembersBack(out, files, deflate, inflate, sectors, |files|);
    TableBack(out, files, deflate, inflate, sectors);
    var table := (NO_NAME, Member(None, DICT, DictBytes(files)));
    var members := ParsedMembers(files, deflate, |files|) + [table];
    assert Parsed(out, inflate) == Ok(members);
    assert members[..|files|] == ParsedMembers(files, deflate, |files|);
    FilesOf(files, deflate, |files|);
    var found := Files(members);
    assert found == Files(ParsedMembers(files, deflate, |files|));
    RecoveredAll(found, files, deflate);
  }

  lemma RecoveredAll(found: seq<Member>, files: seq<File>, deflate: Deflater)
    requires |files| < MAX_ENTRIES && |found| == |files|
    requires forall i | 0 <= i < |files| :: found[i] == FileMember(files, i, deflate).1
    ensures found == Originals(files) <==> forall f | f in files :: Distinguished(f, deflate)
  {
    assert forall i | 0 <= i < |files| :: files[i] in files;
    assert forall i | 0 <= i < |files| :: Originals(files)[i] == Original(files[i]);
    assert forall i | 0 <= i < |files| :: found[i] == Original(files[i]) <==> Distinguished(files[i], deflate);
    if found == Originals(files) {
      forall f | f in files ensures Distinguished(f, deflate) {
        var i :| 0 <= i < |files| && files[i] == f;
        assert found[i] == Original(files[i]);
      }
    }
  }

  // --- a cut archive ---

  lemma CutU32(out: seq<byte>, cut: nat, at: nat)
    requires cut <= |out|
    ensures ReadU32(out[..cut], at).Err? || ReadU32(out[..cut], at) == ReadU32(out, at)
  {
    if at + 4 <= cut {
      assert out[..cut][at..at + 4] == out[at..at + 4];
    }
  }

  lemma CutEntry(out: seq<byte>, cut: nat, i: nat)
    requires cut <= |out|
    ensures ReadEntry(out[..cut], i).Err? || ReadEntry(out[..cut], i) == ReadEntry(out, i)
  {
    hide ReadU32;
    var at := EntryAt(i);
    CutU32(out, cut, at + 0x04);
    CutU32(out, cut, at + 0x08);
    CutU32(out, cut, at + 0x0c);
    CutU32(out, cut, at + 0x10);
    if at + 0x1c <= cut {
      assert out[..cut][at + 0x18..at + 0x1c] == out[at + 0x18..at + 0x1c];
    }
  }

  /** Every strict prefix of a built archive is refused. */
  lemma PrefixRefused(out: seq<byte>, files: seq<File>, deflate: Deflater, inflate: Inflater, sectors: seq<nat>, cut: nat)
    requires |files| < MAX_ENTRIES && cut < |out|
    requires Archive(out, Payloads(files, deflate), sectors) && Fits(Payloads(files, deflate), out)
    ensures Parsed(out[..cut], inflate).Err?
  {
    hide ReadU32, ReadEntry, Fits, EntryHolds, DictBytes;
    HeaderBack(out, files, deflate, sectors);
    CutU32(out, cut, 0x0c);
    CutEntry(out, cut, |files|);
    ArchiveEntry(out, Payloads(files, deflate), sectors, |files|);
  }

  /** Build an archive, parse it, and keep the files. */
  method BuildAndParse(files: seq<File>, deflate: Deflater, inflate: Inflater)
    returns (out: seq<byte>, r: ArchiveResult<seq<(u32, Member)>>)
    requires |files| < MAX_ENTRIES && Undoes(inflate, deflate)
    requires forall f | f in files :: GoodName(f.name) && Distinguished(f, deflate)
    ensures Fits(Payloads(files, deflate), out) ==> r.Ok? && Files(r.value) == Originals(files)
  {
    hide Payloads, Fits, GoodName, Distinguished, Undoes, Archive;
    ghost var sectors;
    out, sectors := Synthetic(files, deflate);
    r := Parse(out, inflate);
    if Fits(Payloads(files, deflate), out) {
      ParseBuilt(out, files, deflate, inflate, sectors);
    }
  }
}
