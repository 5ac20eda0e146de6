# SkySaga server: verified model

A Dafny model of the parts of a SkySaga game server where state, bits and indices can go wrong,
with proofs about every run of them. `dafny verify dfyconfig.toml` checks all of it.

Each piece is modelled twice. What the servers change in place (the bit writer and reader, the
inventories, the sessions over one shared world, the shared application state, the chunk buffers)
is a class or a loop, and every method is proved against a function of the state before it. The
properties are then proved about those functions, over all inputs and all interleavings.
Where what comes out is fixed by somebody else (bits on the wire, bytes in an archive or a chunk,
squares, limits, refusals, hashes and generators) a contract also gives it by value, in numbers.

| files | what they model |
|---|---|
| `Bits`, `BitStream`, `BitWriter`, `BitReader`, `Programs`, `Utf8` | the bit codec: an append-only sequence of bits, the writer and reader that refine it, and programs of mirrored writes and reads |
| `Appearance`, `ItemSpec`, `EntitySync` | what is built on it: appearances on the wire and in storage, item specifications, entity sync bodies |
| `Crc` | the name hash, its table, and the polynomial remainder it is (XOR-linear, hence what it can tell apart) |
| `DataPc`, `DataPcBuilder` | the `data.pc` parser, and the builder it inverts |
| `Inventory`, `Inventories` | every inventory of a session: what operations keep, and what they tell the client |
| `SharedWorld`, `Ids`, `Losses`, `GameServer`, `Combat` | many sessions over one world: floor drops, rucksack restores, entity ids and the runs that lose items, hits |
| `SaveRestore`, `Belongings`, `Crafting`, `Workbench` | one session: what it saves and gets back, and its crafting queues |
| `Stored`, `Tables`, `Rows`, `Database` | what is stored: rows keyed by account, what a change makes of them, and what a load gives back |
| `AppState`, `SharedState`, `Restart`, `Overlay` | the shared state, the log of changes it emits, what a restart finds of it, and the voxel overlay |
| `Terrain`, `Salvage`, `Loot` | terrain and its chunks, the repair and dismantle draw, the weighted pick |
| `Wrappers`, `Numbers`, `Text` | shared vocabulary |

## Where the code does not do what one would expect

- A pick-up that only partly fits the first stack with room keeps the rest in a stack no square
  names, although its pickup has left the floor: the rest is lost (`SharedWorld.StrandsWhen`,
  `Losses.SixAreLost`). Conservation is proved with that loss counted.
- Restoring a rucksack mints ids without borrowing the server's counter (`Ids.RestoreCollides`,
  `Ids.NextOneCollides`), so two players joining in turn already share ids
  (`Ids.SecondJoinCollides`). A stack dropped under the id of a restored one is merged into itself
  or put in two squares when it is picked up (`Losses.ThirtyAreLost`, `Losses.OneStackTwice`).
  `Ids.DistinctWhen` says exactly which runs keep ids apart; those conserve every item
  (`Ids.ApartConserves`), and so do all runs in which no stack is overtaken
  (`SharedWorld.SoundWhenNoneClashes`, `SharedWorld.RanSound`).
- Exact arithmetic asks two components of the pickaxe at 1200 of 1500 where the panel shows one
  (`Salvage.ExactAsksTwo`); the draws the panel was seen to show are those of seed 0
  (`Salvage.PanelDraws`).
- A recipe that names one item twice is checked once and can be started with too little
  (`Crafting.AcceptedCosts`, `Crafting.TwiceAskedOnceChecked`); a craft collected into a full
  rucksack is lost (`Crafting.GrantedWhenFree`).
- The store refuses rows of an account it has never been told of (`Database.RefusedWhen`), and a
  list it takes does not come back as it was when it is out of key order
  (`Database.InventoryComesBackSorted`) or holds an empty list of materials
  (`Database.EmptyMaterialsAreLost`). State and store part exactly there (`AppStates.MadeAgrees`,
  `AppStates.ReplayGivesState`, `Restarts.RestartGivesState`).
- A compressed archive member as long as its original is taken for a raw one
  (`DataPcBuilder.ParseBuilt`); line endings are not always normal after one pass
  (`DataPc.UnixIdempotent`).
- Text of 255 bytes or more, packet ids over 376 and a gender outside its two bits are written
  but do not read back (`BitStream.StringRoundTrip`, `BitStream.PacketIdRoundTrip`,
  `Appearance.AppearanceRoundTrip`).
- A certain loot entry still rolls its pick (`Loots.CertainStillPicks`), although the module's own
  documentation says that a table of certain drops consumes no randomness.

## Conventions

Entity ids, counts and counters are unbounded naturals where the source has 32 bits, except in the
codec, the hash, the generators and the archive, whose widths are part of what is proved.
Connections are numbered in the order they arrive. Each handler runs to its end before the next,
as the game loop drains one packet at a time. Clocks, random numbers and fresh uuids are arguments;
compression is a pair of functions of which one undoes the other; terrain noise is over the reals;
salvage rounding is any monotone rounding that leaves 0 and 1 alone. A query's `ORDER BY` is any
strict total order in the laws of one table, and text by character in the store as a whole; its answer
is any list in that order with exactly the table's rows.

## Model

| member | source | states |
|---|---|---|
| `BitWriting.BitWriter.WriteBit` | crates/skysaga-proto/src/bitstream.rs:93-107 | One bit is appended to everything written so far, and the buffer stays exactly as long as its bits need, zero beyond them |
| `BitWriting.BitWriter.WriteByteBits` | crates/skysaga-proto/src/bitstream.rs:109-118 | The leading bits of a byte are appended, most significant first |
| `BitWriting.BitWriter.WriteBits` | crates/skysaga-proto/src/bitstream.rs:153-170 | Whole bytes in order, a trailing part of a byte from its low bits, zeros where the bytes run out |
| `BitWriting.BitWriter.WriteU32` | crates/skysaga-proto/src/bitstream.rs:129-131 | Four octets are appended, the most significant first |
| `BitWriting.BitWriter.WriteBitsLe` | crates/skysaga-proto/src/bitstream.rs:144-146 | The other 32-bit form: little-endian bytes cut to any width |
| `BitWriting.BitWriter.WriteU64Le` | crates/skysaga-proto/src/bitstream.rs:176-178 | Eight octets, the least significant first |
| `BitWriting.BitWriter.AlignToByte` | crates/skysaga-proto/src/bitstream.rs:185-189 | Fewer than eight clear bits, up to the next byte boundary, none when already there |
| `BitWriting.BitWriter.WriteBitsMsb` | crates/skysaga-proto/src/bitstream.rs:210-216 | The first bits of a buffer as they lie, each octet from its top, zeros past its end |
| `BitWriting.BitWriter.WriteCompressedU32` | crates/skysaga-proto/src/bitstream.rs:227-235 | Under 128 a clear flag and the low seven bits; from 128 on a set flag and four octets, the least significant first |
| `BitWriting.BitWriter.WriteString` | crates/skysaga-proto/src/bitstream.rs:241-261 | Nothing is one clear bit; under 255 bytes two flags 1 0, one octet of length and the text; from 255 on two flags 1 1, four octets of length, most significant first, and the text |
| `BitWriting.BitWriter.WriteOptionalU32` | crates/skysaga-proto/src/bitstream.rs:264-270 | A clear flag, or a set one and four octets, the most significant first |
| `BitWriting.BitWriter.WritePacketId` | crates/skysaga-proto/src/bitstream.rs:276-285 | Ids up to 120 are the octet 134 higher; the others 255 and the octet 121 lower |
| `BitWriting.BitWriter.WriteText` | crates/skysaga-proto/src/bitstream.rs:241-261 | The text goes out octet by octet, each from its top bit |
| `BitWriting.BitWriter.IntoBytes` | crates/skysaga-proto/src/bitstream.rs:81-87 | The bytes handed over are the bits written, octet by octet, and clear bits after them |
| `BitStream.LeWire` | crates/skysaga-proto/src/bitstream.rs:144-170 | A little-endian field of any width is its whole octets, then the low bits of the last, and zeros past 32 bits |
| `Utf8.ValidWhen` | crates/skysaga-proto/src/bitstream.rs:503-504 | Bytes are taken for text exactly when they spell characters out as section 3 of RFC 3629 lays their bits out |
| `BitStream.PushBitAppends` | crates/skysaga-proto/src/bitstream.rs:93-107 | Setting one bit in a zero-padded buffer appends exactly that bit and keeps the padding |
| `BitStream.BufferIsPacked` | crates/skysaga-proto/src/bitstream.rs:71-107 | A buffer that is tight for its bits is the packing of those bits and nothing else |
| `BitReading.BitReader.NextBit` | crates/skysaga-proto/src/bitstream.rs:337-346 | The next bit, or an error past the end, with the offset moved or left as the source does |
| `BitReading.BitReader.NextBytes` | crates/skysaga-proto/src/bitstream.rs:348-365 | Byte reads agree with the bit sequence, stopping where the bits run out |
| `BitReading.BitReader.NextBitsLe` | crates/skysaga-proto/src/bitstream.rs:384-409 | The loop over partial bytes gives the value of the little-endian field |
| `BitReading.BitReader.NextBitsMsb` | crates/skysaga-proto/src/bitstream.rs:449-461 | Bits repacked from the top of a fresh buffer |
| `BitReading.BitReader.SkipBits` | crates/skysaga-proto/src/bitstream.rs:467-474 | Skips exactly the bits asked for, or fails and stays where it was |
| `BitReading.BitReader.AlignToByte` | crates/skysaga-proto/src/bitstream.rs:423-429 | Skips to the boundary, or fails when the padding is missing |
| `BitReading.BitReader.NextCompressedU32` | crates/skysaga-proto/src/bitstream.rs:477-481 | Reads whichever width the flag says |
| `BitReading.BitReader.NextString` | crates/skysaga-proto/src/bitstream.rs:483-504 | Refuses the long form, flags 1 1, and text that is not UTF-8 |
| `BitStream.MalformedRefused` | crates/skysaga-proto/src/bitstream.rs:483-504 | A short text that is not UTF-8 is refused once it has been read |
| `BitReading.BitReader.NextPacketId` | crates/skysaga-proto/src/bitstream.rs:515-525 | One byte, or a second after the 255 escape, less the offset of user packets |
| `BitStream.PacketIdOf` | crates/skysaga-proto/src/bitstream.rs:515-525 | A first octet under 255 is the whole id, 134 lower, and 0 for what is no game packet |
| `BitStream.U32RoundTrip` | crates/skysaga-proto/src/bitstream.rs:129-131 | What the big-endian form writes it reads |
| `BitStream.U64RoundTrip` | crates/skysaga-proto/src/bitstream.rs:176-178 | What the 64-bit little-endian form writes it reads |
| `BitStream.LeRoundTrips` | crates/skysaga-proto/src/bitstream.rs:144-170 | A little-endian field of any width reads back as the value modulo two to that width, at most 32 |
| `BitStream.AlignRoundTrip` | crates/skysaga-proto/src/bitstream.rs:185-189 | Alignment written at an offset is skipped at that offset, ending on a byte boundary |
| `BitStream.CompressedRoundTrip` | crates/skysaga-proto/src/bitstream.rs:227-235 | Both widths of the compressed form read back, modulo 2^32 |
| `BitStream.OptionalRoundTrip` | crates/skysaga-proto/src/bitstream.rs:264-270 | Absent and present values read back |
| `BitStream.StringRoundTrip` | crates/skysaga-proto/src/bitstream.rs:241-261 | Text reads back if and only if it is under 255 bytes; longer text is refused on reading |
| `BitStream.PacketIdRoundTrip` | crates/skysaga-proto/src/bitstream.rs:276-285 | A packet id reads back if and only if it is at most 376 |
| `BitStream.MsbRoundTrip` | crates/skysaga-proto/src/bitstream.rs:210-216 | Raw bits read back packed, and whole buffers unchanged |
| `BitStream.RangedIsLeast` | crates/skysaga-proto/src/bitstream.rs:537-539 | The width of a ranged field is the least that holds its maximum, and never over 32 |
| `BitStream.RangedRoundTrip` | crates/skysaga-proto/src/bitstream.rs:537-539 | Every value up to the declared maximum comes back whole at that width |
| `Programs.FieldRoundTrip` | crates/skysaga-proto/src/bitstream.rs:93-286 | Each write operation, at any offset, reads back what it can carry and stops where it ended; when it cannot carry the value the read differs or fails |
| `Programs.ProgramRoundTrip` | crates/skysaga-proto/src/bitstream.rs:337-525 | For every finite program of writes the mirrored reads return the values and stop at the last bit written, exactly when every field can be carried |
| `Programs.PackedReadsBack` | crates/skysaga-proto/src/bitstream.rs:81-87 | Packing to bytes and reading the bytes as bits loses nothing but adds zero padding |
| `Programs.SendAndReceive` | crates/skysaga-proto/src/bitstream.rs:71-525 | The two classes together: write a program, take the bytes, read it back, and the bits read are the bits used |
| `Appearance.Encode` | crates/skysaga-proto/src/customisation.rs:163-178 | The writer appends the code of the appearance |
| `Appearance.Decode` | crates/skysaga-proto/src/customisation.rs:180-204 | The reader computes the specified decoding, errors included |
| `Appearance.CountRoundTrip` | crates/skysaga-proto/src/customisation.rs:224-239 | A list count reads back, by the default flag or by the escape |
| `Appearance.GenderRoundTrip` | crates/skysaga-proto/src/customisation.rs:49-69 | A gender comes back as its low two bits |
| `Appearance.AppearanceRoundTrip` | crates/skysaga-proto/src/customisation.rs:163-204 | An appearance decodes to itself with its gender cut to two bits, which is itself exactly when the gender is canonical |
| `Appearance.StorageRoundTrip` | crates/skysaga-store/src/lib.rs:135-148 | Decoding the zero-padded stored bytes gives the appearance back if and only if its gender is canonical |
| `Appearance.StoredComesBack` | crates/skysaga-store/src/lib.rs:135-148 | The stored bytes of any appearance decode to it exactly when its gender fits two bits and its lists their counts |
| `Appearance.SaveAndLoad` | crates/skysaga-store/src/lib.rs:135-148 | The two store functions run one after the other on the real writer and reader |
| `Appearance.AppearanceWire` | crates/skysaga-proto/src/customisation.rs:163-178 | Gender and tribe, then each list behind its count: one clear bit for three materials or one attachment, otherwise a set bit and four octets |
| `Appearance.GenderWire` | crates/skysaga-proto/src/customisation.rs:49-69 | Two bits: 00 for a man, 01 for a woman, the low two of any other value |
| `Appearance.IdWire` | crates/skysaga-proto/src/bitstream.rs:264-270 | An id is a clear flag, or a set one and four octets |
| `Appearance.IdsWire` | crates/skysaga-proto/src/customisation.rs:163-178 | Materials follow one another from the first on |
| `Appearance.AttachmentsWire` | crates/skysaga-proto/src/customisation.rs:163-178 | Attachments follow one another from the first on, each before its material |
| `Items.EncodeSpec` | crates/skysaga-proto/src/types.rs:50-67 | The writer appends the code of the item specification |
| `Items.DecodeSpec` | crates/skysaga-proto/src/types.rs:69-94 | The reader computes the specified decoding |
| `Items.SpecCountRoundTrip` | crates/skysaga-proto/src/types.rs:50-94 | Every count below 2^32 reads back, the default 4 included, which takes the escape |
| `Items.SpecRoundTrip` | crates/skysaga-proto/src/types.rs:50-94 | An item specification reads back if and only if its uuid is under 255 bytes |
| `Items.SpecLength` | crates/skysaga-proto/src/types.rs:29-67 | A closed formula for the length in bits, with which the default specification is 171 bits |
| `Items.SpecLengthOf` | crates/skysaga-proto/src/types.rs:29-67 | The formula for every specification |
| `Items.SpecWire` | crates/skysaga-proto/src/types.rs:50-67 | Name, count, materials, lesson, uuid: the count is three bits under 4, and from 4 on the bits 100, a set bit and four octets |
| `EntitySync.SyncEntity` | crates/skysaga-world/src/entity.rs:36-61 | The full body: a flag for each index, set exactly when its parameter wrote, and what they wrote in index order |
| `EntitySync.SyncParameters` | crates/skysaga-world/src/entity.rs:71-100 | The same for the named parameters: set exactly when the parameter was named, in whatever case, and wrote |
| `EntitySync.PieceIs` | crates/skysaga-world/src/entity.rs:24-61 | An index writes what the first component of its name, whatever the case, holds of its parameter, and nothing when that holds none |
| `Text.SameNameWhen` | crates/skysaga-world/src/entity.rs:24-30 | Two names are the same exactly when they differ only as letters and their capitals do |
| `EntitySync.AppliedIs` | crates/skysaga-world/src/entity.rs:36-100 | A client that reads a body takes each piece under its own index and keeps the rest |
| `EntitySync.FullBodyIsFull` | crates/skysaga-world/src/entity.rs:36-61 | A client that knew nothing holds all the entity writes |
| `EntitySync.PartialBodyCatchesUp` | crates/skysaga-world/src/entity.rs:63-100 | A client right about everything else is brought up to date if and only if it held nothing of the named parameters that wrote nothing |
| `Crc.BuildTable` | crates/skysaga-core/src/hash.rs:13-35 | Every table entry is eight shift-and-subtract steps of its index |
| `Crc.NameHash` | crates/skysaga-core/src/hash.rs:42-53 | The byte loop over the lowercased name is the specified fold; a name without capitals is hashed as it stands, and no name at all as 0 |
| `Crc.CaseIsIgnored` | crates/skysaga-core/src/hash.rs:42-53 | Names of one length that differ only as letters and their capitals do hash alike |
| `Crc.HashOfDirt` | crates/skysaga-core/src/hash.rs:58-80 | The value published for one name, which fixes the polynomial, the start and the order |
| `Crc.TableStep` | crates/skysaga-core/src/hash.rs:42-53 | One table look-up is eight single-bit steps |
| `Crc.CrcIsRemainder` | crates/skysaga-core/src/hash.rs:42-53 | The hash is the remainder of the lowercased message, 32 zeros appended, on long division by the polynomial |
| `Crc.CrcXor` | crates/skysaga-core/src/hash.rs:42-53 | Linear under exclusive or of lowercased names of equal length |
| `Crc.BurstShows` | crates/skysaga-core/src/hash.rs:42-53 | A difference confined to four bytes in a row always changes the hash |
| `Crc.CloseNamesDiffer` | crates/skysaga-core/src/hash.rs:42-53 | Names of equal length that differ within four bytes hash alike exactly when they are the same in lower case |
| `DataPc.Parse` | crates/skysaga-datapc/src/lib.rs:120-178 | A parse succeeds exactly when there are 16 bytes, the word at 0x0c is from 1 to 4096, and every 48-byte row from 0x17c on and the bytes it points to are there and unpack to the size it says; then member i has the hash at +0x08, the tag at +0x18, and the bytes from sixteen times the word at +0x04, as many as the word at +0x10, inflated unless that is also the word at +0x0c; the two header errors are the stated ones |
| `DataPc.ParseDict` | crates/skysaga-datapc/src/lib.rs:241-276 | The record loop builds the specified names, skipping malformed records |
| `DataPc.NamedBy` | crates/skysaga-datapc/src/lib.rs:130-160 | A member bears the name the last table gives its hash, and none without one |
| `DataPc.DictNamesAre` | crates/skysaga-datapc/src/lib.rs:241-276 | A hash has a name exactly when some well-formed record gives it one, and then the one the last such record gives |
| `DataPc.RecordIs` | crates/skysaga-datapc/src/lib.rs:251-273 | Record j gives a name when its two words at 0x30 + 16 j are there, and the text from its offset past the records ends in a zero and is UTF-8 |
| `DataPc.RecordCountIs` | crates/skysaga-datapc/src/lib.rs:235-247 | As many records as the word at 0x28 says, never more than a sixteenth of the bytes, and none when it is not there |
| `DataPc.FilesAre` | crates/skysaga-datapc/src/lib.rs:180-187 | The files are the members tagged BDAT |
| `DataPc.ReadU32` | crates/skysaga-datapc/src/lib.rs:293-305 | Four bytes at an offset, or truncation |
| `DataPcBuilder.BuildDict` | crates/skysaga-datapc/src/lib.rs:337-398 | The name table as the builder writes it |
| `DataPcBuilder.Synthetic` | crates/skysaga-datapc/src/lib.rs:337-398 | The builder places every row and payload of the archive where it says |
| `DataPcBuilder.PlaceNext` | crates/skysaga-datapc/src/lib.rs:337-398 | Padding to a sector and writing one row keeps everything already placed |
| `DataPcBuilder.ParseBuilt` | crates/skysaga-datapc/src/lib.rs:120-178 | A built archive always parses, and gives exactly its files in order if and only if no compressed body has its original length, unless it is that original |
| `DataPcBuilder.DictBack` | crates/skysaga-datapc/src/lib.rs:241-276 | The name table read back gives every name under its hash |
| `DataPcBuilder.PrefixRefused` | crates/skysaga-datapc/src/lib.rs:120-178 | Every strict prefix of a built archive is an error |
| `DataPcBuilder.BuildAndParse` | crates/skysaga-datapc/src/lib.rs:120-398 | Builder and parser run one after the other return the files |
| `DataPc.ToUnixLineEndings` | crates/skysaga-datapc/src/lib.rs:312-328 | The loop drops exactly each CR that stands before an LF |
| `DataPc.UnixLeaves` | crates/skysaga-datapc/src/lib.rs:312-328 | A CRLF is left behind exactly when there was a CR CR LF |
| `DataPc.UnixIdempotent` | crates/skysaga-datapc/src/lib.rs:312-328 | Normalising twice is normalising once if and only if there is no CR CR LF |
| `DataPc.UnixNotIdempotent` | crates/skysaga-datapc/src/lib.rs:312-328 | The three bytes on which a second pass changes something |
| `InventoryStore.Inventories.Give` | crates/skysaga-world/src/inventory.rs:175-185 | A fresh stack under the next id in a free square, or nothing |
| `InventoryStore.Inventories.CreateLooseWithId` | crates/skysaga-world/src/inventory.rs:205-224 | A known id is left alone, and the allocator is ahead of it either way, no further than it has to be |
| `InventoryStore.Inventories.Collect` | crates/skysaga-world/src/inventory.rs:234-299 | The scan for a stack with room, then for a free square |
| `InventoryStore.Inventories.Detach` | crates/skysaga-world/src/inventory.rs:309-315 | The square is emptied and the entity kept |
| `InventoryStore.Inventories.ConsumeLoose` | crates/skysaga-world/src/inventory.rs:323-341 | All or nothing, and a drained stack goes |
| `InventoryStore.Inventories.FirstFreeRucksackSlot` | crates/skysaga-world/src/inventory.rs:343-351 | The first free square from 9 on, and none when there is none |
| `InventoryStore.Inventories.TransferToSlot` | crates/skysaga-world/src/inventory.rs:360-403 | Split, else merge, else exchange |
| `InventoryStore.Inventories.Swap` | crates/skysaga-world/src/inventory.rs:406-435 | Merge, else exchange; nothing on itself or from nothing |
| `InventoryStore.Inventories.TransferAll` | crates/skysaga-world/src/inventory.rs:442-491 | Square by square, topping up before taking a free square, stopping when there is none |
| `InventoryStore.Inventories.Destroy` | crates/skysaga-world/src/inventory.rs:494-518 | A part, or the stack and its square; the whole new state and what the client is told |
| `InventoryStore.Inventories.Equip` | crates/skysaga-world/src/inventory.rs:530-544 | An exchange, never with a hand |
| `InventoryStore.Inventories.Unequip` | crates/skysaga-world/src/inventory.rs:551-565 | An exchange with the first free rucksack square |
| `Inventory.DoneKeeps` | crates/skysaga-world/src/inventory.rs:360-742 | Any drag, split, merge, take-all or equip keeps every item count, every loose stack and every stack limit, shares no stack between squares, and its effects replayed by the client give exactly the new state |
| `Inventory.InSync` | crates/skysaga-world/src/inventory.rs:14-22 | Effects that name every difference bring a client that held the old state to the new one |
| `Inventory.NothingDangles` | crates/skysaga-world/src/inventory.rs:14-22 | No packet on the way points a square at a stack the client was not told of |
| `Inventory.TakeAllEmpties` | crates/skysaga-world/src/inventory.rs:437-491 | Afterwards the source is empty or the rucksack has no free square |
| `Inventory.CollectedGrants` | crates/skysaga-world/src/inventory.rs:226-299 | A pick-up is refused, changing nothing, exactly when no stack has room and no square is free; otherwise it grants what fits and the rest stays loose |
| `Inventory.CollectedCovers` | crates/skysaga-world/src/inventory.rs:234-299 | What a pick-up tells the client is complete |
| `Inventory.DetachUndoesCollect` | crates/skysaga-world/src/inventory.rs:301-315 | Detaching from the square a pick-up chose gives back the state before it |
| `Inventory.DestroyedTakes` | crates/skysaga-world/src/inventory.rs:494-518 | Exactly what was asked for is destroyed, or the whole stack |
| `Inventory.TransferOutcome` | crates/skysaga-world/src/inventory.rs:360-403 | A drop on another square splits when it is empty and a part was asked for, tops up the same item as far as asked or as there is room, and else exchanges; no other square changes, and nothing happens from an empty or missing square |
| `Inventory.ExchangeOutcome` | crates/skysaga-world/src/inventory.rs:586-618 | An exchange swaps the two squares and touches no other |
| `Inventory.SplitOutcome` | crates/skysaga-world/src/inventory.rs:624-666 | A split leaves the count asked for in the target, the rest in the source, and every other square as it was |
| `Inventory.MergeOutcome` | crates/skysaga-world/src/inventory.rs:672-742 | A merge moves what fits, empties the source only when all of it went, and touches no other square |
| `Inventory.SwapOutcome` | crates/skysaga-world/src/inventory.rs:406-435 | A drop on another square tops it up when it holds the same item below its limit, 64 unless the item says otherwise, by all there is or all there is room for; otherwise the two squares change places; no other square changes, and nothing happens from an empty or missing square or onto itself |
| `Inventory.EquipOutcome` | crates/skysaga-world/src/inventory.rs:530-544 | Wearing exchanges the two squares when the second is not one of the first two; otherwise nothing happens |
| `Inventory.UnequipOutcome` | crates/skysaga-world/src/inventory.rs:551-565 | Taking off exchanges with the first free square from 9 on; without one, or with a hand, nothing happens |
| `Inventory.CollectOutcome` | crates/skysaga-world/src/inventory.rs:234-299 | A loose stack goes to the first stack of its item that is not full, as much as there is room for, else to the first free square from 9 on, else nowhere: the whole new state and what the client is told |
| `Inventory.TakeAllIs` | crates/skysaga-world/src/inventory.rs:442-491 | Taking all is a chain of states, one for each square in turn: the first stack with room is topped up, then the rest goes to the first free square, and the chain stops where there is none |
| `GameServers.World.TakeFloorDrop` | crates/skysaga-game/src/world.rs:1517-1523 | A drop with that pickup id leaves the floor, the others in order, and none only when none has it |
| `GameServers.Connection.DropPickup` | crates/skysaga-game/src/lib.rs:4692-4745 | The stack takes the next id and the pickup the one after, with the item, count and place given; a missing definition stops after one or both |
| `GameServers.Connection.CollectPickup` | crates/skysaga-game/src/lib.rs:4765-4812 | Taken off the floor first, collected, and put back when refused |
| `GameServers.GameServer.Connect` | crates/skysaga-game/src/server.rs:453-459 | A connection is the next id, with an empty inventory |
| `GameServers.GameServer.Handle` | crates/skysaga-game/src/server.rs:575-586 | Lend the session the id counter, run its handler over the shared floor, take the counter back |
| `GameServers.Connection.RestoreItems` | crates/skysaga-game/src/lib.rs:1565-1600 | Stored stacks back into their squares as new entities, unless something is carried already |
| `GameServers.GameServer.RestoreInventory` | crates/skysaga-game/src/server.rs:237-266 | A restore runs on the session alone: the server lends no counter and takes none back |
| `SharedWorld.GatheredSound` | crates/skysaga-game/src/lib.rs:4779-4812 | One pick-up: what leaves the floor is what is carried and what is stranded, and no other drop is touched |
| `SharedWorld.SteppedSound` | crates/skysaga-game/src/server.rs:237-266 | Any join, packet or restore accounts for every item, and leaves sessions and floor agreeing about every stack if and only if it gives no two stacks one id |
| `SharedWorld.SoundWhenNoneClashes` | crates/skysaga-game/src/server.rs:237-334 | Over any run of joins, packets and restores the sessions and the floor agree about every stack at every point if and only if no event gives two stacks one id |
| `SharedWorld.RanSound` | crates/skysaga-game/src/lib.rs:4692-4812 | Then every item is accounted for over the run: what is carried or on the floor is what was there and what was dropped, given or restored since, less what was destroyed and what a partial merge stranded; nothing is made twice |
| `SharedWorld.RestoredAgrees` | crates/skysaga-game/src/server.rs:250-265 | A restored session still agrees about a stack on the floor if and only if its own counter did not run past that id |
| `SharedWorld.RestoresTheSame` | crates/skysaga-game/src/lib.rs:1565-1600 | The restore of the runs is the restore of a rucksack, whatever details come back with it |
| `SharedWorld.GoneForGood` | crates/skysaga-game/src/lib.rs:4770-4812 | A pickup once taken is never on the floor again, whatever joins, packets and restores run after, even where ids clash |
| `SharedWorld.TakenOnce` | crates/skysaga-game/src/world.rs:1512-1523 | A competing or repeated pick-up of the same drop changes nothing |
| `SharedWorld.RefusedStays` | crates/skysaga-game/src/lib.rs:4795-4802 | A full rucksack leaves exactly the same drops on the floor |
| `SharedWorld.StrandsWhen` | crates/skysaga-game/src/lib.rs:4779-4812 | Items are lost if and only if the first stack with room has less room than the drop holds |
| `Losses.SixAreLost` | crates/skysaga-game/src/lib.rs:4692-4812 | A run of one new player with 45 squares: sixty and then ten of one item fall and are picked up, sixty-four are carried, none lies on the floor and six are gone |
| `Losses.ThirtyAreLost` | crates/skysaga-game/src/server.rs:250-265 | A run with a restore: sixty-four and twenty come back, another player drops ten under the id of the twenty, and after the pick-up sixty-four are left of ninety-four, none of them stranded or destroyed |
| `Losses.OneStackTwice` | crates/skysaga-game/src/server.rs:250-265 | The same with two full stacks: one entity ends up in two squares |
| `Losses.ClashAloneLosesNothing` | crates/skysaga-game/src/server.rs:250-265 | So a clash need not lose anything: before the pick-up of that run two stacks share an id and all ninety-four are there |
| `SharedWorld.FirstClashConserves` | crates/skysaga-game/src/lib.rs:4692-4812 | The equation holds up to and including the first event that clashes |
| `Ids.IdsConsecutive` | crates/skysaga-game/src/server.rs:575-586 | Over any run without a restore the ids handed out are consecutive from the counter |
| `Ids.IdsNeverReused` | crates/skysaga-game/src/server.rs:306-334 | So in such a run no id is handed out twice |
| `Ids.MintedAboveWorld` | crates/skysaga-game/src/server.rs:156-159 | No id handed out over any run, restores among the rest, is one the world used when the server was bound |
| `Ids.NextIsFree` | crates/skysaga-game/src/world.rs:1569-1587 | The next id is above every id in use, and only just |
| `Ids.UsedIs` | crates/skysaga-game/src/world.rs:1569-1587 | In use are the ids of props, devices and creatures, both ids of every drop, and that of the title |
| `Ids.RestoreDevices` | crates/skysaga-game/src/world.rs:1405-1439 | Known devices get consecutive ids from the next one, unknown names none |
| `Ids.KnownIs` | crates/skysaga-game/src/world.rs:1405-1439 | As many ids as there are stored devices with a defined name |
| `Ids.DevicesAreFresh` | crates/skysaga-game/src/world.rs:1400-1439 | Restored devices share no id with the world, and the next id is past them |
| `Ids.RestoreCollides` | crates/skysaga-game/src/server.rs:237-266 | The first restore of a run gives new ids if and only if it restores nothing or nobody else was handed an id since this session last was |
| `Ids.NextOneCollides` | crates/skysaga-game/src/server.rs:250-265 | Even then, the next entity any other connection makes takes the id of the first restored stack |
| `Ids.DistinctWhen` | crates/skysaga-game/src/server.rs:237-334 | Over any run of joins, packets and restores no id is handed out twice if and only if whoever hands ids out always has the counter that has gone furthest; then they are consecutive |
| `Ids.SecondJoinCollides` | crates/skysaga-game/src/server.rs:237-266 | A second player joining right after the first got a rucksack back is given the id of its first stack |
| `Ids.EventIsTurn` | crates/skysaga-game/src/server.rs:237-586 | A join, a packet or a restore hands out and leaves exactly what its turn of the counters says, in every state of the squares |
| `Ids.RestoreIsTurn` | crates/skysaga-game/src/lib.rs:1583-1600 | A restore hands out the next ids of its own session counter and no others |
| `Ids.AtTopNeverClashes` | crates/skysaga-game/src/server.rs:306-334 | An event that mints from the counter that has gone furthest gives no two stacks one id |
| `Ids.ApartConserves` | crates/skysaga-game/src/server.rs:237-334 | In any run of joins, packets and restores from an empty server that hands out no id twice, every item is accounted for |
| `Combat.WorldHealth.Perform` | crates/skysaga-game/src/lib.rs:4447-4511 | A swing is refused, changing nothing, exactly when unarmed, off target, at a corpse, at a creature with no health left or out of range; else it takes its strength or what health is left, and kills when none is |
| `Combat.WorldHealth.Hit` | crates/skysaga-game/src/lib.rs:4514-4608 | Damage is stored as the maximum less what is left, and the kill is the first mark of death |
| `Combat.WorldHealth.MarkDead` | crates/skysaga-game/src/world.rs:1493-1499 | Answers whether this is the first time |
| `Combat.WorldHealth.Spawn` | crates/skysaga-game/src/world.rs:1444-1466 | A new creature joins the world; an id already there keeps answering as it did |
| `Combat.NeverHeals` | crates/skysaga-game/src/world.rs:1473-1499 | Damage never falls and nobody comes back from the dead, in any run |
| `Combat.TakenIsDamage` | crates/skysaga-game/src/lib.rs:4514-4608 | The points all swings took sum to the damage, and the kills to one for the dead and none for the living |
| `Combat.KilledOnce` | crates/skysaga-game/src/lib.rs:4577-4604 | At most one kill, and one exactly when a creature with health has lost all of it |
| `Combat.DamageIsCapped` | crates/skysaga-game/src/lib.rs:4514-4608 | Whoever swings and in whatever order, the damage is the sum of the blows up to the maximum |
| `Belongings.Belonging.LayoutNow` | crates/skysaga-game/src/lib.rs:1446-1471 | Occupied squares, then parked stacks in free ones, sorted |
| `Belongings.Belonging.RestoreItems` | crates/skysaga-game/src/lib.rs:1574-1635 | Each stored stack becomes a new entity in its square with what was held for it; nothing when already carrying |
| `Belongings.Belonging.RestoreProgress` | crates/skysaga-game/src/lib.rs:1479-1508 | Details are held by square, and recipes taken only by a session that has none |
| `Belongings.Belonging.RestoreOne` | crates/skysaga-game/src/lib.rs:1583-1635 | One stored stack takes the next id in its square, with the wear, lesson, materials and serial held for that square; nothing when the square is taken or missing |
| `Belongings.Belonging.Restore` | crates/skysaga-game/src/server.rs:252-265 | Progress first, then the rucksack |
| `SaveRestore.LayoutIs` | crates/skysaga-game/src/lib.rs:1440-1471 | Strictly increasing squares, each rucksack stack once under its own, parked ones only in free squares from 9 on |
| `SaveRestore.ParkedFromTheFirst` | crates/skysaga-game/src/lib.rs:1446-1471 | Parked stacks take the free squares from the first on, leaving none out |
| `SaveRestore.AllParked` | crates/skysaga-game/src/lib.rs:1446-1471 | Every parked stack is written down, once and in order, whenever enough squares are free |
| `SaveRestore.SaveAndRestore` | crates/skysaga-game/src/lib.rs:1425-1635 | Saving and restoring into a session that has just joined gives back every named stack in its square, with wear, lesson, materials and mint time, and the recipes, though every entity is new; with every stack named it is the identity |
| `SaveRestore.RestoreTwice` | crates/skysaga-game/src/lib.rs:1565-1581 | A second restore changes nothing |
| `SaveRestore.ItemsListed` | crates/skysaga-game/src/lib.rs:1425-1438 | Each stack is written down once, in layout order, under its square, by its name and count |
| `SaveRestore.CarriedAre` | crates/skysaga-game/src/lib.rs:1425-1438 | What is written down of a stack is its name and count, under the square the layout gives it |
| `SaveRestore.DetailsAre` | crates/skysaga-game/src/lib.rs:1510-1560 | A detail is a stack's wear and its lesson, the one recorded for it or else the one its id picks, written down when there is either |
| `SaveRestore.RecordsAre` | crates/skysaga-game/src/lib.rs:1510-1560 | Materials and serial numbers are written down under the square of their stack, and the recipes as they are |
| `Workbenches.Workbench.QueueRecipe` | crates/skysaga-game/src/lib.rs:2875-2996 | A craft is accepted exactly when there is such a recipe and such a station, the recipe is of that station or made by hand, fewer crafts wait than there are slots, and each entry of the list is held; otherwise the first of these that fails is the reason given and nothing changes; then the craft joins the end of its queue |
| `Workbenches.Workbench.Held` | crates/skysaga-game/src/lib.rs:3513-3520 | The sum over every square |
| `Workbenches.Workbench.TakeOne` | crates/skysaga-game/src/lib.rs:3977-3989 | One item off the first matching stack, no effects when there is none |
| `Workbenches.Workbench.Take` | crates/skysaga-game/src/lib.rs:3523-3537 | One at a time, stopping when none is left |
| `Workbenches.Workbench.Announcements` | crates/skysaga-game/src/lib.rs:3018-3048 | A toast for each craft of one queue that is ready and had none |
| `Workbenches.Workbench.AnnounceAll` | crates/skysaga-game/src/lib.rs:3012-3051 | A tick goes through every queue once, in any order, all at one time: a run of announcements |
| `Workbenches.Workbench.CollectCraft` | crates/skysaga-game/src/lib.rs:3054-3134 | Refused too early; otherwise the slot goes and the output is given if a square is free |
| `Crafting.HeldIs` | crates/skysaga-game/src/lib.rs:3513-3520 | What is held of an item is the sum over the squares, each giving its own count |
| `Crafting.AcceptsWhen` | crates/skysaga-game/src/lib.rs:2883-2951 | In a run a craft is accepted exactly under the conditions of a single request, at the stations there are |
| `Crafting.RefusedChanges` | crates/skysaga-game/src/lib.rs:2883-2951 | A refusal changes nothing, and only a refusal does |
| `Crafting.AcceptedCosts` | crates/skysaga-game/src/lib.rs:2945-2973 | An accepted craft takes of each item all the list asks for, down to nothing, so it takes the list exactly if and only if that much was held |
| `Crafting.DistinctCostsExactly` | crates/skysaga-game/src/lib.rs:2945-2973 | A list that names no item twice is taken exactly |
| `Crafting.TwiceAskedOnceChecked` | crates/skysaga-game/src/lib.rs:2945-2973 | Three and three of one item: four are enough to start, and four are taken |
| `Crafting.RanSound` | crates/skysaga-game/src/lib.rs:2875-3134 | Every step of every run keeps the queues bounded and ordered, each craft in its queue or released once, each toast single and on time |
| `Crafting.EveryCraft` | crates/skysaga-game/src/lib.rs:2998-3134 | From an empty shop: each accepted craft is waiting or was released exactly once, never before its time less the grace, with at most one toast and none early |
| `Crafting.GrantedWhenFree` | crates/skysaga-game/src/lib.rs:3098-3121 | What is collected stands in the first free square of the rucksack if there is one, and is lost otherwise |
| `Crafting.RanQueueIsOpen` | crates/skysaga-game/src/lib.rs:2969-3134 | At any point of any run the queue of a station is the crafts accepted there and not yet released, oldest first, each marked exactly when its toast was sent |
| `Crafting.MadeAsAsked` | crates/skysaga-game/src/lib.rs:2875-2988 | In every run the crafts made are the accepted requests in the order they were made, each with the station, recipe and time of its own request |
| `Crafting.RanStocked` | crates/skysaga-game/src/lib.rs:3098-3121 | Recipes that make something leave no empty stack in a square, over any run |
| `Crafting.RanCosts` | crates/skysaga-game/src/lib.rs:2945-2973 | So at any point of any run an accepted craft takes of each item what its list asks, down to nothing, and exactly that when the list names no item twice |
| `Crafting.ReadyIsTold` | crates/skysaga-game/src/lib.rs:3012-3051 | After an announcement a craft is marked told exactly when it was before or its time has run out |
| `Crafting.CollectedWhen` | crates/skysaga-game/src/lib.rs:3054-3096 | A craft is handed over if and only if the slot is there and its time, less 250 milliseconds, has passed; otherwise nothing changes |
| `SharedState.AppState.Authenticate` | crates/skysaga-state/src/lib.rs:851-892 | Under a fixed policy only the right password of a listed account signs in, compared trimmed and in lower case; a blank name never does; the reason given is the stated one; a new account takes the name as typed, a session is opened and the account recorded |
| `Text.TrimIs` | crates/skysaga-state/src/lib.rs:851-859 | Trimming takes white space off both ends and nothing else |
| `SharedState.AppState.CreateCharacter` | crates/skysaga-state/src/lib.rs:956-987 | Only for a known account: under the name given or its own, with no biome and nothing chosen, and recorded |
| `SharedState.AppState.EnsureCharacter` | crates/skysaga-state/src/lib.rs:994-1000 | Keeps the one there is |
| `SharedState.AppState.DeleteCharacter` | crates/skysaga-state/src/lib.rs:1118-1137 | Records only when there was one |
| `SharedState.AppState.UpdateCharacter` | crates/skysaga-state/src/lib.rs:1177-1202 | Changes and records the character an account has |
| `SharedState.AppState.SetCharacterName` | crates/skysaga-state/src/lib.rs:1149-1151 | The held character under its new name, recorded |
| `SharedState.AppState.SetHomeBiome` | crates/skysaga-state/src/lib.rs:1158-1166 | A blank biome is refused and changes nothing; any other is held and recorded |
| `SharedState.AppState.SetAppearance` | crates/skysaga-state/src/lib.rs:1169-1175 | The held character in its new appearance, recorded |
| `SharedState.AppState.SetInventory` | crates/skysaga-state/src/lib.rs:769-783 | The trimmed, lowercased account holds the items, and they are recorded unless it held just those |
| `SharedState.AppState.SetHotbar` | crates/skysaga-state/src/lib.rs:827-841 | The same for bindings |
| `SharedState.AppState.SetMail` | crates/skysaga-state/src/lib.rs:621-635 | The same for the inbox |
| `SharedState.AppState.SetProgress` | crates/skysaga-state/src/lib.rs:800-814 | The same for progress |
| `SharedState.AppState.SetBlock` | crates/skysaga-state/src/lib.rs:741-753 | The same for a block |
| `SharedState.AppState.SetDevice` | crates/skysaga-state/src/lib.rs:682-694 | The same for a device |
| `SharedState.AppState.SetHomeTitle` | crates/skysaga-state/src/lib.rs:667-679 | The same for the title |
| `SharedState.Persistence.WriteNext` | crates/skysaga-store/src/persistence.rs:40-55 | Writing one change down, refused or not, leaves what is due unchanged |
| `SharedState.Persistence.Drain` | crates/skysaga-store/src/persistence.rs:40-91 | The drained store is the log applied in order |
| `AppStates.SilentChangesNothing` | crates/skysaga-state/src/lib.rs:575-892 | A call emits at most one change, and one that emits none changes nothing durable |
| `AppStates.MadeAgrees` | crates/skysaga-state/src/lib.rs:843-847 | Applying what a call emits leaves a load of the store giving the state if and only if the change is well formed and its account is known |
| `AppStates.ReplayGivesState` | crates/skysaga-store/src/persistence.rs:40-91 | From a loaded state, over any calls, a load of the store after the log so far gives the state at every point if and only if every change was well formed and of a known account |
| `Restarts.LoadAgrees` | crates/skysaga-server/src/main.rs:80-104 | The state built from a load agrees with the store, whatever rows the queries answered |
| `Restarts.RestartGivesState` | crates/skysaga-server/src/main.rs:80-104 | Start from a load, make any calls, write the log, start again: everybody reads what they would have read, at every point, if and only if every change was well formed and of a known account |
| `Database.RefusedWhen` | crates/skysaga-store/src/sqlite.rs:490-736 | A well-formed change is refused exactly when it has rows for an account that is not there |
| `Database.LoadIsHeld` | crates/skysaga-store/src/sqlite.rs:272-455 | Whatever rows answer the queries in key order, a load finds the same of every account |
| `Database.ListedIsHeld` | crates/skysaga-store/src/sqlite.rs:534-736 | After a list is saved its account loads just that list if and only if it was well formed; its other lists and every other account load as before |
| `Database.CharacterIsLoaded` | crates/skysaga-store/src/sqlite.rs:490-520 | A saved character loads as it was if and only if its appearance can be stored |
| `Database.EmptyMaterialsAreLost` | crates/skysaga-store/src/sqlite.rs:662-692 | A list of materials with nothing in it is accepted, and the progress loads as nothing |
| `Database.InventoryComesBackSorted` | crates/skysaga-store/src/sqlite.rs:564-587 | An inventory recorded out of order comes back in order, with the same things in the same squares |
| `AppStates.LastSaidIsRead` | crates/skysaga-state/src/lib.rs:575-892 | After any run each account reads the last inventory, hotbar, mail and progress recorded for it, whatever else was called |
| `AppStates.AccountsKept` | crates/skysaga-state/src/lib.rs:851-1202 | No call forgets an account or changes the name it is shown by |
| `AppStates.EnsuredHas` | crates/skysaga-state/src/lib.rs:994-1003 | Ensuring a character for a known account leaves it with one |
| `Tables.Load` | crates/skysaga-store/src/sqlite.rs:321-341 | The one-pass loop that joins a row to the last group |
| `Tables.Save` | crates/skysaga-store/src/sqlite.rs:534-585 | Delete, then insert row by row, all or nothing |
| `Tables.GroupedIs` | crates/skysaga-store/src/sqlite.rs:337-340 | On rows in order the pass puts each account in one group, rows in order |
| `Tables.SavedIs` | crates/skysaga-store/src/sqlite.rs:534-585 | Exactly the entries are stored, others untouched; refused for a repeated key or an unknown account |
| `Tables.LoadAfterSave` | crates/skysaga-store/src/sqlite.rs:321-363 | Loading gives back what was saved if and only if it was in key order; other accounts find what they did |
| `StoredRows.LoadProgress` | crates/skysaga-store/src/sqlite.rs:382-455 | Rows of four tables go to their account, found or made |
| `StoredRows.RegroupUndoesFlatten` | crates/skysaga-store/src/sqlite.rs:412-428 | Regrouping positions undoes flattening exactly when no list is empty and neighbours differ |
| `StoredRows.ProgressRoundTrip` | crates/skysaga-store/src/sqlite.rs:382-455 | Progress loads as saved if and only if its lists are in square order and no materials list is empty |
| `StoredRows.ProgressRefused` | crates/skysaga-store/src/sqlite.rs:662-736 | Restorable progress is refused only for an unknown account with something to store |
| `StoredRows.LoadMail` | crates/skysaga-store/src/sqlite.rs:272-318 | Every inbox in one pass: messages in their order, then each attachment row to the message it names |
| `StoredRows.MailRoundTrip` | crates/skysaga-store/src/sqlite.rs:272-318 | An inbox loads as saved if and only if every message had its attachments in slot order |
| `Overlay.WorldBlocks.SetBlock` | crates/skysaga-game/src/world.rs:1303-1313 | The voxel holds the material and the edit is queued |
| `Overlay.WorldBlocks.RestoreBlockEdits` | crates/skysaga-game/src/world.rs:1337-1343 | Edits are put back without being queued |
| `Overlay.WorldBlocks.RecordBlocks` | crates/skysaga-game/src/server.rs:359-367 | One tick writes the queue to the shared state in order and empties it |
| `Overlay.LastWriteWins` | crates/skysaga-game/src/world.rs:1291-1313 | A voxel answers with the last thing put there, or what it was before |
| `Overlay.RebuiltTheSame` | crates/skysaga-server/src/main.rs:176-186 | However edits were batched, once drained a world rebuilt from the record has the same block at every voxel |
| `Overlay.RebuiltAfterTick` | crates/skysaga-game/src/server.rs:359-367 | A world rebuilt from the record, changed in any way and ticked once more is rebuilt again with every block as it was left |
| `Terrains.FractalNoise` | crates/skysaga-world/src/terrain.rs:163-177 | The octave loop is the specified sum, normalised |
| `Terrains.FractalIs` | crates/skysaga-world/src/terrain.rs:163-177 | The noise is the weighted mean, by 8, 4, 2 and 1, of four octaves, each twice as fine |
| `Terrains.ValueWithin` | crates/skysaga-world/src/terrain.rs:179-201 | Within a cell it runs between the four corners, by three squares less two cubes along each side |
| `Terrains.MixedWords` | crates/skysaga-world/src/terrain.rs:203-213 | The mixed word of four triples |
| `Terrains.FoldedWords` | crates/skysaga-world/src/terrain.rs:203-213 | Folding keeps the sign |
| `Terrains.HashIs` | crates/skysaga-world/src/terrain.rs:203-213 | The low 31 bits, out of the most they can be |
| `Terrains.Fractal` | crates/skysaga-world/src/terrain.rs:163-213 | Noise never leaves the unit interval |
| `Terrains.ColumnAt` | crates/skysaga-world/src/terrain.rs:109-121 | Surface from 14 to 21, the underside never above it nor below the bottom |
| `Terrains.ColumnIs` | crates/skysaga-world/src/terrain.rs:109-121 | The surface is 14 and the whole part of seven times the noise; the ground under it 5, nine times another noise, and half the rise |
| `Terrains.AirAt` | crates/skysaga-world/src/terrain.rs:94-107 | A column is named by its depth and then by its width |
| `Terrains.Material` | crates/skysaga-world/src/terrain.rs:123-137 | Air is 255, the top four layers 24, those down to three over the underside 0, and below that 42, 33, 25, 26 or 2 by the roll |
| `Terrains.IndexInjective` | crates/skysaga-world/src/terrain.rs:8-16 | No two voxels of a chunk share a byte |
| `Terrains.ChunkBytes` | crates/skysaga-world/src/terrain.rs:56-84 | A chunk is sent exactly when it is in the bottom layer: 32769 bytes, a clear one and then the voxel at (x, y, z) in byte 1 + 1024 y + 32 z + x, with what the generator puts there |
| `Terrains.SolidWhen` | crates/skysaga-world/src/terrain.rs:56-84 | A chunk is solid somewhere exactly when it is in the bottom layer |
| `Terrains.TerrainChunks` | crates/skysaga-game/src/world.rs:1226-1247 | One chunk for each column of the island, size squared in all |
| `Terrains.SentIsGenerated` | crates/skysaga-game/src/world.rs:1590-1613 | Reading any voxel back from what was sent, at any height, gives the generator on the island and air off it |
| `Terrains.SpawnIsAboveGround` | crates/skysaga-world/src/terrain.rs:87-92 | The spawn point is in air, three voxels over solid ground |
| `Salvage.DrawComponents` | crates/skysaga-game/src/salvage.rs:61-104 | The draw loop computes the specified draw |
| `Salvage.DrawnByIs` | crates/skysaga-game/src/salvage.rs:61-104 | Of each ingredient what is drawn and what is left make what there was |
| `Salvage.DrawIs` | crates/skysaga-game/src/salvage.rs:61-104 | Distinct indices, each from one to what there is, as many in all as asked or everything |
| `Salvage.FirstIsFirst` | crates/skysaga-game/src/salvage.rs:56-60 | A forced, available first draw comes first |
| `Salvage.OneMoreDrawn` | crates/skysaga-game/src/salvage.rs:61-104 | The picks for a count lead the picks for one more |
| `Salvage.RepairInOrder` | crates/skysaga-game/src/salvage.rs:33-54 | With any monotone rounding that fixes 0 and 1, a more worn item never asks fewer components |
| `Salvage.DismantleInOrder` | crates/skysaga-game/src/salvage.rs:40-54 | Nor returns more, and always at least one when there is one |
| `Salvage.NewCostsNothing` | crates/skysaga-game/src/salvage.rs:33-54 | A new item costs nothing to repair |
| `Salvage.WornCostsMore` | crates/skysaga-game/src/salvage.rs:33-104 | A more worn item never costs less of any one component |
| `Salvage.ForcedOnce` | crates/skysaga-game/src/salvage.rs:148-154 | With seed 0, of six and three and the second forced first, that one and then the first |
| `Salvage.RepairCountIs` | crates/skysaga-game/src/salvage.rs:33-39 | In exact arithmetic a repair asks the worn share of one more than the total, cut short, and never more than the total |
| `Salvage.DismantleCountIs` | crates/skysaga-game/src/salvage.rs:40-54 | A dismantle returns half of what is left of one more than the total, cut short, at least one and never more than the total |
| `Salvage.ExactAsksTwo` | crates/skysaga-game/src/salvage.rs:1-32 | Two components of a pickaxe at 1200 of 1500, where the panel was seen to ask one |
| `Salvage.PanelDraws` | crates/skysaga-game/src/salvage.rs:106-160 | With seed 0, of six and three, just what the panel was seen to draw for one, five and eight |
| `Loots.Seeded.RollBelow` | crates/skysaga-world/src/loot.rs:53-59 | The next state and a number below the bound |
| `Loots.FirstTurns` | crates/skysaga-world/src/loot.rs:45-60 | The first two words of the generator from a state of one, and what is rolled from each |
| `Loots.NeverZeroAgain` | crates/skysaga-world/src/loot.rs:45-60 | The generator never reaches zero, after any number of turns |
| `Loots.RollTable` | crates/skysaga-world/src/loot.rs:211-248 | From the generator itself: the loop computes the specified roll, one drop from its own list for every entry that survives with something to pick, in entry order |
| `Loots.RollEntry` | crates/skysaga-world/src/loot.rs:217-244 | One entry: chance, list, weighted pick |
| `Loots.PickedIs` | crates/skysaga-world/src/loot.rs:236-244 | A roll picks a candidate exactly when it falls in its share |
| `Loots.WeightsAreExact` | crates/skysaga-world/src/loot.rs:229-244 | Over all rolls each candidate is picked by exactly its frequency of them |
| `Loots.TableYields` | crates/skysaga-world/src/loot.rs:211-248 | Each surviving entry with something to pick from drops exactly one thing, in entry order |
| `Loots.RollsOfEntry` | crates/skysaga-world/src/loot.rs:217-236 | An entry rolls once for its chance unless certain, and once more for its pick if it gets that far |
| `Loots.ChanceIsPercent` | crates/skysaga-world/src/loot.rs:217-224 | Of the hundred rolls there are an entry survives as many as its chance says, and all of them from 100 on |
| `Loots.CertainStillPicks` | crates/skysaga-world/src/loot.rs:15-16 | A certain entry takes no randomness if and only if there is nothing to pick |

## Left out

- Sockets, RakNet, HTTP, tasks, locks, logging, JSON parsing, environment variables and SQL execution: input and output, or foreign code.
- Deflate and inflate themselves: an assumed pair.
- 32-bit overflow of entity ids, counts and timestamps, and of the bit length of strings past 2^29 bytes.
- `InventorySlotData` and most packet layouts: written with the same primitives, and nothing decodes them here.
- What each component writes for a parameter: a fixed piece or nothing.
- Combat.WorldHealth.Perform: distance, yaw, reach and weapon wear are left out, so a swing is in range or it is not.
- IEEE single precision: which of two neighbouring component counts is asked is not decided.
- What a creature's loot table is called, and where drops land.
- Disconnecting: a session's inventory stays in the model after its player has gone; that a rucksack is given back once a session, and only while playing, is not asked of a run.
- Restoring mail, whose attachments are announced twice, and the hotbar: single-branch code over the same `give`.
- Portals, titles of islands beyond their record, photos beyond their record, quests, mail reading, chat, name checks, reservations, item catalogues.
- The photos, blocks, devices and settings tables, and a character's uuid: one row to one value, kept as they are.
- SharedState.AppState.Import: takes the whole loaded state at once, where the source loads it in seven calls.
- DataPcBuilder.ParseBuilt: asks that every number the format keeps in four bytes fits there, and that names are UTF-8 without NUL.
