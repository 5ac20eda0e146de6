/** The island generator, its chunks, and reading a block back out of what was sent. */
module Terrains {
  import opened Wrappers
  import opened Bits

  const AIR: byte := 255
  const DIRT: byte := 0
  const STONE: byte := 2
  const SAND: byte := 24
  const COPPER_DEPOSIT: byte := 25
  const IRON_DEPOSIT: byte := 26
  const LEAD_DEPOSIT: byte := 33
  const GOLD_DEPOSIT: byte := 42

  const CHUNK_SIZE: nat := 32
  const VOXELS_PER_CHUNK: nat := 32768

  datatype Generator = Generator(seed: int, size: nat)

  // --- value noise over an integer hash ---

  /** A 32-bit two's complement integer as its word. */
  function Word(i: int): bv32 { (i % 0x1_0000_0000) as bv32 }

  /** `>>` on a signed integer: the sign bit is kept. */
  function Shifted(h: bv32, n: bv6): bv32
    requires n < 32
  {
    if h < 0x8000_0000 then h >> n else !((!h) >> n)
  }

  function Mixed(x: bv32, y: bv32, seed: bv32): bv32 {
    var h := x * 374761393 + y * 668265263 + seed * 1274126177;
    var g := (h ^ Shifted(h, 13)) * 1274126177;
    g ^ Shifted(g, 16)
  }

  /** The low 31 bits of the mixed word, as a fraction of the largest they can be. */
  function HashWord(x: bv32, y: bv32, seed: bv32): real {
    (Mixed(x, y, seed) as int % 0x8000_0000) as real / 2147483647.0
  }

  function Hash(x: int, y: int, seed: int): (r: real)
    ensures 0.0 <= r <= 1.0
  {
    HashInRange(Word(x), Word(y), Word(seed));
    HashWord(Word(x), Word(y), Word(seed))
  }

  lemma HashInRange(x: bv32, y: bv32, seed: bv32)
    ensures 0.0 <= HashWord(x, y, seed) <= 1.0
  {
    hide Mixed;
    Fraction(Mixed(x, y, seed) as int % 0x8000_0000);
  }

  lemma Fraction(n: int)
    requires 0 <= n < 0x8000_0000
    ensures 0.0 <= n as real / 2147483647.0 <= 1.0
  {
  }

  function Smooth(t: real): (r: real)
    requires 0.0 <= t <= 1.0
    ensures 0.0 <= r <= 1.0
  {
    SmoothInRange(t);
    t * t * (3.0 - 2.0 * t)
  }

  lemma ProductNonnegative(a: real, b: real)
    requires 0.0 <= a && 0.0 <= b
    ensures 0.0 <= a * b
  {
  }

  lemma SmoothInRange(t: real)
    requires 0.0 <= t <= 1.0
    ensures 0.0 <= t * t * (3.0 - 2.0 * t) <= 1.0
  {
    ProductNonnegative(t, t);
    ProductNonnegative(t * t, 3.0 - 2.0 * t);
    ProductNonnegative(1.0 - t, 1.0 - t);
    ProductNonnegative((1.0 - t) * (1.0 - t), 1.0 + 2.0 * t);
    assert (1.0 - t) * (1.0 - t) == 1.0 - 2.0 * t + t * t;
    assert (1.0 - 2.0 * t + t * t) * (1.0 + 2.0 * t) == 1.0 - t * t * (3.0 - 2.0 * t);
  }

  /** Between `a` and `b`, wherever they lie in the unit interval. */
  function Lerp(a: real, b: real, t: real): (r: real)
    requires 0.0 <= t <= 1.0 && 0.0 <= a <= 1.0 && 0.0 <= b <= 1.0
    ensures 0.0 <= r <= 1.0
  {
    LerpInRange(a, b, t);
    a + (b - a) * t
  }

  lemma LerpInRange(a: real, b: real, t: real)
    requires 0.0 <= t <= 1.0 && 0.0 <= a <= 1.0 && 0.0 <= b <= 1.0
    ensures 0.0 <= a + (b - a) * t <= 1.0
  {
    ProductNonnegative(a, 1.0 - t);
    ProductNonnegative(b, t);
    ProductNonnegative(1.0 - a, 1.0 - t);
    ProductNonnegative(1.0 - b, t);
    assert a + (b - a) * t == a * (1.0 - t) + b * t;
    assert 1.0 - (a + (b - a) * t) == (1.0 - a) * (1.0 - t) + (1.0 - b) * t;
  }

  function Value(x: real, y: real, seed: int): (r: real)
    ensures 0.0 <= r <= 1.0
  {
    var (x0, y0) := (x.Floor, y.Floor);
    var (fx, fy) := (Smooth(x - x0 as real), Smooth(y - y0 as real));
    var top := Lerp(Hash(x0, y0, seed), Hash(x0 + 1, y0, seed), fx);
    var bottom := Lerp(Hash(x0, y0 + 1, seed), Hash(x0 + 1, y0 + 1, seed), fx);
    Lerp(top, bottom, fy)
  }

  /** Halved and doubled once an octave. */
  function Amplitude(octave: nat): (r: real)
    ensures r > 0.0
  {
    if octave == 0 then 1.0 else Amplitude(octave - 1) * 0.5
  }

  function Frequency(octave: nat): real { if octave == 0 then 1.0 else Frequency(octave - 1) * 2.0 }

  function Weight(octaves: nat): (r: real)
    ensures octaves > 0 ==> r > 0.0
  {
    if octaves == 0 then 0.0 else Weight(octaves - 1) + Amplitude(octaves - 1)
  }

  /** What one octave adds: its noise, at most its amplitude. */
  function Octave(x: real, y: real, seed: int, frequency: real, amplitude: real): (r: real)
    requires amplitude > 0.0
    ensures 0.0 <= r <= amplitude
  {
    hide Value;
    var v := Value(x * frequency, y * frequency, seed);
    Scaled(v, amplitude);
    v * amplitude
  }

  function Octaves(x: real, y: real, seed: int, n: nat): (r: real)
    ensures 0.0 <= r <= Weight(n)
  {
    if n == 0 then 0.0 else Octaves(x, y, seed, n - 1) + Octave(x, y, seed + (n - 1), Frequency(n - 1), Amplitude(n - 1))
  }

  lemma Scaled(v: real, a: real)
    requires 0.0 <= v <= 1.0 && a > 0.0
    ensures 0.0 <= v * a <= a
  {
  }

  /** Four octaves of noise, normalised: never outside the unit interval. */
  function Fractal(x: real, y: real, seed: int): (r: real)
    ensures 0.0 <= r <= 1.0
  {
    Ratio(Octaves(x, y, seed, 4), Weight(4));
    Octaves(x, y, seed, 4) / Weight(4)
  }

  lemma Ratio(a: real, b: real)
    requires 0.0 <= a <= b && b > 0.0
    ensures 0.0 <= a / b <= 1.0
  {
    assert a / b * b == a;
  }

  method FractalNoise(x: real, y: real, seed: int) returns (noise: real)
    ensures noise == Fractal(x, y, seed)
  {
    hide Octave;
    var total, amplitude, frequency, normal := 0.0, 1.0, 1.0, 0.0;
    for octave := 0 to 4
      invariant total == Octaves(x, y, seed, octave) && normal == Weight(octave)
      invariant amplitude == Amplitude(octave) && frequency == Frequency(octave)
    {
      total := total + Octave(x, y, seed + octave, frequency, amplitude);
      normal := normal + amplitude;
      amplitude := amplitude * 0.5;
      frequency := frequency * 2.0;
    }
    noise := total / normal;
  }

  // --- columns and materials ---

  datatype Column = Column(surface: int, floor: int)

  /** The surface is from 14 to 21, and the underside never above it nor below the bottom. */
  function ColumnAt(g: Generator, h1: int, h2: int): (c: Column)
    ensures 14 <= c.surface <= 21 && 0 <= c.floor <= c.surface
  {
    hide Fractal;
    var high := Fractal(h1 as real * 0.045, h2 as real * 0.045, g.seed);
    var thick := Fractal(h1 as real * 0.03 + 100.0, h2 as real * 0.03 + 100.0, g.seed + 7);
    var surface := 14 + (high * 7.0).Floor;
    var thickness := 5 + (thick * 9.0).Floor + (surface - 14) / 2;
    Column(surface, if surface - thickness > 0 then surface - thickness else 0)
  }

  function Ore(g: Generator, x: int, y: int, z: int): (r: Option<byte>)
    ensures r.Some? ==> r.value != AIR
  {
    var roll := HashWord(Word(x * 31 + y * 17), Word(z * 13 + y * 7), Word(g.seed + 99));
    if roll > 0.05 then None
    else if roll < 0.006 then Some(GOLD_DEPOSIT)
    else if roll < 0.016 then Some(LEAD_DEPOSIT)
    else if roll < 0.030 then Some(COPPER_DEPOSIT)
    else Some(IRON_DEPOSIT)
  }

  /** Solid from the underside to the surface, and nowhere else. */
  function Material(g: Generator, x: int, y: int, z: int, c: Column): (m: byte)
    ensures m == AIR <==> y > c.surface || y < c.floor
    ensures y > c.surface || y < c.floor ==> m == 255
    ensures c.floor <= y <= c.surface && y > c.surface - 4 ==> m == 24
    ensures c.floor + 3 <= y <= c.surface - 4 ==> m == 0
    ensures c.floor <= y <= c.surface - 4 && y < c.floor + 3 ==>
      var roll := HashWord(Word(31 * x + 17 * y), Word(13 * z + 7 * y), Word(g.seed + 99));
      m == if roll < 0.006 then 42 else if roll < 0.016 then 33 else if roll < 0.03 then 25 else if roll <= 0.05 then 26 else 2
  {
    hide HashWord;
    if y > c.surface || y < c.floor then AIR
    else if y > c.surface - 4 then SAND
    else if y >= c.floor + 3 then DIRT
    else
      var ore := Ore(g, x, y, z);
      if ore.Some? then ore.value else STONE
  }

  function MaterialAt(g: Generator, x: int, y: int, z: int): byte {
    Material(g, x, y, z, ColumnAt(g, z, x))
  }

  /** A column is named by its depth and then by its width. */
  lemma AirAt(g: Generator, x: int, y: int, z: int)
    ensures MaterialAt(g, x, y, z) == 255 <==> !(ColumnAt(g, z, x).floor <= y <= ColumnAt(g, z, x).surface)
  {
    hide ColumnAt, Ore;
  }

  // --- chunks ---

  /** Where a voxel of a chunk lies in its bytes, after the mode byte: y slowest, then z, then x. */
  function Index(x: nat, y: nat, z: nat): (i: nat)
    requires x < CHUNK_SIZE && y < CHUNK_SIZE && z < CHUNK_SIZE
    ensures 1 <= i <= VOXELS_PER_CHUNK
  {
    1 + y * CHUNK_SIZE * CHUNK_SIZE + z * CHUNK_SIZE + x
  }

  /** No two voxels share a byte. */
  lemma IndexInjective(x: nat, y: nat, z: nat, a: nat, b: nat, c: nat)
    requires x < CHUNK_SIZE && y < CHUNK_SIZE && z < CHUNK_SIZE && a < CHUNK_SIZE && b < CHUNK_SIZE && c < CHUNK_SIZE
    ensures Index(x, y, z) == Index(a, b, c) <==> (x, y, z) == (a, b, c)
  {
    assert (Index(x, y, z) - 1) % 32 == x && (Index(a, b, c) - 1) % 32 == a;
  }

  /** What the generator puts at a voxel of a chunk. */
  function Generated(g: Generator, cx: nat, cy: nat, cz: nat, x: nat, y: nat, z: nat): byte {
    MaterialAt(g, cx * CHUNK_SIZE + x, cy * CHUNK_SIZE + y, cz * CHUNK_SIZE + z)
  }

  /** The voxels written so far, when `(h1, h2, y)` is next; the rest are air. */
  predicate Reached(x: nat, y: nat, z: nat, h1: nat, h2: nat, level: nat) {
    z < h1 || (z == h1 && (x < h2 || (x == h2 && y < level)))
  }

  ghost predicate Filled(bytes: seq<byte>, g: Generator, cx: nat, cy: nat, cz: nat, h1: nat, h2: nat, level: nat) {
    |bytes| == VOXELS_PER_CHUNK + 1 && bytes[0] == 0 &&
    forall x: nat, y: nat, z: nat | x < CHUNK_SIZE && y < CHUNK_SIZE && z < CHUNK_SIZE ::
      bytes[Index(x, y, z)] == if Reached(x, y, z, h1, h2, level) then Generated(g, cx, cy, cz, x, y, z) else AIR
  }

  ghost predicate SomeSolid(g: Generator, cx: nat, cy: nat, cz: nat, h1: nat, h2: nat, level: nat) {
    exists x: nat, y: nat, z: nat ::
      x < CHUNK_SIZE && y < CHUNK_SIZE && z < CHUNK_SIZE && Reached(x, y, z, h1, h2, level)
      && Generated(g, cx, cy, cz, x, y, z) != AIR
  }

  /** One more voxel: written when it is solid, and left as it was when it is air. */
  lemma FilledNext(bytes: seq<byte>, g: Generator, cx: nat, cy: nat, cz: nat, h1: nat, h2: nat, y: nat, after: seq<byte>)
    requires h1 < CHUNK_SIZE && h2 < CHUNK_SIZE && y < CHUNK_SIZE && Filled(bytes, g, cx, cy, cz, h1, h2, y)
    requires var m := Generated(g, cx, cy, cz, h2, y, h1);
      after == if m == AIR then bytes else bytes[Index(h2, y, h1) := m]
    ensures Filled(after, g, cx, cy, cz, h1, h2, y + 1)
    ensures SomeSolid(g, cx, cy, cz, h1, h2, y + 1)
       <==> SomeSolid(g, cx, cy, cz, h1, h2, y) || Generated(g, cx, cy, cz, h2, y, h1) != AIR
  {
    hide Generated, Index;
    assert after[0] == 0;
    forall a: nat, b: nat, c: nat | a < CHUNK_SIZE && b < CHUNK_SIZE && c < CHUNK_SIZE
      ensures after[Index(a, b, c)]
           == if Reached(a, b, c, h1, h2, y + 1) then Generated(g, cx, cy, cz, a, b, c) else AIR
    {
      IndexInjective(a, b, c, h2, y, h1);
      assert Reached(a, b, c, h1, h2, y + 1) <==> Reached(a, b, c, h1, h2, y) || (a, b, c) == (h2, y, h1);
    }
    SolidNext(g, cx, cy, cz, h1, h2, y);
  }

  lemma SolidNext(g: Generator, cx: nat, cy: nat, cz: nat, h1: nat, h2: nat, y: nat)
    requires h1 < CHUNK_SIZE && h2 < CHUNK_SIZE && y < CHUNK_SIZE
    ensures SomeSolid(g, cx, cy, cz, h1, h2, y + 1)
       <==> SomeSolid(g, cx, cy, cz, h1, h2, y) || Generated(g, cx, cy, cz, h2, y, h1) != AIR
  {
    hide Generated;
    if SomeSolid(g, cx, cy, cz, h1, h2, y + 1) {
      var a: nat, b: nat, c: nat :| a < CHUNK_SIZE && b < CHUNK_SIZE && c < CHUNK_SIZE
        && Reached(a, b, c, h1, h2, y + 1) && Generated(g, cx, cy, cz, a, b, c) != AIR;
      assert Reached(a, b, c, h1, h2, y) || (a, b, c) == (h2, y, h1);
    }
    if SomeSolid(g, cx, cy, cz, h1, h2, y) {
      var a: nat, b: nat, c: nat :| a < CHUNK_SIZE && b < CHUNK_SIZE && c < CHUNK_SIZE
        && Reached(a, b, c, h1, h2, y) && Generated(g, cx, cy, cz, a, b, c) != AIR;
      assert Reached(a, b, c, h1, h2, y + 1);
    }
    if Generated(g, cx, cy, cz, h2, y, h1) != AIR {
      assert Reached(h2, y, h1, h1, h2, y + 1);
    }
  }

  /** A finished column is where the next begins, and a finished slab where the next one does. */
  lemma ColumnDone(g: Generator, cx: nat, cy: nat, cz: nat, h1: nat, h2: nat)
    requires h1 < CHUNK_SIZE && h2 < CHUNK_SIZE
    ensures forall bytes :: Filled(bytes, g, cx, cy, cz, h1, h2, CHUNK_SIZE) <==> Filled(bytes, g, cx, cy, cz, h1, h2 + 1, 0)
    ensures SomeSolid(g, cx, cy, cz, h1, h2, CHUNK_SIZE) <==> SomeSolid(g, cx, cy, cz, h1, h2 + 1, 0)
    ensures forall bytes :: Filled(bytes, g, cx, cy, cz, h1, CHUNK_SIZE, 0) <==> Filled(bytes, g, cx, cy, cz, h1 + 1, 0, 0)
    ensures SomeSolid(g, cx, cy, cz, h1, CHUNK_SIZE, 0) <==> SomeSolid(g, cx, cy, cz, h1 + 1, 0, 0)
  {
    hide Generated, Index;
    assert forall x: nat, y: nat, z: nat | x < CHUNK_SIZE && y < CHUNK_SIZE && z < CHUNK_SIZE ::
      Reached(x, y, z, h1, h2, CHUNK_SIZE) == Reached(x, y, z, h1, h2 + 1, 0);
    assert forall x: nat, y: nat, z: nat | x < CHUNK_SIZE && y < CHUNK_SIZE && z < CHUNK_SIZE ::
      Reached(x, y, z, h1, CHUNK_SIZE, 0) == Reached(x, y, z, h1 + 1, 0, 0);
  }

  /** Write one column of voxels, and say whether anything solid has been written so far. */
  method FillColumn(voxels: array<byte>, g: Generator, cx: nat, cy: nat, cz: nat, h1: nat, h2: nat, before: bool)
    returns (solid: bool)
    requires h1 < CHUNK_SIZE && h2 < CHUNK_SIZE
    requires Filled(voxels[..], g, cx, cy, cz, h1, h2, 0) && before == SomeSolid(g, cx, cy, cz, h1, h2, 0)
    modifies voxels
    ensures Filled(voxels[..], g, cx, cy, cz, h1, h2 + 1, 0) && solid == SomeSolid(g, cx, cy, cz, h1, h2 + 1, 0)
  {
    hide Generated, Filled, SomeSolid, Index, MaterialAt;
    solid := before;
    FilledLength(voxels[..], g, cx, cy, cz, h1, h2, 0);
    for y := 0 to CHUNK_SIZE
      invariant Filled(voxels[..], g, cx, cy, cz, h1, h2, y) && solid == SomeSolid(g, cx, cy, cz, h1, h2, y)
    {
      ghost var was := voxels[..];
      var material := MaterialAt(g, cx * CHUNK_SIZE + h2, cy * CHUNK_SIZE + y, cz * CHUNK_SIZE + h1);
      GeneratedIs(g, cx, cy, cz, h2, y, h1);
      if material != AIR {
        voxels[Index(h2, y, h1)] := material;
        solid := true;
        assert voxels[..] == was[Index(h2, y, h1) := material];
      }
      FilledNext(was, g, cx, cy, cz, h1, h2, y, voxels[..]);
    }
    ColumnDone(g, cx, cy, cz, h1, h2);
  }

  lemma FilledLength(bytes: seq<byte>, g: Generator, cx: nat, cy: nat, cz: nat, h1: nat, h2: nat, y: nat)
    requires Filled(bytes, g, cx, cy, cz, h1, h2, y)
    ensures |bytes| == VOXELS_PER_CHUNK + 1
  {
  }

  /** One chunk, or nothing when it is entirely air. */
  method ChunkBytes(g: Generator, cx: nat, cy: nat, cz: nat) returns (chunk: Option<seq<byte>>)
    ensures chunk.Some? <==> SomeSolid(g, cx, cy, cz, CHUNK_SIZE, 0, 0)
    ensures chunk.Some? ==> Filled(chunk.value, g, cx, cy, cz, CHUNK_SIZE, 0, 0)
    ensures chunk.Some? <==> cy == 0
    ensures chunk.Some? ==> |chunk.value| == 32769 && LaidOut(chunk.value, g, cx, cy, cz)
  {
    hide Generated, Filled, SomeSolid, Index, LaidOut;
    var voxels := new byte[VOXELS_PER_CHUNK + 1](_ => AIR);
    voxels[0] := 0;
    var solid := false;
    Blank(voxels[..], g, cx, cy, cz);
    for h1 := 0 to CHUNK_SIZE
      invariant Filled(voxels[..], g, cx, cy, cz, h1, 0, 0) && solid == SomeSolid(g, cx, cy, cz, h1, 0, 0)
    {
      for h2 := 0 to CHUNK_SIZE
        invariant Filled(voxels[..], g, cx, cy, cz, h1, h2, 0) && solid == SomeSolid(g, cx, cy, cz, h1, h2, 0)
      {
        solid := FillColumn(voxels, g, cx, cy, cz, h1, h2, solid);
      }
      ColumnDone(g, cx, cy, cz, h1, 0);
    }
    chunk := if solid then Some(voxels[..]) else None;
    SolidWhen(g, cx, cy, cz);
    FilledLaidOut(voxels[..], g, cx, cy, cz);
  }

  /** A clear byte, and then the voxel of the chunk at `(x, y, z)` in byte `1 + 1024 * y + 32 * z + x`. */
  ghost predicate LaidOut(bytes: seq<byte>, g: Generator, cx: nat, cy: nat, cz: nat) {
    |bytes| == 32769 && bytes[0] == 0
    && forall i | 0 <= i < 32768 ::
      var (x, y, z) := (i % 32, i / 1024, i / 32 % 32);
      bytes[1 + i] == MaterialAt(g, 32 * cx + x, 32 * cy + y, 32 * cz + z)
  }

  lemma FilledLaidOut(bytes: seq<byte>, g: Generator, cx: nat, cy: nat, cz: nat)
    requires Filled(bytes, g, cx, cy, cz, CHUNK_SIZE, 0, 0)
    ensures LaidOut(bytes, g, cx, cy, cz)
  {
    hide MaterialAt, Generated, Index;
    forall i | 0 <= i < 32768
      ensures var (x, y, z) := (i % 32, i / 1024, i / 32 % 32);
        bytes[1 + i] == MaterialAt(g, 32 * cx + x, 32 * cy + y, 32 * cz + z)
    {
      var x, y, z := VoxelOf(i);
      assert Reached(x, y, z, CHUNK_SIZE, 0, 0);
      GeneratedIs(g, cx, cy, cz, x, y, z);
    }
  }

  lemma VoxelOf(i: nat) returns (x: nat, y: nat, z: nat)
    requires i < 32768
    ensures x == i % 32 && y == i / 1024 && z == i / 32 % 32
    ensures x < 32 && y < 32 && z < 32 && Index(x, y, z) == 1 + i
  {
    x, y, z := i % 32, i / 1024, i / 32 % 32;
    assert i == 1024 * y + 32 * z + x;
  }

  lemma GeneratedIs(g: Generator, cx: nat, cy: nat, cz: nat, x: nat, y: nat, z: nat)
    ensures Generated(g, cx, cy, cz, x, y, z) == MaterialAt(g, cx * CHUNK_SIZE + x, cy * CHUNK_SIZE + y, cz * CHUNK_SIZE + z)
  {
    hide MaterialAt;
  }

  lemma Blank(bytes: seq<byte>, g: Generator, cx: nat, cy: nat, cz: nat)
    requires |bytes| == VOXELS_PER_CHUNK + 1 && bytes[0] == 0 && forall i | 1 <= i < |bytes| :: bytes[i] == AIR
    ensures Filled(bytes, g, cx, cy, cz, 0, 0, 0) && !SomeSolid(g, cx, cy, cz, 0, 0, 0)
  {
    hide Generated, Index;
  }

  // --- the island as it is sent ---

  datatype ChunkSync = ChunkSync(coords: (nat, nat, nat), data: seq<byte>)

  /** The block at a voxel of what was sent; air where nothing was. */
  function ReadBack(chunks: seq<ChunkSync>, coords: (nat, nat, nat), x: nat, y: nat, z: nat): byte {
    if chunks == [] then AIR
    else if chunks[0].coords == coords then
      if x >= CHUNK_SIZE || y >= CHUNK_SIZE || z >= CHUNK_SIZE || Index(x, y, z) >= |chunks[0].data| then AIR
      else chunks[0].data[Index(x, y, z)]
    else ReadBack(chunks[1..], coords, x, y, z)
  }

  /** A chunk is solid somewhere exactly when it is in the bottom layer. */
  lemma SolidWhen(g: Generator, cx: nat, cy: nat, cz: nat)
    ensures SomeSolid(g, cx, cy, cz, CHUNK_SIZE, 0, 0) <==> cy == 0
  {
    hide Material, ColumnAt;
    if cy == 0 {
      var c := ColumnAt(g, cz * CHUNK_SIZE, cx * CHUNK_SIZE);
      assert Generated(g, cx, 0, cz, 0, c.surface, 0) != AIR;
      assert Reached(0, c.surface, 0, CHUNK_SIZE, 0, 0);
    }
  }

  /** Every chunk sent is a bottom one of the island, with what the generator puts there. */
  ghost predicate ChunksMatch(chunks: seq<ChunkSync>, g: Generator) {
    forall c | c in chunks ::
      c.coords.0 < g.size && c.coords.1 == 0 && c.coords.2 < g.size
      && Filled(c.data, g, c.coords.0, 0, c.coords.2, CHUNK_SIZE, 0, 0)
  }

  /** Every column before `(x, z)` has been sent. */
  ghost predicate Complete(chunks: seq<ChunkSync>, g: Generator, x: nat, z: nat) {
    forall a: nat, b: nat | b < g.size && (a < x || (a == x && b < z)) :: HasChunk(chunks, (a, 0, b))
  }

  ghost predicate HasChunk(chunks: seq<ChunkSync>, coords: (nat, nat, nat)) {
    exists c :: c in chunks && c.coords == coords
  }

  lemma OneMore(chunks: seq<ChunkSync>, g: Generator, x: nat, z: nat, data: seq<byte>)
    requires ChunksMatch(chunks, g) && Complete(chunks, g, x, z) && x < g.size && z < g.size
    requires Filled(data, g, x, 0, z, CHUNK_SIZE, 0, 0)
    ensures var after := chunks + [ChunkSync((x, 0, z), data)];
      ChunksMatch(after, g) && Complete(after, g, x, z + 1)
  {
    hide Filled;
    var after := chunks + [ChunkSync((x, 0, z), data)];
    assert ChunkSync((x, 0, z), data) in after;
    forall a: nat, b: nat | b < g.size && (a < x || (a == x && b < z + 1)) ensures HasChunk(after, (a, 0, b)) {
      if (a, b) != (x, z) {
        assert HasChunk(chunks, (a, 0, b));
        var c :| c in chunks && c.coords == (a, 0, b);
        assert c in after;
      }
    }
  }

  /** Every solid chunk of the island: one for each of its columns, and no more. */
  method TerrainChunks(g: Generator) returns (chunks: seq<ChunkSync>)
    ensures |chunks| == g.size * g.size
    ensures ChunksMatch(chunks, g) && Complete(chunks, g, g.size, 0)
  {
    hide Filled, SomeSolid, ChunksMatch, Complete;
    chunks := [];
    NoneYet(g);
    for x := 0 to g.size
      invariant |chunks| == x * g.size && ChunksMatch(chunks, g) && Complete(chunks, g, x, 0)
    {
      for z := 0 to g.size
        invariant |chunks| == x * g.size + z && ChunksMatch(chunks, g) && Complete(chunks, g, x, z)
      {
        var data := ChunkBytes(g, x, 0, z);
        SolidWhen(g, x, 0, z);
        if data.Some? {
          OneMore(chunks, g, x, z, data.value);
          chunks := chunks + [ChunkSync((x, 0, z), data.value)];
        }
      }
      RowDone(chunks, g, x);
      Distributes(x, g.size);
    }
  }

  lemma Distributes(x: nat, size: nat)
    ensures x * size + size == (x + 1) * size
  {
  }

  lemma NoneYet(g: Generator)
    ensures ChunksMatch([], g) && Complete([], g, 0, 0)
  {
  }

  lemma RowDone(chunks: seq<ChunkSync>, g: Generator, x: nat)
    requires Complete(chunks, g, x, g.size)
    ensures Complete(chunks, g, x + 1, 0)
  {
    hide HasChunk;
  }

  lemma {:induction false} ReadBackIs(chunks: seq<ChunkSync>, g: Generator, cx: nat, cy: nat, cz: nat, x: nat, y: nat, z: nat)
    requires ChunksMatch(chunks, g) && x < CHUNK_SIZE && y < CHUNK_SIZE && z < CHUNK_SIZE
    ensures ReadBack(chunks, (cx, cy, cz), x, y, z)
         == if HasChunk(chunks, (cx, cy, cz)) then Generated(g, cx, cy, cz, x, y, z) else AIR
  {
    hide Generated;
    if chunks != [] {
      var first, rest := chunks[0], chunks[1..];
      ReadBackIs(rest, g, cx, cy, cz, x, y, z);
      assert first in chunks && chunks == [first] + rest;
      if HasChunk(chunks, (cx, cy, cz)) && first.coords != (cx, cy, cz) {
        var c :| c in chunks && c.coords == (cx, cy, cz);
        assert c in rest;
      }
    }
  }

  /**
    Reading any voxel of the island back out of the sent chunks, at any height, gives what the
    generator puts there; outside the island it gives air.
   */
  lemma SentIsGenerated(chunks: seq<ChunkSync>, g: Generator, cx: nat, cy: nat, cz: nat, x: nat, y: nat, z: nat)
    requires ChunksMatch(chunks, g) && Complete(chunks, g, g.size, 0) && x < CHUNK_SIZE && y < CHUNK_SIZE && z < CHUNK_SIZE
    ensures ReadBack(chunks, (cx, cy, cz), x, y, z)
         == if cx < g.size && cz < g.size
            then MaterialAt(g, cx * CHUNK_SIZE + x, cy * CHUNK_SIZE + y, cz * CHUNK_SIZE + z) else AIR
  {
    ReadBackIs(chunks, g, cx, cy, cz, x, y, z);
    GeneratedIs(g, cx, cy, cz, x, y, z);
    if cx < g.size && cz < g.size && cy == 0 {
      assert HasChunk(chunks, (cx, 0, cz));
    }
    if cy > 0 {
      AboveIsAir(g, cx, cy, cz, x, y, z);
    }
  }

  lemma AboveIsAir(g: Generator, cx: nat, cy: nat, cz: nat, x: nat, y: nat, z: nat)
    requires cy > 0
    ensures Generated(g, cx, cy, cz, x, y, z) == AIR
  {
    hide ColumnAt, Material;
  }

  /** The player appears in the air, three voxels over the top solid block of the middle column. */
  lemma SpawnIsAboveGround(g: Generator)
    ensures var centre := 16 * g.size;
      var spawn := ColumnAt(g, centre, centre).surface + 3;
      MaterialAt(g, centre, spawn, centre) == AIR && MaterialAt(g, centre, spawn - 3, centre) != AIR
      && forall y | spawn - 3 < y <= spawn :: MaterialAt(g, centre, y, centre) == AIR
  {
    hide ColumnAt, Material;
  }

  // --- the noise, by value ---

  /** The mixed word: two multiplied and added, folded by 13 bits with the sign kept, multiplied and folded by 16. */
  lemma MixedWords()
    ensures Mixed(1, 0, 0) == 0x7DEB_71D6 && Mixed(0, 1, 0) == 0x3B52_A425 && Mixed(0, 0, 1) == 0x3A4C_7681
    ensures Mixed(0xFFFF_FFFF, 2, 1337) == 0x3524_C884
  {
  }

  /** Folding keeps the sign: the least and the greatest word there are. */
  lemma FoldedWords()
    ensures Shifted(0x8000_0000, 13) == 0xFFFC_0000 && Shifted(0x7FFF_FFFF, 13) == 0x0003_FFFF
    ensures Shifted(0x8000_0000, 16) == 0xFFFF_8000 && Shifted(0x7FFF_FFFF, 16) == 0x0000_7FFF
  {
  }

  /** The low 31 bits of it count up from 0 to 1. */
  lemma HashIs(x: bv32, y: bv32, seed: bv32, n: nat)
    requires n == Mixed(x, y, seed) as int % 0x8000_0000
    ensures HashWord(x, y, seed) * 2147483647.0 == n as real
  {
    hide Mixed;
  }

  /** Within a cell the noise runs between the four corners, smoothly along each side. */
  lemma ValueWithin(i: int, j: int, u: real, v: real, seed: int)
    requires 0.0 <= u < 1.0 && 0.0 <= v < 1.0
    ensures var (s, t) := (3.0 * u * u - 2.0 * u * u * u, 3.0 * v * v - 2.0 * v * v * v);
      Value(i as real + u, j as real + v, seed)
      == (Hash(i, j, seed) * (1.0 - s) + Hash(i + 1, j, seed) * s) * (1.0 - t)
         + (Hash(i, j + 1, seed) * (1.0 - s) + Hash(i + 1, j + 1, seed) * s) * t
  {
    hide Hash;
    assert (i as real + u).Floor == i && (j as real + v).Floor == j;
    SmoothIs(u);
    SmoothIs(v);
    Between(Hash(i, j, seed), Hash(i + 1, j, seed), Smooth(u));
    Between(Hash(i, j + 1, seed), Hash(i + 1, j + 1, seed), Smooth(u));
    var top := Lerp(Hash(i, j, seed), Hash(i + 1, j, seed), Smooth(u));
    var bottom := Lerp(Hash(i, j + 1, seed), Hash(i + 1, j + 1, seed), Smooth(u));
    Between(top, bottom, Smooth(v));
  }

  lemma SmoothIs(t: real)
    requires 0.0 <= t <= 1.0
    ensures Smooth(t) == 3.0 * t * t - 2.0 * t * t * t
  {
  }

  lemma Between(a: real, b: real, t: real)
    requires 0.0 <= t <= 1.0 && 0.0 <= a <= 1.0 && 0.0 <= b <= 1.0
    ensures Lerp(a, b, t) == a * (1.0 - t) + b * t
  {
  }

  /** Four octaves, each twice as fine and half as strong as the one before, over fifteen eighths. */
  lemma FractalIs(x: real, y: real, seed: int)
    ensures Fractal(x, y, seed)
      == (8.0 * Value(x, y, seed) + 4.0 * Value(2.0 * x, 2.0 * y, seed + 1)
          + 2.0 * Value(4.0 * x, 4.0 * y, seed + 2) + Value(8.0 * x, 8.0 * y, seed + 3)) / 15.0
  {
    hide Value;
    assert Amplitude(1) == 0.5 && Amplitude(2) == 0.25 && Amplitude(3) == 0.125;
    assert Frequency(1) == 2.0 && Frequency(2) == 4.0 && Frequency(3) == 8.0;
    assert Weight(2) == 1.5 && Weight(3) == 1.75 && Weight(4) == 1.875;
    var total := Octaves(x, y, seed, 2);
    assert Octaves(x, y, seed, 3) == total + Octave(x, y, seed + 2, 4.0, 0.25);
    assert Octaves(x, y, seed, 1) == Octave(x, y, seed, 1.0, 1.0);
    assert total == Octave(x, y, seed, 1.0, 1.0) + Octave(x, y, seed + 1, 2.0, 0.5);
  }

  /** The surface is 14 and the whole part of seven times the noise; the ground below it 5, nine times and half the rise. */
  lemma ColumnIs(g: Generator, h1: int, h2: int, rise: int, body: int)
    requires var high := 7.0 * Fractal(0.045 * h1 as real, 0.045 * h2 as real, g.seed); rise as real <= high < (rise + 1) as real
    requires var thick := 9.0 * Fractal(0.03 * h1 as real + 100.0, 0.03 * h2 as real + 100.0, g.seed + 7);
      body as real <= thick < (body + 1) as real
    ensures var thickness := 5 + body + rise / 2;
      ColumnAt(g, h1, h2) == Column(14 + rise, if 14 + rise > thickness then 14 + rise - thickness else 0)
  {
    hide Fractal;
  }
}
