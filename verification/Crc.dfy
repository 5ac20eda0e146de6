/** The name hash: a table-driven CRC-32, most significant bit first. */
module Crc {
  const POLY: bv32 := 0x04C1_1DB7

  function Xor(a: bv32, b: bv32): bv32 { a ^ b }

  function Up(r: bv32): bv32 { r << 1 }

  function Up8(r: bv32): bv32 { r << 8 }

  predicate Top(r: bv32) { r & 0x8000_0000 != 0 }

  /** A byte at the top of the register. */
  function AtTop(b: bv8): bv32 { (b as bv32) << 24 }

  /** One step of the register. */
  function Step(r: bv32): bv32 {
    if Top(r) then Xor(Up(r), POLY) else Up(r)
  }

  function Steps(r: bv32, n: nat): bv32 {
    if n == 0 then r else Step(Steps(r, n - 1))
  }

  /** A table entry: a byte at the top of the register, shifted out. */
  function Entry(b: bv8): bv32 {
    Steps(AtTop(b), 8)
  }

  /** `((crc >> 24) ^ byte) & 0xFF`. */
  function Index(r: bv32, b: bv8): bv8 { ((r >> 24) as bv8) ^ b }

  function ToLower(b: bv8): bv8 {
    if 0x41 <= b <= 0x5A then b | 0x20 else b
  }

  function Lower(name: seq<bv8>): (r: seq<bv8>)
    ensures |r| == |name|
  {
    seq(|name|, i requires 0 <= i < |name| => ToLower(name[i]))
  }

  /** What the table-driven loop leaves in a register that starts clear. */
  function Crc(bytes: seq<bv8>): bv32 {
    if bytes == [] then 0
    else
      var before := Crc(bytes[..|bytes| - 1]);
      Xor(Entry(Index(before, bytes[|bytes| - 1])), Up8(before))
  }

  // --- the table and the hash, as loops ---

  method BuildTable() returns (table: array<bv32>)
    ensures fresh(table) && table.Length == 256
    ensures forall i | 0 <= i < 256 :: table[i] == Entry(i as bv8)
  {
    table := new bv32[256];
    var i := 0;
    while i < 256
      invariant 0 <= i <= 256
      invariant forall k | 0 <= k < i :: table[k] == Entry(k as bv8)
    {
      hide Step, AtTop;
      var entry := AtTop(i as bv8);
      var bit := 0;
      while bit < 8
        invariant 0 <= bit <= 8 && entry == Steps(AtTop(i as bv8), bit)
      {
        entry := Step(entry);
        bit := bit + 1;
      }
      table[i] := entry;
      i := i + 1;
    }
  }

  method NameHash(table: array<bv32>, name: seq<bv8>) returns (crc: bv32)
    requires table.Length == 256 && forall i | 0 <= i < 256 :: table[i] == Entry(i as bv8)
    ensures crc == Crc(Lower(name))
    ensures (forall i | 0 <= i < |name| :: !(0x41 <= name[i] <= 0x5A)) ==> crc == Crc(name)
    ensures name == [] ==> crc == 0
  {
    NothingToLower(name);
    hide Entry, Index, Xor, Up8, ToLower;
    crc := 0;
    for i := 0 to |name|
      invariant crc == Crc(Lower(name)[..i])
    {
      var index := Index(crc, ToLower(name[i]));
      ByteIndex(index);
      assert Lower(name)[..i + 1][..i] == Lower(name)[..i];
      crc := Xor(table[index as int], Up8(crc));
    }
    assert Lower(name)[..|name|] == Lower(name);
  }

  lemma ByteIndex(b: bv8)
    ensures 0 <= b as int < 256 && (b as int) as bv8 == b
  {
  }

  // --- linearity ---

  lemma UpXor(a: bv32, b: bv32)
    ensures Up(Xor(a, b)) == Xor(Up(a), Up(b))
  {
  }

  lemma TopXor(a: bv32, b: bv32)
    ensures Top(Xor(a, b)) == (Top(a) != Top(b))
  {
  }

  lemma XorAssoc(x: bv32, y: bv32, p: bv32)
    ensures Xor(x, Xor(y, p)) == Xor(Xor(x, y), p)
  {
  }

  lemma XorComm(x: bv32, y: bv32)
    ensures Xor(x, y) == Xor(y, x)
  {
  }

  lemma XorSwap(x: bv32, y: bv32, p: bv32)
    ensures Xor(Xor(x, p), y) == Xor(Xor(x, y), p)
  {
    hide Xor;
    XorAssoc(x, p, y);
    XorComm(p, y);
    XorAssoc(x, y, p);
  }

  lemma XorCancel(x: bv32, y: bv32, p: bv32)
    ensures Xor(Xor(x, p), Xor(y, p)) == Xor(x, y)
  {
    hide Xor;
    XorAssoc(Xor(x, p), y, p);
    XorSwap(x, y, p);
    XorAssoc(Xor(x, y), p, p);
    XorZero(p);
    XorZero(Xor(x, y));
  }

  lemma XorZero(x: bv32)
    ensures Xor(x, 0) == x && Xor(0, x) == x && Xor(x, x) == 0
  {
  }

  lemma XorSame(x: bv32, y: bv32)
    ensures Xor(x, y) == 0 <==> x == y
  {
  }

  lemma StepXor(a: bv32, b: bv32)
    ensures Step(Xor(a, b)) == Xor(Step(a), Step(b))
  {
    hide Xor, Up, Top;
    UpXor(a, b);
    TopXor(a, b);
    XorAssoc(Up(a), Up(b), POLY);
    XorSwap(Up(a), Up(b), POLY);
    XorCancel(Up(a), Up(b), POLY);
  }

  lemma {:induction false} StepsXor(a: bv32, b: bv32, n: nat)
    ensures Steps(Xor(a, b), n) == Xor(Steps(a, n), Steps(b, n))
  {
    hide Step, Xor;
    if n > 0 {
      StepsXor(a, b, n - 1);
      StepXor(Steps(a, n - 1), Steps(b, n - 1));
    }
  }

  lemma {:induction false} StepsPlus(r: bv32, m: nat, n: nat)
    ensures Steps(Steps(r, m), n) == Steps(r, m + n)
  {
    hide Step;
    if n > 0 {
      StepsPlus(r, m, n - 1);
    }
  }

  lemma Eight(r: bv32)
    ensures Steps(r, 8) == Step(Step(Step(Step(Step(Step(Step(Step(r))))))))
  {
    hide Step;
    assert Steps(r, 1) == Step(r);
    assert Steps(r, 3) == Step(Step(Steps(r, 1)));
    assert Steps(r, 5) == Step(Step(Steps(r, 3)));
    assert Steps(r, 7) == Step(Step(Steps(r, 5)));
  }

  lemma StepLow(r: bv32, mask: bv32, next: bv32)
    requires mask & 0x8000_0000 != 0 && mask << 1 == next && r & mask == 0
    ensures Step(r) == Up(r) && Up(r) & next == 0
  {
  }

  lemma EightUps(r: bv32)
    ensures Up(Up(Up(Up(Up(Up(Up(Up(r)))))))) == Up8(r)
  {
  }

  /** Low bits only move up while they stay clear of the top. */
  lemma EightLow(r: bv32)
    requires r & 0xFF00_0000 == 0
    ensures Steps(r, 8) == Up8(r)
  {
    Eight(r);
    EightUps(r);
    var r1 := Up(r);
    StepLow(r, 0xFF00_0000, 0xFE00_0000);
    var r2 := Up(r1);
    StepLow(r1, 0xFE00_0000, 0xFC00_0000);
    var r3 := Up(r2);
    StepLow(r2, 0xFC00_0000, 0xF800_0000);
    var r4 := Up(r3);
    StepLow(r3, 0xF800_0000, 0xF000_0000);
    var r5 := Up(r4);
    StepLow(r4, 0xF000_0000, 0xE000_0000);
    var r6 := Up(r5);
    StepLow(r5, 0xE000_0000, 0xC000_0000);
    var r7 := Up(r6);
    StepLow(r6, 0xC000_0000, 0x8000_0000);
    StepLow(r7, 0x8000_0000, 0);
  }

  lemma SplitTop(r: bv32, b: bv8)
    ensures Xor(AtTop(Index(r, b)), r & 0x00FF_FFFF) == Xor(r, AtTop(b))
  {
    hide Xor, AtTop, Index;
    var high, low := r & 0xFF00_0000, r & 0x00FF_FFFF;
    IndexAtTop(r, b);
    HighLow(r);
    XorSwap(high, low, AtTop(b));
  }

  lemma IndexAtTop(r: bv32, b: bv8)
    ensures AtTop(Index(r, b)) == Xor(r & 0xFF00_0000, AtTop(b))
  {
  }

  lemma HighLow(r: bv32)
    ensures Xor(r & 0xFF00_0000, r & 0x00FF_FFFF) == r
  {
  }

  lemma DropTop(r: bv32)
    ensures Up8(r & 0x00FF_FFFF) == Up8(r) && (r & 0x00FF_FFFF) & 0xFF00_0000 == 0
  {
  }

  /** A table step is eight register steps with the byte added at the top. */
  lemma TableStep(r: bv32, b: bv8)
    ensures Xor(Entry(Index(r, b)), Up8(r)) == Steps(Xor(r, AtTop(b)), 8)
  {
    hide Xor, Up8, Index, AtTop, Steps;
    SplitTop(r, b);
    DropTop(r);
    StepsXor(AtTop(Index(r, b)), r & 0x00FF_FFFF, 8);
    EightLow(r & 0x00FF_FFFF);
  }

  lemma CrcSnoc(bytes: seq<bv8>, b: bv8)
    ensures Crc(bytes + [b]) == Steps(Xor(Crc(bytes), AtTop(b)), 8)
  {
    hide Xor, Up8, Index, AtTop, Entry, Steps;
    assert (bytes + [b])[..|bytes|] == bytes;
    TableStep(Crc(bytes), b);
  }

  // --- the remainder of a polynomial division ---

  /** The bits of a message, the most significant bit of each byte first. */
  function MessageBits(bytes: seq<bv8>): seq<bool> {
    if bytes == [] then []
    else MessageBits(bytes[..|bytes| - 1]) + ByteBits(bytes[|bytes| - 1])
  }

  function ByteBits(b: bv8): seq<bool> {
    [b & 0x80 != 0, b & 0x40 != 0, b & 0x20 != 0, b & 0x10 != 0,
     b & 0x08 != 0, b & 0x04 != 0, b & 0x02 != 0, b & 0x01 != 0]
  }

  /**
    Long division by x^32 + POLY over the field of two elements: bring down the next coefficient,
    and subtract the divisor when a leading one comes out.
   */
  function Remainder(coefficients: seq<bool>): bv32 {
    if coefficients == [] then 0
    else
      var r := Remainder(coefficients[..|coefficients| - 1]);
      Xor(Step(r), if coefficients[|coefficients| - 1] then 1 else 0)
  }

  function Zeros(n: nat): (z: seq<bool>)
    ensures |z| == n
  {
    seq(n, _ => false)
  }

  lemma {:induction false} RemainderOfShifted(m: seq<bool>, n: nat)
    ensures Remainder(m + Zeros(n)) == Steps(Remainder(m), n)
  {
    hide Step, Xor;
    if n == 0 {
      assert m + Zeros(0) == m;
    } else {
      assert (m + Zeros(n))[..|m| + n - 1] == m + Zeros(n - 1);
      RemainderOfShifted(m, n - 1);
      XorZero(Step(Remainder(m + Zeros(n - 1))));
    }
  }

  /** The lone lowest coefficient, shifted past the top, leaves the divisor's tail. */
  lemma StepsOfOne()
    ensures Steps(1, 31) == 0x8000_0000 && Step(0x8000_0000) == POLY
  {
    EightLow(1);
    StepsPlus(1, 8, 8);
    EightLow(0x100);
    StepsPlus(1, 16, 8);
    EightLow(0x1_0000);
    assert Steps(1, 24) == 0x100_0000;
    SevenUp();
    StepsPlus(1, 24, 7);
  }

  lemma SevenUp()
    ensures Steps(0x100_0000, 7) == 0x8000_0000
  {
    assert Steps(0x100_0000, 1) == 0x200_0000;
    assert Steps(0x100_0000, 2) == 0x400_0000;
    assert Steps(0x100_0000, 3) == 0x800_0000;
    assert Steps(0x100_0000, 4) == 0x1000_0000;
    assert Steps(0x100_0000, 5) == 0x2000_0000;
    assert Steps(0x100_0000, 6) == 0x4000_0000;
  }

  lemma {:induction false} StepsOfZero(n: nat)
    ensures Steps(0, n) == 0
  {
    if n > 0 {
      StepsOfZero(n - 1);
    }
  }

  /** The coefficient `bit`, as the bit fed at the top of the register. */
  function TopBit(bit: bool): bv32 { if bit then 0x8000_0000 else 0 }

  /** Bringing down a coefficient is, 32 places later, feeding it at the top. */
  lemma FeedBit(m: seq<bool>, bit: bool)
    ensures Steps(Remainder(m + [bit]), 32) == Step(Xor(Steps(Remainder(m), 32), TopBit(bit)))
  {
    hide Step, Xor;
    var r, low := Remainder(m), if bit then 1 else 0;
    assert (m + [bit])[..|m|] == m;
    StepsXor(Step(r), low, 32);
    assert Steps(r, 1) == Step(r);
    StepsPlus(r, 1, 32);
    StepXor(Steps(r, 32), TopBit(bit));
    StepsOfOne();
    StepsOfZero(31);
    assert Steps(low, 31) == TopBit(bit);
  }

  /** Take the leading bit of a word added to the register. */
  lemma Peel(x: bv32, w: bv32)
    ensures Step(Xor(x, w)) == Xor(Step(Xor(x, TopBit(Top(w)))), Up(w))
  {
    hide Xor, Up, Top;
    var low := w & 0x7FFF_FFFF;
    SplitLead(w);
    XorAssoc(x, TopBit(Top(w)), low);
    StepXor(Xor(x, TopBit(Top(w))), low);
  }

  lemma SplitLead(w: bv32)
    ensures w == Xor(TopBit(Top(w)), w & 0x7FFF_FFFF)
    ensures Step(w & 0x7FFF_FFFF) == Up(w)
  {
  }

  lemma LeadingBits(b: bv8)
    ensures var w := AtTop(b);
      var v := Up(Up(Up(Up(w))));
      ByteBits(b) == [Top(w), Top(Up(w)), Top(Up(Up(w))), Top(Up(Up(Up(w)))),
                      Top(v), Top(Up(v)), Top(Up(Up(v))), Top(Up(Up(Up(v))))]
      && Up(Up(Up(Up(v)))) == 0
  {
  }

  /** The register after some message bits, carried 32 places on. */
  function Ahead(m: seq<bool>): bv32 { Steps(Remainder(m), 32) }

  /** Feeding the eight bits of a byte is adding it at the top and stepping eight times. */
  lemma FeedByte(m: seq<bool>, b: bv8)
    ensures Ahead(m + ByteBits(b)) == Steps(Xor(Ahead(m), AtTop(b)), 8)
  {
    hide Step, Xor, Up, Top, AtTop, Ahead, Steps, ByteBits;
    var w := AtTop(b);
    LeadingBits(b);
    StepsPlus(Xor(Ahead(m), w), 4, 4);
    var m4, w4 := FeedFour(m, w);
    var m8, w8 := FeedFour(m4, w4);
    Append4(m, ByteBits(b)[0], ByteBits(b)[1], ByteBits(b)[2], ByteBits(b)[3]);
    Append4(m4, ByteBits(b)[4], ByteBits(b)[5], ByteBits(b)[6], ByteBits(b)[7]);
    Halves(m, ByteBits(b));
    XorZero(Ahead(m8));
  }

  lemma Append4(m: seq<bool>, b0: bool, b1: bool, b2: bool, b3: bool)
    ensures m + [b0] + [b1] + [b2] + [b3] == m + [b0, b1, b2, b3]
  {
  }

  lemma Halves(m: seq<bool>, bits: seq<bool>)
    requires |bits| == 8
    ensures m + bits == (m + [bits[0], bits[1], bits[2], bits[3]]) + [bits[4], bits[5], bits[6], bits[7]]
  {
  }

  lemma FeedFour(m: seq<bool>, w: bv32) returns (next: seq<bool>, rest: bv32)
    ensures next == m + [Top(w)] + [Top(Up(w))] + [Top(Up(Up(w)))] + [Top(Up(Up(Up(w))))]
    ensures rest == Up(Up(Up(Up(w))))
    ensures Steps(Xor(Ahead(m), w), 4) == Xor(Ahead(next), rest)
  {
    hide Step, Xor, Up, Top, Ahead;
    var m1, w1 := FeedNext(m, w);
    var m2, w2 := FeedNext(m1, w1);
    var m3, w3 := FeedNext(m2, w2);
    next, rest := FeedNext(m3, w3);
    assert Steps(Xor(Ahead(m), w), 1) == Xor(Ahead(m1), w1);
    assert Steps(Xor(Ahead(m), w), 3) == Xor(Ahead(m3), w3);
  }

  lemma FeedNext(m: seq<bool>, w: bv32) returns (next: seq<bool>, rest: bv32)
    ensures next == m + [Top(w)] && rest == Up(w)
    ensures Step(Xor(Ahead(m), w)) == Xor(Ahead(next), rest)
  {
    hide Step, Xor, Up, Top, Remainder, Steps;
    next, rest := m + [Top(w)], Up(w);
    FeedBit(m, Top(w));
    Peel(Ahead(m), w);
  }

  /** The table-driven hash is the remainder of the message times x^32. */
  lemma {:induction false} CrcIsRemainder(bytes: seq<bv8>)
    ensures Crc(bytes) == Remainder(MessageBits(bytes) + Zeros(32))
  {
    hide Xor, Up8, Index, Entry, AtTop, Remainder, Steps, ByteBits;
    RemainderOfShifted(MessageBits(bytes), 32);
    if bytes == [] {
      EmptyMessage();
    } else {
      var init, last := bytes[..|bytes| - 1], bytes[|bytes| - 1];
      CrcIsRemainder(init);
      RemainderOfShifted(MessageBits(init), 32);
      assert bytes == init + [last];
      CrcSnoc(init, last);
      FeedByte(MessageBits(init), last);
    }
  }

  lemma EmptyMessage()
    ensures Steps(Remainder([]), 32) == 0
  {
    StepsOfZero(32);
  }

  // --- what linearity says about names ---

  function Difference(a: seq<bv8>, b: seq<bv8>): (d: seq<bv8>)
    requires |a| == |b|
    ensures |d| == |a|
  {
    seq(|a|, i requires 0 <= i < |a| => a[i] ^ b[i])
  }

  lemma AtTopXor(a: bv8, b: bv8)
    ensures AtTop(a ^ b) == Xor(AtTop(a), AtTop(b))
  {
  }

  lemma Regroup(x: bv32, y: bv32, a: bv32, b: bv32)
    ensures Xor(Xor(x, a), Xor(y, b)) == Xor(Xor(x, y), Xor(a, b))
  {
    hide Xor;
    XorAssoc(Xor(x, a), y, b);
    XorSwap(x, y, a);
    XorAssoc(Xor(x, y), a, b);
  }

  /** On inputs of one length the hash turns differences into differences. */
  lemma {:induction false} CrcXor(a: seq<bv8>, b: seq<bv8>)
    requires |a| == |b|
    ensures Crc(Difference(a, b)) == Xor(Crc(a), Crc(b))
  {
    if a == [] {
      assert Crc(Difference(a, b)) == Crc([]);
    } else {
      var n := |a| - 1;
      CrcXor(a[..n], b[..n]);
      CrcXorStep(a[..n], b[..n], a[n], b[n]);
      assert a == a[..n] + [a[n]] && b == b[..n] + [b[n]];
    }
  }

  lemma CrcXorStep(a: seq<bv8>, b: seq<bv8>, x: bv8, y: bv8)
    requires |a| == |b| && Crc(Difference(a, b)) == Xor(Crc(a), Crc(b))
    ensures Crc(Difference(a + [x], b + [y])) == Xor(Crc(a + [x]), Crc(b + [y]))
  {
    hide Crc, Xor, AtTop, Steps;
    assert Difference(a + [x], b + [y]) == Difference(a, b) + [x ^ y];
    CrcSnoc(a, x);
    CrcSnoc(b, y);
    CrcSnoc(Difference(a, b), x ^ y);
    AtTopXor(x, y);
    Regroup(Crc(a), Crc(b), AtTop(x), AtTop(y));
    StepsXor(Xor(Crc(a), AtTop(x)), Xor(Crc(b), AtTop(y)), 8);
  }

  /** The register never loses information. */
  lemma StepInjective(r: bv32)
    requires Step(r) == 0
    ensures r == 0
  {
  }

  lemma {:induction false} StepsInjective(r: bv32, n: nat)
    requires Steps(r, n) == 0
    ensures r == 0
  {
    hide Step;
    if n > 0 {
      StepInjective(Steps(r, n - 1));
      StepsInjective(r, n - 1);
    }
  }

  lemma {:induction false} CrcOfZeros(bytes: seq<bv8>)
    requires forall i | 0 <= i < |bytes| :: bytes[i] == 0
    ensures Crc(bytes) == 0
  {
    if bytes != [] {
      var n := |bytes| - 1;
      CrcOfZeros(bytes[..n]);
      assert bytes == bytes[..n] + [0];
      ZeroStep(bytes[..n]);
    }
  }

  lemma ZeroStep(bytes: seq<bv8>)
    requires Crc(bytes) == 0
    ensures Crc(bytes + [0]) == 0
  {
    CrcSnoc(bytes, 0);
    StepsOfZero(8);
    NothingAdded();
  }

  lemma NothingAdded()
    ensures Xor(0, AtTop(0)) == 0
  {
  }

  lemma AddedIsZero(r: bv32, b: bv8)
    requires Xor(r, AtTop(b)) == 0
    ensures r == AtTop(b) && (r == 0 <==> b == 0)
  {
  }

  /** A register that ends clear was left, before its last byte, holding that byte. */
  lemma LastByte(bytes: seq<bv8>, b: bv8)
    requires Crc(bytes + [b]) == 0
    ensures Crc(bytes) == AtTop(b) && (Crc(bytes) == 0 <==> b == 0)
  {
    hide Crc, Xor, AtTop, Steps;
    CrcSnoc(bytes, b);
    StepsInjective(Xor(Crc(bytes), AtTop(b)), 8);
    AddedIsZero(Crc(bytes), b);
  }

  /** Nothing in the top byte. */
  predicate TopClear(r: bv32) { r & 0xFF00_0000 == 0 }

  /** Nothing in the bottom byte. */
  predicate BottomClear(r: bv32) { r & 0xFF == 0 }

  function Down8(r: bv32): bv32 { r >> 8 }

  /** Eight steps reach `low << 8` only from `low`. */
  lemma Undo(r: bv32, low: bv32)
    requires TopClear(low) && Steps(r, 8) == Up8(low)
    ensures r == low
  {
    StepsOfLow(low);
    UndoFrom(r, low);
  }

  lemma StepsOfLow(low: bv32)
    requires TopClear(low)
    ensures Steps(low, 8) == Up8(low)
  {
    hide Steps, Up8;
    EightLow(low);
  }

  lemma UndoFrom(r: bv32, low: bv32)
    requires Steps(r, 8) == Steps(low, 8)
    ensures r == low
  {
    hide Xor, Steps;
    StepsXor(r, low, 8);
    XorZero(Steps(low, 8));
    StepsInjective(Xor(r, low), 8);
    XorSame(r, low);
  }

  lemma DownUp(r: bv32)
    requires BottomClear(r)
    ensures TopClear(Down8(r)) && Up8(Down8(r)) == r
  {
  }

  /** A register with a clear bottom byte came from itself, a place lower, over the byte before. */
  lemma PullDown(bytes: seq<bv8>, b: bv8)
    requires BottomClear(Crc(bytes + [b]))
    ensures Crc(bytes) == Xor(Down8(Crc(bytes + [b])), AtTop(b))
  {
    hide Crc, AtTop, Steps, Up8, Down8, Xor, TopClear, BottomClear;
    var r := Crc(bytes + [b]);
    CrcSnoc(bytes, b);
    DownUp(r);
    Undo(Xor(Crc(bytes), AtTop(b)), Down8(r));
    XorSwap(Crc(bytes), AtTop(b), AtTop(b));
    XorAssoc(Crc(bytes), AtTop(b), AtTop(b));
    XorZero(AtTop(b));
    XorZero(Crc(bytes));
  }

  /** A difference within four consecutive bytes, anywhere in the name, always shows. */
  lemma {:induction false} BurstShows(d: seq<bv8>, at: nat)
    requires at + 4 <= |d|
    requires forall i | 0 <= i < |d| && !(at <= i < at + 4) :: d[i] == 0
    requires Crc(d) == 0
    ensures forall i | 0 <= i < |d| :: d[i] == 0
  {
    hide Crc;
    var n := |d| - 1;
    assert d == d[..n] + [d[n]];
    LastByte(d[..n], d[n]);
    if n >= at + 4 {
      BurstShows(d[..n], at);
      assert forall i | 0 <= i < n :: d[i] == d[..n][i];
    } else {
      CrcOfZeros(d[..at]);
      assert d[..at + 3] == d[..at + 2] + [d[at + 2]];
      assert d[..at + 2] == d[..at + 1] + [d[at + 1]];
      assert d[..at + 1] == d[..at] + [d[at]];
      FourBytes(d[..at], d[at], d[at + 1], d[at + 2], d[at + 3]);
    }
  }

  lemma FourBytes(head: seq<bv8>, a: bv8, b: bv8, c: bv8, e: bv8)
    requires Crc(head) == 0 && Crc(head + [a] + [b] + [c]) == AtTop(e)
    ensures a == b == c == e == 0
  {
    hide Crc, AtTop, Down8, Xor, BottomClear;
    var r2 := Xor(Down8(AtTop(e)), AtTop(c));
    var r1 := Xor(Down8(r2), AtTop(b));
    BottomsClear(a, b, c, e);
    PullDown(head + [a] + [b], c);
    PullDown(head + [a], b);
    PullDown(head, a);
    Stacked(a, b, c, e);
  }

  lemma BottomsClear(a: bv8, b: bv8, c: bv8, e: bv8)
    ensures BottomClear(AtTop(e)) && BottomClear(Xor(Down8(AtTop(e)), AtTop(c)))
    ensures BottomClear(Xor(Down8(Xor(Down8(AtTop(e)), AtTop(c))), AtTop(b)))
  {
  }

  lemma Stacked(a: bv8, b: bv8, c: bv8, e: bv8)
    requires Xor(Down8(Xor(Down8(Xor(Down8(AtTop(e)), AtTop(c))), AtTop(b))), AtTop(a)) == 0
    ensures a == b == c == e == 0
  {
  }

  /** Names of one length that differ only within four consecutive letters never collide. */
  lemma CloseNamesDiffer(a: seq<bv8>, b: seq<bv8>, at: nat)
    requires |a| == |b| && at + 4 <= |a|
    requires forall i | 0 <= i < |a| && !(at <= i < at + 4) :: Lower(a)[i] == Lower(b)[i]
    ensures Crc(Lower(a)) == Crc(Lower(b)) <==> Lower(a) == Lower(b)
  {
    hide Crc, Xor, ToLower;
    var x, y := Lower(a), Lower(b);
    var d := Difference(x, y);
    CrcXor(x, y);
    XorSame(Crc(x), Crc(y));
    if Crc(x) == Crc(y) {
      XorSelf(x, y);
      BurstShows(d, at);
      XorSelf(x, y);
    }
  }

  lemma XorSelf(x: seq<bv8>, y: seq<bv8>)
    requires |x| == |y|
    ensures forall i | 0 <= i < |x| :: Difference(x, y)[i] == 0 <==> x[i] == y[i]
  {
  }

  // --- capitals, and a published value ---

  lemma NothingToLower(name: seq<bv8>)
    ensures (forall i | 0 <= i < |name| :: !(0x41 <= name[i] <= 0x5A)) ==> Lower(name) == name
  {
  }

  /** Names that differ only as letters and their capitals do hash alike. */
  lemma CaseIsIgnored(a: seq<bv8>, b: seq<bv8>)
    requires |a| == |b|
    requires forall i | 0 <= i < |a| ::
      || a[i] == b[i]
      || (0x41 <= a[i] <= 0x5A && b[i] as int == a[i] as int + 0x20)
      || (0x41 <= b[i] <= 0x5A && a[i] as int == b[i] as int + 0x20)
    ensures Lower(a) == Lower(b) && Crc(Lower(a)) == Crc(Lower(b))
  {
    hide Crc;
    forall i | 0 <= i < |a| ensures ToLower(a[i]) == ToLower(b[i]) {
      SameLetter(a[i], b[i]);
    }
  }

  lemma SameLetter(x: bv8, y: bv8)
    requires || x == y
             || (0x41 <= x <= 0x5A && y as int == x as int + 0x20)
             || (0x41 <= y <= 0x5A && x as int == y as int + 0x20)
    ensures ToLower(x) == ToLower(y)
  {
    if 0x41 <= x <= 0x5A {
      CapitalAndLetter(x);
    }
    if 0x41 <= y <= 0x5A {
      CapitalAndLetter(y);
    }
  }

  lemma CapitalAndLetter(x: bv8)
    requires 0x41 <= x <= 0x5A
    ensures ToLower(x) == x + 0x20 && ToLower(x + 0x20) == x + 0x20 && (x + 0x20) as int == x as int + 0x20
  {
  }

  lemma EightSteps(a: bv32, b: bv32, c: bv32, d: bv32, e: bv32, f: bv32, g: bv32, h: bv32, i: bv32)
    requires Step(a) == b && Step(b) == c && Step(c) == d && Step(d) == e
    requires Step(e) == f && Step(f) == g && Step(g) == h && Step(h) == i
    ensures Steps(a, 8) == i
  {
    hide Step;
    Eight(a);
  }

  /** The value published for `Dirt`. */
  lemma HashOfDirt()
    ensures Crc(Lower([0x44, 0x69, 0x72, 0x74])) == 0x27DA_D773
  {
    CapitalAndLetter(0x44);
    hide Crc, Steps;
    assert Lower([0x44, 0x69, 0x72, 0x74]) == [0x64] + [0x69] + [0x72] + [0x74];
    DirtSteps();
    hide Xor, AtTop;
    EmptyCrc();
    assert [] + [0x64] == [0x64];
    CrcSnoc([], 0x64);
    CrcSnoc([0x64], 0x69);
    CrcSnoc([0x64] + [0x69], 0x72);
    CrcSnoc([0x64] + [0x69] + [0x72], 0x74);
  }

  lemma EmptyCrc()
    ensures Crc([]) == 0
  {
  }

  lemma DirtSteps()
    ensures Steps(Xor(0x0, AtTop(0x64)), 8) == 0xBFA1_B04B
    ensures Steps(Xor(0xBFA1_B04B, AtTop(0x69)), 8) == 0xAAAD_4D5B
    ensures Steps(Xor(0xAAAD_4D5B, AtTop(0x72)), 8) == 0x9ADE_FD51
    ensures Steps(Xor(0x9ADE_FD51, AtTop(0x74)), 8) == 0x27DA_D773
  {
    hide Steps;
    EightSteps(0x6400_0000, 0xC800_0000, 0x94C1_1DB7, 0x2D43_26D9, 0x5A86_4DB2,
      0xB50C_9B64, 0x6ED8_2B7F, 0xDDB0_56FE, 0xBFA1_B04B);
    EightSteps(0xD6A1_B04B, 0xA982_7D21, 0x57C5_E7F5, 0xAF8B_CFEA, 0x5BD6_8263,
      0xB7AD_04C6, 0x6B9B_143B, 0xD736_2876, 0xAAAD_4D5B);
    EightSteps(0xD8AD_4D5B, 0xB59B_8701, 0x6FF6_13B5, 0xDFEC_276A, 0xBB19_5363,
      0x72F3_BB71, 0xE5E7_76E2, 0xCF0F_F073, 0x9ADE_FD51);
    EightSteps(0xEEDE_FD51, 0xD97C_E715, 0xB638_D39D, 0x68B0_BA8D, 0xD161_751A,
      0xA603_F783, 0x48C6_F2B1, 0x918D_E562, 0x27DA_D773);
  }
}
