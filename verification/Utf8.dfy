/** Well-formed UTF-8, as section 4 of RFC 3629 lists the byte sequences. */
module Utf8 {
  import opened Bits

  predicate Tail(bytes: seq<byte>, i: nat) {
    i < |bytes| && 0x80 <= bytes[i] <= 0xBF
  }

  /** How many bytes the first character takes, or 0 when it is not well formed. */
  function CharLength(bytes: seq<byte>): (n: nat)
    requires bytes != []
    ensures n <= |bytes|
  {
    var lead := bytes[0];
    if lead <= 0x7F then 1
    else if 0xC2 <= lead <= 0xDF then (if Tail(bytes, 1) then 2 else 0)
    else if 0xE0 <= lead <= 0xEF then
      if Tail(bytes, 1) && Tail(bytes, 2)
        && (lead == 0xE0 ==> 0xA0 <= bytes[1]) && (lead == 0xED ==> bytes[1] <= 0x9F)
      then 3 else 0
    else if 0xF0 <= lead <= 0xF4 then
      if Tail(bytes, 1) && Tail(bytes, 2) && Tail(bytes, 3)
        && (lead == 0xF0 ==> 0x90 <= bytes[1]) && (lead == 0xF4 ==> bytes[1] <= 0x8F)
      then 4 else 0
    else 0
  }

  predicate Valid(bytes: seq<byte>) {
    bytes == [] || (CharLength(bytes) > 0 && Valid(bytes[CharLength(bytes)..]))
  }

  // --- the characters it stands for ---

  /** The characters UTF-8 encodes: up to 0x10FFFF, without the surrogates. */
  predicate Scalar(c: nat) { c < 0xD800 || 0xE000 <= c < 0x11_0000 }

  /** One character as bytes, as section 3 of RFC 3629 lays its bits out. */
  function Encoded(c: nat): (bytes: seq<byte>)
    requires Scalar(c)
    ensures 0 < |bytes| <= 4
  {
    if c < 0x80 then [c]
    else if c < 0x800 then [0xC0 + c / 64, 0x80 + c % 64]
    else if c < 0x1_0000 then [0xE0 + c / 4096, 0x80 + c / 64 % 64, 0x80 + c % 64]
    else [0xF0 + c / 262144, 0x80 + c / 4096 % 64, 0x80 + c / 64 % 64, 0x80 + c % 64]
  }

  function EncodedAll(chars: seq<nat>): seq<byte>
    requires forall c | c in chars :: Scalar(c)
  {
    if chars == [] then [] else Encoded(chars[0]) + EncodedAll(chars[1..])
  }

  lemma EncodedLength(c: nat, rest: seq<byte>)
    requires Scalar(c)
    ensures CharLength(Encoded(c) + rest) == |Encoded(c)|
  {
    var bytes := Encoded(c) + rest;
    assert forall i | 0 <= i < |Encoded(c)| :: bytes[i] == Encoded(c)[i];
  }

  /** The character that starts the bytes. */
  lemma FirstOf(bytes: seq<byte>) returns (c: nat)
    requires bytes != [] && CharLength(bytes) > 0
    ensures Scalar(c) && Encoded(c) == bytes[..CharLength(bytes)]
  {
    var n := CharLength(bytes);
    if n == 1 {
      c := bytes[0];
    } else if n == 2 {
      c := TwoByte(bytes[0] - 0xC0, bytes[1] - 0x80);
    } else if n == 3 {
      c := ThreeByte(bytes[0] - 0xE0, bytes[1] - 0x80, bytes[2] - 0x80);
    } else {
      c := FourByte(bytes[0] - 0xF0, bytes[1] - 0x80, bytes[2] - 0x80, bytes[3] - 0x80);
    }
  }

  lemma TwoByte(x: nat, y: nat) returns (c: nat)
    requires 2 <= x < 32 && y < 64
    ensures Scalar(c) && Encoded(c) == [0xC0 + x, 0x80 + y]
  {
    c := 64 * x + y;
  }

  lemma ThreeByte(x: nat, y: nat, z: nat) returns (c: nat)
    requires x < 16 && y < 64 && z < 64
    requires (x == 0 ==> y >= 32) && (x == 13 ==> y < 32)
    ensures Scalar(c) && Encoded(c) == [0xE0 + x, 0x80 + y, 0x80 + z]
  {
    c := 4096 * x + 64 * y + z;
    assert c / 64 == 64 * x + y && c % 64 == z;
    assert c / 4096 == x && c / 64 % 64 == y;
  }

  lemma FourByte(w: nat, x: nat, y: nat, z: nat) returns (c: nat)
    requires w < 5 && x < 64 && y < 64 && z < 64
    requires (w == 0 ==> x >= 16) && (w == 4 ==> x < 16)
    ensures Scalar(c) && Encoded(c) == [0xF0 + w, 0x80 + x, 0x80 + y, 0x80 + z]
  {
    c := 262144 * w + 4096 * x + 64 * y + z;
    assert c / 64 == 4096 * w + 64 * x + y && c % 64 == z;
    assert c / 4096 == 64 * w + x && c / 64 % 64 == y;
    assert c / 262144 == w && c / 4096 % 64 == x;
  }

  lemma {:induction false} EncodedIsValid(chars: seq<nat>)
    requires forall c | c in chars :: Scalar(c)
    ensures Valid(EncodedAll(chars))
  {
    if chars != [] {
      hide CharLength, Encoded;
      var first, rest := Encoded(chars[0]), EncodedAll(chars[1..]);
      EncodedIsValid(chars[1..]);
      EncodedLength(chars[0], rest);
      assert (first + rest)[|first|..] == rest;
    }
  }

  lemma {:induction false} CharsOf(bytes: seq<byte>) returns (chars: seq<nat>)
    requires Valid(bytes)
    ensures (forall c | c in chars :: Scalar(c)) && EncodedAll(chars) == bytes
  {
    hide CharLength, Encoded, Scalar;
    if bytes == [] {
      chars := [];
    } else {
      var n := CharLength(bytes);
      var first := FirstOf(bytes);
      var rest := CharsOf(bytes[n..]);
      chars := [first] + rest;
      assert chars[1..] == rest && bytes == bytes[..n] + bytes[n..];
    }
  }

  /** Bytes are well formed exactly when they spell some characters out. */
  lemma ValidWhen(bytes: seq<byte>)
    ensures Valid(bytes) <==> exists chars: seq<nat> ::
      (forall c | c in chars :: Scalar(c)) && EncodedAll(chars) == bytes
  {
    if Valid(bytes) {
      var chars := CharsOf(bytes);
      assert EncodedAll(chars) == bytes;
    }
    forall chars: seq<nat> | (forall c | c in chars :: Scalar(c)) && EncodedAll(chars) == bytes ensures Valid(bytes) {
      EncodedIsValid(chars);
    }
  }
}
