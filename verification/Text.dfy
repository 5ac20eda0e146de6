/** Names as the servers compare them: trimmed of white space, and without regard to ASCII case. */
module Text {
  function LowerChar(c: char): (l: char)
    ensures l as int == c as int + if 0x41 <= c as int <= 0x5A then 0x20 else 0
  {
    if 'A' <= c <= 'Z' then c - 'A' + 'a' else c
  }

  function Lower(s: string): string { seq(|s|, i requires 0 <= i < |s| => LowerChar(s[i])) }

  predicate SameName(a: string, b: string) { Lower(a) == Lower(b) }

  /** Unicode's White_Space property. */
  predicate IsSpace(c: char)
    ensures var n := c as int;
      IsSpace(c) <==>
      (9 <= n <= 13 || n == 0x20 || n == 0x85 || n == 0xA0 || n == 0x1680 || 0x2000 <= n <= 0x200A
       || n == 0x2028 || n == 0x2029 || n == 0x202F || n == 0x205F || n == 0x3000)
  {
    c == ' ' || '\t' <= c <= '\r' || c == '\U{85}' || c == '\U{A0}' || c == '\U{1680}' || '\U{2000}' <= c <= '\U{200A}'
    || c == '\U{2028}' || c == '\U{2029}' || c == '\U{202F}' || c == '\U{205F}' || c == '\U{3000}'
  }

  function TrimStart(s: string): string { if s != [] && IsSpace(s[0]) then TrimStart(s[1..]) else s }

  function TrimEnd(s: string): string { if s != [] && IsSpace(s[|s| - 1]) then TrimEnd(s[..|s| - 1]) else s }

  function Trim(s: string): string { TrimEnd(TrimStart(s)) }

  /** Two names are the same when they differ only as letters and their capitals do. */
  lemma SameNameWhen(a: string, b: string)
    ensures SameName(a, b) <==> |a| == |b| && forall i | 0 <= i < |a| ::
      || a[i] == b[i]
      || ('A' <= a[i] <= 'Z' && b[i] as int == a[i] as int + 32)
      || ('A' <= b[i] <= 'Z' && a[i] as int == b[i] as int + 32)
  {
    if |a| == |b| {
      assert forall i | 0 <= i < |a| :: Lower(a)[i] == LowerChar(a[i]) && Lower(b)[i] == LowerChar(b[i]);
      forall i | 0 <= i < |a|
        ensures LowerChar(a[i]) == LowerChar(b[i])
          <==> || a[i] == b[i]
               || ('A' <= a[i] <= 'Z' && b[i] as int == a[i] as int + 32)
               || ('A' <= b[i] <= 'Z' && a[i] as int == b[i] as int + 32)
      {
        SameLetter(a[i], b[i]);
      }
    } else {
      assert |Lower(a)| != |Lower(b)|;
    }
  }

  lemma SameLetter(x: char, y: char)
    ensures LowerChar(x) == LowerChar(y)
      <==> || x == y
           || ('A' <= x <= 'Z' && y as int == x as int + 32)
           || ('A' <= y <= 'Z' && x as int == y as int + 32)
  {
  }

  /** Trimming takes white space off both ends and nothing else. */
  lemma TrimIs(s: string) returns (i: nat, j: nat)
    ensures i <= j <= |s| && Trim(s) == s[i..j]
    ensures forall k | 0 <= k < i || j <= k < |s| :: IsSpace(s[k])
    ensures i < j ==> !IsSpace(s[i]) && !IsSpace(s[j - 1])
  {
    i := TrimStartIs(s);
    j := TrimEndIs(TrimStart(s));
    assert s[i..][..j] == s[i..i + j];
    assert forall k | i + j <= k < |s| :: s[k] == s[i..][k - i];
    j := i + j;
  }

  lemma {:induction false} TrimStartIs(s: string) returns (i: nat)
    ensures i <= |s| && TrimStart(s) == s[i..]
    ensures forall k | 0 <= k < i :: IsSpace(s[k])
    ensures i < |s| ==> !IsSpace(s[i])
  {
    i := 0;
    if s != [] && IsSpace(s[0]) {
      i := TrimStartIs(s[1..]);
      i := i + 1;
    }
  }

  lemma {:induction false} TrimEndIs(s: string) returns (j: nat)
    ensures j <= |s| && TrimEnd(s) == s[..j]
    ensures forall k | j <= k < |s| :: IsSpace(s[k])
    ensures j > 0 ==> !IsSpace(s[j - 1])
  {
    j := |s|;
    if s != [] && IsSpace(s[|s| - 1]) {
      j := TrimEndIs(s[..|s| - 1]);
    }
  }
}
