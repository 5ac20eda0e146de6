/** The smaller and the larger of two numbers, and subtraction that stops at zero. */
module Numbers {
  function Min(a: nat, b: nat): (m: nat)
    ensures m <= a && m <= b && (m == a || m == b)
  {
    if a < b then a else b
  }

  function Max(a: nat, b: nat): (m: nat)
    ensures m >= a && m >= b && (m == a || m == b)
  {
    if a > b then a else b
  }

  function Less(a: nat, b: nat): (d: nat)
    ensures d + b == a || (d == 0 && a <= b)
  {
    if a > b then a - b else 0
  }
}
