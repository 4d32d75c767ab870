/** Products and bytes, for proofs that should not meet them. */
module Arithmetic {
  lemma MulMonotone(a: nat, b: nat, m: nat)
    requires a <= b
    ensures a * m <= b * m && a * m == m * a
  {}

  lemma TenTimes(a: nat, p: nat)
    ensures a * (10 * p) == 10 * (a * p) == (10 * a) * p
  {}

  lemma TenthOf(x: nat)
    ensures (10 * x) % 10 == 0 && (10 * x) / 10 == x
  {}

  lemma Positive(a: nat, b: nat)
    requires a > 0 && b > 0
    ensures a * b > 0
  {}

  // ----- Numbers as bytes -----

  function ByteOf(n: nat): bv8
    requires n < 256
  {
    n as bv8
  }

  lemma ByteIs(n: nat)
    requires n < 256
    ensures ByteOf(n) as nat == n
  {
    var b := ByteOfNumber(n);
    NumberOfByte(b);
  }

  lemma {:induction false} ByteOfNumber(n: nat) returns (b: bv8)
    requires n < 256
    ensures b as nat == n
  {
    if n == 0 {
      b := 0;
    } else {
      var before := ByteOfNumber(n - 1);
      NextByte(before);
      b := before + 1;
    }
  }

  lemma NextByte(b: bv8)
    ensures b as nat < 255 ==> (b + 1) as nat == b as nat + 1
  {}

  lemma NumberOfByte(b: bv8)
    ensures b as nat < 256 && (b as nat) as bv8 == b
  {}
}
