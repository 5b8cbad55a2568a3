/** 32-bit numbers as four big-endian bytes. Bytes are bit vectors, and their bits are the binary
    digits of the number. */
module Octets {
  const U32S: nat := 0x1_0000_0000

  function Bit(on: bool, mask: bv8): bv8 {
    if on then mask else 0
  }

  function Digit(on: bool): nat {
    if on then 1 else 0
  }

  function Nibble(b0: bool, b1: bool, b2: bool, b3: bool): (n: nat)
    ensures n < 16
  {
    Digit(b0) + 2 * Digit(b1) + 4 * Digit(b2) + 8 * Digit(b3)
  }

  function Pack(b0: bool, b1: bool, b2: bool, b3: bool, b4: bool, b5: bool, b6: bool, b7: bool): bv8 {
    Bit(b0, 1) | Bit(b1, 2) | Bit(b2, 4) | Bit(b3, 8) | Bit(b4, 16) | Bit(b5, 32) | Bit(b6, 64) | Bit(b7, 128)
  }

  predicate Has(b: bv8, mask: bv8) {
    b & mask == mask
  }

  lemma PackHas(b0: bool, b1: bool, b2: bool, b3: bool, b4: bool, b5: bool, b6: bool, b7: bool)
    ensures var b := Pack(b0, b1, b2, b3, b4, b5, b6, b7);
      && Has(b, 1) == b0 && Has(b, 2) == b1 && Has(b, 4) == b2 && Has(b, 8) == b3
      && Has(b, 16) == b4 && Has(b, 32) == b5 && Has(b, 64) == b6 && Has(b, 128) == b7
  {
  }

  predicate Odd(n: nat) {
    n % 2 == 1
  }

  /** The low byte of a number. */
  function Low(n: nat): bv8 {
    var q1 := n / 2;
    var q2 := q1 / 2;
    var q3 := q2 / 2;
    var q4 := q3 / 2;
    var q5 := q4 / 2;
    var q6 := q5 / 2;
    var q7 := q6 / 2;
    Pack(Odd(n), Odd(q1), Odd(q2), Odd(q3), Odd(q4), Odd(q5), Odd(q6), Odd(q7))
  }

  function Value(b: bv8): nat {
    Nibble(Has(b, 1), Has(b, 2), Has(b, 4), Has(b, 8)) + 16 * Nibble(Has(b, 16), Has(b, 32), Has(b, 64), Has(b, 128))
  }

  lemma PackValue(b0: bool, b1: bool, b2: bool, b3: bool, b4: bool, b5: bool, b6: bool, b7: bool)
    ensures Value(Pack(b0, b1, b2, b3, b4, b5, b6, b7)) == Nibble(b0, b1, b2, b3) + 16 * Nibble(b4, b5, b6, b7)
  {
    PackHas(b0, b1, b2, b3, b4, b5, b6, b7);
    hide Has, Pack, Nibble;
  }

  lemma Halved(n: nat)
    ensures n == 2 * (n / 2) + Digit(Odd(n))
  {
  }

  lemma FourBits(n: nat, q1: nat, q2: nat, q3: nat, q4: nat)
    requires q1 == n / 2 && q2 == q1 / 2 && q3 == q2 / 2 && q4 == q3 / 2
    ensures n == 16 * q4 + Nibble(Odd(n), Odd(q1), Odd(q2), Odd(q3))
  {
    hide Odd;
    Halved(n);
    Halved(q1);
    Halved(q2);
    Halved(q3);
  }

  lemma Remainder(n: nat, q: nat, r: nat)
    requires n == 256 * q + r && r < 256
    ensures n % 256 == r
  {
  }

  lemma LowRoundTrip(n: nat)
    ensures Value(Low(n)) == n % 256
  {
    hide Pack, Odd, Nibble, Value;
    var q1 := n / 2;
    var q2 := q1 / 2;
    var q3 := q2 / 2;
    var q4 := q3 / 2;
    var q5 := q4 / 2;
    var q6 := q5 / 2;
    var q7 := q6 / 2;
    var b := Low(n);
    assert b == Pack(Odd(n), Odd(q1), Odd(q2), Odd(q3), Odd(q4), Odd(q5), Odd(q6), Odd(q7));
    hide Low;
    PackValue(Odd(n), Odd(q1), Odd(q2), Odd(q3), Odd(q4), Odd(q5), Odd(q6), Odd(q7));
    FourBits(n, q1, q2, q3, q4);
    FourBits(q4, q5, q6, q7, q7 / 2);
    Remainder(n, q7 / 2, Value(b));
  }

  /** The low 32 bits, big-endian. */
  function U32(n: nat): (b: seq<bv8>)
    ensures |b| == 4
  {
    [Low(n / 0x100_0000), Low(n / 0x1_0000), Low(n / 0x100), Low(n)]
  }

  function FromU32(b: seq<bv8>): nat
    requires |b| == 4
  {
    Value(b[0]) * 0x100_0000 + Value(b[1]) * 0x1_0000 + Value(b[2]) * 0x100 + Value(b[3])
  }

  lemma U32RoundTrip(n: nat)
    ensures FromU32(U32(n)) == n % U32S
  {
    hide Low, Value;
    LowRoundTrip(n / 0x100_0000);
    LowRoundTrip(n / 0x1_0000);
    LowRoundTrip(n / 0x100);
    LowRoundTrip(n);
    FourDigits(n, n / 0x100, n / 0x1_0000, n / 0x100_0000);
  }

  lemma FourDigits(n: nat, q1: nat, q2: nat, q3: nat)
    requires q1 == n / 0x100 && q2 == n / 0x1_0000 && q3 == n / 0x100_0000
    ensures (q3 % 256) * 0x100_0000 + (q2 % 256) * 0x1_0000 + (q1 % 256) * 0x100 + n % 256 == n % U32S
  {
    assert q2 == q1 / 256;
    assert q3 == q2 / 256;
    assert n / U32S == q3 / 256;
  }
}
