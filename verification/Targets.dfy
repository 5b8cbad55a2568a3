/** The network target a header's compact bits stand for, as the bridge decodes it into an
    unbounded integer (`calculate_target`) and as the node decodes it into 256 bits
    (`Uint256::from_compact_target_bits`, in a release build). */
module Targets {
  import opened Powers

  type Bits = b: int | 0 <= b < 0x1_0000_0000

  const TWO_256: nat := 0x1_0000_0000_0000_0000_0000_0000_0000_0000_0000_0000_0000_0000_0000_0000_0000_0000

  /** The last three bytes, shifted right by `8 * (3 - exponent)` for an exponent under three. */
  function Mantissa(bits: Bits): nat {
    var exponent, mantissa := bits / 0x100_0000, bits % 0x100_0000;
    if exponent == 0 then 0
    else if exponent == 1 then mantissa / 0x1_0000
    else if exponent == 2 then mantissa / 0x100
    else mantissa
  }

  function Shift(bits: Bits): nat {
    var exponent := bits / 0x100_0000;
    if exponent <= 3 then 0 else 8 * (exponent - 3)
  }

  function BridgeTarget(bits: Bits): nat {
    Mantissa(bits) * Pow2(Shift(bits))
  }

  /** The mantissa is signed for the node, the shift is taken modulo 256 and the result cut off. */
  function NodeTarget(bits: Bits): nat {
    if Mantissa(bits) > 0x7F_FFFF then 0
    else (Mantissa(bits) * Pow2(Shift(bits) % 256)) % TWO_256
  }

  // ---------- What the bits stand for ----------

  /** The number the compact form writes, `mantissa * 256^exponent`, before the division by `256^3`. */
  function Scaled(bits: Bits): nat {
    (bits % 0x100_0000) * Pow2(8 * (bits / 0x100_0000))
  }

  lemma FirstPowers()
    ensures Pow2(0) == 1 && Pow2(8) == 0x100
  {
  }

  lemma SmallPowers()
    ensures Pow2(0) == 1 && Pow2(8) == 0x100 && Pow2(16) == 0x1_0000 && Pow2(24) == 0x100_0000
  {
    hide Pow2;
    FirstPowers();
    Pow2Adds(8, 8);
    Pow2Adds(8, 16);
  }

  lemma ScaledUp(m: nat, k: nat)
    ensures (m * Pow2(24 + k)) / 0x100_0000 == m * Pow2(k)
  {
    hide Pow2;
    SmallPowers();
    Pow2Adds(24, k);
    assert m * (0x100_0000 * Pow2(k)) == 0x100_0000 * (m * Pow2(k));
  }

  /** The bridge's target is the number the bits stand for, without its fraction. */
  lemma BridgeTargetIs(bits: Bits)
    ensures BridgeTarget(bits) * 0x100_0000 <= Scaled(bits) < (BridgeTarget(bits) + 1) * 0x100_0000
  {
    hide Pow2;
    SmallPowers();
    var exponent, mantissa := bits / 0x100_0000, bits % 0x100_0000;
    if exponent >= 3 {
      ScaledUp(mantissa, 8 * (exponent - 3));
    }
  }

  /** The node's target is the bridge's, unless the sign bit of the mantissa is set or the target is
      past 256 bits; an exponent past 34 counts as one smaller by 32. */
  lemma NodeTargetIs(bits: Bits)
    ensures bits / 0x100_0000 >= 3 && bits % 0x100_0000 >= 0x80_0000 ==> NodeTarget(bits) == 0
    ensures bits / 0x100_0000 < 3 ==> NodeTarget(bits) == Scaled(bits) / 0x100_0000
    ensures 3 <= bits / 0x100_0000 <= 34 && bits % 0x100_0000 < 0x80_0000 ==> NodeTarget(bits) == Scaled(bits) / 0x100_0000 % TWO_256
    ensures bits / 0x100_0000 > 34 ==> NodeTarget(bits) == NodeTarget(bits - 32 * 0x100_0000)
  {
    hide Mantissa, Shift, BridgeTarget, NodeTarget, Scaled;
    Decoded(bits);
    WithoutFraction(bits);
    if bits / 0x100_0000 > 34 {
      WrapParts(bits);
      SameParts(bits, bits - 32 * 0x100_0000);
    } else if Mantissa(bits) <= 0x7F_FFFF {
      NodeFollows(bits);
    }
    if Mantissa(bits) > 0x7F_FFFF {
      NodeNegative(bits);
    }
  }

  lemma WithoutFraction(bits: Bits)
    ensures BridgeTarget(bits) == Scaled(bits) / 0x100_0000
  {
    BridgeTargetIs(bits);
    hide BridgeTarget, Scaled;
  }

  lemma Decoded(bits: Bits)
    ensures Mantissa(bits) <= 0x7F_FFFF <==> bits / 0x100_0000 < 3 || bits % 0x100_0000 < 0x80_0000
    ensures bits / 0x100_0000 <= 34 ==> Shift(bits) < 256
    ensures bits / 0x100_0000 < 3 ==> Mantissa(bits) < 0x1_0000 && Shift(bits) == 0
  {
  }

  lemma NodeNegative(bits: Bits)
    requires Mantissa(bits) > 0x7F_FFFF
    ensures NodeTarget(bits) == 0
  {
  }

  lemma NodeFollows(bits: Bits)
    requires Mantissa(bits) <= 0x7F_FFFF && Shift(bits) < 256
    ensures NodeTarget(bits) == BridgeTarget(bits) % TWO_256
    ensures Shift(bits) == 0 ==> NodeTarget(bits) == BridgeTarget(bits)
  {
    assert Pow2(0) == 1;
    hide Mantissa, Shift, Pow2;
    assert Shift(bits) % 256 == Shift(bits);
    if Shift(bits) == 0 {
      assert BridgeTarget(bits) == Mantissa(bits);
    }
  }

  lemma WrapParts(bits: Bits)
    requires bits / 0x100_0000 > 34
    ensures Mantissa(bits - 32 * 0x100_0000) == Mantissa(bits) && Shift(bits - 32 * 0x100_0000) == Shift(bits) - 256
  {
  }

  lemma SameParts(bits: Bits, other: Bits)
    requires Mantissa(other) == Mantissa(bits) && Shift(other) == Shift(bits) - 256
    ensures NodeTarget(other) == NodeTarget(bits)
  {
    hide Pow2, Mantissa, Shift;
    assert Shift(other) % 256 == Shift(bits) % 256;
  }

  predicate BridgeAccepts(bits: Bits, pow: nat) {
    pow <= BridgeTarget(bits)
  }

  predicate NodeAccepts(bits: Bits, pow: nat) {
    pow <= NodeTarget(bits)
  }

  /** Non-negative mantissa, and a target that fits 256 bits. */
  predicate Canonical(bits: Bits) {
    Mantissa(bits) <= 0x7F_FFFF && Mantissa(bits) * Pow2(Shift(bits)) < TWO_256
  }

  /** In terms of the bits: the sign bit is clear, or shifted out, and the number is below `2^256`. */
  lemma CanonicalBits(bits: Bits)
    ensures Canonical(bits) <==>
            && (bits / 0x100_0000 < 3 || bits % 0x100_0000 < 0x80_0000)
            && Scaled(bits) < TWO_256 * 0x100_0000
  {
    BridgeTargetIs(bits);
    hide Pow2, Scaled;
  }

  lemma WideShift(s: nat)
    requires s >= 256
    ensures Pow2(s) >= TWO_256
  {
    hide Pow2;
    SmallPowers();
    var n := 8;
    n := SquarePow2(n, 0x100);
    n := SquarePow2(n, 0x1_0000);
    n := SquarePow2(n, 0x1_0000_0000);
    n := SquarePow2(n, 0x1_0000_0000_0000_0000);
    n := SquarePow2(n, 0x1_0000_0000_0000_0000_0000_0000_0000_0000);
    Pow2Adds(n, s - n);
    TimesAtLeast(TWO_256, Pow2(s - n));
  }

  lemma TimesAtLeast(a: nat, p: nat)
    requires p >= 1
    ensures a * p >= a && (a >= 1 ==> a * p >= p)
  {
    if a >= 1 {
      assert a * p == (a - 1) * p + p;
    }
    assert a * p == a * (p - 1) + a;
  }

  lemma TargetsAgreeWhenCanonical(bits: Bits)
    requires Canonical(bits)
    ensures BridgeTarget(bits) == NodeTarget(bits) < TWO_256
  {
    hide Mantissa, Shift, Pow2;
    var m, s := Mantissa(bits), Shift(bits);
    if s >= 256 {
      TimesAtLeast(m, Pow2(s));
      WideShift(s);
      assert m == 0;
    }
  }

  /** An even number leaves an even remainder when it is divided by an even one. */
  lemma EvenRemainder(a: nat, half: nat)
    requires half > 0
    ensures (2 * a) % (2 * half) != 2 * half - 1
  {
    var m := 2 * half;
    var q, r := (2 * a) / m, (2 * a) % m;
    assert 2 * a == q * m + r;
    EvenParts(a, half, q, r, q * half);
  }

  lemma EvenParts(a: int, half: int, q: int, r: int, z: int)
    requires z == q * half && 2 * a == q * (2 * half) + r
    ensures r == 2 * (a - z)
  {
    assert q * (2 * half) == 2 * z;
  }

  /** Whatever the bits, there is a hash the node refuses. */
  lemma NodeTargetNotMaximal(bits: Bits)
    ensures NodeTarget(bits) < TWO_256 - 1
  {
    hide Mantissa, Shift, Pow2;
    Shifted(Mantissa(bits), Shift(bits) % 256);
  }

  lemma Shifted(m: nat, k: nat)
    ensures m <= 0x7F_FFFF ==> (m * Pow2(k)) % TWO_256 < TWO_256 - 1
  {
    if k > 0 {
      var p := Pow2(k - 1);
      assert Pow2(k) == 2 * p;
      hide Pow2;
      assert m * (2 * p) == 2 * (m * p);
      EvenRemainder(m * p, TWO_256 / 2);
    }
  }

  /** Bridge and node take the same decision on every 256-bit hash exactly for canonical bits. */
  lemma DecisionsAgree(bits: Bits)
    ensures (forall pow: nat :: pow < TWO_256 ==> BridgeAccepts(bits, pow) == NodeAccepts(bits, pow))
            <==> Canonical(bits)
  {
    hide Mantissa, Shift, Pow2;
    if Canonical(bits) {
      TargetsAgreeWhenCanonical(bits);
    } else if Mantissa(bits) > 0x7F_FFFF {
      TimesAtLeast(Mantissa(bits), Pow2(Shift(bits)));
      assert BridgeAccepts(bits, 1) && !NodeAccepts(bits, 1);
    } else {
      NodeTargetNotMaximal(bits);
      assert BridgeAccepts(bits, TWO_256 - 1) && !NodeAccepts(bits, TWO_256 - 1);
    }
  }
}
