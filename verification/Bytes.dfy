/** Numbers as little-endian and big-endian bytes. */
module Bytes {
  type Byte = n: nat | n < 256

  const U16: nat := 0x1_0000
  const U32: nat := 0x1_0000_0000
  const U64: nat := 0x1_0000_0000_0000_0000
  const U192: nat := 0x1_0000_0000_0000_0000_0000_0000_0000_0000_0000_0000_0000_0000

  function Pow256(n: nat): (p: nat)
    ensures p > 0
  {
    if n == 0 then 1 else 256 * Pow256(n - 1)
  }

  lemma {:induction false} Pow256Sum(a: nat, b: nat)
    ensures Pow256(a + b) == Pow256(a) * Pow256(b)
  {
    if a > 0 {
      Pow256Sum(a - 1, b);
      Regroup(Pow256(a - 1), Pow256(b));
    }
  }

  lemma Regroup(x: int, y: int)
    ensures 256 * (x * y) == (256 * x) * y
  {
  }

  lemma Widths()
    ensures Pow256(2) == U16 && Pow256(4) == U32 && Pow256(8) == U64 && Pow256(24) == U192
  {
    Width8(8);
    Width24(8);
  }

  lemma Width8(n: nat)
    requires n == 8
    ensures Pow256(n) == U64
  {
    assert Pow256(4) == U32;
    Pow256Sum(n - 4, 4);
  }

  lemma Width24(n: nat)
    requires n == 8
    ensures Pow256(3 * n) == U192
  {
    Width8(n);
    Pow256Sum(n, n);
    Pow256Sum(n, 2 * n);
  }

  // ---------- Little-endian ----------

  function LE(n: nat, width: nat): (b: seq<Byte>)
    ensures |b| == width
  {
    if width == 0 then [] else [n % 256] + LE(n / 256, width - 1)
  }

  function FromLE(b: seq<Byte>): nat {
    if b == [] then 0 else b[0] + 256 * FromLE(b[1..])
  }

  lemma {:induction false} LERoundTrip(n: nat, width: nat)
    requires n < Pow256(width)
    ensures FromLE(LE(n, width)) == n
  {
    if width > 0 {
      assert LE(n, width)[1..] == LE(n / 256, width - 1);
      LERoundTrip(n / 256, width - 1);
    }
  }

  lemma {:induction false} FromLERoundTrip(b: seq<Byte>)
    ensures FromLE(b) < Pow256(|b|) && LE(FromLE(b), |b|) == b
  {
    if b != [] {
      FromLERoundTrip(b[1..]);
      assert FromLE(b) / 256 == FromLE(b[1..]) && FromLE(b) % 256 == b[0];
    }
  }

  // ---------- Big-endian ----------

  function BE(n: nat, width: nat): (b: seq<Byte>)
    ensures |b| == width
  {
    if width == 0 then [] else BE(n / 256, width - 1) + [n % 256]
  }

  function FromBE(b: seq<Byte>): nat {
    if b == [] then 0 else FromBE(b[..|b| - 1]) * 256 + b[|b| - 1]
  }

  lemma {:induction false} BERoundTrip(n: nat, width: nat)
    requires n < Pow256(width)
    ensures FromBE(BE(n, width)) == n
  {
    if width > 0 {
      assert BE(n, width)[..width - 1] == BE(n / 256, width - 1);
      BERoundTrip(n / 256, width - 1);
    }
  }

  /** Without the zeros in front. */
  function StripZeros(b: seq<Byte>): seq<Byte> {
    if b != [] && b[0] == 0 then StripZeros(b[1..]) else b
  }

  lemma {:induction false} StripZerosValue(b: seq<Byte>)
    ensures FromBE(StripZeros(b)) == FromBE(b) && |StripZeros(b)| <= |b|
  {
    if b != [] && b[0] == 0 {
      StripZerosValue(b[1..]);
      LeadingZero(b);
    }
  }

  lemma {:induction false} LeadingZero(b: seq<Byte>)
    requires b != [] && b[0] == 0
    ensures FromBE(b) == FromBE(b[1..])
  {
    if |b| > 1 {
      LeadingZero(b[..|b| - 1]);
      assert b[1..][..|b| - 2] == b[..|b| - 1][1..];
    }
  }
}
