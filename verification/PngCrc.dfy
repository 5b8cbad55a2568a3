/** The PNG container the QR codes are written in: chunks of a length, a kind, data and a cyclic
    redundancy code over kind and data (PNG Specification Second Edition, sections 5.3 and 5.5). */
module PngCrc {
  import opened Octets
  import opened Wrappers

  // ---------- The code ----------

  const POLYNOMIAL: bv32 := 0xEDB8_8320
  const ONES: bv32 := 0xFFFF_FFFF

  predicate LowBit(crc: bv32) {
    crc & 1 == 1
  }

  function Half(crc: bv32): bv32 {
    crc >> 1
  }

  function Xor(a: bv32, b: bv32): bv32 {
    a ^ b
  }

  function BitStep(crc: bv32): bv32 {
    if LowBit(crc) then Xor(Half(crc), POLYNOMIAL) else Half(crc)
  }

  function BitSteps(crc: bv32, n: nat): bv32
    decreases n
  {
    if n == 0 then crc else BitSteps(BitStep(crc), n - 1)
  }

  function ByteRound(crc: bv32, b: bv8): bv32 {
    BitSteps(Xor(crc, b as bv32), 8)
  }

  function Register(crc: bv32, bytes: seq<bv8>): bv32 {
    if bytes == [] then crc else ByteRound(Register(crc, bytes[..|bytes| - 1]), bytes[|bytes| - 1])
  }

  function Crc(bytes: seq<bv8>): bv32 {
    !Register(ONES, bytes)
  }

  method Crc32(bytes: seq<bv8>) returns (crc: bv32)
    ensures crc == Crc(bytes)
  {
    hide Xor, Half, LowBit, BitStep, BitSteps;
    crc := ONES;
    for i := 0 to |bytes|
      invariant crc == Register(ONES, bytes[..i])
    {
      assert bytes[..i + 1][..i] == bytes[..i];
      crc := Xor(crc, bytes[i] as bv32);
      crc := EightSteps(crc);
    }
    assert bytes[..|bytes|] == bytes;
    crc := !crc;
  }

  /** The inner loop. */
  method EightSteps(start: bv32) returns (crc: bv32)
    ensures crc == BitSteps(start, 8)
  {
    hide Xor, Half, LowBit;
    crc := start;
    for j := 0 to 8
      invariant BitSteps(start, 8) == BitSteps(crc, 8 - j)
    {
      crc := if LowBit(crc) then Xor(Half(crc), POLYNOMIAL) else Half(crc);
    }
  }

  // ---------- The bit step ----------

  lemma BitStepInjective(x: bv32, y: bv32)
    requires BitStep(x) == BitStep(y)
    ensures x == y
  {
  }

  lemma XorParts(x: bv32, y: bv32)
    ensures Half(Xor(x, y)) == Xor(Half(x), Half(y)) && (LowBit(Xor(x, y)) <==> LowBit(x) != LowBit(y))
  {
  }

  lemma XorLaws(a: bv32, b: bv32, c: bv32)
    ensures Xor(Xor(a, c), b) == Xor(Xor(a, b), c) && Xor(a, Xor(b, c)) == Xor(Xor(a, b), c)
    ensures Xor(Xor(a, c), Xor(b, c)) == Xor(a, b)
  {
  }

  lemma BitStepLinear(x: bv32, y: bv32)
    ensures BitStep(Xor(x, y)) == Xor(BitStep(x), BitStep(y))
  {
    XorParts(x, y);
    XorLaws(Half(x), Half(y), POLYNOMIAL);
    hide LowBit, Half, Xor;
  }

  lemma {:induction false} BitStepsInjective(x: bv32, y: bv32, n: nat)
    requires BitSteps(x, n) == BitSteps(y, n)
    ensures x == y
    decreases n
  {
    if n > 0 {
      BitStepsInjective(BitStep(x), BitStep(y), n - 1);
      BitStepInjective(x, y);
    }
  }

  lemma {:induction false} BitStepsLinear(x: bv32, y: bv32, n: nat)
    ensures BitSteps(Xor(x, y), n) == Xor(BitSteps(x, n), BitSteps(y, n))
    decreases n
  {
    hide BitStep, Xor;
    if n > 0 {
      BitStepLinear(x, y);
      BitStepsLinear(BitStep(x), BitStep(y), n - 1);
    }
  }

  lemma {:induction false} BitStepsSum(x: bv32, m: nat, n: nat)
    ensures BitSteps(x, m + n) == BitSteps(BitSteps(x, m), n)
    decreases m
  {
    hide BitStep;
    if m > 0 {
      BitStepsSum(BitStep(x), m - 1, n);
    }
  }

  // ---------- Four bytes at a time ----------

  predicate IsDouble(x: bv32, y: bv32) {
    y <= 0x7FFF_FFFF && x == y << 1
  }

  lemma EvenStep(x: bv32, y: bv32)
    requires IsDouble(x, y)
    ensures BitStep(x) == y
  {
  }

  lemma HighShifts(y: bv32)
    requires y <= 0xFF_FFFF
    ensures IsDouble(y << 8, y << 7) && IsDouble(y << 7, y << 6) && IsDouble(y << 6, y << 5) && IsDouble(y << 5, y << 4)
  {
  }

  lemma LowShifts(y: bv32)
    requires y <= 0xFF_FFFF
    ensures IsDouble(y << 4, y << 3) && IsDouble(y << 3, y << 2) && IsDouble(y << 2, y << 1) && IsDouble(y << 1, y)
  {
  }

  lemma FourDown(a4: bv32, a3: bv32, a2: bv32, a1: bv32, a0: bv32)
    requires IsDouble(a4, a3) && IsDouble(a3, a2) && IsDouble(a2, a1) && IsDouble(a1, a0)
    ensures BitSteps(a4, 4) == a0
  {
    hide IsDouble, BitStep;
    EvenStep(a4, a3);
    EvenStep(a3, a2);
    EvenStep(a2, a1);
    EvenStep(a1, a0);
  }

  /** Eight steps take eight zero bits out at the bottom. */
  lemma ShiftDown(y: bv32)
    requires y <= 0xFF_FFFF
    ensures BitSteps(y << 8, 8) == y
  {
    HighShifts(y);
    LowShifts(y);
    hide IsDouble, BitSteps;
    FourDown(y << 8, y << 7, y << 6, y << 5, y << 4);
    FourDown(y << 4, y << 3, y << 2, y << 1, y);
    BitStepsSum(y << 8, 4, 4);
  }

  /** A byte at each of the four places of a word. */
  function Place0(b: bv8): bv32 { b as bv32 }

  function Place1(b: bv8): bv32 { (b as bv32) << 8 }

  function Place2(b: bv8): bv32 { (b as bv32) << 16 }

  function Place3(b: bv8): bv32 { (b as bv32) << 24 }

  /** The four bytes as a little-endian word. */
  function Word(b0: bv8, b1: bv8, b2: bv8, b3: bv8): bv32 {
    Xor(Xor(Xor(Place0(b0), Place1(b1)), Place2(b2)), Place3(b3))
  }

  /** The bytes of a word, the most significant first. */
  function Byte3(w: bv32): bv8 { ((w >> 24) & 0xFF) as bv8 }

  function Byte2(w: bv32): bv8 { ((w >> 16) & 0xFF) as bv8 }

  function Byte1(w: bv32): bv8 { ((w >> 8) & 0xFF) as bv8 }

  function Byte0(w: bv32): bv8 { (w & 0xFF) as bv8 }

  lemma WordBytes(b0: bv8, b1: bv8, b2: bv8, b3: bv8)
    ensures Byte0(Word(b0, b1, b2, b3)) == b0 && Byte1(Word(b0, b1, b2, b3)) == b1
    ensures Byte2(Word(b0, b1, b2, b3)) == b2 && Byte3(Word(b0, b1, b2, b3)) == b3
  {
  }

  lemma BytesWord(w: bv32)
    ensures Word(Byte0(w), Byte1(w), Byte2(w), Byte3(w)) == w
  {
  }

  lemma Places(b: bv8)
    ensures Place1(b) == Place0(b) << 8 && Place2(b) == Place1(b) << 8 && Place3(b) == Place2(b) << 8
    ensures Place0(b) <= 0xFF_FFFF && Place1(b) <= 0xFF_FFFF && Place2(b) <= 0xFF_FFFF
  {
  }

  lemma PlacesDown(b: bv8)
    ensures BitSteps(Place1(b), 8) == Place0(b) && BitSteps(Place2(b), 16) == Place0(b) && BitSteps(Place3(b), 24) == Place0(b)
  {
    Places(b);
    hide Place0, Place1, Place2, Place3, BitSteps;
    ShiftDown(Place0(b));
    ShiftDown(Place1(b));
    ShiftDown(Place2(b));
    BitStepsSum(Place2(b), 8, 8);
    BitStepsSum(Place3(b), 8, 16);
  }

  /** Adding `b` after `n` steps is adding before them what they make `b`. */
  lemma Absorb(x: bv32, placed: bv32, b: bv32, n: nat)
    requires BitSteps(placed, n) == b
    ensures BitSteps(Xor(BitSteps(x, n), b), 8) == BitSteps(Xor(x, placed), n + 8)
  {
    BitStepsLinear(x, placed, n);
    BitStepsSum(Xor(x, placed), n, 8);
    hide Xor, BitSteps;
  }

  lemma XorAssoc(c: bv32, p0: bv32, p1: bv32, p2: bv32, p3: bv32)
    ensures Xor(Xor(Xor(Xor(c, p0), p1), p2), p3) == Xor(c, Xor(Xor(Xor(p0, p1), p2), p3))
  {
    XorLaws(c, p0, p1);
    XorLaws(c, Xor(p0, p1), p2);
    XorLaws(c, Xor(Xor(p0, p1), p2), p3);
    hide Xor;
  }

  /** Four byte rounds are thirty-two bit steps on the register with the four bytes added at once. */
  lemma FourRounds(c: bv32, b0: bv8, b1: bv8, b2: bv8, b3: bv8)
    ensures ByteRound(ByteRound(ByteRound(ByteRound(c, b0), b1), b2), b3) == BitSteps(Xor(c, Word(b0, b1, b2, b3)), 32)
  {
    hide Xor, BitSteps;
    var x1 := Xor(c, Place0(b0));
    var x2 := Xor(x1, Place1(b1));
    var x3 := Xor(x2, Place2(b2));
    RoundPlaced(c, b0);
    RoundPlaced(ByteRound(c, b0), b1);
    RoundPlaced(ByteRound(ByteRound(c, b0), b1), b2);
    RoundPlaced(ByteRound(ByteRound(ByteRound(c, b0), b1), b2), b3);
    hide Place0, Place1, Place2, Place3, ByteRound;
    PlacesDown(b1);
    PlacesDown(b2);
    PlacesDown(b3);
    Absorb(x1, Place1(b1), Place0(b1), 8);
    Absorb(x2, Place2(b2), Place0(b2), 16);
    Absorb(x3, Place3(b3), Place0(b3), 24);
    XorAssoc(c, Place0(b0), Place1(b1), Place2(b2), Place3(b3));
  }

  lemma RoundPlaced(c: bv32, b: bv8)
    ensures ByteRound(c, b) == BitSteps(Xor(c, Place0(b)), 8)
  {
    hide Xor, BitSteps;
  }

  // ---------- Bursts ----------

  lemma {:induction false} RegisterConcat(c: bv32, a: seq<bv8>, b: seq<bv8>)
    ensures Register(c, a + b) == Register(Register(c, a), b)
  {
    hide ByteRound;
    if b == [] {
      assert a + b == a;
    } else {
      assert (a + b)[..|a + b| - 1] == a + b[..|b| - 1];
      RegisterConcat(c, a, b[..|b| - 1]);
    }
  }

  lemma XorCancel(x: bv32, y: bv32, b: bv32)
    ensures Xor(x, b) == Xor(y, b) ==> x == y
    ensures Xor(b, x) == Xor(b, y) ==> x == y
  {
  }

  lemma {:induction false} RegisterInjective(c: bv32, d: bv32, bytes: seq<bv8>)
    requires Register(c, bytes) == Register(d, bytes)
    ensures c == d
  {
    if bytes != [] {
      var n := |bytes| - 1;
      var x, y, b := Register(c, bytes[..n]), Register(d, bytes[..n]), bytes[n];
      hide Xor, BitSteps;
      BitStepsInjective(Xor(x, b as bv32), Xor(y, b as bv32), 8);
      XorCancel(x, y, b as bv32);
      RegisterInjective(c, d, bytes[..n]);
    }
  }

  lemma RegisterFour(c: bv32, u: seq<bv8>)
    requires |u| == 4
    ensures Register(c, u) == BitSteps(Xor(c, Word(u[0], u[1], u[2], u[3])), 32)
  {
    hide ByteRound, BitSteps, Xor, Word;
    assert u[..3][..2] == u[..2] && u[..2][..1] == u[..1] && u[..1][..0] == [];
    assert Register(c, u[..1]) == ByteRound(c, u[0]);
    assert Register(c, u[..2]) == ByteRound(Register(c, u[..1]), u[1]);
    assert Register(c, u[..3]) == ByteRound(Register(c, u[..2]), u[2]);
    FourRounds(c, u[0], u[1], u[2], u[3]);
  }

  lemma FourInjective(c: bv32, u: seq<bv8>, v: seq<bv8>)
    requires |u| == |v| == 4 && Register(c, u) == Register(c, v)
    ensures u == v
  {
    hide Register, BitSteps, Xor, Word;
    RegisterFour(c, u);
    RegisterFour(c, v);
    var x, y := Word(u[0], u[1], u[2], u[3]), Word(v[0], v[1], v[2], v[3]);
    BitStepsInjective(Xor(c, x), Xor(c, y), 32);
    XorCancel(x, y, c);
    WordBytes(u[0], u[1], u[2], u[3]);
    WordBytes(v[0], v[1], v[2], v[3]);
  }

  lemma ShortInjective(c: bv32, u: seq<bv8>, v: seq<bv8>)
    requires |u| == |v| <= 4 && Register(c, u) == Register(c, v)
    ensures u == v
  {
    var pad: seq<bv8> := seq(4 - |u|, i => 0);
    RegisterConcat(c, u, pad);
    RegisterConcat(c, v, pad);
    FourInjective(c, u + pad, v + pad);
    assert u == (u + pad)[..|u|] && v == (v + pad)[..|v|];
  }

  /** The two differ, and only among the four bytes from `k` on. */
  ghost predicate Burst(u: seq<bv8>, v: seq<bv8>, k: nat) {
    |u| == |v| && u != v && forall i :: 0 <= i < |u| && !(k <= i < k + 4) ==> u[i] == v[i]
  }

  /** Texts of any length that differ only within four consecutive bytes have different codes. */
  lemma BurstsDetected(u: seq<bv8>, v: seq<bv8>, k: nat)
    requires Burst(u, v, k)
    ensures Crc(u) != Crc(v)
  {
    BurstRegisters(ONES, u, v, k);
    hide Register, Burst;
    ComplementInjective(Register(ONES, u), Register(ONES, v));
  }

  lemma CutInThree(s: seq<bv8>, lo: nat, hi: nat)
    requires lo <= hi <= |s|
    ensures s == s[..lo] + s[lo..hi] + s[hi..]
  {
  }

  /** The part where the two differ, and the same before and behind it. */
  lemma BurstWindow(u: seq<bv8>, v: seq<bv8>, k: nat) returns (lo: nat, hi: nat)
    requires Burst(u, v, k)
    ensures lo <= hi <= |u| == |v| && hi - lo <= 4
    ensures v[..lo] == u[..lo] && v[hi..] == u[hi..] && u[lo..hi] != v[lo..hi]
  {
    assert !(forall i :: 0 <= i < |u| ==> u[i] == v[i]);
    lo, hi := k, if k + 4 < |u| then k + 4 else |u|;
    assert v[..lo] == u[..lo] && v[hi..] == u[hi..];
    hide Burst;
    CutInThree(u, lo, hi);
    CutInThree(v, lo, hi);
  }

  lemma BurstRegisters(start: bv32, u: seq<bv8>, v: seq<bv8>, k: nat)
    requires Burst(u, v, k)
    ensures Register(start, u) != Register(start, v)
  {
    hide Register, Burst;
    var lo, hi := BurstWindow(u, v, k);
    CutInThree(u, lo, hi);
    CutInThree(v, lo, hi);
    if Register(start, u) == Register(start, v) {
      WindowSame(start, u[..lo], u[lo..hi], v[lo..hi], u[hi..]);
    }
  }

  lemma WindowSame(start: bv32, p: seq<bv8>, w: seq<bv8>, w': seq<bv8>, z: seq<bv8>)
    requires |w| == |w'| <= 4 && Register(start, p + w + z) == Register(start, p + w' + z)
    ensures w == w'
  {
    SplitRegister(start, p, w, z);
    SplitRegister(start, p, w', z);
    var c := Register(start, p);
    RegisterInjective(Register(c, w), Register(c, w'), z);
    ShortInjective(c, w, w');
  }

  lemma ComplementInjective(x: bv32, y: bv32)
    ensures !x == !y ==> x == y
  {
  }

  lemma SplitRegister(c: bv32, p: seq<bv8>, w: seq<bv8>, z: seq<bv8>)
    ensures Register(c, p + w + z) == Register(Register(Register(c, p), w), z)
  {
    RegisterConcat(c, p + w, z);
    RegisterConcat(c, p, w);
  }

  // ---------- Chunks ----------

  function CrcBytes(crc: bv32): (b: seq<bv8>)
    ensures |b| == 4
  {
    [Byte3(crc), Byte2(crc), Byte1(crc), Byte0(crc)]
  }

  /** The word four bytes stand for, the most significant one first. */
  function FromCrcBytes(b: seq<bv8>): bv32
    requires |b| == 4
  {
    Word(b[3], b[2], b[1], b[0])
  }

  lemma CrcBytesRoundTrip(crc: bv32)
    ensures FromCrcBytes(CrcBytes(crc)) == crc
  {
    BytesWord(crc);
    hide Word, Byte0, Byte1, Byte2, Byte3;
  }

  /** A chunk that carries `crc`. */
  function Layout(length: nat, body: seq<bv8>, crc: bv32): seq<bv8> {
    U32(length) + body + CrcBytes(crc)
  }

  function Written(kind: seq<bv8>, data: seq<bv8>): seq<bv8> {
    Layout(|data|, kind + data, Crc(kind + data))
  }

  /** `chunk`. */
  method WriteChunk(start: seq<bv8>, kind: seq<bv8>, data: seq<bv8>) returns (out: seq<bv8>)
    ensures out == start + Written(kind, data)
  {
    hide Crc, CrcBytes, U32;
    out := start + U32(|data|);
    var body := kind + data;
    out := out + body;
    var crc := Crc32(body);
    out := out + CrcBytes(crc);
  }

  datatype Chunk = Chunk(kind: seq<bv8>, data: seq<bv8>, rest: seq<bv8>)

  /** A reader of one chunk, after section 5.3 of the PNG specification. */
  function ReadChunk(s: seq<bv8>): Option<Chunk> {
    if |s| < 12 then None
    else
      var n := FromU32(s[..4]);
      if |s| < 12 + n || FromCrcBytes(s[8 + n..12 + n]) != Crc(s[4..8 + n]) then None
      else Some(Chunk(s[4..8], s[8..8 + n], s[12 + n..]))
  }

  lemma LayoutParts(n: nat, body: seq<bv8>, crc: bv32, rest: seq<bv8>)
    requires n < U32S && |body| == n + 4
    ensures var s := Layout(n, body, crc) + rest;
      && |s| >= 12 + n && FromU32(s[..4]) == n && s[4..8 + n] == body
      && s[8 + n..12 + n] == CrcBytes(crc) && s[12 + n..] == rest
  {
    U32RoundTrip(n);
    hide U32, CrcBytes, FromU32;
    var s := Layout(n, body, crc) + rest;
    assert s[..4] == U32(n);
  }

  lemma BodyParts(s: seq<bv8>, n: nat, kind: seq<bv8>, data: seq<bv8>)
    requires |kind| == 4 && |data| == n && |s| >= 8 + n && s[4..8 + n] == kind + data
    ensures s[4..8] == kind && s[8..8 + n] == data
  {
    var body := s[4..8 + n];
    assert s[4..8] == body[..4] && s[8..8 + n] == body[4..];
  }

  lemma ReadsBack(s: seq<bv8>, kind: seq<bv8>, data: seq<bv8>, rest: seq<bv8>)
    requires |kind| == 4 && |s| >= 12 + |data| && FromU32(s[..4]) == |data| && s[4..8 + |data|] == kind + data
    requires s[8 + |data|..12 + |data|] == CrcBytes(Crc(kind + data)) && s[12 + |data|..] == rest
    ensures ReadChunk(s) == Some(Chunk(kind, data, rest))
  {
    hide Crc, CrcBytes, FromCrcBytes, FromU32;
    BodyParts(s, |data|, kind, data);
    CrcBytesRoundTrip(Crc(kind + data));
  }

  lemma ShortChunk(kind: seq<bv8>, data: seq<bv8>, rest: seq<bv8>)
    requires |kind| == 4 && |data| < U32S
    ensures ReadChunk(Written(kind, data) + rest) == Some(Chunk(kind, data, rest))
  {
    hide Crc, CrcBytes, FromU32, Layout, ReadChunk;
    LayoutParts(|data|, kind + data, Crc(kind + data), rest);
    ReadsBack(Written(kind, data) + rest, kind, data, rest);
  }

  lemma LongChunk(kind: seq<bv8>, data: seq<bv8>, rest: seq<bv8>)
    requires |kind| == 4 && |data| >= U32S
    ensures ReadChunk(Written(kind, data) + rest) != Some(Chunk(kind, data, rest))
  {
    hide Crc, CrcBytes, U32, FromU32, ReadChunk, Written;
    LengthField(kind, data, rest);
    U32RoundTrip(|data|);
    ReadLength(Written(kind, data) + rest);
  }

  lemma LengthField(kind: seq<bv8>, data: seq<bv8>, rest: seq<bv8>)
    ensures var s := Written(kind, data) + rest; |s| >= 4 && s[..4] == U32(|data|)
  {
    hide Crc, CrcBytes, U32;
  }

  lemma ReadLength(s: seq<bv8>)
    ensures ReadChunk(s).Some? ==> |s| >= 4 && |ReadChunk(s).value.data| == FromU32(s[..4])
  {
    hide Crc, FromCrcBytes, FromU32;
  }

  /** What is written can be read back, whatever follows it, exactly when the length of the data
      fits the length field. */
  lemma ChunkRoundTrip(kind: seq<bv8>, data: seq<bv8>, rest: seq<bv8>)
    requires |kind| == 4
    ensures ReadChunk(Written(kind, data) + rest) == Some(Chunk(kind, data, rest)) <==> |data| < U32S
  {
    hide ReadChunk, Written;
    if |data| < U32S {
      ShortChunk(kind, data, rest);
    } else {
      LongChunk(kind, data, rest);
    }
  }

  /** A change to kind or data that is confined to four consecutive bytes is noticed. */
  lemma BurstsRejected(kind: seq<bv8>, data: seq<bv8>, rest: seq<bv8>, body: seq<bv8>, k: nat)
    requires |kind| == 4 && |data| < U32S && Burst(kind + data, body, k)
    ensures ReadChunk(Layout(|data|, body, Crc(kind + data)) + rest) == None
  {
    hide Crc, CrcBytes, FromCrcBytes, FromU32, Layout, ReadChunk;
    var crc := Crc(kind + data);
    assert |body| == |data| + 4;
    BurstsDetected(kind + data, body, k);
    CrcBytesRoundTrip(crc);
    hide Burst;
    LayoutParts(|data|, body, crc, rest);
    Mismatch(Layout(|data|, body, crc) + rest, |data|);
  }

  lemma Mismatch(s: seq<bv8>, n: nat)
    requires |s| >= 12 + n && FromU32(s[..4]) == n && FromCrcBytes(s[8 + n..12 + n]) != Crc(s[4..8 + n])
    ensures ReadChunk(s) == None
  {
    hide Crc, FromCrcBytes, FromU32;
  }

  // ---------- The file ----------

  const SIGNATURE: seq<bv8> := [0x89, 0x50, 0x4E, 0x47, 0x0D, 0x0A, 0x1A, 0x0A]
  const IHDR: seq<bv8> := [0x49, 0x48, 0x44, 0x52]
  const IDAT: seq<bv8> := [0x49, 0x44, 0x41, 0x54]
  const IEND: seq<bv8> := [0x49, 0x45, 0x4E, 0x44]
  const GREYSCALE: seq<bv8> := [8, 0, 0, 0, 0]

  function Header(side: nat): seq<bv8> {
    U32(side) + U32(side) + GREYSCALE
  }

  function Png(side: nat, idat: seq<bv8>): seq<bv8> {
    SIGNATURE + Written(IHDR, Header(side)) + Written(IDAT, idat) + Written(IEND, [])
  }

  method WritePng(side: nat, idat: seq<bv8>) returns (out: seq<bv8>)
    ensures out == Png(side, idat)
  {
    hide Written;
    out := SIGNATURE;
    var ihdr: seq<bv8> := U32(side);
    ihdr := ihdr + U32(side);
    ihdr := ihdr + [8, 0, 0, 0, 0];
    assert ihdr == Header(side);
    out := WriteChunk(out, IHDR, ihdr);
    out := WriteChunk(out, IDAT, idat);
    out := WriteChunk(out, IEND, []);
  }

  datatype Image = Image(width: nat, height: nat, idat: seq<bv8>)

  /** Width and height, from a header chunk of eight-bit greyscale without interlacing. */
  function Size(h: Chunk): Option<(nat, nat)> {
    if h.kind != [73, 72, 68, 82] || |h.data| != 13 || h.data[8..] != [8, 0, 0, 0, 0] then None
    else Some((FromU32(h.data[..4]), FromU32(h.data[4..8])))
  }

  /** A reader of files of this form, with the signature and the chunk types of sections 5.2 and 11.2
      of the PNG specification. */
  function ReadPng(s: seq<bv8>): Option<Image> {
    if |s| < 8 || s[..8] != [137, 80, 78, 71, 13, 10, 26, 10] then None
    else match ReadChunk(s[8..])
      case None => None
      case Some(h) => match ReadChunk(h.rest)
        case None => None
        case Some(d) =>
          if Size(h).None? || d.kind != [73, 68, 65, 84] || ReadChunk(d.rest) != Some(Chunk([73, 69, 78, 68], [], [])) then None
          else Some(Image(Size(h).value.0, Size(h).value.1, d.data))
  }

  lemma HeaderSize(side: nat, rest: seq<bv8>)
    requires side < U32S
    ensures |Header(side)| == 13 && Size(Chunk(IHDR, Header(side), rest)) == Some((side, side))
  {
    U32RoundTrip(side);
    hide U32, FromU32;
    assert Header(side)[..4] == U32(side) && Header(side)[4..8] == U32(side) && Header(side)[8..] == GREYSCALE;
  }

  lemma PngRoundTrip(side: nat, idat: seq<bv8>)
    requires side < U32S && |idat| < U32S
    ensures ReadPng(Png(side, idat)) == Some(Image(side, side, idat))
  {
    hide Written, ReadChunk, Header, Size;
    var s, end := Png(side, idat), Written(IEND, []);
    var h, d := Written(IHDR, Header(side)), Written(IDAT, idat);
    HeaderSize(side, d + end);
    assert s[8..] == h + (d + end) && end == end + [] && s[..8] == SIGNATURE;
    ChunkRoundTrip(IHDR, Header(side), d + end);
    ChunkRoundTrip(IDAT, idat, end);
    ChunkRoundTrip(IEND, [], []);
  }
}
