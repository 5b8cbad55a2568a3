/** The bytes a block header is hashed from: what the bridge feeds the hasher for the pre-PoW hash,
    and a decoder that shows that nothing in them is ambiguous. */
module HeaderPreimage {
  import opened Bytes
  import opened CompressedParents
  import opened Wrappers

  type Hash = seq<Byte>

  datatype Commitments =
    Commitments(hashMerkleRoot: Hash, acceptedIdMerkleRoot: Hash, utxoCommitment: Hash, poolCommitment: Hash)

  datatype Header =
    Header(version: nat, parents: seq<Run<seq<Hash>>>, commitments: Commitments, timestamp: nat, bits: nat,
           nonce: nat, daaScore: nat, blueWork: nat, blueScore: nat, pruningPoint: Hash)

  predicate HashesValid(hashes: seq<Hash>) {
    |hashes| < U64 && forall i :: 0 <= i < |hashes| ==> |hashes[i]| == 32
  }

  predicate CommitmentsValid(c: Commitments) {
    |c.hashMerkleRoot| == |c.acceptedIdMerkleRoot| == |c.utxoCommitment| == |c.poolCommitment| == 32
  }

  /** The ranges of the header's machine types. */
  ghost predicate Valid(h: Header) {
    && h.version < U16 && h.bits < U32 && h.timestamp < U64 && h.nonce < U64
    && h.daaScore < U64 && h.blueScore < U64 && h.blueWork < U192
    && Canonical(h.parents) && LevelsValid(Expand(h.parents))
    && CommitmentsValid(h.commitments) && |h.pruningPoint| == 32
  }

  predicate LevelsValid(levels: seq<seq<Hash>>) {
    forall i :: 0 <= i < |levels| ==> HashesValid(levels[i])
  }

  // ---------- The bytes ----------

  function HashBytes(hashes: seq<Hash>): seq<Byte> {
    if hashes == [] then [] else HashBytes(hashes[..|hashes| - 1]) + hashes[|hashes| - 1]
  }

  /** `write_var_array`. */
  function LevelBytes(level: seq<Hash>): seq<Byte> {
    LE(|level|, 8) + HashBytes(level)
  }

  function LevelsBytes(levels: seq<seq<Hash>>): seq<Byte> {
    if levels == [] then [] else LevelsBytes(levels[..|levels| - 1]) + LevelBytes(levels[|levels| - 1])
  }

  function CommitmentBytes(c: Commitments): seq<Byte> {
    c.hashMerkleRoot + c.acceptedIdMerkleRoot + c.utxoCommitment + c.poolCommitment
  }

  function ScalarBytes(h: Header, nonce: nat, timestamp: nat): seq<Byte> {
    LE(timestamp, 8) + LE(h.bits, 4) + LE(nonce, 8) + LE(h.daaScore, 8) + LE(h.blueScore, 8)
  }

  /** `write_blue_work`. */
  function WorkBytes(blueWork: nat): seq<Byte> {
    var bytes := StripZeros(BE(blueWork, 24));
    LE(|bytes|, 8) + bytes
  }

  /** What `hash_override_nonce_time` hashes. */
  function Preimage(h: Header, nonce: nat, timestamp: nat): seq<Byte>
    requires Canonical(h.parents)
  {
    var levels := Expand(h.parents);
    LE(h.version, 2) + LE(|levels|, 8) + LevelsBytes(levels)
    + CommitmentBytes(h.commitments) + ScalarBytes(h, nonce, timestamp) + WorkBytes(h.blueWork) + h.pruningPoint
  }

  /** Where the leading zeros end. */
  method FirstNonZero(b: seq<Byte>) returns (start: nat)
    ensures start <= |b| && b[start..] == StripZeros(b)
  {
    start := 0;
    while start < |b| && b[start] == 0
      invariant start <= |b| && StripZeros(b[start..]) == StripZeros(b)
    {
      start := start + 1;
    }
  }

  /** The loops over the parent levels. */
  method FeedLevels(start: seq<Byte>, levels: seq<seq<Hash>>) returns (fed: seq<Byte>)
    ensures fed == start + LevelsBytes(levels)
  {
    hide LE;
    fed := start;
    for i := 0 to |levels|
      invariant fed == start + LevelsBytes(levels[..i])
    {
      fed := fed + LE(|levels[i]|, 8);
      ghost var here := fed;
      for j := 0 to |levels[i]|
        invariant fed == here + HashBytes(levels[i][..j])
      {
        assert levels[i][..j + 1][..j] == levels[i][..j];
        fed := fed + levels[i][j];
      }
      assert levels[i][..|levels[i]|] == levels[i];
      assert levels[..i + 1][..i] == levels[..i];
    }
    assert levels[..|levels|] == levels;
  }

  /** `serialize_block_header`: the updates of the hasher, one after the other. */
  method SerializeBlockHeader(h: Header) returns (fed: seq<Byte>)
    requires Canonical(h.parents)
    ensures fed == Preimage(h, 0, 0)
  {
    hide LE, StripZeros, Expand, Canonical, LevelsBytes;
    ExpandLength(h.parents);
    fed := LE(h.version, 2);
    fed := fed + LE(ExpandedLen(h.parents), 8);
    fed := FeedLevels(fed, Expand(h.parents));
    ghost var parents := fed;
    var c := h.commitments;
    fed := fed + c.hashMerkleRoot + c.acceptedIdMerkleRoot + c.utxoCommitment + c.poolCommitment;
    assert fed == parents + CommitmentBytes(c);
    ghost var commitments := fed;
    fed := fed + LE(0, 8);
    fed := fed + LE(h.bits, 4);
    fed := fed + LE(0, 8);
    fed := fed + LE(h.daaScore, 8);
    fed := fed + LE(h.blueScore, 8);
    assert fed == commitments + ScalarBytes(h, 0, 0);
    ghost var scalars := fed;
    var beBytes := BE(h.blueWork, 24);
    var start := FirstNonZero(beBytes);
    var work := beBytes[start..];
    fed := fed + LE(|work|, 8);
    fed := fed + work;
    assert fed == scalars + WorkBytes(h.blueWork);
    fed := fed + h.pruningPoint;
  }

  // ---------- The decoder ----------

  function Hashes(b: seq<Byte>, n: nat): seq<Hash>
    requires |b| == 32 * n
  {
    if n == 0 then [] else [b[..32]] + Hashes(b[32..], n - 1)
  }

  datatype Parsed<A> = Parsed(value: A, rest: seq<Byte>)

  function DecodeLevels(s: seq<Byte>, count: nat): Option<Parsed<seq<seq<Hash>>>>
    decreases count
  {
    if count == 0 then Some(Parsed([], s))
    else if |s| < 8 then None
    else
      var n := FromLE(s[..8]);
      if |s| < 8 + 32 * n then None
      else match DecodeLevels(s[8 + 32 * n..], count - 1)
        case None => None
        case Some(p) => Some(Parsed([Hashes(s[8..8 + 32 * n], n)] + p.value, p.rest))
  }

  /** What a pre-image says. */
  datatype Fields =
    Fields(version: nat, levels: seq<seq<Hash>>, commitments: Commitments, timestamp: nat, bits: nat,
           nonce: nat, daaScore: nat, blueScore: nat, blueWork: nat, pruningPoint: Hash)

  function FieldsOf(h: Header, nonce: nat, timestamp: nat): Fields
    requires Canonical(h.parents)
  {
    Fields(h.version, Expand(h.parents), h.commitments, timestamp, h.bits, nonce,
           h.daaScore, h.blueScore, h.blueWork, h.pruningPoint)
  }

  function DecodeCommitments(s: seq<Byte>): Commitments
    requires |s| == 128
  {
    Commitments(s[..32], s[32..64], s[64..96], s[96..128])
  }

  /** What follows the parents: four hashes, 36 bytes of scalars, the blue work and a hash. */
  function DecodeTail(version: nat, levels: seq<seq<Hash>>, s: seq<Byte>): Option<Parsed<Fields>> {
    if |s| < 172 then None
    else
      var c, t, n := DecodeCommitments(s[..128]), s[128..164], FromLE(s[164..172]);
      if |s| < 172 + n + 32 then None
      else Some(Parsed(
        Fields(version, levels, c, FromLE(t[..8]), FromLE(t[8..12]), FromLE(t[12..20]), FromLE(t[20..28]), FromLE(t[28..36]),
               FromBE(s[172..172 + n]), s[172 + n..204 + n]), s[204 + n..]))
  }

  function Decode(s: seq<Byte>): Option<Parsed<Fields>> {
    if |s| < 10 then None
    else match DecodeLevels(s[10..], FromLE(s[2..10]))
      case None => None
      case Some(p) => DecodeTail(FromLE(s[..2]), p.value, p.rest)
  }

  // ---------- Round trip ----------

  lemma {:induction false} HashBytesLength(hashes: seq<Hash>)
    requires HashesValid(hashes)
    ensures |HashBytes(hashes)| == 32 * |hashes|
  {
    if hashes != [] {
      HashBytesLength(hashes[..|hashes| - 1]);
    }
  }

  lemma {:induction false} HashBytesFront(hashes: seq<Hash>)
    requires hashes != []
    ensures HashBytes(hashes) == hashes[0] + HashBytes(hashes[1..])
  {
    var n := |hashes| - 1;
    if n > 0 {
      HashBytesFront(hashes[..n]);
      assert hashes[..n][1..] == hashes[1..][..n - 1];
    } else {
      assert hashes[..n] == [] && hashes[1..] == [];
    }
  }

  lemma {:induction false} HashesRoundTrip(hashes: seq<Hash>)
    requires HashesValid(hashes)
    ensures |HashBytes(hashes)| == 32 * |hashes| && Hashes(HashBytes(hashes), |hashes|) == hashes
  {
    HashBytesLength(hashes);
    if hashes != [] {
      HashBytesFront(hashes);
      HashesRoundTrip(hashes[1..]);
      assert HashBytes(hashes)[..32] == hashes[0] && HashBytes(hashes)[32..] == HashBytes(hashes[1..]);
      assert hashes == [hashes[0]] + hashes[1..];
    }
  }

  lemma {:induction false} LevelsBytesFront(levels: seq<seq<Hash>>)
    requires levels != []
    ensures LevelsBytes(levels) == LevelBytes(levels[0]) + LevelsBytes(levels[1..])
  {
    hide LevelBytes;
    var n := |levels| - 1;
    if n > 0 {
      LevelsBytesFront(levels[..n]);
      assert levels[..n][1..] == levels[1..][..n - 1];
    } else {
      assert levels[..n] == [] && levels[1..] == [];
    }
  }

  lemma LevelParts(level: seq<Hash>, rest: seq<Byte>)
    requires HashesValid(level)
    ensures var s, n := LevelBytes(level) + rest, |level|;
      && |s| >= 8 + 32 * n && FromLE(s[..8]) == n && Hashes(s[8..8 + 32 * n], n) == level && s[8 + 32 * n..] == rest
  {
    Widths();
    LERoundTrip(|level|, 8);
    HashesRoundTrip(level);
    hide LE, FromLE, HashBytes, Hashes, Pow256;
    var s, n := LevelBytes(level) + rest, |level|;
    assert s[..8] == LE(n, 8) && s[8..8 + 32 * n] == HashBytes(level);
  }

  lemma DecodeStep(s: seq<Byte>, level: seq<Hash>, tail: seq<Byte>, levels: seq<seq<Hash>>, rest: seq<Byte>)
    requires var n := |level|;
      && |s| >= 8 + 32 * n && FromLE(s[..8]) == n && Hashes(s[8..8 + 32 * n], n) == level && s[8 + 32 * n..] == tail
    requires DecodeLevels(tail, |levels|) == Some(Parsed(levels, rest))
    ensures DecodeLevels(s, |levels| + 1) == Some(Parsed([level] + levels, rest))
  {
    hide Hashes, FromLE;
  }

  lemma {:induction false} LevelsRoundTrip(levels: seq<seq<Hash>>, rest: seq<Byte>)
    requires LevelsValid(levels)
    ensures DecodeLevels(LevelsBytes(levels) + rest, |levels|) == Some(Parsed(levels, rest))
  {
    hide HashesValid, LevelBytes;
    if levels == [] {
      assert LevelsBytes(levels) + rest == rest;
    } else {
      var level, more := levels[0], levels[1..];
      assert HashesValid(level) && LevelsValid(more);
      hide LevelsValid, LevelsBytes, DecodeLevels;
      LevelsBytesFront(levels);
      LevelsRoundTrip(more, rest);
      var tail := LevelsBytes(more) + rest;
      assert LevelsBytes(levels) + rest == LevelBytes(level) + tail;
      assert levels == [level] + more;
      LevelParts(level, tail);
      DecodeStep(LevelBytes(level) + tail, level, tail, more, rest);
    }
  }

  lemma ScalarsRoundTrip(h: Header, nonce: nat, timestamp: nat)
    requires h.bits < U32 && timestamp < U64 && nonce < U64 && h.daaScore < U64 && h.blueScore < U64
    ensures var t := ScalarBytes(h, nonce, timestamp);
      && |t| == 36 && FromLE(t[..8]) == timestamp && FromLE(t[8..12]) == h.bits && FromLE(t[12..20]) == nonce
      && FromLE(t[20..28]) == h.daaScore && FromLE(t[28..36]) == h.blueScore
  {
    Widths();
    LERoundTrip(timestamp, 8);
    LERoundTrip(h.bits, 4);
    LERoundTrip(nonce, 8);
    LERoundTrip(h.daaScore, 8);
    LERoundTrip(h.blueScore, 8);
    hide LE, FromLE, Pow256;
    FiveParts(LE(timestamp, 8), LE(h.bits, 4), LE(nonce, 8), LE(h.daaScore, 8), LE(h.blueScore, 8));
  }

  lemma FiveParts(a: seq<Byte>, b: seq<Byte>, c: seq<Byte>, d: seq<Byte>, e: seq<Byte>)
    requires |a| == 8 && |b| == 4 && |c| == 8 && |d| == 8 && |e| == 8
    ensures var t := a + b + c + d + e;
      |t| == 36 && t[..8] == a && t[8..12] == b && t[12..20] == c && t[20..28] == d && t[28..36] == e
  {
    var x := a + b + c;
    var t := x + d + e;
    assert x[..8] == a && x[8..12] == b && x[12..20] == c;
    assert t[..8] == x[..8] && t[8..12] == x[8..12] && t[12..20] == x[12..20];
  }

  lemma WorkRoundTrip(work: nat, rest: seq<Byte>)
    requires work < U192
    ensures var s, n := WorkBytes(work) + rest, |WorkBytes(work)| - 8;
      && n >= 0 && FromLE(s[..8]) == n && FromBE(s[8..8 + n]) == work && s[8 + n..] == rest
  {
    var bytes := StripZeros(BE(work, 24));
    Widths();
    BERoundTrip(work, 24);
    StripZerosValue(BE(work, 24));
    LERoundTrip(|bytes|, 8);
    hide LE, FromLE, BE, FromBE, StripZeros, Pow256;
    var s := WorkBytes(work) + rest;
    assert s[..8] == LE(|bytes|, 8) && s[8..8 + |bytes|] == bytes;
  }

  lemma CommitmentsRoundTrip(c: Commitments)
    requires CommitmentsValid(c)
    ensures |CommitmentBytes(c)| == 128 && DecodeCommitments(CommitmentBytes(c)) == c
  {
    var s := CommitmentBytes(c);
    assert s[..32] == c.hashMerkleRoot && s[32..64] == c.acceptedIdMerkleRoot;
    assert s[64..96] == c.utxoCommitment && s[96..128] == c.poolCommitment;
  }

  lemma TailRoundTrip(h: Header, nonce: nat, timestamp: nat, levels: seq<seq<Hash>>, rest: seq<Byte>)
    requires h.bits < U32 && timestamp < U64 && nonce < U64 && h.daaScore < U64 && h.blueScore < U64 && h.blueWork < U192
    requires CommitmentsValid(h.commitments) && |h.pruningPoint| == 32
    ensures DecodeTail(h.version, levels,
              CommitmentBytes(h.commitments) + (ScalarBytes(h, nonce, timestamp) + (WorkBytes(h.blueWork) + (h.pruningPoint + rest))))
            == Some(Parsed(Fields(h.version, levels, h.commitments, timestamp, h.bits, nonce,
                                  h.daaScore, h.blueScore, h.blueWork, h.pruningPoint), rest))
  {
    CommitmentsRoundTrip(h.commitments);
    ScalarsRoundTrip(h, nonce, timestamp);
    WorkRoundTrip(h.blueWork, h.pruningPoint + rest);
    hide CommitmentBytes, DecodeCommitments, ScalarBytes, WorkBytes, FromLE, FromBE;
    TailParts(h.version, levels, CommitmentBytes(h.commitments), ScalarBytes(h, nonce, timestamp),
              WorkBytes(h.blueWork), h.pruningPoint, rest);
  }

  /** The decoder of the tail on its four parts. */
  lemma TailParts(version: nat, levels: seq<seq<Hash>>,
                  c: seq<Byte>, t: seq<Byte>, w: seq<Byte>, p: seq<Byte>, rest: seq<Byte>)
    requires |c| == 128 && |t| == 36 && |w| >= 8 && |p| == 32 && FromLE((w + (p + rest))[..8]) == |w| - 8
    ensures DecodeTail(version, levels, c + (t + (w + (p + rest))))
      == Some(Parsed(Fields(version, levels, DecodeCommitments(c), FromLE(t[..8]), FromLE(t[8..12]),
                            FromLE(t[12..20]), FromLE(t[20..28]), FromLE(t[28..36]),
                            FromBE((w + (p + rest))[8..|w|]), p), rest))
  {
    hide DecodeCommitments, FromLE, FromBE;
    var v := w + (p + rest);
    var s, n := c + (t + v), |w| - 8;
    assert s[..128] == c && s[128..164] == t;
    assert s[164..172] == v[..8] && s[172..172 + n] == v[8..|w|];
    assert s[172 + n..204 + n] == p && s[204 + n..] == rest;
  }

  lemma HeadParts(version: nat, count: nat, tail: seq<Byte>)
    requires version < U16 && count < U64
    ensures var s := LE(version, 2) + LE(count, 8) + tail;
      |s| >= 10 && FromLE(s[..2]) == version && FromLE(s[2..10]) == count && s[10..] == tail
  {
    Widths();
    LERoundTrip(version, 2);
    LERoundTrip(count, 8);
    hide LE, FromLE, Pow256;
    var s := LE(version, 2) + LE(count, 8) + tail;
    assert s[..2] == LE(version, 2) && s[2..10] == LE(count, 8);
  }

  /** The pre-image, right to left. */
  lemma PreimageParts(h: Header, nonce: nat, timestamp: nat, rest: seq<Byte>)
    requires Canonical(h.parents)
    ensures Preimage(h, nonce, timestamp) + rest
      == LE(h.version, 2) + LE(|Expand(h.parents)|, 8)
         + (LevelsBytes(Expand(h.parents))
            + (CommitmentBytes(h.commitments) + (ScalarBytes(h, nonce, timestamp) + (WorkBytes(h.blueWork) + (h.pruningPoint + rest)))))
  {
    hide LE, Expand, Canonical, LevelsBytes, CommitmentBytes, ScalarBytes, WorkBytes;
  }

  /** Whatever follows it, a pre-image decodes to what it was made from. */
  lemma PreimageRoundTrip(h: Header, nonce: nat, timestamp: nat, rest: seq<Byte>)
    requires Valid(h) && nonce < U64 && timestamp < U64
    ensures Decode(Preimage(h, nonce, timestamp) + rest) == Some(Parsed(FieldsOf(h, nonce, timestamp), rest))
  {
    hide LE, FromLE, Expand, Canonical, LevelsBytes, CommitmentBytes, ScalarBytes, WorkBytes, DecodeTail, DecodeLevels, Preimage;
    var levels := Expand(h.parents);
    var tail := CommitmentBytes(h.commitments) + (ScalarBytes(h, nonce, timestamp) + (WorkBytes(h.blueWork) + (h.pruningPoint + rest)));
    PreimageParts(h, nonce, timestamp, rest);
    ExpandLength(h.parents);
    LengthBounds(h.parents);
    HeadParts(h.version, |levels|, LevelsBytes(levels) + tail);
    LevelsRoundTrip(levels, tail);
    TailRoundTrip(h, nonce, timestamp, levels, rest);
  }

  /** Two headers have the same pre-image exactly when they agree on every field but the time stamp
      and the nonce; no pre-image is a proper prefix of another. */
  lemma PreimageInjective(a: Header, b: Header, rest: seq<Byte>)
    requires Valid(a) && Valid(b)
    ensures Preimage(a, 0, 0) == Preimage(b, 0, 0) + rest <==> rest == [] && b == a.(timestamp := b.timestamp, nonce := b.nonce)
  {
    PreimageRoundTrip(a, 0, 0, []);
    PreimageRoundTrip(b, 0, 0, rest);
    assert Preimage(a, 0, 0) + [] == Preimage(a, 0, 0);
    if Preimage(a, 0, 0) == Preimage(b, 0, 0) + rest {
      hide Decode, Preimage, Expand, Canonical;
      assert FieldsOf(a, 0, 0) == FieldsOf(b, 0, 0);
      ExpandInjective(a.parents, b.parents);
    }
  }
}
