/** The forms in which a job's pre-PoW hash and time stamp are sent to miners: two independently
    written 80-digit strings, and the legacy array of four words. */
module JobStrings {
  import opened Bytes
  import opened Text
  import opened Wrappers

  /** Two lowercase digits per byte. */
  function HexBytes(b: seq<Byte>): (s: string)
    ensures |s| == 2 * |b|
  {
    if b == [] then "" else HexBytes(b[..|b| - 1]) + Hex(b[|b| - 1], 2)
  }

  /** `generate_iceriver_job_params`. */
  function IceRiver(hash: seq<Byte>, timestamp: nat): string {
    HexBytes(hash) + HexBytes(LE(timestamp, 8))
  }

  function Word(data: seq<Byte>, i: nat): seq<Byte>
    requires 8 * i + 8 <= |data|
  {
    data[8 * i..8 * i + 8]
  }

  /** How many of the first four words are complete. */
  function WordCount(n: nat): nat {
    if n >= 32 then 4 else n / 8
  }

  /** `generate_large_job_params`; the source panics on less than 32 bytes. */
  method LargeJobParams(data: seq<Byte>, timestamp: nat) returns (r: Option<string>)
    ensures r.None? <==> |data| < 32
    ensures |data| >= 32 ==> r == Some(IceRiver(data[..32], timestamp))
  {
    hide LE, FromLE, BE, FromBE, Hex, HexBytes;
    var ids: seq<nat> := [];
    for i := 0 to 4
      invariant |ids| == if i <= WordCount(|data|) then i else WordCount(|data|)
      invariant forall j :: 0 <= j < |ids| ==> ids[j] == FromBE(Word(data, j))
    {
      var offset := i * 8;
      if offset + 8 <= |data| {
        ids := ids + [FromBE(data[offset..offset + 8])];
      }
    }
    var timestampBe := BE(timestamp, 8);
    var timestampSwapped := FromLE(timestampBe);
    ids := ids + [timestampSwapped];
    if |ids| < 5 {
      return None;
    }
    r := Some(Hex(ids[0], 16) + Hex(ids[1], 16) + Hex(ids[2], 16) + Hex(ids[3], 16) + Hex(ids[4], 16));
    WordsAsHex(data);
    SwappedAsHex(timestamp);
  }

  // ---------- Bytes and digits ----------

  lemma TwoDigits(x: nat, y: nat, width: nat)
    requires y < 256
    ensures Hex(256 * x + y, width + 2) == Hex(x, width) + Hex(y, 2)
  {
    hide HexDigit;
    var n := 256 * x + y;
    assert n / 16 == 16 * x + y / 16 && n % 16 == y % 16;
    assert (n / 16) / 16 == x && (n / 16) % 16 == y / 16;
    assert Hex(n, width + 2) == Hex(n / 16, width + 1) + [HexDigit(y % 16)];
    assert Hex(n / 16, width + 1) == Hex(x, width) + [HexDigit(y / 16)];
    assert Hex(y / 16, 1) == Hex(0, 0) + [HexDigit(y / 16)];
  }

  lemma ByteAppended(b: seq<Byte>, n: nat, m: nat)
    requires |b| == n + 1 && m == FromBE(b[..n])
    ensures FromBE(b) == 256 * m + b[n] && HexBytes(b) == HexBytes(b[..n]) + Hex(b[n], 2)
  {
    hide Hex;
  }

  lemma NoBytesHex()
    ensures Hex(FromBE([]), 0) == HexBytes([])
  {
    assert Hex(0, 0) == "";
  }

  /** The digits of a big-endian number are the digits of its bytes. */
  lemma {:induction false} BigEndianHex(b: seq<Byte>)
    ensures Hex(FromBE(b), 2 * |b|) == HexBytes(b)
  {
    hide Hex, FromBE, HexBytes;
    if b == [] {
      NoBytesHex();
    } else {
      var n := |b| - 1;
      var m := FromBE(b[..n]);
      ByteAppended(b, n, m);
      BigEndianHex(b[..n]);
      TwoDigits(m, b[n], 2 * n);
    }
  }

  function Reverse(b: seq<Byte>): seq<Byte> {
    if b == [] then [] else Reverse(b[1..]) + [b[0]]
  }

  lemma {:induction false} FromReverse(b: seq<Byte>)
    ensures FromBE(Reverse(b)) == FromLE(b)
  {
    if b != [] {
      FromReverse(b[1..]);
      assert Reverse(b)[..|Reverse(b)| - 1] == Reverse(b[1..]);
    }
  }

  lemma {:induction false} ReverseConcat(a: seq<Byte>, x: Byte)
    ensures Reverse(a + [x]) == [x] + Reverse(a)
  {
    if a == [] {
      assert a + [x] == [x] && [x][1..] == [];
    } else {
      assert (a + [x])[1..] == a[1..] + [x];
      ReverseConcat(a[1..], x);
    }
  }

  lemma {:induction false} ReverseEndian(n: nat, width: nat)
    ensures Reverse(BE(n, width)) == LE(n, width)
  {
    if width > 0 {
      ReverseEndian(n / 256, width - 1);
      ReverseConcat(BE(n / 256, width - 1), n % 256);
    }
  }

  /** Reading the big-endian time stamp as little-endian makes its digits those of the
      little-endian bytes. */
  lemma SwappedAsHex(timestamp: nat)
    ensures Hex(FromLE(BE(timestamp, 8)), 16) == HexBytes(LE(timestamp, 8))
  {
    ReverseEndian(timestamp, 8);
    FromReverse(BE(timestamp, 8));
    hide LE, FromLE, BE, FromBE, Hex, HexBytes, Reverse;
    BigEndianHex(LE(timestamp, 8));
  }

  lemma {:induction false} HexBytesConcat(a: seq<Byte>, b: seq<Byte>)
    ensures HexBytes(a + b) == HexBytes(a) + HexBytes(b)
  {
    hide Hex;
    if b == [] {
      assert a + b == a;
    } else {
      assert (a + b)[..|a + b| - 1] == a + b[..|b| - 1];
      HexBytesConcat(a, b[..|b| - 1]);
    }
  }

  lemma WordsAsHex(data: seq<Byte>)
    requires |data| >= 32
    ensures Hex(FromBE(Word(data, 0)), 16) + Hex(FromBE(Word(data, 1)), 16)
            + Hex(FromBE(Word(data, 2)), 16) + Hex(FromBE(Word(data, 3)), 16)
            == HexBytes(data[..32])
  {
    hide FromBE, Hex, HexBytes;
    var a, b, c, d := Word(data, 0), Word(data, 1), Word(data, 2), Word(data, 3);
    BigEndianHex(a);
    BigEndianHex(b);
    BigEndianHex(c);
    BigEndianHex(d);
    HexBytesConcat(a, b);
    HexBytesConcat(a + b, c);
    HexBytesConcat(a + b + c, d);
    assert a + b == data[..16] && data[..16] + c == data[..24] && data[..24] + d == data[..32];
  }

  // ---------- Reading it back ----------

  function UnhexBytes(s: string, n: nat): (b: seq<Byte>)
    requires |s| == 2 * n
    ensures |b| == n
  {
    if n == 0 then [] else UnhexBytes(s[..2 * n - 2], n - 1) + [16 * HexValue(s[2 * n - 2]) + HexValue(s[2 * n - 1])]
  }

  lemma UnhexStep(s: string, n: nat, c: char, d: char)
    requires |s| == 2 * n
    ensures UnhexBytes(s + [c, d], n + 1) == UnhexBytes(s, n) + [16 * HexValue(c) + HexValue(d)]
  {
    hide HexValue;
    var t := s + [c, d];
    assert t[..2 * n] == s;
  }

  lemma ByteDigits(x: Byte) returns (c: char, d: char)
    ensures Hex(x, 2) == [c, d] && 16 * HexValue(c) + HexValue(d) == x
  {
    hide HexDigit, HexValue;
    c, d := HexDigit(x / 16), HexDigit(x % 16);
    HexDigitRoundTrip(x / 16);
    HexDigitRoundTrip(x % 16);
    assert Hex(x / 16, 1) == Hex(0, 0) + [c];
    assert Hex(x, 2) == Hex(x / 16, 1) + [d];
  }

  lemma {:induction false} HexBytesRoundTrip(b: seq<Byte>)
    ensures UnhexBytes(HexBytes(b), |b|) == b
  {
    hide Hex, HexValue;
    if b != [] {
      var n, x := |b| - 1, b[|b| - 1];
      HexBytesRoundTrip(b[..n]);
      var c, d := ByteDigits(x);
      UnhexStep(HexBytes(b[..n]), n, c, d);
    }
  }

  /** The string has 80 digits, the first 64 of which are the hash and the others the time stamp. */
  lemma IceRiverRoundTrip(hash: seq<Byte>, timestamp: nat)
    requires |hash| == 32 && timestamp < U64
    ensures var s := IceRiver(hash, timestamp);
      |s| == 80 && UnhexBytes(s[..64], 32) == hash && FromLE(UnhexBytes(s[64..], 8)) == timestamp
  {
    HexBytesRoundTrip(hash);
    HexBytesRoundTrip(LE(timestamp, 8));
    Widths();
    LERoundTrip(timestamp, 8);
    hide HexBytes, UnhexBytes, LE, FromLE, Pow256;
    var s := IceRiver(hash, timestamp);
    assert s[..64] == HexBytes(hash) && s[64..] == HexBytes(LE(timestamp, 8));
  }

  // ---------- The legacy form ----------

  lemma WordsPush(ids: seq<nat>, id: nat)
    ensures WordsBytes(ids + [id]) == WordsBytes(ids) + LE(id, 8)
  {
    hide LE;
    var more := ids + [id];
    assert more[..|ids|] == ids;
  }

  lemma NextSlice(data: seq<Byte>, k: nat)
    requires k + 8 <= |data|
    ensures data[..k + 8] == data[..k] + data[k..k + 8]
  {
  }

  lemma AddWord(data: seq<Byte>, ids: seq<nat>, bytes: seq<Byte>, k: nat)
    requires k == 8 * |ids| && k + 8 <= |data| && WordsBytes(ids) == data[..k] && bytes == data[k..k + 8]
    ensures WordsBytes(ids + [FromLE(bytes)]) == data[..k + 8]
  {
    hide LE, FromLE, WordsBytes;
    FromLERoundTrip(bytes);
    WordsPush(ids, FromLE(bytes));
    NextSlice(data, k);
  }

  /** `generate_job_header`: the words determine the bytes they were read from. */
  method JobHeader(data: seq<Byte>) returns (ids: seq<nat>)
    ensures |ids| == WordCount(|data|) && WordsBytes(ids) == data[..8 * |ids|]
  {
    assert WordsBytes([]) == [];
    hide WordsBytes, FromLE;
    ids := [];
    for i := 0 to 4
      invariant |ids| == if i <= WordCount(|data|) then i else WordCount(|data|)
      invariant WordsBytes(ids) == data[..8 * |ids|]
    {
      var offset := i * 8;
      if offset + 8 <= |data| {
        var bytes := data[offset..offset + 8];
        var more := ids + [FromLE(bytes)];
        AddWord(data, ids, bytes, offset);
        ids := more;
      }
    }
  }

  function WordsBytes(ids: seq<nat>): seq<Byte> {
    if ids == [] then [] else WordsBytes(ids[..|ids| - 1]) + LE(ids[|ids| - 1], 8)
  }
}
