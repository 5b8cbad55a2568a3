/** What a submission carries: the extranonce its client was assigned, the nonce the two make
    together, and the key the duplicate guard knows it by. */
module Submission {
  import opened Wrappers
  import opened Text

  // ---------- Extranonce assignment ----------

  const MAX_EXTRANONCE: nat := 65535

  /** The closure `fetch_update` applies to the global counter. */
  function NextExtranonce(val: nat): nat {
    if val < MAX_EXTRANONCE then val + 1 else 0
  }

  class ExtranonceAllocator {
    var next: nat

    constructor ()
      ensures next == 0
    {
      next := 0;
    }

    /** `assign_extranonce_for_miner`: a Bitmain miner gets none and leaves the counter alone. */
    method Assign(isBitmain: bool) returns (extranonce: string)
      requires next <= MAX_EXTRANONCE
      modifies this
      ensures next == CounterAfter(old(next), [isBitmain])
      ensures extranonce == Assigned(old(next), [isBitmain], 0)
    {
      if isBitmain {
        extranonce := "";
      } else {
        var val := next;
        next := if next < MAX_EXTRANONCE then next + 1 else 0;
        extranonce := Hex(val, 4);
      }
    }
  }

  /** The counter after the clients `bitmain` have subscribed in this order. */
  function CounterAfter(start: nat, bitmain: seq<bool>): nat {
    if bitmain == [] then start
    else var val := CounterAfter(start, bitmain[..|bitmain| - 1]);
      if bitmain[|bitmain| - 1] then val else NextExtranonce(val)
  }

  function Assigned(start: nat, bitmain: seq<bool>, i: nat): string
    requires i < |bitmain|
  {
    if bitmain[i] then "" else Hex(CounterAfter(start, bitmain[..i]), 4)
  }

  /** How many of the clients take an extranonce. */
  function Takers(bitmain: seq<bool>): nat {
    if bitmain == [] then 0 else Takers(bitmain[..|bitmain| - 1]) + (if bitmain[|bitmain| - 1] then 0 else 1)
  }

  lemma {:induction false} CounterCounts(start: nat, bitmain: seq<bool>)
    requires start <= MAX_EXTRANONCE
    ensures CounterAfter(start, bitmain) == (start + Takers(bitmain)) % (MAX_EXTRANONCE + 1)
  {
    if bitmain != [] {
      var n := |bitmain| - 1;
      CounterCounts(start, bitmain[..n]);
      CountOne(start + Takers(bitmain[..n]));
    }
  }

  /** Counting one more, modulo 65,536. */
  lemma CountOne(n: nat)
    ensures (n + 1) % (MAX_EXTRANONCE + 1)
            == if n % (MAX_EXTRANONCE + 1) == MAX_EXTRANONCE then 0 else n % (MAX_EXTRANONCE + 1) + 1
  {
  }

  lemma {:induction false} TakersConcat(a: seq<bool>, b: seq<bool>)
    ensures Takers(a + b) == Takers(a) + Takers(b)
  {
    if b == [] {
      assert a + b == a;
    } else {
      assert (a + b)[..|a + b| - 1] == a + b[..|b| - 1];
      TakersConcat(a, b[..|b| - 1]);
    }
  }

  lemma HexInjective(a: nat, b: nat)
    requires a <= MAX_EXTRANONCE && b <= MAX_EXTRANONCE
    ensures Hex(a, 4) == Hex(b, 4) <==> a == b
  {
    assert Pow16(4) == 65536;
    HexRoundTrip(a, 4);
    HexRoundTrip(b, 4);
  }

  /** Two clients that take an extranonce get the same one exactly when a multiple of 65,536
      extranonces was handed out from the first on; so 65,536 in a row are all different. */
  lemma ExtranonceRepeats(start: nat, bitmain: seq<bool>, i: nat, j: nat)
    requires start <= MAX_EXTRANONCE && i < j < |bitmain| && !bitmain[i] && !bitmain[j]
    ensures Assigned(start, bitmain, i) == Assigned(start, bitmain, j) <==> Takers(bitmain[i..j]) % 65536 == 0
  {
    hide Hex, CounterAfter, Takers;
    CounterCounts(start, bitmain[..i]);
    CounterCounts(start, bitmain[..j]);
    assert bitmain[..j] == bitmain[..i] + bitmain[i..j];
    TakersConcat(bitmain[..i], bitmain[i..j]);
    HexInjective(CounterAfter(start, bitmain[..i]), CounterAfter(start, bitmain[..j]));
    RemainderShift(start + Takers(bitmain[..i]), Takers(bitmain[i..j]));
  }

  lemma RemainderShift(x: nat, d: nat)
    ensures x % 65536 == (x + d) % 65536 <==> d % 65536 == 0
  {
  }

  // ---------- The nonce a submission stands for ----------

  /** `nonce_str.replace("0x", "")`. */
  function WithoutMarkers(s: string): string {
    if s == [] then []
    else if |s| >= 2 && s[0] == '0' && s[1] == 'x' then WithoutMarkers(s[2..])
    else [s[0]] + WithoutMarkers(s[1..])
  }

  lemma StartsMarker(s: string)
    ensures "0x" <= s <==> |s| >= 2 && s[0] == '0' && s[1] == 'x'
  {
    if |s| >= 2 && s[0] == '0' && s[1] == 'x' {
      assert s[..2] == "0x";
    }
  }

  lemma MarkerStep(s: string)
    ensures "0x" <= s ==> WithoutMarkers(s) == WithoutMarkers(s[2..]) && s == "0x" + s[2..]
    ensures !("0x" <= s) && s != "" ==> WithoutMarkers(s) == [s[0]] + WithoutMarkers(s[1..])
  {
    StartsMarker(s);
  }

  lemma LongerPiece(c: char, p: string)
    requires !Contains(p, "0x") && !(c == '0' && p != "" && p[0] == 'x')
    ensures !Contains([c] + p, "0x")
  {
    var q := [c] + p;
    StartsMarker(q);
    forall i | 0 <= i <= |q| ensures !("0x" <= q[i..]) {
      if i == 0 {
        assert q[i..] == q;
      } else {
        assert q[i..] == p[i - 1..];
      }
    }
  }

  lemma EmptyPiece(pieces: seq<string>, between: string)
    requires pieces != []
    ensures Joined([""] + pieces, between) == between + Joined(pieces, between)
  {
    assert ([""] + pieces)[1..] == pieces;
  }

  lemma FirstPiece(c: char, pieces: seq<string>, between: string)
    requires pieces != []
    ensures Joined([[c] + pieces[0]] + pieces[1..], between) == [c] + Joined(pieces, between)
    ensures pieces[0] <= Joined(pieces, between)
  {
    var more := [[c] + pieces[0]] + pieces[1..];
    assert more[1..] == pieces[1..];
  }

  lemma NoMarker()
    ensures !Contains("", "0x")
  {
  }

  /** The text is cut at every marker, and the pieces put together without them. */
  lemma {:induction false} Unmarked(s: string) returns (pieces: seq<string>)
    ensures pieces != [] && s == Joined(pieces, "0x") && WithoutMarkers(s) == Joined(pieces, "")
    ensures forall i :: 0 <= i < |pieces| ==> !Contains(pieces[i], "0x")
  {
    hide Contains;
    NoMarker();
    if s == "" {
      pieces := [""];
    } else {
      MarkerStep(s);
      StartsMarker(s);
      hide WithoutMarkers, Joined;
      if "0x" <= s {
        var rest := Unmarked(s[2..]);
        pieces := [""] + rest;
        EmptyPiece(rest, "0x");
        EmptyPiece(rest, "");
      } else {
        var rest := Unmarked(s[1..]);
        pieces := [[s[0]] + rest[0]] + rest[1..];
        FirstPiece(s[0], rest, "0x");
        FirstPiece(s[0], rest, "");
        LongerPiece(s[0], rest[0]);
      }
    }
  }

  /** The extranonce goes in front when the miner's part is short enough, padded with zeros. */
  function FinalNonce(extranonce: string, nonce: string): string
    requires |extranonce| <= 16
  {
    var width := 16 - |extranonce|;
    if extranonce != [] && |nonce| <= width then extranonce + Zeros(width - |nonce|) + nonce else nonce
  }

  const LANE: nat := 0x1_0000_0000_0000

  /** On the padded path the value is the extranonce times 16^12 plus the miner's nonce, and
      parsing fails exactly when the miner's part holds something other than hex digits. */
  lemma PaddedNonceValue(ex: nat, nonce: string)
    requires ex <= MAX_EXTRANONCE && |nonce| <= 12
    ensures ParseHexU64(FinalNonce(Hex(ex, 4), nonce))
            == if AllHex(nonce) then Some(ex * LANE + HexNumber(nonce)) else None
    ensures HexNumber(nonce) < LANE
  {
    hide Hex, HexNumber, IsHex;
    var e, z := Hex(ex, 4), Zeros(12 - |nonce|);
    assert IsHex('0') && '+' !in e by {
      PlainDigits(e);
    }
    var s := e + (z + nonce);
    assert s == FinalNonce(e, nonce);
    PaddedNumber(ex, nonce);
    assert s[0] == e[0] && e[0] in e;
    assert forall c :: c in s <==> c in e || c in z || c in nonce;
    assert AllHex(s) <==> AllHex(nonce);
  }

  lemma PlainDigits(s: string)
    requires AllHex(s)
    ensures IsHex('0') && '+' !in s
  {
  }

  lemma PaddedNumber(ex: nat, nonce: string)
    requires ex <= MAX_EXTRANONCE && |nonce| <= 12
    ensures HexNumber(Hex(ex, 4) + (Zeros(12 - |nonce|) + nonce)) == ex * LANE + HexNumber(nonce)
    ensures HexNumber(nonce) < LANE
  {
    hide HexNumber, Hex, Pow16;
    var z := Zeros(12 - |nonce|);
    HexNumberConcat(Hex(ex, 4), z + nonce);
    HexNumberConcat(z, nonce);
    ZerosNumber(|z|);
    Pow16Known();
    HexRoundTrip(ex, 4);
    HexNumberBound(z + nonce);
  }

  lemma Pow16Known()
    ensures Pow16(4) == 65536 && Pow16(12) == LANE
  {
    assert Pow16(4) == 65536;
    assert Pow16(8) == 65536 * 65536;
  }

  /** The 64-bit nonce of a submission, or none when the text does not parse. */
  function SubmittedNonce(extranonce: string, raw: string): Option<nat>
    requires |extranonce| <= 16
  {
    ParseHexU64(FinalNonce(extranonce, WithoutMarkers(raw)))
  }

  lemma LanesApart(a: nat, b: nat, x: nat, y: nat)
    requires x < LANE && y < LANE
    ensures a * LANE + x == b * LANE + y ==> a == b
  {
  }

  /** Clients among the same 65,536 takers never submit the same nonce value on the padded path. */
  lemma LanesDisjoint(start: nat, bitmain: seq<bool>, i: nat, j: nat, raw: string, raw': string)
    requires start <= MAX_EXTRANONCE && i < j < |bitmain| && !bitmain[i] && !bitmain[j]
    requires Takers(bitmain[i..j]) % 65536 != 0
    requires |WithoutMarkers(raw)| <= 12 && |WithoutMarkers(raw')| <= 12
    ensures var v := SubmittedNonce(Assigned(start, bitmain, i), raw);
            var v' := SubmittedNonce(Assigned(start, bitmain, j), raw');
            v.Some? && v'.Some? ==> v != v'
  {
    hide ParseHexU64, FinalNonce, Hex, CounterAfter, Takers, WithoutMarkers, HexNumber, AllHex;
    ExtranonceRepeats(start, bitmain, i, j);
    CounterCounts(start, bitmain[..i]);
    CounterCounts(start, bitmain[..j]);
    var a, b := CounterAfter(start, bitmain[..i]), CounterAfter(start, bitmain[..j]);
    PaddedNonceValue(a, WithoutMarkers(raw));
    PaddedNonceValue(b, WithoutMarkers(raw'));
    LanesApart(a, b, HexNumber(WithoutMarkers(raw)), HexNumber(WithoutMarkers(raw')));
  }

  // ---------- The key of the duplicate guard ----------

  /** `format!("{}|{}|{}", worker_id, job_id, final_nonce_str)`. */
  function SubmitKey(worker: string, jobId: nat, nonce: string): string {
    worker + "|" + Decimal(jobId) + "|" + nonce
  }

  lemma ParsedNonceHasNoSeparator(nonce: string)
    requires ParseHexU64(nonce).Some?
    ensures '|' !in nonce
  {
    if nonce[0] == '+' {
      assert nonce == ['+'] + nonce[1..];
    }
  }

  lemma SplitAtLast(a: string, b: string, a': string, b': string)
    requires a + "|" + b == a' + "|" + b' && '|' !in b && '|' !in b'
    ensures a == a' && b == b'
  {
    var s := a + "|" + b;
    assert forall x :: |a| < x < |s| ==> s[x] == b[x - |a| - 1];
    assert forall x :: |a'| < x < |s| ==> s[x] == b'[x - |a'| - 1];
    assert s[|a|] == '|' == s[|a'|];
    assert |a| == |a'|;
    assert a == s[..|a|] && b == s[|a| + 1..] && a' == s[..|a|] && b' == s[|a| + 1..];
  }

  /** The key tells worker, job id and nonce text apart, even for a worker name with bars in it. */
  lemma SubmitKeyInjective(w: string, j: nat, n: string, w': string, j': nat, n': string)
    requires ParseHexU64(n).Some? && ParseHexU64(n').Some?
    ensures SubmitKey(w, j, n) == SubmitKey(w', j', n') <==> w == w' && j == j' && n == n'
  {
    ParsedNonceHasNoSeparator(n);
    ParsedNonceHasNoSeparator(n');
    DecimalRoundTrip(j);
    DecimalRoundTrip(j');
    if SubmitKey(w, j, n) == SubmitKey(w', j', n') {
      SplitAtLast(w + "|" + Decimal(j), n, w' + "|" + Decimal(j'), n');
      SplitAtLast(w, Decimal(j), w', Decimal(j'));
    }
  }
}
