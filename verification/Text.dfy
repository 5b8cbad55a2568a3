/** Decimal and hexadecimal text, as Rust formats and parses it. Characters outside ASCII do
    not occur in any string the model builds. */
module Text {
  import opened Wrappers

  // ---------- Parts of a text ----------

  /** `text.contains(word)`. */
  predicate Contains(text: string, word: string) {
    exists i :: 0 <= i <= |text| && word <= text[i..]
  }

  lemma CutAt(text: string, word: string) returns (a: string, b: string)
    requires Contains(text, word)
    ensures text == a + word + b
  {
    var i :| 0 <= i <= |text| && word <= text[i..];
    a, b := text[..i], text[i..][|word|..];
    assert text[i..] == word + b;
  }

  lemma ContainsMiddle(a: string, word: string, b: string)
    ensures Contains(a + word + b, word)
  {
    assert (a + word + b)[|a|..] == word + b;
  }

  lemma ContainsIff(text: string, word: string)
    ensures Contains(text, word) <==> exists a, b :: text == a + word + b
  {
    hide Contains;
    if Contains(text, word) {
      var a, b := CutAt(text, word);
    } else if a, b :| text == a + word + b {
      ContainsMiddle(a, word, b);
    }
  }

  lemma ContainsFirst(text: string, word: string, j: nat)
    requires Contains(text, word) && j < |word|
    ensures word[j] in text
  {
    var i :| 0 <= i <= |text| && word <= text[i..];
    assert text[i..][j] == text[i + j];
  }

  /** The pieces with `between` between them. */
  function Joined(pieces: seq<string>, between: string): string
    requires pieces != []
  {
    if |pieces| == 1 then pieces[0] else pieces[0] + between + Joined(pieces[1..], between)
  }

  // ---------- Decimal ----------

  const DIGITS := "0123456789"

  /** `format!("{}", n)`. */
  function Decimal(n: nat): string {
    if n < 10 then [DIGITS[n]] else Decimal(n / 10) + [DIGITS[n % 10]]
  }

  function DecimalNumber(s: string): nat {
    if s == [] then 0
    else DecimalNumber(s[..|s| - 1]) * 10 + (if '0' <= s[|s| - 1] <= '9' then (s[|s| - 1] - '0') as nat else 0)
  }

  lemma {:induction false} DecimalRoundTrip(n: nat)
    ensures DecimalNumber(Decimal(n)) == n
    ensures forall c :: c in Decimal(n) ==> '0' <= c <= '9'
  {
    if n >= 10 {
      var q, d := n / 10, n % 10;
      DecimalRoundTrip(q);
      DigitRoundTrip(d);
      DigitAdds(Decimal(q), DIGITS[d], d);
      hide DecimalNumber;
      assert Decimal(n) == Decimal(q) + [DIGITS[d]];
    } else {
      DigitRoundTrip(n);
      DigitAdds([], DIGITS[n], n);
      assert [] + [DIGITS[n]] == [DIGITS[n]];
    }
  }

  lemma DigitAdds(s: string, c: char, d: nat)
    requires '0' <= c <= '9' && (c - '0') as nat == d
    ensures DecimalNumber(s + [c]) == DecimalNumber(s) * 10 + d
  {
    assert (s + [c])[..|s|] == s;
  }

  lemma DigitRoundTrip(d: nat)
    requires d < 10
    ensures '0' <= DIGITS[d] <= '9' && (DIGITS[d] - '0') as nat == d
  {
  }

  // ---------- Hexadecimal ----------

  const HEX_DIGITS := "0123456789abcdef"

  predicate IsHex(c: char) {
    '0' <= c <= '9' || 'a' <= c <= 'f' || 'A' <= c <= 'F'
  }

  function HexValue(c: char): (v: nat)
    ensures v < 16
  {
    if '0' <= c <= '9' then (c - '0') as nat
    else if 'a' <= c <= 'f' then (c - 'a') as nat + 10
    else if 'A' <= c <= 'F' then (c - 'A') as nat + 10
    else 0
  }

  predicate AllHex(s: string) {
    forall c :: c in s ==> IsHex(c)
  }

  function HexNumber(s: string): nat {
    if s == [] then 0 else HexNumber(s[..|s| - 1]) * 16 + HexValue(s[|s| - 1])
  }

  function Pow16(n: nat): nat {
    if n == 0 then 1 else 16 * Pow16(n - 1)
  }

  lemma {:induction false} HexNumberConcat(a: string, b: string)
    ensures HexNumber(a + b) == HexNumber(a) * Pow16(|b|) + HexNumber(b)
  {
    if b == [] {
      assert a + b == a;
    } else {
      var b' := b[..|b| - 1];
      assert (a + b)[..|a + b| - 1] == a + b';
      HexNumberConcat(a, b');
      ShiftDigit(HexNumber(a), Pow16(|b'|), HexNumber(b'), HexValue(b[|b| - 1]));
      assert (a + b)[|a + b| - 1] == b[|b| - 1];
    }
  }

  lemma ShiftDigit(x: nat, p: nat, y: nat, d: nat)
    ensures (x * p + y) * 16 + d == x * (16 * p) + (y * 16 + d)
  {
  }

  lemma {:induction false} HexNumberBound(s: string)
    ensures HexNumber(s) < Pow16(|s|)
  {
    if s != [] {
      HexNumberBound(s[..|s| - 1]);
    }
  }

  function Zeros(n: nat): string {
    seq(n, i => '0')
  }

  lemma {:induction false} ZerosNumber(n: nat)
    ensures HexNumber(Zeros(n)) == 0
  {
    if n > 0 {
      ZerosNumber(n - 1);
      assert Zeros(n)[..n - 1] == Zeros(n - 1);
    }
  }

  function HexDigit(d: nat): (c: char)
    requires d < 16
    ensures IsHex(c)
  {
    HEX_DIGITS[d]
  }

  /** `format!("{:0width$x}", n)` for a number that fits the width. */
  function Hex(n: nat, width: nat): (s: string)
    ensures |s| == width && AllHex(s)
  {
    if width == 0 then [] else Hex(n / 16, width - 1) + [HexDigit(n % 16)]
  }

  lemma {:induction false} HexRoundTrip(n: nat, width: nat)
    requires n < Pow16(width)
    ensures HexNumber(Hex(n, width)) == n
  {
    if width > 0 {
      HexRoundTrip(n / 16, width - 1);
      assert Hex(n, width)[..width - 1] == Hex(n / 16, width - 1);
      HexDigitRoundTrip(n % 16);
    }
  }

  lemma HexDigitRoundTrip(d: nat)
    requires d < 16
    ensures HexValue(HexDigit(d)) == d
  {
  }

  /** The digit of value `d`, in either case. */
  predicate IsDigit(c: char, d: nat)
    requires d < 16
  {
    c == "0123456789abcdef"[d] || c == "0123456789ABCDEF"[d]
  }

  lemma HexDigitsAre(c: char)
    ensures IsHex(c) <==> exists d: nat :: d < 16 && IsDigit(c, d)
    ensures forall d: nat :: d < 16 && IsDigit(c, d) ==> HexValue(c) == d
  {
    hide HexValue, IsDigit, IsHex;
    if IsHex(c) {
      DigitOf(c);
    }
    forall d: nat | d < 16 && IsDigit(c, d) ensures IsHex(c) && HexValue(c) == d {
      ValueOf(c, d);
    }
  }

  lemma DigitOf(c: char)
    requires IsHex(c)
    ensures IsDigit(c, HexValue(c))
  {
  }

  lemma ValueOf(c: char, d: nat)
    requires d < 16 && IsDigit(c, d)
    ensures IsHex(c) && HexValue(c) == d
  {
  }

  /** `u64::from_str_radix(s, 16)`: an optional plus sign, then at least one digit of either
      case, and a value that fits 64 bits. */
  function ParseHexU64(s: string): Option<nat> {
    var body := if s != [] && s[0] == '+' then s[1..] else s;
    if body != [] && AllHex(body) && HexNumber(body) < 0x1_0000_0000_0000_0000 then Some(HexNumber(body)) else None
  }
}
