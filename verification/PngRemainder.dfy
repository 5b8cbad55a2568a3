/** The cyclic redundancy code as section 5.5 of the PNG Specification (Second Edition) defines it: a
    remainder in division by a polynomial of degree 32. A polynomial over the field of two elements is
    the set of the exponents it has. */
module PngRemainder {
  import opened PngCrc

  type Poly = set<nat>

  const GENERATOR: Poly := {32, 26, 23, 22, 16, 12, 11, 10, 8, 7, 5, 4, 2, 1, 0}

  function Plus(p: Poly, q: Poly): Poly {
    (p - q) + (q - p)
  }

  /** `p` times a power of the variable. */
  function Raised(p: Poly, k: nat): Poly {
    set e | e in p :: e + k
  }

  /** The generator times the sum of the powers listed. */
  function Multiple(q: seq<nat>): Poly {
    if q == [] then {} else Plus(Multiple(q[..|q| - 1]), Raised(GENERATOR, q[|q| - 1]))
  }

  function Term(bit: bool, e: nat): Poly {
    if bit then {e} else {}
  }

  /** The least significant bit of a byte comes first. */
  function ByteTerms(b: bv8): Poly {
    Term(b & 0x01 != 0, 7) + Term(b & 0x02 != 0, 6) + Term(b & 0x04 != 0, 5) + Term(b & 0x08 != 0, 4)
    + Term(b & 0x10 != 0, 3) + Term(b & 0x20 != 0, 2) + Term(b & 0x40 != 0, 1) + Term(b & 0x80 != 0, 0)
  }

  function Message(bytes: seq<bv8>): Poly {
    if bytes == [] then {} else Plus(Raised(Message(bytes[..|bytes| - 1]), 8), ByteTerms(bytes[|bytes| - 1]))
  }

  /** The first `k` bits of a register, its least significant bit with the exponent `k - 1`. */
  function Terms(c: bv32, k: nat): Poly
    decreases k
  {
    if k == 0 then {} else Term(LowBit(c), k - 1) + Terms(Half(c), k - 1)
  }

  /** All powers below the `k`-th. */
  function Powers(k: nat): Poly {
    if k == 0 then {} else {k - 1} + Powers(k - 1)
  }

  // ---------- Polynomials ----------

  lemma InPlus(p: Poly, q: Poly, e: nat)
    ensures e in Plus(p, q) <==> (e in p) != (e in q)
  {
  }

  lemma InRaised(p: Poly, k: nat, e: nat)
    ensures e in Raised(p, k) <==> e >= k && e - k in p
  {
    if e >= k && e - k in p {
      assert (e - k) + k in Raised(p, k);
    }
  }

  lemma RaisedPlus(p: Poly, q: Poly, k: nat)
    ensures Raised(Plus(p, q), k) == Plus(Raised(p, k), Raised(q, k))
  {
    hide Raised;
    forall e: nat
      ensures e in Raised(Plus(p, q), k) <==> e in Plus(Raised(p, k), Raised(q, k))
    {
      InRaised(Plus(p, q), k, e);
      InRaised(p, k, e);
      InRaised(q, k, e);
    }
  }

  lemma RaisedTwice(p: Poly, k: nat, m: nat)
    ensures Raised(Raised(p, k), m) == Raised(p, k + m)
  {
    hide Raised;
    forall e: nat
      ensures e in Raised(Raised(p, k), m) <==> e in Raised(p, k + m)
    {
      InRaised(Raised(p, k), m, e);
      InRaised(p, k + m, e);
      if e >= m {
        InRaised(p, k, e - m);
      }
    }
  }

  lemma {:induction false} MultiplesAdd(q: seq<nat>, r: seq<nat>)
    ensures Multiple(q + r) == Plus(Multiple(q), Multiple(r))
  {
    hide Raised;
    if r == [] {
      assert q + r == q;
    } else {
      assert (q + r)[..|q + r| - 1] == q + r[..|r| - 1];
      MultiplesAdd(q, r[..|r| - 1]);
    }
  }

  lemma {:induction false} MultipleRaised(q: seq<nat>, k: nat) returns (r: seq<nat>)
    ensures Multiple(r) == Raised(Multiple(q), k)
  {
    r := [];
    if q != [] {
      var n := |q| - 1;
      var r' := MultipleRaised(q[..n], k);
      r := r' + [q[n] + k];
      assert r[..|r| - 1] == r';
      RaisedTwice(GENERATOR, q[n], k);
      RaisedPlus(Multiple(q[..n]), Raised(GENERATOR, q[n]), k);
    }
  }

  // ---------- Registers ----------

  lemma {:induction false} TermsBound(c: bv32, k: nat, e: nat)
    requires e in Terms(c, k)
    ensures e < k
    decreases k
  {
    if e != k - 1 {
      TermsBound(Half(c), k - 1, e);
    }
  }

  lemma TopTerm(c: bv32, k: nat)
    ensures k !in Terms(c, k)
  {
    if k in Terms(c, k) {
      TermsBound(c, k, k);
    }
  }

  lemma FourHalves(c: bv32)
    ensures Half(Half(Half(Half(c)))) == c >> 4
    ensures LowBit(c) <==> c & 1 != 0
    ensures LowBit(Half(c)) <==> c & 2 != 0
    ensures LowBit(Half(Half(c))) <==> c & 4 != 0
    ensures LowBit(Half(Half(Half(c)))) <==> c & 8 != 0
  {
  }

  lemma FourTerms(c: bv32, k: nat)
    ensures Terms(c, k + 4)
            == Term(c & 1 != 0, k + 3) + Term(c & 2 != 0, k + 2) + Term(c & 4 != 0, k + 1) + Term(c & 8 != 0, k) + Terms(c >> 4, k)
  {
    FourHalves(c);
    hide Half, LowBit, Term;
    var c1 := Half(c);
    var c2 := Half(c1);
    var c3 := Half(c2);
    assert Terms(c, k + 4) == Term(LowBit(c), k + 3) + Terms(c1, k + 3);
    assert Terms(c1, k + 3) == Term(LowBit(c1), k + 2) + Terms(c2, k + 2);
    assert Terms(c2, k + 2) == Term(LowBit(c2), k + 1) + Terms(c3, k + 1);
    assert Terms(c3, k + 1) == Term(LowBit(c3), k) + Terms(c >> 4, k);
  }

  lemma OneTerm(c: bv32, k: nat)
    ensures Terms(c, k + 1) == Term(LowBit(c), k) + Terms(Half(c), k)
  {
  }

  lemma PlusTop(x: bool, y: bool, p: Poly, q: Poly, k: nat)
    requires k !in p && k !in q
    ensures Plus(Term(x, k) + p, Term(y, k) + q) == Term(x != y, k) + Plus(p, q)
  {
  }

  lemma {:induction false} TermsXor(a: bv32, b: bv32, k: nat)
    ensures Terms(Xor(a, b), k) == Plus(Terms(a, k), Terms(b, k))
    decreases k
  {
    if k > 0 {
      XorTermsStep(a, b, k - 1);
      TermsXor(Half(a), Half(b), k - 1);
    }
  }

  lemma XorTermsStep(a: bv32, b: bv32, k: nat)
    ensures Terms(Xor(Half(a), Half(b)), k) == Plus(Terms(Half(a), k), Terms(Half(b), k))
            ==> Terms(Xor(a, b), k + 1) == Plus(Terms(a, k + 1), Terms(b, k + 1))
  {
    hide Terms, Term, Plus, Xor, Half, LowBit;
    XorParts(a, b);
    OneTerm(a, k);
    OneTerm(b, k);
    OneTerm(Xor(a, b), k);
    TopTerm(Half(a), k);
    TopTerm(Half(b), k);
    PlusTop(LowBit(a), LowBit(b), Terms(Half(a), k), Terms(Half(b), k), k);
  }

  /** No bit is set from the `k`-th on. */
  predicate Fits(c: bv32, k: nat)
    decreases k
  {
    if k == 0 then c == 0 else Fits(Half(c), k - 1)
  }

  function Shifted(c: bv32): bv32 {
    c >> 4
  }

  lemma FitsFour(c: bv32, k: nat)
    requires Fits(Shifted(c), k)
    ensures Fits(c, k + 4)
  {
    FourHalves(c);
    hide Half, LowBit;
    assert Fits(Half(Half(c)), k + 2);
  }

  lemma FitsNone()
    ensures Fits(0, 0)
  {
  }

  lemma EightShifts(c: bv32)
    ensures Shifted(Shifted(Shifted(Shifted(Shifted(Shifted(Shifted(Shifted(c)))))))) == 0
  {
  }

  lemma FitsAll(c: bv32)
    ensures Fits(c, 32)
  {
    hide Fits, Shifted;
    EightShifts(c);
    FitsNone();
    var c1 := Shifted(c);
    var c2 := Shifted(c1);
    var c3 := Shifted(c2);
    var c4 := Shifted(c3);
    var c5 := Shifted(c4);
    var c6 := Shifted(c5);
    FitsFour(Shifted(c6), 0);
    FitsFour(c6, 4);
    FitsFour(c5, 8);
    FitsFour(c4, 12);
    FitsFour(c3, 16);
    FitsFour(c2, 20);
    FitsFour(c1, 24);
    FitsFour(c, 28);
  }

  lemma RaisedTop(x: bool, p: Poly, k: nat)
    ensures Raised(Term(x, k) + p, 1) == Term(x, k + 1) + Raised(p, 1)
  {
    hide Raised;
    forall e: nat
      ensures e in Raised(Term(x, k) + p, 1) <==> e in Term(x, k + 1) + Raised(p, 1)
    {
      InRaised(Term(x, k) + p, 1, e);
      InRaised(p, 1, e);
    }
  }

  lemma {:induction false} TermsRaised(c: bv32, k: nat)
    requires Fits(c, k)
    ensures Terms(c, k + 1) == Raised(Terms(c, k), 1)
    decreases k
  {
    OneTerm(c, k);
    if k == 0 {
      assert !LowBit(c);
    } else {
      hide Half, LowBit, Term, Raised;
      OneTerm(c, k - 1);
      TermsRaised(Half(c), k - 1);
      RaisedTop(LowBit(c), Terms(Half(c), k - 1), k - 1);
    }
  }

  lemma Nibble(c: bv32, k: nat, high: Poly, d: bv32)
    requires d == c >> 4
    requires high == Term(c & 1 != 0, k + 3) + Term(c & 2 != 0, k + 2) + Term(c & 4 != 0, k + 1) + Term(c & 8 != 0, k)
    ensures Terms(c, k + 4) == high + Terms(d, k)
  {
    hide Term, Terms;
    FourTerms(c, k);
  }

  lemma PolynomialHalf()
    ensures Terms(POLYNOMIAL, 32) == {26, 23, 22, 16} + Terms(0xEDB8, 16)
  {
    hide Terms;
    Nibble(0xEDB8_8320, 28, {}, 0xEDB_8832);
    Nibble(0xEDB_8832, 24, {26}, 0xED_B883);
    Nibble(0xED_B883, 20, {23, 22}, 0xE_DB88);
    Nibble(0xE_DB88, 16, {16}, 0xEDB8);
  }

  lemma PolynomialRest()
    ensures Terms(0xEDB8, 16) == {12, 11, 10, 8} + Terms(0xED, 8)
  {
    hide Terms;
    Nibble(0xEDB8, 12, {12}, 0xEDB);
    Nibble(0xEDB, 8, {11, 10, 8}, 0xED);
  }

  lemma PolynomialEnd()
    ensures Terms(0xED, 8) == {7, 5, 4, 2, 1, 0}
  {
    hide Terms;
    Nibble(0xED, 4, {7, 5, 4}, 0xE);
    Nibble(0xE, 0, {2, 1, 0}, 0);
    NoTerms(0);
  }

  /** The constant of the program is the generator without its first power. */
  lemma PolynomialTerms()
    ensures Terms(POLYNOMIAL, 32) == GENERATOR - {32}
  {
    hide Terms;
    PolynomialHalf();
    PolynomialRest();
    PolynomialEnd();
  }

  lemma NoTerms(c: bv32)
    ensures Terms(c, 0) == {}
  {
  }

  // ---------- Division ----------

  lemma PlusSelf(p: Poly, q: Poly)
    ensures Plus(p, p) == {} && Plus({}, p) == p
    ensures 32 !in p && 32 !in q ==> Plus({32} + p, Plus(p, q)) == {32} + q
  {
  }

  lemma RaisedNone(p: Poly)
    ensures Raised(p, 0) == p
  {
    forall e: nat
      ensures e in Raised(p, 0) <==> e in p
    {
      InRaised(p, 0, e);
    }
  }

  /** One step of the register is one step of the division. */
  lemma StepDivides(c: bv32) returns (q: seq<nat>)
    ensures Plus(Raised(Terms(c, 32), 1), Terms(BitStep(c), 32)) == Multiple(q)
  {
    hide Terms, Raised, Half, LowBit, Plus, Fits, Xor;
    var h := Half(c);
    OneTerm(c, 31);
    RaisedTop(LowBit(c), Terms(h, 31), 31);
    HalfFits(c);
    TermsRaised(h, 31);
    TopTerm(h, 32);
    PlusSelf(Terms(h, 32), Terms(POLYNOMIAL, 32));
    if LowBit(c) {
      TermsXor(h, POLYNOMIAL, 32);
      PolynomialTerms();
      RaisedNone(GENERATOR);
      PlusSelf(GENERATOR, {});
      q := [0];
      assert q[..0] == [];
      assert {32} + (GENERATOR - {32}) == GENERATOR;
    } else {
      assert {} + Terms(h, 32) == Terms(h, 32);
      q := [];
    }
  }

  lemma HalfFits(c: bv32)
    ensures Fits(Half(c), 31)
  {
    FitsAll(c);
    hide Half;
  }

  lemma Telescope(p: Poly, q: Poly, r: Poly)
    ensures Plus(Plus(p, q), Plus(q, r)) == Plus(p, r)
  {
  }

  lemma {:induction false} StepsDivide(c: bv32, n: nat) returns (q: seq<nat>)
    ensures Plus(Raised(Terms(c, 32), n), Terms(BitSteps(c, n), 32)) == Multiple(q)
    decreases n
  {
    hide Terms, Raised, BitStep, Plus;
    var start, end := Terms(c, 32), Terms(BitSteps(c, n), 32);
    if n == 0 {
      RaisedNone(start);
      PlusSelf(start, {});
      q := [];
    } else {
      var next := Terms(BitStep(c), 32);
      var first := StepDivides(c);
      var rest := StepsDivide(BitStep(c), n - 1);
      var first' := MultipleRaised(first, n - 1);
      RaisedPlus(Raised(start, 1), next, n - 1);
      RaisedTwice(start, 1, n - 1);
      Telescope(Raised(start, n), Raised(next, n - 1), end);
      MultiplesAdd(first', rest);
      q := first' + rest;
    }
  }

  // ---------- Bytes ----------

  lemma {:induction false} FitsMore(c: bv32, k: nat)
    requires Fits(c, k)
    ensures Fits(c, k + 1)
    decreases k
  {
    if k == 0 {
      assert Half(c) == 0;
    } else {
      hide Half;
      FitsMore(Half(c), k - 1);
    }
  }

  lemma {:induction false} TermsWider(c: bv32, k: nat, m: nat)
    requires Fits(c, k)
    ensures Fits(c, k + m) && Terms(c, k + m) == Raised(Terms(c, k), m)
    decreases m
  {
    hide Fits, Terms, Raised;
    if m == 0 {
      RaisedNone(Terms(c, k));
    } else {
      TermsWider(c, k, m - 1);
      FitsMore(c, k + m - 1);
      TermsRaised(c, k + m - 1);
      RaisedTwice(Terms(c, k), m - 1, 1);
    }
  }

  lemma ByteFits(b: bv8)
    ensures Fits(b as bv32, 8)
  {
    assert Shifted(Shifted(b as bv32)) == 0;
    FitsNone();
    hide Shifted, Fits;
    FitsFour(Shifted(b as bv32), 0);
    FitsFour(b as bv32, 4);
  }

  lemma ByteBits(b: bv8)
    ensures var c := b as bv32;
      && (c & 1 != 0 <==> b & 0x01 != 0) && (c & 2 != 0 <==> b & 0x02 != 0)
      && (c & 4 != 0 <==> b & 0x04 != 0) && (c & 8 != 0 <==> b & 0x08 != 0)
      && (Shifted(c) & 1 != 0 <==> b & 0x10 != 0) && (Shifted(c) & 2 != 0 <==> b & 0x20 != 0)
      && (Shifted(c) & 4 != 0 <==> b & 0x40 != 0) && (Shifted(c) & 8 != 0 <==> b & 0x80 != 0)
  {
  }

  lemma LowNibble(b: bv8)
    ensures Terms(b as bv32, 8)
            == Term(b & 0x01 != 0, 7) + Term(b & 0x02 != 0, 6) + Term(b & 0x04 != 0, 5) + Term(b & 0x08 != 0, 4)
               + Terms(Shifted(b as bv32), 4)
  {
    ByteBits(b);
    hide Terms, Term;
    FourTerms(b as bv32, 4);
  }

  lemma HighNibble(b: bv8)
    ensures Terms(Shifted(b as bv32), 4)
            == Term(b & 0x10 != 0, 3) + Term(b & 0x20 != 0, 2) + Term(b & 0x40 != 0, 1) + Term(b & 0x80 != 0, 0)
  {
    ByteBits(b);
    hide Terms, Term;
    FourTerms(Shifted(b as bv32), 0);
    NoTerms(Shifted(b as bv32) >> 4);
  }

  lemma ByteTermsAre(b: bv8)
    ensures ByteTerms(b) == Terms(b as bv32, 8)
  {
    hide Terms, Term, Shifted;
    LowNibble(b);
    HighNibble(b);
  }

  /** The byte added to the register in a round. */
  lemma ByteAdded(r: bv32, b: bv8)
    ensures Terms(Xor(r, b as bv32), 32) == Plus(Terms(r, 32), Raised(ByteTerms(b), 24))
  {
    hide Terms, ByteTerms, Raised, Xor, Plus, Fits;
    ByteTermsAre(b);
    ByteFits(b);
    TermsWider(b as bv32, 8, 24);
    TermsXor(r, b as bv32, 32);
  }

  // ---------- The code ----------

  /** What is divided: the text, with thirty-two ones added to its first bits. */
  function Dividend(bytes: seq<bv8>): Poly {
    Plus(Raised(Message(bytes), 32), Raised(Powers(32), 8 * |bytes|))
  }

  lemma Regroup(a: Poly, b: Poly, r: Poly, y: Poly, r': Poly)
    ensures Plus(Plus(Plus(a, b), r), Plus(Plus(r, y), r')) == Plus(Plus(Plus(a, y), b), r')
  {
  }

  lemma RoundDivides(bytes: seq<bv8>, r: bv32, b: bv8, q: seq<nat>) returns (q': seq<nat>)
    requires Plus(Dividend(bytes), Terms(r, 32)) == Multiple(q)
    ensures Plus(Dividend(bytes + [b]), Terms(ByteRound(r, b), 32)) == Multiple(q')
  {
    hide Terms, ByteTerms, Raised, Plus, BitSteps, Xor, Multiple;
    var a, ones, y := Raised(Message(bytes), 32), Raised(Powers(32), 8 * |bytes|), ByteTerms(b);
    var start := Terms(r, 32);
    var raised := MultipleRaised(q, 8);
    RaisedPlus(Plus(a, ones), start, 8);
    RaisedPlus(a, ones, 8);
    var round := StepsDivide(Xor(r, b as bv32), 8);
    ByteAdded(r, b);
    RaisedPlus(start, Raised(y, 24), 8);
    RaisedTwice(y, 24, 8);
    MultiplesAdd(raised, round);
    q' := raised + round;
    Regroup(Raised(a, 8), Raised(ones, 8), Raised(start, 8), Raised(y, 32), Terms(ByteRound(r, b), 32));
    NextDividend(bytes, b);
  }

  lemma NextDividend(bytes: seq<bv8>, b: bv8)
    ensures Dividend(bytes + [b])
            == Plus(Plus(Raised(Raised(Message(bytes), 32), 8), Raised(ByteTerms(b), 32)),
                    Raised(Raised(Powers(32), 8 * |bytes|), 8))
  {
    NextMessage(bytes, b);
    hide ByteTerms, Raised, Plus, Message, Powers;
    RaisedPlus(Raised(Message(bytes), 8), ByteTerms(b), 32);
    RaisedTwice(Message(bytes), 8, 32);
    RaisedTwice(Message(bytes), 32, 8);
    RaisedTwice(Powers(32), 8 * |bytes|, 8);
  }

  lemma NextMessage(bytes: seq<bv8>, b: bv8)
    ensures Message(bytes + [b]) == Plus(Raised(Message(bytes), 8), ByteTerms(b))
  {
    assert (bytes + [b])[..|bytes|] == bytes;
    hide ByteTerms, Raised, Plus;
  }

  /** The lowest `k` bits are all set. */
  predicate Full(c: bv32, k: nat)
    decreases k
  {
    k == 0 || (LowBit(c) && Full(Half(c), k - 1))
  }

  lemma {:induction false} FullTerms(c: bv32, k: nat)
    requires Full(c, k)
    ensures Terms(c, k) == Powers(k)
    decreases k
  {
    if k > 0 {
      hide Half, LowBit;
      FullTerms(Half(c), k - 1);
    }
  }

  lemma FullEight(c: bv32, k: nat)
    requires c & 0xFF == 0xFF && Full(c >> 8, k)
    ensures Full(c, k + 8)
  {
    FourHalves(c);
    FourHalves(c >> 4);
    hide Half, LowBit;
    assert Full(c >> 4, k + 4) by {
      assert Full(Half(Half(c >> 4)), k + 2);
    }
    assert Full(Half(Half(c)), k + 6);
  }

  lemma OnesTerms()
    ensures Terms(ONES, 32) == Powers(32)
  {
    hide Terms, Full, Powers;
    FullNone(0);
    FullEight(0xFF, 0);
    FullEight(0xFFFF, 8);
    FullEight(0xFF_FFFF, 16);
    FullEight(0xFFFF_FFFF, 24);
    FullTerms(ONES, 32);
  }

  lemma FullNone(c: bv32)
    ensures Full(c, 0)
  {
  }

  lemma {:induction false} RegisterDivides(bytes: seq<bv8>) returns (q: seq<nat>)
    ensures Plus(Dividend(bytes), Terms(Register(ONES, bytes), 32)) == Multiple(q)
  {
    hide Terms, Raised, Plus, ByteRound, Powers;
    if bytes == [] {
      OnesTerms();
      EmptyDividend();
      PlusSelf(Powers(32), {});
      q := [];
    } else {
      var n := |bytes| - 1;
      assert bytes[..n] + [bytes[n]] == bytes;
      var q' := RegisterDivides(bytes[..n]);
      q := RoundDivides(bytes[..n], Register(ONES, bytes[..n]), bytes[n], q');
    }
  }

  lemma EmptyDividend()
    ensures Dividend([]) == Powers(32)
  {
    hide Raised, Powers, Plus;
    RaisedNone(Powers(32));
    RaisedZero(32);
    PlusSelf(Powers(32), {});
  }

  lemma RaisedZero(k: nat)
    ensures Raised({}, k) == {}
  {
  }

  // ---------- The only remainder ----------

  ghost predicate Below(p: Poly, m: nat) {
    forall e :: e in p ==> e < m
  }

  predicate AllBelow(q: seq<nat>, m: nat) {
    forall i :: 0 <= i < |q| ==> q[i] < m
  }

  lemma BelowPlus(p: Poly, q: Poly, m: nat)
    requires Below(p, m) && Below(q, m)
    ensures Below(Plus(p, q), m)
  {
  }

  lemma GeneratorRaised(k: nat, m: nat)
    requires k < m
    ensures Below(Raised(GENERATOR, k), m + 32)
  {
  }

  lemma {:induction false} MultipleBound(q: seq<nat>, m: nat)
    requires AllBelow(q, m)
    ensures Below(Multiple(q), m + 32)
  {
    hide Raised, Plus;
    if q != [] {
      var n := |q| - 1;
      MultipleBound(q[..n], m);
      GeneratorRaised(q[n], m);
      hide Below;
      BelowPlus(Multiple(q[..n]), Raised(GENERATOR, q[n]), m + 32);
    }
  }

  lemma PlusSwap(p: Poly, q: Poly, r: Poly)
    ensures Plus(Plus(p, q), r) == Plus(Plus(p, r), q)
    ensures Plus(p, {}) == p && Plus(Plus(p, q), q) == p
  {
  }

  /** The multiples of the generator without the power `m`, and that one if it is left. */
  lemma {:induction false} SplitTop(q: seq<nat>, m: nat) returns (rest: seq<nat>, top: bool)
    requires AllBelow(q, m + 1)
    ensures AllBelow(rest, m) && Multiple(q) == Plus(Multiple(rest), if top then Raised(GENERATOR, m) else {})
  {
    hide Raised, Plus;
    rest, top := [], false;
    if q == [] {
      PlusSwap({}, {}, {});
    } else {
      var last := Raised(GENERATOR, q[|q| - 1]);
      var rest', top' := SplitTop(q[..|q| - 1], m);
      PlusSwap(Multiple(rest'), if top' then Raised(GENERATOR, m) else {}, last);
      if q[|q| - 1] == m {
        rest, top := rest', !top';
        PlusSwap(Multiple(rest'), {}, {});
      } else {
        rest, top := rest' + [q[|q| - 1]], top';
        assert rest[..|rest| - 1] == rest';
      }
    }
  }

  lemma TopPower(p: Poly, k: nat)
    requires Below(p, k + 32)
    ensures k + 32 in Plus(p, Raised(GENERATOR, k))
  {
    InRaised(GENERATOR, k, k + 32);
    hide Raised;
  }

  /** No multiple but zero has a degree below that of the generator. */
  lemma {:induction false} NoSmallMultiple(q: seq<nat>, m: nat)
    requires AllBelow(q, m) && Below(Multiple(q), 32)
    ensures Multiple(q) == {}
    decreases m
  {
    if m == 0 {
      assert |q| == 0;
    } else {
      hide Raised, Plus;
      var rest, top := SplitTop(q, m - 1);
      MultipleBound(rest, m - 1);
      TopPower(Multiple(rest), m - 1);
      if !top {
        PlusSwap(Multiple(rest), {}, {});
        NoSmallMultiple(rest, m - 1);
      }
    }
  }

  /** A polynomial of a degree under 32 that leaves a multiple of the generator when it is taken from
      the dividend. */
  ghost predicate IsRemainder(p: Poly, bytes: seq<bv8>) {
    Below(p, 32) && exists q :: Plus(Dividend(bytes), p) == Multiple(q)
  }

  lemma {:induction false} SomeBound(q: seq<nat>) returns (m: nat)
    ensures AllBelow(q, m)
  {
    m := 0;
    if q != [] {
      m := SomeBound(q[..|q| - 1]);
      m := if m > q[|q| - 1] then m else q[|q| - 1] + 1;
    }
  }

  lemma SameRemainder(d: Poly, p: Poly, r: Poly, q: seq<nat>, q': seq<nat>)
    requires Plus(d, p) == Multiple(q) && Plus(d, r) == Multiple(q') && Below(p, 32) && Below(r, 32)
    ensures p == r
  {
    MultiplesAdd(q, q');
    hide Multiple;
    BelowPlus(p, r, 32);
    PlusCommutes(d, p);
    Telescope(p, d, r);
    var m := SomeBound(q + q');
    hide Below;
    NoSmallMultiple(q + q', m);
    EqualSum(p, r);
  }

  lemma PlusCommutes(p: Poly, q: Poly)
    ensures Plus(p, q) == Plus(q, p)
  {
  }

  lemma EqualSum(p: Poly, q: Poly)
    requires Plus(p, q) == {}
    ensures p == q
  {
    forall e: nat
      ensures e in p <==> e in q
    {
      InPlus(p, q, e);
    }
  }

  /** The code is the complement of the remainder, and of no other polynomial. */
  lemma CrcIsRemainder(bytes: seq<bv8>, p: Poly)
    ensures IsRemainder(p, bytes) <==> p == Terms(!Crc(bytes), 32)
  {
    hide Terms, Dividend, Plus, Multiple, Register;
    var r := Terms(!Crc(bytes), 32);
    Complemented(Register(ONES, bytes));
    var q' := RegisterDivides(bytes);
    forall e | e in r
      ensures e < 32
    {
      TermsBound(!Crc(bytes), 32, e);
    }
    if IsRemainder(p, bytes) {
      var q :| Plus(Dividend(bytes), p) == Multiple(q);
      SameRemainder(Dividend(bytes), p, r, q, q');
    }
  }

  lemma Complemented(c: bv32)
    ensures !!c == c
  {
  }
}
