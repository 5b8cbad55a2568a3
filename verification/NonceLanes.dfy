/** The nonces the internal CPU miner's threads try: each starts at its index times a large odd
    stride and goes on in steps of the number of threads, in wrapping 64-bit arithmetic. */
module NonceLanes {
  import opened Powers

  const NONCES: nat := 0x1_0000_0000_0000_0000
  const STRIDE: nat := 1_000_000_007

  /** The nonce of thread `i` after `k` failed tries. */
  function Nonce(threads: nat, i: nat, k: nat): nat {
    if k == 0 then (i * STRIDE) % NONCES else (Nonce(threads, i, k - 1) + threads) % NONCES
  }

  predicate Divides(d: nat, n: nat) {
    d > 0 && n % d == 0
  }

  ghost predicate Coprime(a: nat, b: nat) {
    forall d: nat :: d > 1 && Divides(d, a) ==> !Divides(d, b)
  }

  // ---------- Division ----------

  lemma SmallMultiple(m: int, c: int)
    requires -m < c * m < m
    ensures c == 0
  {
  }

  lemma ModDiff(a: int, b: int, m: nat) returns (q: int)
    requires m > 0 && a % m == b % m
    ensures a - b == q * m
  {
    q := a / m - b / m;
  }

  lemma ModSame(a: int, b: int, q: int, m: nat)
    requires m > 0 && a == b + q * m
    ensures a % m == b % m
  {
    var c := q + b / m - a / m;
    assert a % m - b % m == c * m;
    SmallMultiple(m, c);
  }

  lemma DivMod(a: int, m: nat)
    requires m > 0
    ensures a == (a / m) * m + a % m
  {
  }

  lemma Multiple(c: int, d: nat)
    requires d > 0
    ensures (c * d) % d == 0
  {
    ModSame(c * d, 0, c, d);
  }

  lemma Euclid(a: nat, b: nat) returns (g: nat, x: int, y: int, a': nat, b': nat)
    requires a > 0 || b > 0
    ensures g > 0 && a == a' * g && b == b' * g
    ensures g == a * x + b * y
    decreases b
  {
    if b == 0 {
      g, x, y, a', b' := a, 1, 0, 1, 0;
    } else {
      var q, r := a / b, a % b;
      var x0, y0, r';
      g, x0, y0, b', r' := Euclid(b, r);
      x, y, a' := y0, x0 - q * y0, b' * q + r';
      assert a == b * q + r;
      Regroup(a, b, q, r, x0, y0);
      Refactor(a', b', q, r', g);
    }
  }

  lemma Regroup(a: int, b: int, q: int, r: int, x: int, y: int)
    requires a == b * q + r
    ensures b * x + r * y == a * y + b * (x - q * y)
  {
  }

  lemma Refactor(a': int, b': int, q: int, r': int, g: int)
    requires a' == b' * q + r'
    ensures a' * g == (b' * g) * q + r' * g
  {
  }

  // ---------- Lanes ----------

  lemma {:induction false} NonceClosed(threads: nat, i: nat, k: nat)
    ensures Nonce(threads, i, k) == (i * 1_000_000_007 + k * threads) % 0x1_0000_0000_0000_0000
  {
    if k > 0 {
      NonceClosed(threads, i, k - 1);
      var a := i * STRIDE + (k - 1) * threads;
      assert i * STRIDE + k * threads == a + threads;
      ModSame(a % NONCES + threads, a + threads, -(a / NONCES), NONCES);
    }
  }

  predicate Unwrapped(threads: nat, i: nat, k: nat) {
    i * STRIDE + k * threads < NONCES
  }

  /** No two threads try the same nonce as long as neither has wrapped around. */
  ghost predicate DisjointBeforeWrap(threads: nat) {
    forall i: nat, j: nat, k: nat, l: nat | i < j < threads && Unwrapped(threads, i, k) && Unwrapped(threads, j, l) ::
      Nonce(threads, i, k) != Nonce(threads, j, l)
  }

  /** No two threads ever try the same nonce. */
  ghost predicate DisjointForever(threads: nat) {
    forall i: nat, j: nat, k: nat, l: nat | i < j < threads :: Nonce(threads, i, k) != Nonce(threads, j, l)
  }

  // ---------- Before the wrap ----------

  /** If `a` divides `c * b`, then `c` is a multiple of `a` over their common divisor. */
  lemma CommonCancel(a': int, b': int, g: int, a: int, b: int, c: int, q: int, x: int, y: int)
    requires a == a' * g && b == b' * g && g == a * x + b * y && g > 0 && c * b == q * a
    ensures c == (c * x + q * y) * a'
  {
    var z := c * x + q * y;
    assert c * g == c * (a * x) + c * (b * y) by {
      assert c * g == c * (a * x + b * y);
    }
    assert c * (b * y) == (q * a) * y by {
      assert c * (b * y) == (c * b) * y;
    }
    assert c * (a * x) + (q * a) * y == z * a;
    assert c * g == (z * a') * g;
    Cancel(c, z * a', g);
  }

  lemma Cancel(u: int, v: int, g: int)
    requires u * g == v * g && g > 0
    ensures u == v
  {
    assert (u - v) * g == 0;
  }

  lemma PositiveMultiple(c: int, z: int, a: int)
    requires c == z * a && c > 0 && a > 0
    ensures c >= a
  {
    if c < a {
      SmallMultiple(a, z);
    }
  }

  lemma Distribute(i: int, j: int, k: int, l: int, p: int, t: int)
    ensures (i * p + k * t) - (j * p + l * t) == (i - j) * p + (k - l) * t
  {
  }

  /** Every common divisor of the number of threads and the stride puts the first thread that starts
      in the lane of thread 0 beyond the wrap. */
  ghost predicate MeetsBeyond(threads: nat) {
    forall d: nat :: d > 1 && Divides(d, threads) && Divides(d, STRIDE) ==> (threads / d) * STRIDE >= NONCES
  }

  /** The lanes stay apart before the wrap exactly when no common divisor of the number of threads and
      the stride makes two of them meet there; when no thread starts wrapped, exactly when the two
      numbers are coprime. */
  lemma LanesBeforeWrap(threads: nat)
    requires 0 < threads
    ensures DisjointBeforeWrap(threads) <==> MeetsBeyond(threads)
    ensures threads * STRIDE <= NONCES ==> (DisjointBeforeWrap(threads) <==> Coprime(threads, STRIDE))
  {
    if MeetsBeyond(threads) {
      forall i: nat, j: nat, k: nat, l: nat | i < j < threads && Unwrapped(threads, i, k) && Unwrapped(threads, j, l)
        ensures Nonce(threads, i, k) != Nonce(threads, j, l)
      {
        LanesApartBefore(threads, i, j, k, l);
      }
    }
    if DisjointBeforeWrap(threads) {
      forall d: nat | d > 1 && Divides(d, threads) && Divides(d, STRIDE) ensures (threads / d) * STRIDE >= NONCES {
        if (threads / d) * STRIDE < NONCES {
          CommonDivisorMeets(threads, d);
        }
      }
    }
    hide DisjointBeforeWrap;
    if threads * STRIDE <= NONCES {
      forall d: nat | d > 1 && Divides(d, threads) ensures (threads / d) * STRIDE < NONCES {
        SmallerLane(threads, d);
      }
    }
  }

  lemma Quotient(n: nat, d: nat)
    requires 0 < n && d > 1
    ensures n / d < n && (Divides(d, n) ==> 0 < n / d && n == (n / d) * d)
  {
    DivMod(n, d);
    QuotientOf(n, d, n / d, n % d);
  }

  lemma QuotientOf(n: nat, d: nat, q: nat, r: nat)
    requires 0 < n && d > 1 && n == q * d + r
    ensures q < n && (r == 0 ==> 0 < q)
  {
    assert q * d == 2 * q + q * (d - 2);
    assert q * (d - 2) >= 0;
  }

  lemma SmallerLane(threads: nat, d: nat)
    requires 0 < threads && d > 1 && threads * STRIDE <= NONCES
    ensures (threads / d) * STRIDE < NONCES
  {
    Quotient(threads, d);
    var i := threads / d;
    MoreTimes(i + 1, threads, STRIDE);
  }

  lemma NonceUnwrapped(threads: nat, i: nat, k: nat)
    requires Unwrapped(threads, i, k)
    ensures Nonce(threads, i, k) == i * STRIDE + k * threads
  {
    NonceClosed(threads, i, k);
  }

  lemma UnderWrap(threads: nat, i: nat, j: nat, l: nat)
    requires i < j && Unwrapped(threads, j, l)
    ensures (j - i) * STRIDE < NONCES
  {
    assert j * STRIDE == (j - i) * STRIDE + i * STRIDE;
    assert l * threads >= 0;
  }

  lemma LanesApartBefore(threads: nat, i: nat, j: nat, k: nat, l: nat)
    requires MeetsBeyond(threads) && i < j < threads && Unwrapped(threads, i, k) && Unwrapped(threads, j, l)
    ensures Nonce(threads, i, k) != Nonce(threads, j, l)
  {
    hide Nonce, MeetsBeyond;
    NonceUnwrapped(threads, i, k);
    NonceUnwrapped(threads, j, l);
    var c, q := j - i, k - l;
    UnderWrap(threads, i, j, l);
    hide Unwrapped;
    Distribute(i, j, k, l, STRIDE, threads);
    if Nonce(threads, i, k) == Nonce(threads, j, l) {
      assert c * STRIDE == q * threads;
      NoMeeting(threads, c, q);
    }
  }

  lemma NoMeeting(threads: nat, c: nat, q: int)
    requires MeetsBeyond(threads) && 0 < c < threads && c * STRIDE < NONCES
    ensures c * STRIDE != q * threads
  {
    if c * STRIDE == q * threads {
      var g, x, y, t', s' := Euclid(threads, STRIDE);
      CommonCancel(t', s', g, threads, STRIDE, c, q, x, y);
      PositiveFactor(t', g, threads);
      PositiveMultiple(c, c * x + q * y, t');
      FactorDivides(threads, t', g);
      FactorDivides(STRIDE, s', g);
      if g > 1 {
        MoreTimes(t', c, STRIDE);
      }
    }
  }

  lemma PositiveFactor(t': nat, g: nat, t: nat)
    requires t == t' * g && t > 0
    ensures t' > 0
  {
  }

  lemma FactorDivides(n: nat, n': nat, g: nat)
    requires g > 0 && n == n' * g
    ensures Divides(g, n) && n / g == n'
  {
    Multiple(n', g);
    assert n == (n / g) * g;
    Cancel(n / g, n', g);
  }

  lemma MoreTimes(a: nat, b: nat, s: nat)
    requires a <= b
    ensures a * s <= b * s
  {
  }

  /** With a common divisor `d`, the first nonce of thread `threads / d` is also thread 0's. */
  lemma CommonDivisorMeets(threads: nat, d: nat)
    requires 0 < threads && d > 1 && Divides(d, threads) && Divides(d, STRIDE) && (threads / d) * STRIDE < NONCES
    ensures !DisjointBeforeWrap(threads)
  {
    var i, l := threads / d, STRIDE / d;
    Quotient(threads, d);
    Quotient(STRIDE, d);
    Swap(i, l, d);
    assert i * STRIDE == l * threads;
    hide Divides, Nonce;
    assert Unwrapped(threads, i, 0) && Unwrapped(threads, 0, l);
    hide Unwrapped;
    NonceUnwrapped(threads, i, 0);
    NonceUnwrapped(threads, 0, l);
    assert Nonce(threads, 0, l) == Nonce(threads, i, 0);
  }

  lemma Swap(i: int, l: int, d: int)
    ensures i * (l * d) == l * (i * d)
  {
  }

  // ---------- Through the wrap ----------

  /** The inverse of the stride in 64-bit arithmetic. */
  const INVERSE: nat := 13499267949257065399

  lemma StrideInverse()
    ensures STRIDE * INVERSE == 1 + 731796787 * NONCES
  {
  }

  /** A divisor of the number of nonces that divides a multiple of the stride divides the factor. */
  lemma StrideCancel(t: nat, c: int, q: int, r: int, m: nat)
    requires t > 0 && c * STRIDE == q * t + r * NONCES && NONCES == m * t && c < t && -c < t
    ensures c == 0
  {
    StrideInverse();
    var u := q + r * m;
    assert c * STRIDE == u * t by {
      assert r * (m * t) == (r * m) * t;
    }
    assert c * (STRIDE * INVERSE) == c + (c * 731796787) * NONCES;
    assert (c * STRIDE) * INVERSE == (u * INVERSE) * t;
    var v := c * 731796787;
    assert v * NONCES == (v * m) * t;
    assert c == (u * INVERSE - v * m) * t;
    SmallMultiple(t, u * INVERSE - v * m);
  }

  lemma DivisorApart(threads: nat, i: nat, j: nat, k: nat, l: nat)
    requires Divides(threads, NONCES) && i < j < threads
    ensures Nonce(threads, i, k) != Nonce(threads, j, l)
  {
    NonceClosed(threads, i, k);
    NonceClosed(threads, j, l);
    hide Nonce;
    if Nonce(threads, i, k) == Nonce(threads, j, l) {
      var r := ModDiff(j * STRIDE + l * threads, i * STRIDE + k * threads, NONCES);
      Distribute(j, i, l, k, STRIDE, threads);
      var c, q := j - i, k - l;
      StrideCancel(threads, c, q, r, NONCES / threads);
    }
  }

  /** A number of threads that does not divide the number of nonces shares with it a divisor `g`
      that is smaller than itself, and the lanes of threads 0 and `g` meet. */
  lemma NonDivisorMeets(threads: nat) returns (g: nat, l: nat)
    requires 0 < threads && !Divides(threads, NONCES)
    ensures 0 < g < threads && Nonce(threads, 0, l) == Nonce(threads, g, 0)
  {
    var x, y, t', m';
    g, x, y, t', m' := Euclid(threads, NONCES);
    if t' == 1 {
      Multiple(m', threads);
    }
    assert g < threads by {
      SmallFactor(t', g, threads);
    }
    var a := x * STRIDE;
    l := if a >= 0 then a else a - a * NONCES;
    assert l >= 0;
    MeetingPoint(threads, g, x, y, a, l);
  }

  lemma SmallFactor(t': nat, g: nat, t: nat)
    requires t == t' * g && t' != 1 && t > 0
    ensures g < t
  {
  }

  lemma MeetingPoint(threads: nat, g: nat, x: int, y: int, a: int, l: nat)
    requires g == threads * x + NONCES * y && a == x * STRIDE && l == if a >= 0 then a else a - a * NONCES
    ensures Nonce(threads, 0, l) == Nonce(threads, g, 0)
  {
    NonceClosed(threads, 0, l);
    NonceClosed(threads, g, 0);
    hide Nonce;
    var z := if a >= 0 then 0 else -a * threads;
    assert l * threads == a * threads + z * NONCES;
    assert g * STRIDE == a * threads + (y * STRIDE) * NONCES;
    ModSame(l * threads, g * STRIDE, z - y * STRIDE, NONCES);
  }

  ghost predicate PowerOfTwo(n: nat) {
    exists e: nat :: e <= 64 && n == Pow2(e)
  }

  lemma Pow2Of64(a: nat)
    requires a == 8
    ensures Pow2(8 * a) == NONCES
  {
    assert Pow2(8) == 256;
    var b := SquarePow2(a, 256);
    var c := SquarePow2(b, 65536);
    var d := SquarePow2(c, 4294967296);
  }

  lemma {:induction false} DivisorIsPower(d: nat, m: nat, e: nat) returns (a: nat)
    requires d * m == Pow2(e)
    ensures a <= e && d == Pow2(a)
  {
    if e == 0 {
      a := 0;
    } else {
      var p := Pow2(e - 1);
      assert d * m == 2 * p;
      var h, k := HalveOne(d, m, p);
      var b := DivisorIsPower(h, k, e - 1);
      a := if h == d then b else b + 1;
    }
  }

  /** One of two factors of an even number can be halved. */
  lemma HalveOne(d: nat, m: nat, p: nat) returns (h: nat, k: nat)
    requires d * m == 2 * p && p > 0
    ensures h * k == p && (h == d || (2 * h == d && h != d))
  {
    if d % 2 == 0 {
      h, k := d / 2, m;
      assert 2 * (h * k) == d * m;
    } else {
      OddFactor(d, m);
      h, k := d, m / 2;
      assert 2 * (h * k) == d * m;
    }
  }

  lemma OddFactor(d: nat, m: nat)
    requires d % 2 == 1 && (d * m) % 2 == 0
    ensures m % 2 == 0
  {
    var a, b, r := d / 2, m / 2, m % 2;
    assert d * m == (2 * a + 1) * (2 * b + r) == 2 * (2 * (a * b) + a * r + b) + r;
  }

  lemma DivisorsArePowers(threads: nat)
    ensures Divides(threads, NONCES) <==> PowerOfTwo(threads)
  {
    var n: nat :| n == 64;
    Pow2Of64(n / 8);
    if Divides(threads, NONCES) {
      var a := DivisorIsPower(threads, NONCES / threads, n);
    }
    if e: nat :| e <= 64 && threads == Pow2(e) {
      Pow2Adds(n - e, e);
      Multiple(Pow2(n - e), threads);
    }
  }

  /** The lanes stay apart for ever exactly when the number of threads is a power of two. */
  lemma LanesForever(threads: nat)
    requires 0 < threads
    ensures DisjointForever(threads) <==> PowerOfTwo(threads)
  {
    DivisorsArePowers(threads);
    hide PowerOfTwo;
    if Divides(threads, NONCES) {
      forall i: nat, j: nat, k: nat, l: nat | i < j < threads ensures Nonce(threads, i, k) != Nonce(threads, j, l) {
        DivisorApart(threads, i, j, k, l);
      }
    } else {
      var g, l := NonDivisorMeets(threads);
      hide Nonce;
      assert Nonce(threads, 0, l) == Nonce(threads, g, 0);
    }
  }

  /** With a power of two of threads, every nonce is tried by some thread: the lanes are a
      partition of all nonces. */
  lemma EveryNonceInLane(threads: nat, v: nat) returns (i: nat, k: nat)
    requires PowerOfTwo(threads) && v < NONCES
    ensures i < threads && Nonce(threads, i, k) == v
  {
    DivisorsArePowers(threads);
    hide PowerOfTwo;
    StrideInverse();
    var m := NONCES / threads;
    var w := v * INVERSE;
    i := w % threads;
    var q := w / threads;
    assert w == q * threads + i;
    var c := 731796787 * v * m;
    assert w * STRIDE == v + (731796787 * v) * NONCES;
    assert (731796787 * v) * (m * threads) == c * threads;
    assert i * STRIDE == v + (c - q * STRIDE) * threads;
    k := (q * STRIDE - c) % m;
    LaneReaches(threads, v, i, c - q * STRIDE, k, m);
  }

  lemma Rewind(d: int, k: int, r: int, m: int, t: int)
    requires -d == r * m + k
    ensures d * t + k * t == -r * (m * t)
  {
    assert (d + k) * t == (-r * m) * t == -r * (m * t);
  }

  lemma LaneReaches(threads: nat, v: nat, i: nat, d: int, k: nat, m: nat)
    requires m > 0 && NONCES == m * threads && v < NONCES && i * STRIDE == v + d * threads && k == -d % m
    ensures Nonce(threads, i, k) == v
  {
    NonceClosed(threads, i, k);
    hide Nonce;
    DivMod(-d, m);
    var r := -d / m;
    Rewind(d, k, r, m, threads);
    Returned(i * STRIDE + k * threads, v, -r);
  }

  lemma Returned(a: nat, v: nat, r: int)
    requires v < NONCES && a == v + r * NONCES
    ensures a % NONCES == v
  {
    ModSame(a, v, r, NONCES);
  }
}
