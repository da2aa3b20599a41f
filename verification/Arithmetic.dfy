/** Division, remainders and products, one fact a lemma. */
module Arithmetic {
  function Max(x: int, y: int): int {
    if x >= y then x else y
  }

  lemma ModUnique(a: int, d: nat, q: int, r: nat)
    requires r < d && a == q * d + r
    ensures a % d == r && a / d == q
  {
    var q', r' := a / d, a % d;
    assert a == q' * d + r';
    assert (q - q') * d == r' - r;
    SmallMultiple(q - q', d);
  }

  lemma SmallMultiple(k: int, d: nat)
    ensures k >= 1 ==> k * d >= d
    ensures k <= -1 ==> k * d <= -(d as int)
  {
  }

  lemma ModAddMultiple(a: nat, k: nat, d: nat)
    requires d > 0
    ensures (a + k * d) % d == a % d
  {
    ModUnique(a + k * d, d, a / d + k, a % d);
  }

  lemma ModAddMod(a: nat, b: nat, d: nat)
    requires d > 0
    ensures (a + b % d) % d == (a + b) % d
  {
    assert a + b == a + b % d + (b / d) * d;
    ModAddMultiple(a + b % d, b / d, d);
  }

  /** Nested quotients: `i` differs from `i % d` by a multiple of every divisor of `d`. */
  lemma ModOfMultiple(i: nat, d: nat, e: nat)
    requires d > 0 && e > 0 && d % e == 0
    ensures (i % d) % e == i % e
  {
    var l, q, r := d / e, i / d, i % d;
    DivisionIdentity(d, e);
    DivisionIdentity(i, d);
    MulAssoc(q, l, e);
    assert i == r + (q * l) * e;
    MulNonNegative(q, l);
    ModAddMultiple(r, q * l, e);
  }

  lemma DivisionIdentity(a: nat, d: nat)
    requires d > 0
    ensures a == (a / d) * d + a % d
  {
  }

  lemma MulNonNegative(a: nat, b: nat)
    ensures 0 <= a * b
  {
  }

  lemma MulAssoc(a: int, b: int, c: int)
    ensures a * (b * c) == (a * b) * c
  {
  }

  lemma DivisorOfMultiple(a: nat, d: nat, e: nat)
    requires d > 0 && e > 0 && a % d == 0 && d % e == 0
    ensures a % e == 0
  {
    ModOfMultiple(a, d, e);
  }

  lemma MulStep(a: nat, n: nat, m: nat)
    requires a < n
    ensures a * m + m <= n * m
  {
    assert (a + 1) * m <= n * m;
  }

  lemma MulDistribute(x: nat, y: nat, z: nat)
    ensures (x + y) * z == x * z + y * z
  {
  }

  lemma SplitUnique(H: nat, q: nat, r: nat, q': nat, r': nat)
    requires r < H && r' < H && q * H + r == q' * H + r'
    ensures q == q' && r == r'
  {
    ModUnique(q * H + r, H, q, r);
    ModUnique(q * H + r, H, q', r');
  }

  /** A two-digit number in base `n` determines its digits and its bound. */
  lemma MixedRadix(hi: nat, n: nat, lo: nat, m: nat)
    requires lo < n && hi < m
    ensures 0 <= hi * n + lo < m * n
    ensures (hi * n + lo) % n == lo && (hi * n + lo) / n == hi
  {
    MulStep(hi, m, n);
    MulNonNegative(hi, n);
    ModUnique(hi * n + lo, n, hi, lo);
  }

  /** A three-digit number: `k`, then `j` in base `m`, then `i` in base `n`. */
  function Flat(k: int, j: int, i: int, m: nat, n: nat): int {
    (k * m + j) * n + i
  }

  function LowDigit(t: nat, n: nat): nat
    requires n > 0
  {
    t % n
  }

  function MiddleDigit(t: nat, m: nat, n: nat): nat
    requires m > 0 && n > 0
  {
    t / n % m
  }

  function HighDigit(t: nat, m: nat, n: nat): nat
    requires m > 0 && n > 0
  {
    t / n / m
  }

  lemma FlatDigits(k: nat, j: nat, i: nat, l: nat, m: nat, n: nat)
    requires k < l && j < m && i < n
    ensures 0 <= Flat(k, j, i, m, n) < l * (m * n)
    ensures LowDigit(Flat(k, j, i, m, n), n) == i
    ensures MiddleDigit(Flat(k, j, i, m, n), m, n) == j
    ensures HighDigit(Flat(k, j, i, m, n), m, n) == k
  {
    MixedRadix(k, m, j, l);
    MixedRadix(k * m + j, n, i, l * m);
    MulAssoc(l, m, n);
  }

  lemma DigitsFlat(t: nat, l: nat, m: nat, n: nat)
    requires m > 0 && n > 0 && t < l * (m * n)
    ensures HighDigit(t, m, n) < l && MiddleDigit(t, m, n) < m && LowDigit(t, n) < n
    ensures Flat(HighDigit(t, m, n), MiddleDigit(t, m, n), LowDigit(t, n), m, n) == t
  {
    var q := t / n;
    DivisionIdentity(t, n);
    DivisionIdentity(q, m);
    if q / m >= l {
      MulAtLeast(l, q / m, m);
      MulAtLeast(l * m, q, n);
      MulAssoc(l, m, n);
    }
  }

  lemma MulAtLeast(a: nat, b: nat, k: nat)
    requires a <= b
    ensures 0 <= a * k <= b * k
  {
    MulNonNegative(a, k);
    if a < b {
      MulStep(a, b, k);
    }
  }
}
