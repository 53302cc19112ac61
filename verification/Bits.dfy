/** Bitwise operations on natural numbers, and what masks mean arithmetically. */
module Bits {

  function Pow2(n: nat): (p: nat)
    ensures p > 0
  {
    if n == 0 then 1 else 2 * Pow2(n - 1)
  }

  function And(x: nat, y: nat): nat
    decreases x
  {
    if x == 0 || y == 0 then 0 else (if x % 2 == 1 && y % 2 == 1 then 1 else 0) + 2 * And(x / 2, y / 2)
  }

  function Or(x: nat, y: nat): nat
    decreases x
  {
    if x == 0 then y else if y == 0 then x
    else (if x % 2 == 1 || y % 2 == 1 then 1 else 0) + 2 * Or(x / 2, y / 2)
  }

  lemma MultipleBounds(d: int, n: int)
    requires n >= 0
    ensures d >= 1 ==> d * n >= n
    ensures d <= -1 ==> d * n <= -n
  {
  }

  lemma QuotientIsUnique(x: nat, q: nat, r: nat, n: nat)
    requires r < n && x == q * n + r
    ensures x % n == r && x / n == q
  {
    var d := x / n - q;
    assert d * n == r - x % n;
    MultipleBounds(d, n);
  }

  lemma ModuloDouble(x: nat, p: nat)
    requires p > 0
    ensures x % (2 * p) == x % 2 + 2 * ((x / 2) % p)
  {
    var q, r := (x / 2) / p, (x / 2) % p;
    assert x / 2 == q * p + r;
    assert x == q * (2 * p) + (2 * r + x % 2);
    QuotientIsUnique(x, q, 2 * r + x % 2, 2 * p);
  }

  /** Masking with h low ones is the remainder modulo 2^h. */
  lemma {:induction false} AndMask(x: nat, h: nat)
    ensures And(x, Pow2(h) - 1) == x % Pow2(h)
    decreases h
  {
    if h > 0 {
      var p := Pow2(h - 1);
      ModuloDouble(x, p);
      AndMask(x / 2, h - 1);
      if x == 0 {
        assert (x / 2) % p == 0;
      }
    }
  }

  /** Or-ing in bits below a multiple of 2^h is addition. */
  lemma {:induction false} OrIsSum(n: nat, x: nat, h: nat)
    requires n % Pow2(h) == 0 && x < Pow2(h)
    ensures Or(n, x) == n + x
    decreases h
  {
    if h > 0 && n > 0 && x > 0 {
      ModuloDouble(n, Pow2(h - 1));
      OrIsSum(n / 2, x / 2, h - 1);
    }
  }

  /** Putting the low h bits of a value under a multiple of 2^h. */
  lemma OrLowBits(base: nat, value: nat, h: nat)
    requires base % Pow2(h) == 0
    ensures Or(base, And(value, Pow2(h) - 1)) == base + value % Pow2(h)
  {
    AndMask(value, h);
    OrIsSum(base, value % Pow2(h), h);
  }

  lemma {:induction false} Pow2Monotone(m: nat, n: nat)
    requires m <= n
    ensures Pow2(m) <= Pow2(n)
    decreases n
  {
    if m < n { Pow2Monotone(m, n - 1); }
  }

  lemma {:induction false} Pow2Splits(m: nat, n: nat)
    ensures Pow2(m + n) == Pow2(m) * Pow2(n)
    decreases m
  {
    if m > 0 { Pow2Splits(m - 1, n); }
  }

  lemma BelowNextMultiple(base: nat, x: nat, p: nat, q: nat)
    requires p > 0 && base % p == 0 && base < p * q && x < p
    ensures base + x < p * q
  {
    var k := base / p;
    var d := q - k;
    assert base == k * p;
    assert d * p == p * q - k * p;
    MultipleBounds(d, p);
  }

  lemma Pow2Divides(m: nat, n: nat) returns (c: nat)
    requires m <= n
    ensures c > 0 && Pow2(n) == Pow2(m) * c && (m < n ==> c >= 2)
  {
    c := Pow2(n - m);
    Pow2Splits(m, n - m);
  }

  lemma AddMultiple(b: nat, x: nat, h: nat)
    requires h > 0 && b % h == 0
    ensures (b + x) % h == x % h
  {
    assert b == (b / h) * h && x == (x / h) * h + x % h;
    assert b + x == (b / h + x / h) * h + x % h;
    QuotientIsUnique(b + x, b / h + x / h, x % h, h);
  }

  lemma ModuloOfModulo(x: nat, h: nat, c: nat)
    requires h > 0 && c > 0 && h * c > 0
    ensures (x % (h * c)) % h == x % h
  {
    ModuloOfPart(x, h, c, h * c);
  }

  lemma ModuloOfPart(x: nat, h: nat, c: nat, n: nat)
    requires h > 0 && n > 0 && n == h * c
    ensures (x % n) % h == x % h
  {
    var k := (x / n) * c;
    NestedProduct(x / n, h, c);
    assert x == k * h + x % n;
    MultiplePlus(k, x % n, h);
  }

  lemma MultiplePlus(k: nat, r: nat, h: nat)
    requires h > 0
    ensures (k * h + r) % h == r % h
  {
    QuotientIsUnique(k * h, k, 0, h);
    AddMultiple(k * h, r, h);
  }

  lemma NestedProduct(q: nat, h: nat, c: nat)
    ensures q * (h * c) == (q * c) * h
  {
  }

  lemma AboveMultiple(b: nat, z: nat, h: nat)
    requires h > 0 && b % h == 0 && b <= z < b + h
    ensures b + z % h == z
  {
    AddMultiple(b, z - b, h);
    QuotientIsUnique(z - b, 0, z - b, h);
  }

  /** A value below h on top of a multiple of h, taken modulo a multiple of h. */
  lemma AddBelow(b: nat, x: nat, h: nat, c: nat)
    requires h > 0 && c > 0 && h * c > 0 && b % h == 0 && x < h
    ensures (b + x) % (h * c) == b % (h * c) + x && b % (h * c) + h <= h * c
  {
    var q, m := b / (h * c), b % (h * c);
    ModuloOfModulo(b, h, c);
    BelowNextMultiple(m, x, h, c);
    BelowNextMultiple(m, h - 1, h, c);
    assert b + x == q * (h * c) + (m + x);
    QuotientIsUnique(b + x, q, m + x, h * c);
  }
}
