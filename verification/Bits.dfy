/** Masks and shifts on unsigned words, as uthash and the io_uring rings use them. */
module Bits {

  function Pow2(k: nat): (r: nat)
    ensures r > 0
  {
    if k == 0 then 1 else 2 * Pow2(k - 1)
  }

  /** The C operator & on non-negative numbers. */
  function And(x: nat, y: nat): nat {
    if x == 0 || y == 0 then 0 else (x % 2) * (y % 2) + 2 * And(x / 2, y / 2)
  }

  /** The C operator >> on non-negative numbers. */
  function Shr(x: nat, k: nat): nat {
    if k == 0 then x else Shr(x / 2, k - 1)
  }

  /** A mask of k ones takes the remainder modulo 2^k. */
  lemma {:induction false} AndMask(x: nat, k: nat)
    ensures And(x, Pow2(k) - 1) == x % Pow2(k)
  {
    if k > 0 && x > 0 {
      var m := Pow2(k - 1);
      assert (Pow2(k) - 1) / 2 == m - 1 && (Pow2(k) - 1) % 2 == 1;
      AndMask(x / 2, k - 1);
      HalfMod(x, m);
    } else if k > 0 {
      assert 0 % Pow2(k) == 0;
    }
  }

  lemma HalfMod(x: nat, m: nat)
    requires m > 0
    ensures x % (2 * m) == x % 2 + 2 * ((x / 2) % m)
  {
    var q, r := (x / 2) / m, (x / 2) % m;
    DivMod(x / 2, m);
    Regroup(m, q);
    DivModUnique(x, 2 * m, q, 2 * r + x % 2);
  }

  lemma MulStep(d: nat, a: nat, b: nat)
    requires a < b
    ensures d * a + d <= d * b
    decreases b
  {
    if b == a + 1 {
      Distribute(d, a, 1);
    } else {
      MulStep(d, a, b - 1);
      Distribute(d, b - 1, 1);
    }
  }

  lemma DivMod(x: nat, d: nat)
    requires d > 0
    ensures x == d * (x / d) + x % d && x % d < d
  {
  }

  lemma DivModUnique(x: nat, d: nat, q: nat, r: nat)
    requires d > 0 && x == d * q + r && r < d
    ensures x / d == q && x % d == r
  {
    DivMod(x, d);
    if q < x / d { MulStep(d, q, x / d); }
    if x / d < q { MulStep(d, x / d, q); }
  }

  lemma {:induction false} ShrDiv(x: nat, k: nat)
    ensures Shr(x, k) == x / Pow2(k)
  {
    if k > 0 {
      var m := Pow2(k - 1);
      ShrDiv(x / 2, k - 1);
      HalfDiv(x, m);
    }
  }

  lemma HalfDiv(x: nat, m: nat)
    requires m > 0
    ensures x / (2 * m) == (x / 2) / m
  {
    var q, r := (x / 2) / m, (x / 2) % m;
    DivMod(x / 2, m);
    Regroup(m, q);
    DivModUnique(x, 2 * m, q, 2 * r + x % 2);
  }

  lemma Regroup(m: nat, q: nat)
    ensures (2 * m) * q == 2 * (m * q) == m * (2 * q)
  {
  }

  function Half(n: nat): nat { n / 2 }

  lemma HalfShift(n: nat)
    ensures Shr(n, 1) == Half(n)
  {
    assert Shr(n, 1) == Shr(n / 2, 0);
  }

  /** n items shared over d buckets, rounded up. */
  function CeilDiv(n: nat, d: nat): nat
    requires d > 0
  {
    if n == 0 then 0 else if n <= d then 1 else 1 + CeilDiv(n - d, d)
  }

  /** The quotient, and one more if there is a remainder. */
  lemma {:induction false} CeilDivQuotient(n: nat, d: nat)
    requires d > 0
    ensures CeilDiv(n, d) == n / d + if n % d != 0 then 1 else 0
  {
    if n == 0 {
      DivModUnique(n, d, 0, 0);
    } else if n <= d {
      if n == d { DivModUnique(n, d, 1, 0); } else { DivModUnique(n, d, 0, n); }
    } else {
      CeilDivQuotient(n - d, d);
      DivMod(n - d, d);
      Distribute(d, (n - d) / d, 1);
      DivModUnique(n, d, (n - d) / d + 1, (n - d) % d);
    }
  }

  /** The ceiling is the least c for which d buckets of c items hold n items. */
  lemma {:induction false} CeilDivLeast(n: nat, d: nat, c: nat)
    requires d > 0
    ensures d * c >= n <==> c >= CeilDiv(n, d)
  {
    if c > 0 { Distribute(d, c - 1, 1); }
    if n > d && c > 0 { CeilDivLeast(n - d, d, c - 1); }
    if c > 1 { MulStep(d, 0, c - 1); }
  }

  lemma Distribute(m: nat, a: nat, b: nat)
    ensures m * (a + b) == m * a + m * b
  {
  }
}
