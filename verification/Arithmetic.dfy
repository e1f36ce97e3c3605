/** Products, quotients and remainders: the few nonlinear facts, each proved once. */
module Arithmetic {

  lemma Times(a: int, b: int, c: nat)
    ensures a <= b ==> a * c <= b * c
  {
  }

  lemma Distribute(n: int, c: nat)
    ensures (n + 1) * c == n * c + c
  {
  }

  lemma Regroup(a: int, b: int, c: int)
    ensures (a * b) * c == (b * c) * a
  {
  }

  /** Division is determined by its two bounds. */
  lemma Quotient(o: int, size: nat, q: int)
    requires size > 0 && q * size <= o < (q + 1) * size
    ensures o / size == q && o % size == o - q * size
  {
    var d := o / size;
    assert d * size <= o < (d + 1) * size;
    Times(d + 1, q, size);
    Times(q + 1, d, size);
  }

  lemma DivisionParts(a: nat, d: nat)
    requires d > 0
    ensures a == (a / d) * d + a % d && 0 <= a % d < d
  {
  }

  lemma QuotientNext(a: nat, d: nat)
    requires d > 0
    ensures (a + d) / d == a / d + 1 && (a + d) % d == a % d
  {
    var q := a / d;
    DivisionParts(a, d);
    Distribute(q, d);
    Distribute(q + 1, d);
    Quotient(a + d, d, q + 1);
  }

  lemma SmallModulo(a: nat, c: nat)
    requires c > 0
    ensures a < c ==> a / c == 0 && a % c == a
  {
  }

  lemma ModuloOfMultiple(q: int, c: int)
    requires c > 0
    ensures (q * c) % c == 0 && (q * c) / c == q
  {
    Distribute(q, c);
    Quotient(q * c, c, q);
  }

  lemma MultipleOfMultiple(n: int, m: nat, c: nat)
    requires c > 0 && m % c == 0
    ensures (n * m) % c == 0
  {
    var q := m / c;
    DivisionParts(m, c);
    Regroup(n, q, c);
    ModuloOfMultiple(n * q, c);
  }

  lemma AddMultiple(a: int, m: nat, c: nat)
    requires c > 0 && a % c == 0 && m % c == 0
    ensures (a + m) % c == 0 && (a - m) % c == 0
  {
    assert a + m == (a / c + m / c) * c && a - m == (a / c - m / c) * c;
    ModuloOfMultiple(a / c + m / c, c);
    ModuloOfMultiple(a / c - m / c, c);
  }
}
