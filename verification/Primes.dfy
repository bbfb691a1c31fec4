/** Prime search of `symtab.c`: trial division up to the square root, and the next prime. */
module Primes {

  ghost predicate Divides(d: int, n: int)
    requires d > 0
  {
    n % d == 0
  }

  ghost predicate IsPrime(n: int) {
    n >= 2 && forall d :: 2 <= d < n ==> !Divides(d, n)
  }

  /** `(int)sqrt(n)`. */
  function FloorSqrt(n: nat): (r: nat)
    ensures r * r <= n < (r + 1) * (r + 1)
  {
    if n == 0 then 0
    else
      var r := FloorSqrt(n - 1);
      if (r + 1) * (r + 1) <= n then r + 1 else r
  }

  lemma MulMono(a: int, b: int, c: int)
    requires 0 <= a <= b && 0 <= c
    ensures a * c <= b * c && c * a <= c * b
  {}

  lemma ModOfMultiple(d: int, q: int, r: int)
    requires d > 0 && 0 <= r < d
    ensures (d * q + r) % d == r
  {
    var n := d * q + r;
    var q', r' := n / d, n % d;
    assert d * (q - q') == r' - r;
    if q > q' { MulMono(1, q - q', d); }
    if q < q' { MulMono(1, q' - q, d); }
  }

  /** A divisor of a divisor divides. */
  lemma DividesTrans(a: int, b: int, n: int)
    requires a > 0 && b > 0 && Divides(a, b) && Divides(b, n)
    ensures Divides(a, n)
  {
    var p, q := b / a, n / b;
    assert n == b * q && b == a * p;
    assert n == a * (p * q) by { assert (a * p) * q == a * (p * q); }
    ModOfMultiple(a, p * q, 0);
  }

  /** Every number from 2 on has a prime divisor. */
  lemma PrimeDivisor(n: int) returns (p: int)
    requires n >= 2
    ensures IsPrime(p) && p <= n && Divides(p, n)
  {
    if IsPrime(n) {
      p := n;
      assert n == n * 1 + 0;
      ModOfMultiple(n, 1, 0);
    } else {
      var d :| 2 <= d < n && Divides(d, n);
      p := PrimeDivisor(d);
      DividesTrans(p, d, n);
    }
  }

  ghost function Factorial(n: nat): (f: int)
    ensures f >= 1
  {
    if n == 0 then 1 else n * Factorial(n - 1)
  }

  lemma {:induction false} FactorialDivisible(n: nat, d: int)
    requires 1 <= d <= n
    ensures Divides(d, Factorial(n))
  {
    if d == n {
      ModOfMultiple(n, Factorial(n - 1), 0);
    } else {
      FactorialDivisible(n - 1, d);
      var q := Factorial(n - 1) / d;
      assert Factorial(n) == d * (n * q) by {
        assert Factorial(n - 1) == d * q;
        assert n * (d * q) == d * (n * q);
      }
      ModOfMultiple(d, n * q, 0);
    }
  }

  /** Euclid: there is a prime at or above every number. */
  lemma PrimeAbove(n: nat) returns (p: int)
    ensures IsPrime(p) && p >= n
  {
    var m := Factorial(n) + 1;
    p := PrimeDivisor(m);
    if p < n {
      FactorialDivisible(n, p);
      var q := Factorial(n) / p;
      assert m == p * q + 1;
      ModOfMultiple(p, q, 1);
      assert false;
    }
  }

  /** A composite number has a divisor not above its square root. */
  lemma SmallDivisor(n: int) returns (d: int)
    requires n >= 2 && !IsPrime(n)
    ensures 2 <= d <= FloorSqrt(n) && Divides(d, n)
  {
    var a :| 2 <= a < n && Divides(a, n);
    var b := n / a;
    assert n == a * b;
    if b <= 1 { MulMono(b, 1, a); assert false; }
    var s := FloorSqrt(n);
    if a <= s {
      d := a;
    } else if b <= s {
      d := b;
      assert n == b * a + 0;
      ModOfMultiple(b, a, 0);
    } else {
      MulMono(s + 1, a, b);
      MulMono(s + 1, b, s + 1);
      assert false;
    }
  }

  lemma OddDivisor(n: int, d: int)
    requires d > 0 && Divides(d, n) && n % 2 != 0
    ensures d % 2 == 1
  {
    if d % 2 == 0 {
      assert Divides(2, d);
      DividesTrans(2, d, n);
    }
  }

  lemma RootBelow(n: nat, i: int)
    requires 3 <= i <= FloorSqrt(n)
    ensures i < n
  {
    var s := FloorSqrt(n);
    MulMono(3, s, s);
  }

  /** `is_prime`. */
  method IsPrimeCheck(n: int) returns (r: bool)
    ensures r <==> IsPrime(n)
  {
    hide FloorSqrt;
    if n < 2 {
      return false;
    } else if n <= 3 {
      return true;
    } else if n % 2 == 0 {
      assert Divides(2, n);
      return false;
    }
    var limit: int := FloorSqrt(n);
    var i := 3;
    while i <= limit
      invariant i >= 3 && i % 2 == 1
      invariant forall d :: 2 <= d < i && d % 2 == 1 ==> !Divides(d, n)
      decreases limit - i
    {
      if n % i == 0 {
        assert Divides(i, n);
        RootBelow(n, i);
        return false;
      }
      forall d | 2 <= d < i + 2 && d % 2 == 1
        ensures !Divides(d, n)
      {
        assert d < i || d == i;
      }
      i := i + 2;
    }
    if !IsPrime(n) {
      var d := SmallDivisor(n);
      OddDivisor(n, d);
      assert false;
    }
    return true;
  }

  /** `find_next_prime`: the least prime not below n. */
  method FindNextPrime(n: int) returns (p: int)
    ensures IsPrime(p) && p >= n
    ensures forall q :: n <= q < p ==> !IsPrime(q)
  {
    ghost var bound := PrimeAbove(if n < 0 then 0 else n);
    p := n;
    while true
      invariant n <= p <= bound && IsPrime(bound)
      invariant forall q :: n <= q < p ==> !IsPrime(q)
      decreases bound - p
    {
      var found := IsPrimeCheck(p);
      if found { return; }
      p := p + 1;
    }
  }
}
