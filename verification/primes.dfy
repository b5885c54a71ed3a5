/** The prime table the ranking draws class values from: the primes in
    increasing order, as the sieve yields them, of which the table keeps the
    first `TableSize`. */
module Primes {

  /** How many primes the table holds. */
  const TableSize: nat := 1000

  predicate IsPrime(p: nat) {
    p >= 2 && forall d :: 2 <= d < p ==> p % d != 0
  }

  function Fact(n: nat): (r: nat)
    ensures r >= 1
  {
    if n == 0 then 1 else n * Fact(n - 1)
  }

  lemma MulMod(a: nat, b: nat)
    requires a > 0
    ensures (a * b) % a == 0
  {
    var q, r := (a * b) / a, (a * b) % a;
    assert a * b == a * q + r && 0 <= r < a;
    var k := b - q;
    assert a * k == r;
  }

  /** Every number from 1 to `n` divides `n!`. */
  lemma {:induction false} FactMultiple(n: nat, d: nat)
    requires 1 <= d <= n
    ensures Fact(n) % d == 0
  {
    if d == n {
      MulMod(n, Fact(n - 1));
    } else {
      FactMultiple(n - 1, d);
      var q := Fact(n - 1) / d;
      assert Fact(n - 1) == d * q;
      assert Fact(n) == d * (n * q);
      MulMod(d, n * q);
    }
  }

  /** A multiple of `d` plus one leaves remainder one. */
  lemma SuccessorMod(x: nat, d: nat)
    requires d >= 2 && x % d == 0
    ensures (x + 1) % d == 1
  {
    var q := x / d;
    assert x == d * q;
    var p, r := (d * q + 1) / d, (d * q + 1) % d;
    assert d * q + 1 == d * p + r && 0 <= r < d;
    var k := q - p;
    assert d * k == r - 1;
  }

  /** Divisibility is transitive. */
  lemma DivTrans(n: nat, r: nat, e: nat)
    requires r > 0 && e > 0 && n % r == 0 && r % e == 0
    ensures n % e == 0
  {
    var a, b := n / r, r / e;
    assert n == r * a;
    assert r == e * b;
    assert n == e * (b * a);
    MulMod(e, b * a);
  }

  /** The smallest divisor of `n` from `d` on, when none below `d` (and
      above 1) divides it. */
  function MinDivisor(n: nat, d: nat): (r: nat)
    requires 2 <= d <= n
    requires forall e :: 2 <= e < d ==> n % e != 0
    ensures d <= r <= n && n % r == 0
    ensures forall e :: 2 <= e < r ==> n % e != 0
    decreases n - d
  {
    if d == n then
      MulMod(n, 1);
      d
    else if n % d == 0 then d
    else MinDivisor(n, d + 1)
  }

  /** The smallest divisor above 1 is prime. */
  lemma MinDivisorPrime(n: nat)
    requires n >= 2
    ensures IsPrime(MinDivisor(n, 2))
  {
    var r := MinDivisor(n, 2);
    forall e | 2 <= e < r ensures r % e != 0 {
      if r % e == 0 {
        DivTrans(n, r, e);
      }
    }
  }

  /** The first prime from `c` on, when no number between `p` and `c` is
      prime; Euclid's witness bounds the search. */
  function FirstPrime(p: nat, c: nat): (r: nat)
    requires p < c <= EuclidWitness(p)
    requires forall x :: p < x < c ==> !IsPrime(x)
    ensures c <= r && IsPrime(r)
    ensures forall x :: p < x < r ==> !IsPrime(x)
    decreases EuclidWitness(p) - c
  {
    if IsPrime(c) then c else FirstPrime(p, c + 1)
  }

  /** The least prime above `p`. */
  function NextPrime(p: nat): (r: nat)
    ensures IsPrime(r) && p < r
    ensures forall x :: p < x < r ==> !IsPrime(x)
  {
    assert p < EuclidWitness(p);
    FirstPrime(p, p + 1)
  }

  /** A prime above `p` (Euclid): the smallest divisor of `p! + 1`, which no
      number from 2 to `p` divides. */
  function EuclidWitness(p: nat): (b: nat)
    ensures IsPrime(b) && p < b
  {
    var n := Fact(p) + 1;
    var b := MinDivisor(n, 2);
    EuclidFacts(p, b);
    b
  }

  lemma EuclidFacts(p: nat, b: nat)
    requires Fact(p) + 1 >= 2 && b == MinDivisor(Fact(p) + 1, 2)
    ensures IsPrime(b) && p < b
  {
    MinDivisorPrime(Fact(p) + 1);
    if b <= p {
      FactMultiple(p, b);
      SuccessorMod(Fact(p), b);
    }
  }

  /** The `k`-th prime, counting from 0: the `k`-th value the sieve
      yields. */
  function Prime(k: nat): (r: nat)
    ensures IsPrime(r)
  {
    if k == 0 then 2 else NextPrime(Prime(k - 1))
  }

  /** The primes are listed in strictly increasing order. */
  lemma {:induction false} PrimeIncreasing(j: nat, k: nat)
    requires j < k
    ensures Prime(j) < Prime(k)
    decreases k
  {
    if j < k - 1 {
      PrimeIncreasing(j, k - 1);
    }
  }

  /** No prime is skipped: every prime up to the `k`-th is listed at or
      before position `k`. */
  lemma {:induction false} PrimesListed(k: nat, p: nat) returns (j: nat)
    requires IsPrime(p) && p <= Prime(k)
    ensures j <= k && Prime(j) == p
    decreases k
  {
    if k == 0 {
      assert p % 2 != 0 || p == 2;
      j := 0;
    } else if p <= Prime(k - 1) {
      j := PrimesListed(k - 1, p);
    } else {
      j := k;
    }
  }
}
