/** PRIME: the table of precalculated primes and the search beyond it. */
module Primes {
  import opened Words

  const MAXDWORD: dword := 0xFFFF_FFFF

  const PRIMES: seq<dword> := [
    3, 7, 11, 17, 23, 29, 37, 47, 59, 71, 89, 107, 131, 163, 197, 239, 293, 353, 431, 521, 631,
    761, 919, 1103, 1327, 1597, 1931, 2333, 2801, 3371, 4049, 4861, 5839, 7013, 8419, 10103,
    12143, 14591, 17519, 21023, 25229, 30293, 36353, 43627, 52361, 62851, 75431, 90523, 108631,
    130363, 156437, 187751, 225307, 270371, 324449, 389357, 467237, 560689, 672827, 807403,
    968897, 1162687, 1395263, 1674319, 2009191, 2411033, 2893249, 3471899, 4166287, 4999559,
    5999471, 7199369, 7849369, 8649369, 9249369, 10049369]

  predicate Divides(d: nat, n: nat)
    requires d > 0
  {
    n % d == 0
  }

  predicate Prime(n: nat) {
    n >= 2 && forall d | 2 <= d < n :: !Divides(d, n)
  }

  /** The integer part of the square root, which is what the cast of sqrt's result yields. */
  function Sqrt(n: nat): (r: nat)
    ensures r * r <= n < (r + 1) * (r + 1)
  {
    if n == 0 then 0
    else
      var r := Sqrt(n - 1);
      if (r + 1) * (r + 1) <= n then r + 1 else r
  }

  lemma DivisorPair(d: nat, n: nat)
    requires d > 0 && Divides(d, n)
    ensures n == d * (n / d)
  {
  }

  lemma EvenTimes(a: nat, b: nat)
    requires a % 2 == 0
    ensures (a * b) % 2 == 0
  {
    assert a * b == 2 * ((a / 2) * b);
  }

  lemma MulIsOdd(a: nat, b: nat)
    requires (a * b) % 2 == 1
    ensures a % 2 == 1 && b % 2 == 1
  {
    assert a * b == b * a;
    if a % 2 == 0 { EvenTimes(a, b); }
    if b % 2 == 0 { EvenTimes(b, a); }
  }

  lemma MulGrows(a: nat, b: nat, c: nat, d: nat)
    requires a >= c && b >= d
    ensures a * b >= c * d
  {
    assert a * b >= c * b >= c * d;
  }

  lemma DividesProduct(d: nat, e: nat)
    requires d > 0
    ensures Divides(d, d * e)
  {
    var q, r := (d * e) / d, (d * e) % d;
    assert d * e == d * q + r;
    assert d * (e - q) == r;
    if e > q { MulGrows(d, e - q, d, 1); }
    if e < q { MulGrows(d, q - e, d, 1); }
  }

  lemma SmallOddFactor(d: nat, e: nat, n: nat)
    requires n == d * e && d < n && e % 2 == 1
    ensures e >= 3
  {
    assert e != 1;
  }

  /** A number that can be divided has a divisor up to its root. */
  lemma SmallDivisor(d: nat, n: nat, r: nat) returns (e: nat)
    requires n >= 3 && n % 2 == 1 && n < (r + 1) * (r + 1) && 2 <= d < n && Divides(d, n)
    ensures 3 <= e <= r && e % 2 == 1 && Divides(e, n)
  {
    DivisorPair(d, n);
    e := n / d;
    MulIsOdd(d, e);
    if d <= r {
      e := d;
    } else {
      if e > r { MulGrows(d, e, r + 1, r + 1); }
      assert e * d == d * e;
      DividesProduct(e, d);
      SmallOddFactor(d, e, n);
    }
  }

  /** Trial division by the odd numbers up to the square root decides primality of odd numbers. */
  lemma OddTrialDivision(n: nat, r: nat)
    requires n >= 3 && n % 2 == 1 && n < (r + 1) * (r + 1)
    requires forall d | 3 <= d <= r && d % 2 == 1 :: !Divides(d, n)
    ensures forall d | 2 <= d < n :: !Divides(d, n)
  {
    forall d | 2 <= d < n && Divides(d, n) ensures false {
      var e := SmallDivisor(d, n, r);
    }
  }

  /** IsPrime: right for every candidate but 1, which it takes for a prime. */
  method IsPrime(candidate: dword) returns (prime: bool)
    ensures prime <==> Prime(candidate) || candidate == 1
  {
    if candidate % 2 == 0 {
      if candidate > 2 { assert Divides(2, candidate); }
      return candidate == 2;
    }
    var max := Sqrt(candidate);
    var index := 3;
    while index <= max
      invariant index >= 3 && index % 2 == 1
      invariant forall d | 3 <= d < index && d % 2 == 1 :: !Divides(d, candidate)
    {
      if candidate % index == 0 {
        assert Divides(index, candidate);
        assert index < candidate by {
          if index >= candidate { MulGrows(index, index, candidate, 3); MulGrows(max, max, index, index); }
        }
        return false;
      }
      index := index + 2;
    }
    if candidate >= 3 {
      OddTrialDivision(candidate, max);
    }
    return true;
  }

  /** Every entry of the table is too small. */
  ghost predicate BeyondTable(minimum: dword) {
    forall i | 0 <= i < |PRIMES| :: PRIMES[i] < minimum
  }

  /** A prime that the search beyond the table can reach from `minimum`. */
  ghost predicate Reachable(minimum: dword, p: dword) {
    minimum <= p < MAXDWORD && Prime(p)
  }

  /** The first entry of the table that is large enough; beyond the table the least prime that is, or the
      argument itself when there is none below MAXDWORD. */
  ghost predicate IsPrimeFor(minimum: dword, p: dword) {
    && p >= minimum
    && (!BeyondTable(minimum) ==>
          exists i :: 0 <= i < |PRIMES| && p == PRIMES[i] && forall j | 0 <= j < i :: PRIMES[j] < minimum)
    && (BeyondTable(minimum) && (exists q :: Reachable(minimum, q)) ==>
          p < MAXDWORD && Prime(p) && forall q | minimum <= q < p :: !Prime(q))
    && (BeyondTable(minimum) && (forall q :: !Reachable(minimum, q)) ==> p == minimum)
  }

  lemma OnePrimeFor(minimum: dword, p: dword, q: dword)
    requires IsPrimeFor(minimum, p) && IsPrimeFor(minimum, q)
    ensures p == q
  {
    if !BeyondTable(minimum) {
      var i :| 0 <= i < |PRIMES| && p == PRIMES[i] && forall j | 0 <= j < i :: PRIMES[j] < minimum;
      var k :| 0 <= k < |PRIMES| && q == PRIMES[k] && forall j | 0 <= j < k :: PRIMES[j] < minimum;
      assert i == k;
    }
  }

  /** GetPrime.  It always ends without wrapping. */
  method GetPrime(minimum: dword) returns (p: dword)
    ensures IsPrimeFor(minimum, p)
  {
    for index := 0 to |PRIMES|
      invariant forall j | 0 <= j < index :: PRIMES[j] < minimum
    {
      if PRIMES[index] >= minimum {
        return PRIMES[index];
      }
    }
    assert PRIMES[|PRIMES| - 1] == 10049369 < minimum;
    var candidate: int := if minimum % 2 == 0 then minimum + 1 else minimum;
    if minimum % 2 == 0 { assert Divides(2, minimum); }
    while candidate < MAXDWORD
      invariant minimum <= candidate <= MAXDWORD && candidate % 2 == 1
      invariant forall q | minimum <= q < candidate :: !Prime(q)
      decreases MAXDWORD - candidate
    {
      var prime := IsPrime(candidate);
      if prime {
        assert Reachable(minimum, candidate);
        return candidate;
      }
      assert Divides(2, candidate + 1);
      candidate := candidate + 2;
    }
    return minimum;
  }
}
