/**
 * The two prime generators of the primes example: trial division against the
 * primes found so far, and the Sieve of Eratosthenes over a boolean array.
 * Both are proved to return exactly the primes up to `limit`, ascending.
 */
module Primes {
  import opened Core

  ghost predicate IsPrime(n: int) {
    n >= 2 && forall d :: 2 <= d < n ==> n % d != 0
  }

  /** The primes in 2..n, ascending. */
  ghost function PrimesUpTo(n: int): seq<int>
    decreases n
  {
    if n < 2 then [] else PrimesUpTo(n - 1) + (if IsPrime(n) then [n] else [])
  }

  lemma {:induction false} PrimesUpToMembers(n: int)
    ensures forall x :: x in PrimesUpTo(n) <==> 2 <= x <= n && IsPrime(x)
    decreases n
  {
    if n >= 2 {
      PrimesUpToMembers(n - 1);
    }
  }

  lemma {:induction false} PrimesUpToAscending(n: int)
    ensures forall i, j :: 0 <= i < j < |PrimesUpTo(n)| ==> PrimesUpTo(n)[i] < PrimesUpTo(n)[j]
    decreases n
  {
    if n >= 2 {
      PrimesUpToAscending(n - 1);
      PrimesUpToMembers(n - 1);
      var s := PrimesUpTo(n - 1);
      forall i | 0 <= i < |s|
        ensures s[i] < n
      {
        assert s[i] in s;
      }
    }
  }

  /** `Math.sqrt(n).to_i`, stated over the integers: the largest r with r*r <= n. */
  function FloorSqrt(n: nat): (r: nat)
    ensures r * r <= n < (r + 1) * (r + 1)
  {
    if n == 0 then 0
    else
      var s := FloorSqrt(n - 1);
      if (s + 1) * (s + 1) <= n then s + 1 else s
  }

  lemma SquareMonotone(a: nat, b: nat)
    requires a <= b
    ensures a * a <= b * b
  {
    assert a * a <= a * b <= b * b;
  }

  lemma DividesTransitive(e: int, d: int, n: int)
    requires e > 0 && d > 0 && d % e == 0 && n % d == 0
    ensures n % e == 0
  {
    var a := d / e;
    var b := n / d;
    assert n == d * b;
    assert d == e * a;
    assert n == e * (a * b) by {
      assert d * b == (e * a) * b;
    }
    MultipleMod(e, a * b);
  }

  lemma MultipleMod(e: int, k: int)
    requires e > 0
    ensures (e * k) % e == 0
  {
    ModOfMultiplePlus(e, k, 0);
  }

  /** (p*q + r) % p == r for 0 <= r < p: the step the sieve's inner loop relies on. */
  lemma ModOfMultiplePlus(p: int, q: int, r: int)
    requires p > 0 && 0 <= r < p
    ensures (p * q + r) % p == r
  {
    var n := p * q + r;
    var d := n / p;
    assert n == p * d + n % p;
    if d > q {
      assert p * d >= p * (q + 1) by { MulMonotone(p, q + 1, d); }
      assert false;
    } else if d < q {
      assert p * (d + 1) <= p * q by { MulMonotone(p, d + 1, q); }
      assert false;
    }
  }

  lemma MulMonotone(p: int, a: int, b: int)
    requires p > 0 && a <= b
    ensures p * a <= p * b
  {
  }

  /** The least divisor of n that is at least k. */
  ghost function LeastDivisorFrom(n: int, k: int): (r: int)
    requires 2 <= k <= n
    ensures k <= r <= n && n % r == 0
    ensures forall j :: k <= j < r ==> n % j != 0
    decreases n - k
  {
    if n % k == 0 then k else LeastDivisorFrom(n, k + 1)
  }

  /** A number >= 2 that is not prime has a prime factor q with q*q <= n. */
  lemma CompositeHasSmallPrimeFactor(n: int) returns (q: int)
    requires n >= 2 && !IsPrime(n)
    ensures IsPrime(q) && q * q <= n && n % q == 0
  {
    q := LeastDivisorFrom(n, 2);
    var w :| 2 <= w < n && n % w == 0;
    assert q <= w < n;
    LeastDivisorIsPrime(n, q);
    LeastDivisorIsSmall(n, q);
  }

  lemma LeastDivisorIsPrime(n: int, q: int)
    requires 2 <= q <= n && n % q == 0
    requires forall j :: 2 <= j < q ==> n % j != 0
    ensures IsPrime(q)
  {
    forall e | 2 <= e < q
      ensures q % e != 0
    {
      if q % e == 0 {
        DividesTransitive(e, q, n);
      }
    }
  }

  lemma LeastDivisorIsSmall(n: int, q: int)
    requires 2 <= q < n && n % q == 0
    requires forall j :: 2 <= j < q ==> n % j != 0
    ensures q * q <= n
  {
    var c := n / q;
    assert n == q * c;
    assert c >= 2 by {
      if c <= 1 {
        MulMonotone(q, c, 1);
      }
    }
    assert n % c == 0 by {
      assert n == c * q;
      MultipleMod(c, q);
    }
    assert q <= c;
    MulMonotone(q, q, c);
  }

  /** A factor q >= 2 with q*q <= n is a proper factor, so n is not prime. */
  lemma SmallFactorMeansComposite(n: int, q: int)
    requires 2 <= q && q * q <= n && n % q == 0
    ensures !IsPrime(n)
  {
    MulMonotone(q, 2, q);
    assert q < n;
  }

  /**
   * `trial_division`: each candidate in 2..limit is tested against the primes
   * found so far, stopping at the first one above its integer square root.
   */
  method TrialDivision(limit: int) returns (primes: seq<int>)
    ensures primes == PrimesUpTo(limit)
    ensures forall x :: x in primes <==> 2 <= x <= limit && IsPrime(x)
    ensures forall i, j :: 0 <= i < j < |primes| ==> primes[i] < primes[j]
  {
    primes := [];
    var candidate := 2;
    while candidate <= limit
      invariant 2 <= candidate && (limit < 2 ==> candidate == 2) && (limit >= 2 ==> candidate <= limit + 1)
      invariant primes == PrimesUpTo(candidate - 1)
    {
      PrimesUpToMembers(candidate - 1);
      PrimesUpToAscending(candidate - 1);
      forall j | 0 <= j < |primes|
        ensures 2 <= primes[j] < candidate
      {
        assert primes[j] in primes;
      }
      var isPrime := true;
      var root := FloorSqrt(candidate);
      var k := 0;
      while k < |primes|
        invariant 0 <= k <= |primes|
        invariant isPrime
        invariant forall j :: 0 <= j < k ==> candidate % primes[j] != 0
      {
        var p := primes[k];
        if p > root {
          break;
        }
        if candidate % p == 0 {
          isPrime := false;
          break;
        }
        k := k + 1;
      }
      if isPrime {
        assert k == |primes| || primes[k] > root;
        if !IsPrime(candidate) {
          var q := CompositeHasSmallPrimeFactor(candidate);
          assert q < candidate by { SmallFactorMeansComposite(candidate, q); MulMonotone(q, 2, q); }
          assert q in primes;
          var j :| 0 <= j < |primes| && primes[j] == q;
          if j >= k {
            assert primes[k] <= q;
            SquareMonotone(root + 1, q);
            assert false;
          }
        }
      } else {
        assert candidate % primes[k] == 0 && 2 <= primes[k] < candidate;
      }
      primes := primes + (if isPrime then [candidate] else []);
      candidate := candidate + 1;
    }
    if limit < 2 {
      assert PrimesUpTo(limit) == [] == PrimesUpTo(1);
    }
    PrimesUpToMembers(limit);
    PrimesUpToAscending(limit);
  }

  /** Some q in 2..p-1 with q*q <= n divides n. */
  ghost predicate HasSmallFactor(n: int, p: int) {
    exists q :: 2 <= q < p && q * q <= n && n % q == 0
  }

  /** Once every q below p has been sieved, the marked numbers below p*p are the composites. */
  lemma SmallFactorIffComposite(i: int, p: int)
    requires 2 <= i < p * p && p >= 0
    ensures HasSmallFactor(i, p) <==> !IsPrime(i)
  {
    if HasSmallFactor(i, p) {
      var q :| 2 <= q < p && q * q <= i && i % q == 0;
      SmallFactorMeansComposite(i, q);
    }
    if !IsPrime(i) {
      var q := CompositeHasSmallPrimeFactor(i);
      if q >= p {
        SquareMonotone(p, q);
        assert false;
      }
    }
  }

  /** i is marked once every q below p has been sieved. */
  ghost predicate Sieved(i: int, p: int) {
    i < 2 || HasSmallFactor(i, p)
  }

  /** i is marked while the multiples of p below m have been sieved too. */
  ghost predicate SievedUpTo(i: int, p: int, m: int) {
    Sieved(i, p) || (p > 0 && p * p <= i < m && i % p == 0)
  }

  /** Sieving with an unmarked p adds exactly the multiples of p from p*p on. */
  lemma SieveStepUnmarked(i: int, p: int)
    requires 2 <= p
    ensures HasSmallFactor(i, p + 1) <==> HasSmallFactor(i, p) || (p * p <= i && i % p == 0)
  {
    if HasSmallFactor(i, p + 1) && !HasSmallFactor(i, p) {
      var q :| 2 <= q < p + 1 && q * q <= i && i % q == 0;
      assert q == p;
    }
  }

  /** Sieving with a marked (composite) p changes nothing. */
  lemma SieveStepMarked(i: int, p: int)
    requires 2 <= p && HasSmallFactor(p, p)
    ensures HasSmallFactor(i, p + 1) <==> HasSmallFactor(i, p)
  {
    if HasSmallFactor(i, p + 1) && !HasSmallFactor(i, p) {
      var q :| 2 <= q < p + 1 && q * q <= i && i % q == 0;
      assert q == p;
      MarkedSieveAddsNothing(i, p);
    }
  }

  lemma NoMultipleBetween(p: int, m: int, i: int)
    requires p > 0 && m % p == 0 && m < i < m + p
    ensures i % p != 0
  {
    assert m == p * (m / p);
    ModOfMultiplePlus(p, m / p, i - m);
  }

  lemma NextMultiple(p: int, m: int)
    requires p > 0 && m % p == 0
    ensures (m + p) % p == 0
  {
    assert m + p == p * (m / p + 1);
    MultipleMod(p, m / p + 1);
  }

  /** Sieving with a marked (composite) p adds nothing. */
  lemma MarkedSieveAddsNothing(i: int, p: int)
    requires 2 <= p && HasSmallFactor(p, p) && p * p <= i && i % p == 0
    ensures HasSmallFactor(i, p)
  {
    var q :| 2 <= q < p && q * q <= p && p % q == 0;
    DividesTransitive(q, p, i);
    MulMonotone(p, 1, p);
  }

  /**
   * `sieve_of_eratosthenes`: marks 0, 1 and, for each unmarked p with
   * p*p <= limit, the multiples p*p, p*p+p, ... up to limit; then returns
   * the unmarked i in 2..limit. `Array.new(limit + 1)` raises for limit < -1.
   */
  method SieveOfEratosthenes(limit: int) returns (r: Result<seq<int>>)
    ensures r.Failure? <==> limit < -1
    ensures r.Failure? ==> r.error.ArgumentError?
    ensures r.Success? ==> r.value == PrimesUpTo(limit)
  {
    if limit + 1 < 0 {
      return Failure(ArgumentError("negative array size"));
    }
    // Ruby grows the array when indices 0 and 1 are written past its end.
    var isComposite := new bool[if limit + 1 < 2 then 2 else limit + 1](_ => false);
    isComposite[0] := true;
    isComposite[1] := true;
    var p := 2;
    while p * p <= limit
      invariant 2 <= p
      invariant forall i :: 0 <= i < isComposite.Length ==> (isComposite[i] <==> Sieved(i, p))
      decreases limit - p
    {
      MulMonotone(p, 1, p);
      if !isComposite[p] {
        var step := p;
        var multiple := p * p;
        MultipleMod(p, p);
        while multiple <= limit
          invariant p * p <= multiple && multiple % p == 0
          invariant forall i :: 0 <= i < isComposite.Length ==> (isComposite[i] <==> SievedUpTo(i, p, multiple))
          decreases limit - multiple
        {
          isComposite[multiple] := true;
          forall i | multiple < i < multiple + step
            ensures i % p != 0
          {
            NoMultipleBetween(p, multiple, i);
          }
          NextMultiple(p, multiple);
          assert (multiple + step) % p == 0;
          multiple := multiple + step;
        }
        forall i | 0 <= i < isComposite.Length
          ensures isComposite[i] <==> Sieved(i, p + 1)
        {
          SieveStepUnmarked(i, p);
        }
      } else {
        forall i | 0 <= i < isComposite.Length
          ensures isComposite[i] <==> Sieved(i, p + 1)
        {
          SieveStepMarked(i, p);
        }
      }
      p := p + 1;
    }
    var result := [];
    var i := 2;
    while i <= limit
      invariant 2 <= i && (limit < 2 ==> i == 2) && (limit >= 2 ==> i <= limit + 1)
      invariant result == PrimesUpTo(i - 1)
      invariant forall j :: 0 <= j < isComposite.Length ==> (isComposite[j] <==> Sieved(j, p))
    {
      SmallFactorIffComposite(i, p);
      result := result + (if isComposite[i] then [] else [i]);
      i := i + 1;
    }
    if limit < 2 {
      assert PrimesUpTo(limit) == [] == PrimesUpTo(1);
    }
    return Success(result);
  }
}
