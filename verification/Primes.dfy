/** The prime sieve's arithmetic, on 32-bit unsigned words that wrap around. */
module Primes {
  import BV = BitVectors

  const Modulus := 0x1_0000_0000

  type uint = n: nat | n < Modulus

  function Wrap(n: nat): uint { n % Modulus }

  // ----- remainder by repeated subtraction -----

  lemma NextMultiple(q: nat, m: nat)
    ensures (q + 1) * m == q * m + m
  {
  }

  /** Only a divisor of zero makes the loop run forever. */
  method Rem(n0: uint, m: uint) returns (n: uint)
    requires m > 0
    ensures n == n0 % m
  {
    n := n0;
    ghost var q := 0;
    while n >= m
      invariant n0 == q * m + n
    {
      NextMultiple(q, m);
      q := q + 1;
      n := n - m;
    }
    BV.DivModUnique(n0, m, q, n);
  }

  // ----- integer square root -----

  function ISqrt(n: uint): uint {
    if n < 2 then n
    else
      var r: uint := Wrap(ISqrt(n / 4) * 2);
      var R: uint := Wrap(r + 1);
      if Wrap(R * R) > n then r else R
  }

  /** `r` is the square root of `n`, rounded down. */
  predicate IsFloorSqrt(r: nat, n: nat) { r * r <= n < (r + 1) * (r + 1) }

  lemma SquareMonotone(x: nat, y: nat)
    ensures x <= y ==> x * x <= y * y
  {
    if x <= y { assert x * x <= x * y <= y * y; }
  }

  lemma Halves(k: nat, n: nat)
    requires IsFloorSqrt(k, n / 4)
    ensures (2 * k) * (2 * k) <= n < (2 * k + 2) * (2 * k + 2)
  {
    assert (2 * k) * (2 * k) == 4 * (k * k);
    assert (2 * k + 2) * (2 * k + 2) == 4 * ((k + 1) * (k + 1));
    assert n / 4 + 1 <= (k + 1) * (k + 1);
  }

  /** One step of the root: neither the doubling nor the square wraps around. */
  lemma Doubled(k: nat, n: uint)
    requires IsFloorSqrt(k, n / 4)
    ensures var R := 2 * k + 1;
            k <= 32767 && R * R < Modulus && IsFloorSqrt(if R * R > n then 2 * k else R, n)
  {
    Halves(k, n);
    SquareMonotone(32768, k);
    SquareMonotone(2 * k + 1, 65535);
  }

  /** The root is exact for every word: nothing wraps around on the way, the
      largest square formed being 65535 squared. */
  lemma {:induction false} ISqrtIsFloor(n: uint)
    ensures IsFloorSqrt(ISqrt(n), n) && ISqrt(n) <= 65535
    decreases n
  {
    hide IsFloorSqrt, Wrap;
    if n >= 2 {
      var k := ISqrt(n / 4);
      ISqrtIsFloor(n / 4);
      Doubled(k, n);
      WrapSmall(2 * k);
      WrapSmall(2 * k + 1);
      WrapSmall((2 * k + 1) * (2 * k + 1));
    } else {
      Small(n);
    }
  }

  lemma WrapSmall(n: nat)
    ensures n < Modulus ==> Wrap(n) == n
  {
  }

  lemma Small(n: uint)
    requires n < 2
    ensures IsFloorSqrt(n, n)
  {
  }

  // ----- primality -----

  predicate Divides(m: nat, n: nat) { m > 0 && n % m == 0 }

  ghost predicate Prime(n: nat) { n >= 2 && forall m: nat | 2 <= m < n :: !Divides(m, n) }

  lemma BelowMul(x: nat, y: nat, z: nat)
    ensures x <= y ==> x * z <= y * z && z * x <= z * y
  {
    if x <= y { assert (y - x) * z >= 0; }
  }

  lemma ProductAbove(q: nat, m: nat, r: nat)
    ensures q > r && m > r ==> (r + 1) * (r + 1) <= q * m
    ensures q <= 1 ==> q * m <= m
  {
    if q > r && m > r {
      BelowMul(r + 1, q, r + 1);
      BelowMul(r + 1, m, q);
    }
    BelowMul(q, 1, m);
  }

  /** A number with a proper divisor has one that is at most its square root. */
  lemma SmallDivisor(n: nat, m: nat, r: nat)
    requires 2 <= m < n && Divides(m, n) && IsFloorSqrt(r, n)
    ensures exists d: nat :: 2 <= d <= r && Divides(d, n)
  {
    var q := n / m;
    assert n == q * m;
    if m <= r {
      assert Divides(m, n);
    } else {
      ProductAbove(q, m, r);
      BV.DivModUnique(n, q, m, 0);
      assert Divides(q, n);
    }
  }

  /** Trial division up to the square root decides primality; 0 and 1 pass too. */
  method IsPrime(n: uint) returns (prime: bool)
    ensures prime <==> n < 2 || Prime(n)
  {
    var r := ISqrt(n);
    ISqrtIsFloor(n);
    var m: uint := 2;
    while m <= r
      invariant 2 <= m <= 65536
      invariant forall d: nat | 2 <= d < m :: !Divides(d, n)
    {
      var x := Rem(n, m);
      if x == 0 {
        assert Divides(m, n);
        if n >= 2 { BelowItsSquare(m, r, n); }
        return false;
      }
      m := m + 1;
    }
    forall d: nat | 2 <= d < n ensures !Divides(d, n) {
      if Divides(d, n) {
        SmallDivisor(n, d, r);
      }
    }
    return true;
  }

  lemma BelowItsSquare(m: nat, r: nat, n: nat)
    requires 2 <= m <= r && r * r <= n
    ensures m < n
  {
    assert 2 * m <= r * m <= r * r;
  }

  // ----- sums of divisors -----

  /** The sum of the divisors of `n` below `bound`. */
  function DivisorSum(n: nat, bound: nat): nat {
    if bound <= 1 then 0
    else DivisorSum(n, bound - 1) + (if Divides(bound - 1, n) then bound - 1 else 0)
  }

  lemma WrapPlus(x: nat, y: nat)
    ensures Wrap(Wrap(x) + y) == Wrap(x + y)
  {
    var q, r := x / Modulus, x % Modulus;
    var q', r' := (r + y) / Modulus, (r + y) % Modulus;
    assert x + y == (q + q') * Modulus + r' by {
      assert x == q * Modulus + r;
      assert r + y == q' * Modulus + r';
      assert (q + q') * Modulus == q * Modulus + q' * Modulus;
    }
    BV.DivModUnique(x + y, Modulus, q + q', r');
  }

  ghost function SumOf(S: set<nat>): nat {
    if S == {} then 0
    else
      var x :| x in S;
      x + SumOf(S - {x})
  }

  lemma {:induction false} SumWithout(S: set<nat>, x: nat)
    requires x in S
    ensures SumOf(S) == x + SumOf(S - {x})
    decreases |S|
  {
    var y :| y in S && SumOf(S) == y + SumOf(S - {y});
    if y != x {
      SumWithout(S - {y}, x);
      SumWithout(S - {x}, y);
      assert S - {y} - {x} == S - {x} - {y};
    }
  }

  /** The divisors of `n` below `bound`. */
  ghost function DivisorsBelow(n: nat, bound: nat): set<nat> { set d: nat | 1 <= d < bound && n % d == 0 }

  ghost function ProperDivisors(n: nat): set<nat> { set d: nat | 1 <= d < n && n % d == 0 }

  lemma {:induction false} DivisorSumIsSum(n: nat, bound: nat)
    ensures DivisorSum(n, bound) == SumOf(DivisorsBelow(n, bound))
    decreases bound
  {
    if bound <= 1 {
      assert DivisorsBelow(n, bound) == {};
    } else {
      var (S, d) := (DivisorsBelow(n, bound), bound - 1);
      DivisorSumIsSum(n, d);
      if Divides(d, n) {
        SumWithout(S, d);
        assert S - {d} == DivisorsBelow(n, d);
      } else {
        assert S == DivisorsBelow(n, d);
      }
    }
  }

  lemma {:induction false} PositiveSum(S: set<nat>, x: nat)
    requires x in S
    ensures SumOf(S) >= x
  {
    SumWithout(S, x);
  }

  /** A number from 2 on is prime exactly when its proper divisors sum up to 1. */
  lemma {:induction false} PrimeByDivisors(n: nat)
    requires n >= 2
    ensures Prime(n) <==> SumOf(ProperDivisors(n)) == 1
  {
    var S := ProperDivisors(n);
    assert 1 in S;
    SumWithout(S, 1);
    if Prime(n) {
      forall d | d in S ensures d == 1 { assert d >= 2 ==> !Divides(d, n); }
      assert S - {1} == {};
    } else {
      var d: nat :| 2 <= d < n && Divides(d, n);
      assert d in S - {1};
      PositiveSum(S - {1}, d);
    }
  }

  /** The sum of the proper divisors wraps around, as the word does. */
  method Aliquot(n: uint) returns (sum: uint)
    ensures sum == Wrap(SumOf(ProperDivisors(n)))
  {
    sum := 0;
    var m: uint := 1;
    while m < n
      invariant 1 <= m && (m <= n || (n == 0 && m == 1))
      invariant sum == Wrap(DivisorSum(n, m))
    {
      var x := Rem(n, m);
      if x == 0 {
        WrapPlus(DivisorSum(n, m), m);
        sum := Wrap(sum + m);
      }
      m := m + 1;
    }
    DivisorSumIsSum(n, m);
    assert DivisorsBelow(n, m) == ProperDivisors(n);
  }
}
