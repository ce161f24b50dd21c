/** Prime factorisation (week1/test_factorize.py). The Python function body
    is empty; its contract is the docstring together with the unit tests: a
    non-integer argument raises `TypeError`, a negative one `ValueError`,
    0 and 1 map to themselves, and every other input maps to the primes whose
    product it is, with multiplicity and in no particular order. */
module Factorize {
  import opened Wrappers

  /** The dynamically typed argument: the tests pass ints, a float and a string. */
  datatype Arg = IntArg(n: int) | FloatArg(f: real) | StrArg(s: string)

  datatype FactorError = TypeError | ValueError

  predicate IsPrime(p: int) {
    p >= 2 && forall d :: 2 <= d < p ==> p % d != 0
  }

  predicate AllPrime(s: seq<int>) {
    forall i :: 0 <= i < |s| ==> IsPrime(s[i])
  }

  predicate Sorted(s: seq<int>) {
    forall i, j :: 0 <= i < j < |s| ==> s[i] <= s[j]
  }

  function Product(s: seq<int>): (r: int) {
    if |s| == 0 then 1 else Product(s[..|s| - 1]) * s[|s| - 1]
  }

  /** `s` lists primes whose product is `n`. */
  predicate IsFactorization(s: seq<int>, n: int) {
    AllPrime(s) && Product(s) == n
  }

  // ---------------------------------------------------------------------------
  // Divisibility facts.

  lemma MulBounds(k: int, x: int)
    requires k > 0
    ensures x >= 1 ==> k * x >= k
    ensures x <= -1 ==> k * x <= -k
  {
  }

  /** Quotient and remainder are the only ones with `n == k * q + r`, `0 <= r < k`. */
  lemma DivModUnique(n: int, k: int, q: int, r: int)
    requires k > 0 && n == k * q + r && 0 <= r < k
    ensures n / k == q && n % k == r
  {
    assert k * (q - n / k) == n % k - r;
    MulBounds(k, q - n / k);
  }

  lemma MulMod(k: int, c: int)
    requires k > 0
    ensures (k * c) % k == 0 && (k * c) / k == c
  {
    DivModUnique(k * c, k, c, 0);
  }

  /** A multiple of a multiple of `k` is a multiple of `k`. */
  lemma DividesTrans(k: int, d: int, m: int)
    requires k > 0 && d > 0 && d % k == 0 && m % d == 0
    ensures m % k == 0
  {
    var a, b := d / k, m / d;
    assert d == k * a;
    assert m == d * b;
    assert m == k * (a * b);
    MulMod(k, a * b);
  }

  /** Stepping `a` down by `p` keeps `p | a * b`, and `p | a - p` gives `p | a`. */
  lemma ShiftDown(p: int, a: int, b: int)
    requires 0 < p < a && (a * b) % p == 0
    ensures ((a - p) * b) % p == 0
    ensures (a - p) % p == 0 ==> a % p == 0
  {
    var t := (a * b) / p;
    assert a * b == p * t;
    assert (a - p) * b == p * (t - b);
    MulMod(p, t - b);
    if (a - p) % p == 0 {
      var s := (a - p) / p;
      assert a == p * (s + 1);
      MulMod(p, s + 1);
    }
  }

  /** For `1 < a < p` with `a` not dividing `p`, the remainder `p % a` is a
      smaller positive number with `p | (p % a) * b` whenever `p | a * b`. */
  lemma RemainderStep(p: int, a: int, b: int)
    requires 1 < a < p && p % a != 0 && (a * b) % p == 0
    ensures 0 < p % a < a
    ensures ((p % a) * b) % p == 0
  {
    var q, r := p / a, p % a;
    var t := (a * b) / p;
    assert p == a * q + r;
    assert a * b == p * t;
    assert r * b == (p - a * q) * b;
    assert r * b == p * (b - q * t);
    MulMod(p, b - q * t);
  }

  /** Euclid's lemma: a prime that divides a product of two positive numbers
      divides one of them. */
  lemma {:induction false} Euclid(p: int, a: int, b: int)
    requires IsPrime(p) && a > 0 && b > 0 && (a * b) % p == 0
    ensures a % p == 0 || b % p == 0
    decreases a
  {
    if a > p {
      ShiftDown(p, a, b);
      Euclid(p, a - p, b);
    } else if a == p {
      MulMod(p, 1);
    } else if a > 1 {
      assert p % a != 0;
      RemainderStep(p, a, b);
      Euclid(p, p % a, b);
      DivModUnique(p % a, p, 0, p % a);
    } else {
      assert a * b == b;
    }
  }

  // ---------------------------------------------------------------------------
  // Products of prime lists.

  lemma {:induction false} ProductPositive(s: seq<int>)
    requires AllPrime(s)
    ensures Product(s) >= 1
    ensures |s| > 0 ==> Product(s) >= 2
  {
    if |s| > 0 {
      var init := s[..|s| - 1];
      assert AllPrime(init) by {
        assert forall i :: 0 <= i < |init| ==> init[i] == s[i];
      }
      ProductPositive(init);
      assert IsPrime(s[|s| - 1]);
      MulBounds(s[|s| - 1], Product(init));
    }
  }

  lemma {:induction false} ProductConcat(u: seq<int>, v: seq<int>)
    ensures Product(u + v) == Product(u) * Product(v)
    decreases |v|
  {
    if |v| > 0 {
      var w, x := v[..|v| - 1], v[|v| - 1];
      assert (u + v)[..|u + v| - 1] == u + w;
      assert (u + v)[|u + v| - 1] == x;
      ProductConcat(u, w);
      assert Product(u + v) == (Product(u) * Product(w)) * x;
      assert Product(v) == Product(w) * x;
      MulAssoc(Product(u), Product(w), x);
    } else {
      assert u + v == u;
    }
  }

  lemma MulAssoc(a: int, b: int, c: int)
    ensures (a * b) * c == a * (b * c)
  {
  }

  lemma MulSwap(a: int, b: int, c: int)
    ensures (a * b) * c == (a * c) * b
  {
  }

  lemma ProductAppend(s: seq<int>, x: int)
    ensures Product(s + [x]) == Product(s) * x
  {
    assert (s + [x])[..|s|] == s;
  }

  /** Taking the `j`-th factor out of a list divides the product by it. */
  lemma ProductRemove(s: seq<int>, j: int)
    requires 0 <= j < |s|
    ensures Product(s) == Product(s[..j] + s[j + 1..]) * s[j]
  {
    var front, back := s[..j], s[j + 1..];
    assert s == (front + [s[j]]) + back;
    ProductConcat(front + [s[j]], back);
    ProductAppend(front, s[j]);
    ProductConcat(front, back);
    MulSwap(Product(front), s[j], Product(back));
  }

  /** A prime dividing a product of primes is one of them. */
  lemma {:induction false} PrimeDividesProduct(p: int, s: seq<int>)
    requires IsPrime(p) && AllPrime(s) && Product(s) % p == 0
    ensures p in s
  {
    if |s| == 0 {
      assert Product(s) == 1;
      DivModUnique(1, p, 0, 1);
    } else {
      var init, last := s[..|s| - 1], s[|s| - 1];
      assert AllPrime(init) by {
        assert forall i :: 0 <= i < |init| ==> init[i] == s[i];
      }
      ProductPositive(init);
      assert IsPrime(last);
      Euclid(p, Product(init), last);
      if last % p == 0 {
        PrimeDivisorOfPrime(p, last);
      } else {
        PrimeDividesProduct(p, init);
      }
    }
  }

  /** A prime that divides a prime is that prime. */
  lemma PrimeDivisorOfPrime(p: int, q: int)
    requires IsPrime(p) && IsPrime(q) && q % p == 0
    ensures p == q
  {
    if p > q {
      DivModUnique(q, p, 0, q);
    }
  }

  lemma CancelFactor(x: int, y: int, p: int)
    requires p > 0 && x * p == y * p
    ensures x == y
  {
    MulMod(p, x);
    MulMod(p, y);
  }

  /** Unique factorisation: two lists of primes with the same product hold
      the same primes the same number of times. */
  lemma {:induction false} FactorizationUnique(a: seq<int>, b: seq<int>)
    requires AllPrime(a) && AllPrime(b) && Product(a) == Product(b)
    ensures multiset(a) == multiset(b)
    decreases |a|
  {
    if |a| == 0 {
      ProductPositive(b);
    } else {
      var init, p := SplitLast(a);
      MulMod(p, Product(init));
      assert Product(b) % p == 0 by {
        assert Product(b) == p * Product(init);
      }
      PrimeDividesProduct(p, b);
      var rest := RemoveOne(b, p);
      CancelFactor(Product(init), Product(rest), p);
      FactorizationUnique(init, rest);
    }
  }

  /** A non-empty list of primes is a shorter one with one prime appended. */
  lemma SplitLast(a: seq<int>) returns (init: seq<int>, p: int)
    requires AllPrime(a) && |a| >= 1
    ensures AllPrime(init) && IsPrime(p) && |init| == |a| - 1
    ensures Product(a) == Product(init) * p
    ensures multiset(a) == multiset(init) + multiset{p}
  {
    init, p := a[..|a| - 1], a[|a| - 1];
    assert AllPrime(init) by {
      assert forall i :: 0 <= i < |init| ==> init[i] == a[i];
    }
    assert a == init + [p];
  }

  /** Taking one occurrence of `p` out of a list of primes divides the
      product by `p`. */
  lemma RemoveOne(b: seq<int>, p: int) returns (rest: seq<int>)
    requires AllPrime(b) && p in b
    ensures AllPrime(rest)
    ensures Product(b) == Product(rest) * p
    ensures multiset(b) == multiset(rest) + multiset{p}
  {
    var j :| 0 <= j < |b| && b[j] == p;
    rest := b[..j] + b[j + 1..];
    PrimesWithout(b, j);
    ProductRemove(b, j);
    MultisetWithout(b, j);
  }

  lemma PrimesWithout(b: seq<int>, j: int)
    requires AllPrime(b) && 0 <= j < |b|
    ensures AllPrime(b[..j] + b[j + 1..])
  {
    var rest := b[..j] + b[j + 1..];
    assert forall i :: 0 <= i < |rest| ==> rest[i] == b[if i < j then i else i + 1];
  }

  lemma MultisetWithout<T>(b: seq<T>, j: int)
    requires 0 <= j < |b|
    ensures multiset(b) == multiset(b[..j] + b[j + 1..]) + multiset{b[j]}
  {
    assert b == b[..j] + [b[j]] + b[j + 1..];
  }

  // ---------------------------------------------------------------------------
  // Trial division.

  /** The smallest divisor of `m` from 2 upwards is prime. */
  lemma SmallestDivisorIsPrime(m: int, d: int)
    requires 2 <= d && m >= 1 && m % d == 0
    requires forall k :: 2 <= k < d ==> m % k != 0
    ensures IsPrime(d)
  {
    forall k | 2 <= k < d
      ensures d % k != 0
    {
      if d % k == 0 {
        DividesTrans(k, d, m);
      }
    }
  }

  /** The cofactor of a divisor `d >= 2` of `m >= 2` lies in `[1, m)` and
      itself divides `m`. */
  lemma CofactorBounds(m: int, d: int)
    requires 2 <= d && m >= 2 && m % d == 0
    ensures m == d * (m / d) && 1 <= m / d < m && m % (m / d) == 0
  {
    var next := m / d;
    assert m == d * next;
    MulBounds(d, next);
    assert d * next >= 2 * next;
    assert m == next * d;
    MulMod(next, d);
  }

  /** Dividing `m` by its smallest divisor `d` from 2 upwards leaves a
      smaller cofactor that still has no divisor below `d`, and which is at
      least `d` unless it is 1. */
  lemma DivideOut(m: int, d: int)
    requires 2 <= d && m >= 2 && m % d == 0
    requires forall k :: 2 <= k < d ==> m % k != 0
    ensures m == d * (m / d) && 1 <= m / d < m
    ensures forall k :: 2 <= k < d ==> (m / d) % k != 0
    ensures m / d > 1 ==> d <= m / d
  {
    CofactorBounds(m, d);
    var next := m / d;
    forall k | 2 <= k < d
      ensures next % k != 0
    {
      if next % k == 0 {
        DividesTrans(k, next, m);
      }
    }
  }

  /** Trial division: divide out the smallest remaining divisor until 1 is
      left. */
  method PrimeFactors(n: int) returns (fs: seq<int>)
    requires n >= 2
    ensures IsFactorization(fs, n) && Sorted(fs) && |fs| >= 1
  {
    fs := [];
    var m := n;
    var d := 2;
    while m > 1
      invariant 1 <= m && 2 <= d
      invariant m > 1 ==> d <= m
      invariant Product(fs) * m == n
      invariant AllPrime(fs) && Sorted(fs)
      invariant forall i :: 0 <= i < |fs| ==> fs[i] <= d
      invariant forall k :: 2 <= k < d ==> m % k != 0
      decreases m, m - d
    {
      if m % d == 0 {
        SmallestDivisorIsPrime(m, d);
        DivideOut(m, d);
        ProductAppend(fs, d);
        MulAssoc(Product(fs), d, m / d);
        fs := fs + [d];
        m := m / d;
      } else {
        MulMod(m, 1);
        d := d + 1;
      }
    }
  }

  /** `factorize(x)`. */
  method Factorize(x: Arg) returns (r: Result<seq<int>, FactorError>)
    ensures !x.IntArg? <==> r == Failure(TypeError)
    ensures (x.IntArg? && x.n < 0) <==> r == Failure(ValueError)
    ensures x.IntArg? && 0 <= x.n <= 1 ==> r == Success([x.n])
    ensures x.IntArg? && x.n >= 2 ==> r.Success? && IsFactorization(r.value, x.n) && Sorted(r.value)
    ensures x.IntArg? && IsPrime(x.n) ==> r == Success([x.n])
  {
    match x
    case FloatArg(_) =>
      r := Failure(TypeError);
    case StrArg(_) =>
      r := Failure(TypeError);
    case IntArg(n) =>
      if n < 0 {
        r := Failure(ValueError);
      } else if n <= 1 {
        r := Success([n]);
      } else {
        var fs := PrimeFactors(n);
        PrimeFactorsOfPrime(fs, n);
        r := Success(fs);
      }
  }

  /** The only factorisation of a prime is the prime itself. */
  lemma PrimeFactorsOfPrime(fs: seq<int>, p: int)
    requires IsFactorization(fs, p)
    ensures IsPrime(p) ==> fs == [p]
  {
    if IsPrime(p) {
      assert Product([p]) == p by {
        assert [p][..0] == [];
      }
      FactorizationUnique(fs, [p]);
      assert |fs| == |multiset(fs)| == 1;
      assert fs[0] in multiset(fs);
    }
  }

  // ---------------------------------------------------------------------------
  // The unit tests. `assertCountEqual` compares with multiplicity and
  // ignores order, so each test is a statement about the multiset of
  // factors; by unique factorisation it holds for every list of primes with
  // the right product, in particular for the one `Factorize` returns.

  /** No number in `[lo, hi)` divides `p`, checked one candidate at a time. */
  predicate NoDivisorIn(p: int, lo: int, hi: int)
    requires lo >= 1
    decreases hi - lo
  {
    lo >= hi || (p % lo != 0 && NoDivisorIn(p, lo + 1, hi))
  }

  lemma {:induction false} NoDivisorInMeans(p: int, lo: int, hi: int)
    requires lo >= 1 && NoDivisorIn(p, lo, hi)
    ensures forall d :: lo <= d < hi ==> p % d != 0
    decreases hi - lo
  {
    if lo < hi {
      NoDivisorInMeans(p, lo + 1, hi);
    }
  }

  lemma MulMono(a: int, b: int, c: int, d: int)
    requires 0 <= a <= b && 0 <= c <= d
    ensures a * c <= b * d
  {
    assert a * c <= b * c;
  }

  /** Primality by trial division up to a bound `k` with `k * k > p`: a
      divisor at or above `k` would have a cofactor below `k`. */
  lemma PrimeByTrial(p: int, k: int)
    requires p >= 2 && k >= 2 && k * k > p && NoDivisorIn(p, 2, k)
    ensures IsPrime(p)
  {
    NoDivisorInMeans(p, 2, k);
    forall d | k <= d < p
      ensures p % d != 0
    {
      if p % d == 0 {
        CofactorBounds(p, d);
        var c := p / d;
        if c >= k {
          MulMono(k, d, k, c);
        }
        assert false;
      }
    }
  }

  /** A prime is its own only factorisation: 3, 13 and 29 give `(p,)`. */
  lemma SimpleNumbers(fs: seq<int>, x: int)
    requires IsFactorization(fs, x)
    requires x == 3 || x == 13 || x == 29
    ensures multiset(fs) == multiset{x}
  {
    if x == 3 {
      PrimeByTrial(3, 2);
    } else if x == 13 {
      PrimeByTrial(13, 4);
    } else {
      PrimeByTrial(29, 6);
    }
    PrimeFactorsOfPrime(fs, x);
  }

  /** The primes the tests use. */
  lemma SmallPrimes(p: int)
    requires p in {2, 3, 5, 7, 11, 13, 17, 19}
    ensures IsPrime(p)
  {
    if p == 2 || p == 3 {
      PrimeByTrial(p, 2);
    } else if p == 5 || p == 7 {
      PrimeByTrial(p, 3);
    } else if p == 11 || p == 13 {
      PrimeByTrial(p, 4);
    } else {
      PrimeByTrial(p, 5);
    }
  }

  /** 6, 26 and 121 factor as `(2, 3)`, `(2, 13)` and `(11, 11)`. */
  lemma TwoSimpleMultipliers(fs: seq<int>, x: int, p: int, q: int)
    requires IsFactorization(fs, x)
    requires (x, p, q) == (6, 2, 3) || (x, p, q) == (26, 2, 13) || (x, p, q) == (121, 11, 11)
    ensures multiset(fs) == multiset{p, q}
  {
    var s1 := Extend([], p);
    var s2 := Extend(s1, q);
    FactorizationUnique(fs, s2);
  }

  /** 1001 factors as `(7, 11, 13)`. */
  lemma ManyMultipliersSmall(fs: seq<int>, x: int)
    requires IsFactorization(fs, x) && x == 1001
    ensures multiset(fs) == multiset{7, 11, 13}
  {
    var s1 := Extend([], 7);
    var s2 := Extend(s1, 11);
    var s3 := Extend(s2, 13);
    FactorizationUnique(fs, s3);
  }

  /** 9699690 factors as `(2, 3, 5, 7, 11, 13, 17, 19)`. */
  lemma ManyMultipliersLarge(fs: seq<int>, x: int)
    requires IsFactorization(fs, x) && x == 9699690
    ensures multiset(fs) == multiset{2, 3, 5, 7, 11, 13, 17, 19}
  {
    var s4 := ExtendBySmallerPrimes([]);
    var s8 := ExtendByLargerPrimes(s4);
    FactorizationUnique(fs, s8);
  }

  /** Appends 2, 3, 5 and 7 to a list of primes. */
  lemma ExtendBySmallerPrimes(s: seq<int>) returns (t: seq<int>)
    requires AllPrime(s)
    ensures AllPrime(t) && Product(t) == Product(s) * 210
    ensures multiset(t) == multiset(s) + multiset{2, 3, 5, 7}
  {
    var s1 := Extend(s, 2);
    var s2 := Extend(s1, 3);
    var s3 := Extend(s2, 5);
    t := Extend(s3, 7);
  }

  /** Appends 11, 13, 17 and 19 to a list of primes. */
  lemma ExtendByLargerPrimes(s: seq<int>) returns (t: seq<int>)
    requires AllPrime(s)
    ensures AllPrime(t) && Product(t) == Product(s) * 46189
    ensures multiset(t) == multiset(s) + multiset{11, 13, 17, 19}
  {
    var s1 := Extend(s, 11);
    var s2 := Extend(s1, 13);
    var s3 := Extend(s2, 17);
    t := Extend(s3, 19);
  }

  /** Appends one of the small primes to a list of primes: the product
      grows by it. */
  lemma Extend(s: seq<int>, p: int) returns (t: seq<int>)
    requires AllPrime(s) && p in {2, 3, 5, 7, 11, 13, 17, 19}
    ensures t == s + [p] && AllPrime(t) && Product(t) == Product(s) * p
    ensures multiset(t) == multiset(s) + multiset{p}
  {
    SmallPrimes(p);
    ProductAppend(s, p);
    t := s + [p];
  }
}
