/**
  The prime tables of the googletest samples: trial division, a sieve that visits 2 and
  the odd numbers only, and the hybrid that chooses between them. All three are compared
  with primality itself.
  */
module PrimeTables {
  import opened Basics

  predicate Divides(d: int, n: int)
    requires d > 0
  {
    n % d == 0
  }

  ghost predicate IsPrime(n: int) {
    n >= 2 && forall d :: 2 <= d < n ==> !Divides(d, n)
  }

  /** What the interface promises: the smallest prime greater than `p`. */
  ghost predicate IsNextPrime(p: int, q: int) {
    p < q && IsPrime(q) && forall n :: p < n < q ==> !IsPrime(n)
  }

  // ----- arithmetic

  lemma {:induction false} MultipleDivides(d: int, k: int)
    requires d > 0
    ensures Divides(d, d * k)
  {
    var q, r := d * k / d, d * k % d;
    assert d * (k - q) == r;
    if k - q >= 1 {
      MulMono(d, 1, k - q);
    } else if k - q <= -1 {
      MulMono(d, k - q, -1);
    }
  }

  lemma {:induction false} DividesTrans(a: int, b: int, n: int)
    requires a > 0 && b > 0 && Divides(a, b) && Divides(b, n)
    ensures Divides(a, n)
  {
    var x, y := b / a, n / b;
    assert b == a * x && n == b * y;
    assert n == a * (x * y);
    MultipleDivides(a, x * y);
  }

  lemma {:induction false} DividesSum(d: int, a: int, b: int)
    requires d > 0 && Divides(d, a)
    ensures Divides(d, a + b) <==> Divides(d, b)
  {
    var x := a / d;
    assert a == d * x;
    if Divides(d, b) {
      assert b == d * (b / d);
      assert a + b == d * (x + b / d);
      MultipleDivides(d, x + b / d);
    }
    if Divides(d, a + b) {
      var y := (a + b) / d;
      assert a + b == d * y;
      assert b == d * (y - x);
      MultipleDivides(d, y - x);
    }
  }

  lemma {:induction false} DividesLe(d: int, n: int)
    requires d > 0 && n > 0 && Divides(d, n)
    ensures d <= n
  {
    var k := n / d;
    assert n == d * k;
    if k >= 1 {
      MulMono(d, 1, k);
    } else {
      MulMono(d, k, 0);
    }
  }

  /** The least divisor above one is prime, and for a composite its square does not exceed the number. */
  lemma {:induction false} LeastFactor(n: int) returns (p: int)
    requires n >= 2
    ensures 2 <= p <= n && IsPrime(p) && Divides(p, n)
    ensures !IsPrime(n) ==> p * p <= n
  {
    p := 2;
    while !Divides(p, n)
      invariant 2 <= p <= n
      invariant forall d :: 2 <= d < p ==> !Divides(d, n)
      decreases n - p
    {
      assert Divides(n, n) by { MultipleDivides(n, 1); }
      p := p + 1;
    }
    forall d | 2 <= d < p ensures !Divides(d, p) {
      if Divides(d, p) {
        DividesTrans(d, p, n);
      }
    }
    if !IsPrime(n) {
      LeastFactorSquare(n, p);
    }
  }

  lemma {:induction false} LeastFactorSquare(n: int, p: int)
    requires 2 <= p < n && Divides(p, n) && forall d :: 2 <= d < p ==> !Divides(d, n)
    ensures p * p <= n
  {
    var k := n / p;
    assert n == p * k;
    if k < p {
      if k <= 1 {
        MulMono(p, k, 1);
      } else {
        assert n == k * p;
        MultipleDivides(k, p);
      }
    } else {
      MulMono(p, p, k);
    }
  }

  lemma {:induction false} NotPrime(n: int, d: int)
    requires 2 <= d < n && Divides(d, n)
    ensures !IsPrime(n)
  {
  }

  lemma {:induction false} SquareMono(a: int, b: int)
    requires 0 <= a <= b
    ensures a * a <= b * b
  {
    MulMono(a, a, b);
    MulMono(b, a, b);
  }

  // ----- trial division

  /** OnTheFlyPrimeTable::IsPrime */
  method TrialIsPrime(n: int) returns (r: bool)
    ensures r == IsPrime(n)
  {
    if n <= 1 {
      return false;
    }
    var i := 2;
    while i * i <= n
      invariant i >= 2
      invariant forall d :: 2 <= d < i ==> d >= n || !Divides(d, n)
      decreases n - i
    {
      MulMono(i, 2, i);
      if n % i == 0 {
        NotPrime(n, i);
        return false;
      }
      i := i + 1;
    }
    TrialComplete(n, i);
    return true;
  }

  /** No divisor below the square root means prime. */
  lemma {:induction false} TrialComplete(n: int, i: int)
    requires 2 <= n < i * i && 2 <= i && forall d :: 2 <= d < i ==> d >= n || !Divides(d, n)
    ensures IsPrime(n)
  {
    var p := LeastFactor(n);
    if !IsPrime(n) {
      MulMono(p, 2, p);
      if i <= p {
        SquareMono(i, p);
      }
    }
  }

  function Factorial(n: nat): (r: nat)
    ensures r >= 1
  {
    if n == 0 then 1 else n * Factorial(n - 1)
  }

  lemma {:induction false} DividesFactorial(d: int, n: nat)
    requires 1 <= d <= n
    ensures Divides(d, Factorial(n))
  {
    if d == n {
      MultipleDivides(n, Factorial(n - 1));
    } else {
      DividesFactorial(d, n - 1);
      assert Factorial(n) == Factorial(n - 1) * n;
      MultipleDivides(Factorial(n - 1), n);
      DividesTrans(d, Factorial(n - 1), Factorial(n));
    }
  }

  /** There is a prime above every number: a prime factor of p! + 1 exceeds p. */
  lemma {:induction false} PrimeAbove(p: nat) returns (q: int)
    ensures p < q && IsPrime(q)
  {
    var f := Factorial(p);
    q := LeastFactor(f + 1);
    if q <= p {
      DividesFactorial(q, p);
      DividesSum(q, f, 1);
      DividesLe(q, 1);
    }
  }

  /** OnTheFlyPrimeTable::GetNextPrime: terminates with the least prime above `p`. */
  method TrialNextPrime(p: int) returns (r: int)
    ensures p < 0 ==> r == -1
    ensures p >= 0 ==> IsNextPrime(p, r)
  {
    if p < 0 {
      return -1;
    }
    ghost var q := PrimeAbove(p);
    var n := p + 1;
    while true
      invariant p < n <= q
      invariant forall k :: p < k < n ==> !IsPrime(k)
      decreases q - n
    {
      var prime := TrialIsPrime(n);
      if prime {
        return n;
      }
      n := n + 1;
    }
  }

  // ----- the sieve

  /** `n` survives the marking done for the primes below `i`. */
  ghost predicate Unmarked(n: int, i: int) {
    n >= 2 && forall p :: 2 <= p < i && IsPrime(p) && Divides(p, n) ==> n < p * p
  }

  lemma {:induction false} UnmarkedPrime(n: int)
    requires n >= 2
    ensures Unmarked(n, n) <==> IsPrime(n)
  {
    if !IsPrime(n) {
      var p := LeastFactor(n);
      MulMono(p, 2, p);
    }
  }

  /** Once the primes up to the square root of the bound are done, the survivors are the primes. */
  lemma {:induction false} SieveComplete(n: int, i: int)
    requires n < i * i && i >= 2 && n >= 2
    ensures Unmarked(n, i) <==> IsPrime(n)
  {
    if IsPrime(n) {
      forall p | 2 <= p < i && IsPrime(p) && Divides(p, n) ensures n < p * p {
        DividesLe(p, n);
        if p < n {
          NotPrime(n, p);
          assert false;
        }
        MulMono(p, 2, p);
      }
    } else {
      var p := LeastFactor(n);
      if i <= p {
        SquareMono(i, p);
      }
    }
  }

  /** The table after the primes below `i` have been used for marking. */
  ghost predicate Sieved(table: seq<bool>, i: int) {
    forall n :: 0 <= n < |table| ==> table[n] == Unmarked(n, i)
  }

  /** A number that is not prime marks nothing new, so it may be skipped. */
  lemma {:induction false} SkipComposite(table: seq<bool>, i: int)
    requires i >= 2 && !IsPrime(i) && Sieved(table, i)
    ensures Sieved(table, i + 1)
  {
  }

  /** When `i` is reached, its own entry already says whether it is prime. */
  lemma {:induction false} CandidatePrime(table: seq<bool>, i: int)
    requires 2 <= i < |table| && Sieved(table, i)
    ensures table[i] == IsPrime(i)
  {
    UnmarkedPrime(i);
  }

  lemma {:induction false} SievedToTheEnd(table: seq<bool>, i: int)
    requires i >= 2 && Sieved(table, i) && |table| <= i * i
    ensures forall n :: 0 <= n < |table| ==> table[n] == IsPrime(n)
  {
    forall n | 0 <= n < |table| ensures table[n] == IsPrime(n) {
      if n >= 2 {
        SieveComplete(n, i);
      }
    }
  }

  lemma {:induction false} UnmarkedMark(n: int, i: int)
    requires i >= 2 && IsPrime(i)
    ensures Unmarked(n, i + 1) <==> Unmarked(n, i) && !(Divides(i, n) && i * i <= n)
  {
  }

  lemma {:induction false} EvenNotPrime(n: int)
    requires n > 2 && n % 2 == 0
    ensures !IsPrime(n)
  {
    NotPrime(n, 2);
  }

  /** PreCalculatedPrimeTable */
  class SieveTable {
    const isPrime: array<bool>

    ghost predicate Valid()
      reads this, isPrime
    {
      isPrime.Length >= 2 && forall n :: 0 <= n < isPrime.Length ==> isPrime[n] == IsPrime(n)
    }

    constructor (max: int)
      requires max >= 1
      ensures Valid() && fresh(isPrime) && isPrime.Length == max + 1
    {
      isPrime := new bool[max + 1];
      new;
      CalculatePrimesUpTo(max);
    }

    method CalculatePrimesUpTo(max: int)
      requires max >= 1 && isPrime.Length == max + 1
      modifies isPrime
      ensures Valid()
    {
      hide Sieved, Unmarked, IsPrime;
      Fill();
      var i := 2;
      while i * i <= max
        invariant 2 <= i && (i == 2 || i % 2 == 1)
        invariant Sieved(isPrime[..], i)
        decreases max - i
      {
        MulMono(i, 2, i);
        CandidatePrime(isPrime[..], i);
        if isPrime[i] {
          MarkMultiples(i, max);
        } else {
          SkipComposite(isPrime[..], i);
        }
        if i % 2 == 1 {
          EvenNotPrime(i + 1);
          SkipComposite(isPrime[..], i + 1);
        }
        i := i + i % 2 + 1;
      }
      SievedToTheEnd(isPrime[..], i);
      assert forall n :: 0 <= n < isPrime.Length ==> isPrime[n] == isPrime[..][n];
    }

    method Fill()
      requires isPrime.Length >= 2
      modifies isPrime
      ensures Sieved(isPrime[..], 2)
    {
      forall n | 0 <= n < isPrime.Length {
        isPrime[n] := true;
      }
      isPrime[1] := false;
      isPrime[0] := false;
    }

    /** The inner loop: strike out i*i, i*i + i, ... */
    method MarkMultiples(i: int, max: int)
      requires i >= 2 && IsPrime(i) && i * i <= max && isPrime.Length == max + 1
      requires Sieved(isPrime[..], i)
      modifies isPrime
      ensures Sieved(isPrime[..], i + 1)
    {
      var j := i * i;
      MultipleDivides(i, i);
      while j <= max
        invariant i * i <= j && Divides(i, j)
        invariant forall n :: 0 <= n <= max ==>
                                isPrime[n] == (Unmarked(n, i) && !(Divides(i, n) && i * i <= n < j))
        decreases max - j
      {
        isPrime[j] := false;
        forall n | j < n < j + i ensures !Divides(i, n) {
          NoMultipleBetween(i, j, n);
        }
        MultipleDivides(i, 1);
        DividesSum(i, i, j);
        j := j + i;
      }
      forall n | 0 <= n <= max ensures isPrime[n] == Unmarked(n, i + 1) {
        UnmarkedMark(n, i);
      }
    }

    method Contains(n: int) returns (r: bool)
      requires Valid()
      ensures r == (n < isPrime.Length && IsPrime(n))
    {
      r := 0 <= n && n < isPrime.Length && isPrime[n];
    }

    /** The next prime of the table, or -1 exactly when the table holds none above `p`. An argument below -1
        would index the array out of range. */
    method NextPrime(p: int) returns (r: int)
      requires Valid() && p >= -1
      ensures r == -1 ==> forall n :: p < n < isPrime.Length ==> !IsPrime(n)
      ensures r != -1 ==> r < isPrime.Length && IsNextPrime(p, r)
    {
      var n := p + 1;
      while n < isPrime.Length
        invariant p < n
        invariant forall k :: p < k < n && k < isPrime.Length ==> !IsPrime(k)
      {
        if isPrime[n] {
          return n;
        }
        n := n + 1;
      }
      return -1;
    }
  }

  lemma {:induction false} NoMultipleBetween(i: int, j: int, n: int)
    requires i > 0 && Divides(i, j) && j < n < j + i
    ensures !Divides(i, n)
  {
    if Divides(i, n) {
      DividesSum(i, j, n - j);
      DividesLe(i, n - j);
    }
  }

  // ----- the hybrid

  /** HybridPrimeTable: `table` is null when it was told to work without one. */
  class HybridTable {
    const table: SieveTable?
    const max: int

    ghost predicate Valid()
      reads this, table, if table == null then {} else {table.isPrime}
    {
      table != null ==> table.Valid() && table.isPrime.Length == max + 1
    }

    constructor (forceOnTheFly: bool, max: int)
      requires !forceOnTheFly ==> max >= 1
      ensures Valid() && this.max == max && (table == null) == forceOnTheFly
    {
      this.max := max;
      if forceOnTheFly {
        table := null;
      } else {
        table := new SieveTable(max);
      }
    }

    /** With or without the table, the answer is primality. */
    method Contains(n: int) returns (r: bool)
      requires Valid()
      ensures r == IsPrime(n)
    {
      if table != null && n < max {
        r := table.Contains(n);
      } else {
        r := TrialIsPrime(n);
      }
    }

    /** For every p >= 0 the least prime above p, whatever the table holds. Below zero the configurations agree
        only without a table or with one too small to hold a prime: trial division answers -1, the table 2. */
    method NextPrime(p: int) returns (r: int)
      requires Valid() && (table != null ==> p >= -1)
      ensures p >= 0 ==> IsNextPrime(p, r)
      ensures p < 0 ==> r == if table != null && max >= 2 then 2 else -1
    {
      var next := -1;
      if table != null && p < max {
        next := table.NextPrime(p);
        if p < 0 {
          TwoIsNext(next, table.isPrime.Length);
        }
      }
      if next != -1 {
        r := next;
      } else {
        r := TrialNextPrime(p);
      }
    }
  }

  lemma {:induction false} TwoIsNext(next: int, size: int)
    requires size >= 2
    requires next == -1 ==> forall n :: -1 < n < size ==> !IsPrime(n)
    requires next != -1 ==> next < size && IsNextPrime(-1, next)
    ensures next == if size >= 3 then 2 else -1
  {
    assert IsPrime(2);
  }
}
