/**
 * The prime-time server's decision: trial division over the odd candidates up
 * to one past the integer square root.
 */
module Prime {
  import opened Wrappers
  import opened Bytes

  const U64_MAX: nat := 0xFFFF_FFFF_FFFF_FFFF
  const IS_PRIME := "isPrime"
  const INVALID_METHOD := "Invalid method"

  /**
   * A JSON number: its value when it is integral, and whether it is. A number
   * with a fractional part is carried only by that flag.
   */
  datatype Number = Number(value: int, integral: bool)

  /** `n` has no divisor strictly between 1 and itself. */
  ghost predicate IsPrimeNumber(n: nat)
  {
    n >= 2 && forall d :: 2 <= d < n ==> n % d != 0
  }

  /** `u64::isqrt`: the largest root whose square does not exceed `n`. */
  function Isqrt(n: nat): (r: nat)
    ensures r * r <= n < (r + 1) * (r + 1)
  {
    IsqrtFrom(n, 0)
  }

  function IsqrtFrom(n: nat, r: nat): (s: nat)
    requires r * r <= n
    ensures s * s <= n < (s + 1) * (s + 1)
    decreases n - r * r
  {
    if (r + 1) * (r + 1) > n then r else IsqrtFrom(n, r + 1)
  }

  /** `(i..=limit).step_by(2).any(|i| n % i == 0)` */
  function AnyDivisor(n: nat, i: nat, limit: nat): bool
    requires i > 0
    decreases limit + 1 - i
  {
    if i > limit then false else n % i == 0 || AnyDivisor(n, i + 2, limit)
  }

  /** The stepped scan finds a divisor exactly when one lies on its stride. */
  lemma {:induction false} AnyDivisorExists(n: nat, i: nat, limit: nat)
    requires i > 0
    ensures AnyDivisor(n, i, limit) <==> exists j :: i <= j <= limit && (j - i) % 2 == 0 && n % j == 0
    decreases limit + 1 - i
  {
    if i <= limit {
      AnyDivisorExists(n, i + 2, limit);
      if exists j :: i <= j <= limit && (j - i) % 2 == 0 && n % j == 0 {
        var j :| i <= j <= limit && (j - i) % 2 == 0 && n % j == 0;
        if j != i {
          assert i + 2 <= j && (j - (i + 2)) % 2 == 0;
        }
      }
    }
  }

  /** `is_prime` on an integer that fits in u64. */
  function IsPrimeU64(num: nat): bool
  {
    if num == 0 || num == 1 then false
    else if num == 2 then true
    else if num % 2 == 0 then false
    else !AnyDivisor(num, 3, Isqrt(num) + 1)
  }

  /**
   * `is_prime`: negative and fractional numbers are not prime; the rest are
   * cast to u64, saturating at its maximum.
   */
  function IsPrime(n: Number): bool
  {
    if n.value < 0 || !n.integral then false
    else IsPrimeU64(if n.value > U64_MAX then U64_MAX else n.value)
  }

  lemma SmallCases()
    ensures !IsPrimeU64(0) && !IsPrimeU64(1) && IsPrimeU64(2)
  {
  }

  /** Even numbers above 2 are not prime. */
  lemma EvenNotPrime(n: nat)
    requires n > 2 && n % 2 == 0
    ensures !IsPrimeU64(n) && !IsPrimeNumber(n)
  {
    assert n % 2 == 0;
  }

  /** Negative and fractional numbers are reported not prime. */
  lemma OutsideNotPrime(n: Number)
    requires n.value < 0 || !n.integral
    ensures !IsPrime(n)
  {
  }

  lemma MulLeft(a: nat, b: nat, c: nat)
    ensures b <= c ==> a * b <= a * c
  {
  }

  lemma MulBounds(a: int, k: int)
    requires a >= 0
    ensures k >= 1 ==> a * k >= a
    ensures k <= -1 ==> a * k <= -a
  {
  }

  lemma MulMod(a: nat, b: nat)
    requires a > 0
    ensures (a * b) % a == 0
  {
    var q, r := (a * b) / a, (a * b) % a;
    assert a * (b - q) == r;
    MulBounds(a, b - q);
  }

  lemma EvenMultiple(d: nat, k: nat)
    ensures d % 2 == 0 ==> (d * k) % 2 == 0
  {
    if d % 2 == 0 {
      var h := d / 2;
      assert d * k == 2 * (h * k);
      MulMod(2, h * k);
    }
  }

  /** A divisor of an odd number is odd. */
  lemma OddDivisor(n: nat, d: nat)
    requires n % 2 == 1 && d > 0 && n % d == 0
    ensures d % 2 == 1
  {
    var k := n / d;
    assert n == d * k;
    EvenMultiple(d, k);
  }

  /** A number with a proper divisor has one whose square does not exceed it. */
  lemma SmallDivisor(n: nat, d: nat) returns (q: nat)
    requires 2 <= d < n && n % d == 0
    ensures 2 <= q && q * q <= n && n % q == 0
  {
    var e := n / d;
    assert n == d * e;
    MulLeft(d, e, 1);
    assert e >= 2;
    if d <= e {
      MulLeft(d, d, e);
      q := d;
    } else {
      MulLeft(e, e, d);
      assert n == e * d;
      MulMod(e, d);
      q := e;
    }
  }

  lemma SquareMono(a: nat, b: nat)
    ensures a <= b ==> a * a <= b * b
  {
    MulLeft(a, a, b);
    MulLeft(b, a, b);
  }

  /** A root bound: whatever squares to at most `n` is at most its integer root. */
  lemma BelowRoot(n: nat, q: nat)
    requires q * q <= n
    ensures q <= Isqrt(n)
  {
    SquareMono(Isqrt(n) + 1, q);
  }

  /** For n >= 3 the scan stops below n, so anything it finds is a proper divisor. */
  lemma LimitBelow(n: nat)
    requires n >= 3
    ensures Isqrt(n) + 1 < n
  {
    SquareMono(n - 1, Isqrt(n));
    MulLeft(n, 0, n - 3);
    assert (n - 1) * (n - 1) == n * (n - 3) + n + 1;
  }

  /** Trial division decides primality for every integer the u64 cast keeps. */
  lemma IsPrimeU64Correct(n: nat)
    ensures IsPrimeU64(n) <==> IsPrimeNumber(n)
  {
    if n > 2 && n % 2 == 0 {
      EvenNotPrime(n);
    } else if n > 2 {
      AnyDivisorExists(n, 3, Isqrt(n) + 1);
      if IsPrimeNumber(n) {
        PrimeNotFound(n);
      } else {
        CompositeFound(n);
      }
    }
  }

  /** The scan finds nothing in an odd prime. */
  lemma PrimeNotFound(n: nat)
    requires n > 2 && IsPrimeNumber(n)
    ensures forall j :: 3 <= j <= Isqrt(n) + 1 ==> n % j != 0
  {
    LimitBelow(n);
    forall j | 3 <= j <= Isqrt(n) + 1 ensures n % j != 0 {
      assert 2 <= j < n;
    }
  }

  /** The scan has an odd divisor on its stride to find in an odd composite. */
  lemma CompositeFound(n: nat)
    requires n > 2 && n % 2 == 1 && !IsPrimeNumber(n)
    ensures exists q :: 3 <= q <= Isqrt(n) + 1 && (q - 3) % 2 == 0 && n % q == 0
  {
    var d :| 2 <= d < n && n % d == 0;
    var q := SmallDivisor(n, d);
    OddDivisor(n, q);
    BelowRoot(n, q);
    assert 3 <= q <= Isqrt(n) + 1 && (q - 3) % 2 == 0;
  }

  /** For integral inputs up to the u64 maximum, the answer is primality. */
  lemma IsPrimeCorrect(n: Number)
    requires n.integral && 0 <= n.value <= U64_MAX
    ensures IsPrime(n) <==> IsPrimeNumber(n.value)
  {
    IsPrimeU64Correct(n.value);
  }

  datatype PrimeRequest = PrimeRequest(methodName: string, number: Number)
  datatype PrimeResponse = PrimeResponse(methodName: string, prime: bool)

  /** `PrimeResponse::new` */
  function NewResponse(req: PrimeRequest): (r: PrimeResponse)
  {
    PrimeResponse(IS_PRIME, IsPrime(req.number))
  }

  /** `handle_prime_request` after JSON decoding: only the isPrime method is answered. */
  function HandlePrimeRequest(req: PrimeRequest): (r: Result<PrimeResponse, string>)
  {
    if req.methodName != IS_PRIME then Err(INVALID_METHOD) else Ok(NewResponse(req))
  }

  /**
   * A request is answered exactly when its method is isPrime; the answer
   * always names isPrime and, for integral numbers within u64, says whether
   * the number is prime.
   */
  lemma HandlePrimeRequestAnswers(req: PrimeRequest)
    ensures HandlePrimeRequest(req).Ok? <==> req.methodName == IS_PRIME
    ensures HandlePrimeRequest(req).Ok? ==> HandlePrimeRequest(req).value.methodName == IS_PRIME
    ensures HandlePrimeRequest(req).Ok? && req.number.integral && 0 <= req.number.value <= U64_MAX ==>
      (HandlePrimeRequest(req).value.prime <==> IsPrimeNumber(req.number.value))
  {
    if req.number.integral && 0 <= req.number.value <= U64_MAX {
      IsPrimeCorrect(req.number);
    }
  }
}
