/** crypto/key_io.go: recovering the primes of an RSA key from (n, e, d) by looking for a square
    root of 1 modulo n that is neither 1 nor n - 1. */
module RsaFactors {
  import opened NumberTheory

  datatype Option<T> = None | Some(value: T)
  datatype Error = InvalidParameters | NotRecovered | RandomFailed
  datatype Result = Factors(p: int, q: int) | Failed(error: Error)

  predicate IsFactorization(n: int, p: int, q: int) {
    p * q == n && 1 < p <= q < n
  }

  /** The i-th value of y in the squaring loop, counting from y = g^r mod n. */
  function Squares(g: int, r: nat, n: int, i: nat): int
    requires n > 0
  {
    if i == 0 then Pow(g, r) % n
    else var y := Squares(g, r, n, i - 1); y * y % n
  }

  function Pow2(i: nat): nat { if i == 0 then 1 else 2 * Pow2(i - 1) }

  /** y is a square root of 1 that gives a factor away. */
  predicate TellingRoot(y: int, n: int)
    requires n > 0
  {
    y != 1 && y != n - 1 && y * y % n == 1
  }

  /** Exactly the bases for which the code finds the factors. */
  ghost predicate Splits(g: nat, r: nat, t: nat, n: nat)
    requires n > 0
  {
    1 < Gcd(g, n) < n || exists i :: 0 <= i < t && TellingRoot(Squares(g, r, n, i), n)
  }

  lemma {:induction false} SquaresArePowers(g: int, r: nat, n: int, i: nat)
    requires n > 0
    ensures Squares(g, r, n, i) == Pow(g, r * Pow2(i)) % n
  {
    if i == 0 {
      assert r * Pow2(0) == r;
    } else {
      SquaresArePowers(g, r, n, i - 1);
      var e := r * Pow2(i - 1);
      assert r * Pow2(i) == e + e by { MulAssoc(r, 2, Pow2(i - 1)); }
      PowAdd(g, e, e);
      ModMul(Pow(g, e), Pow(g, e), n);
    }
  }

  lemma {:induction false} OnesStay(g: int, r: nat, n: int, i: nat, j: nat)
    requires n > 1 && i <= j && Squares(g, r, n, i) == 1
    ensures Squares(g, r, n, j) == 1
  {
    if i < j {
      OnesStay(g, r, n, i, j - 1);
      ModUnique(1, n, 0, 1);
    }
  }

  lemma MinusOneSquares(n: int)
    requires n > 2
    ensures (n - 1) * (n - 1) % n == 1
  {
    MulDistributes(n - 1, n, 1);
    MulDistributes(n, n, 2);
    assert (n - 1) * (n - 1) == n * (n - 2) + 1;
    ModUnique((n - 1) * (n - 1), n, n - 2, 1);
  }

  /** Once y has reached 1 or n - 1, no later y tells anything. */
  lemma NothingAfter(g: int, r: nat, n: int, i: nat, j: nat)
    requires n > 2 && i <= j
    requires Squares(g, r, n, i) == 1 || Squares(g, r, n, i) == n - 1
    ensures !TellingRoot(Squares(g, r, n, j), n)
  {
    if Squares(g, r, n, i) == 1 {
      OnesStay(g, r, n, i, j);
    } else if i < j {
      MinusOneSquares(n);
      assert Squares(g, r, n, i + 1) == 1;
      OnesStay(g, r, n, i + 1, j);
    }
  }

  /** A telling root y has 1 < gcd(y - 1, n) < n: the tests the code makes on the gcd and on the
      product never reject. */
  lemma TellingRootSplits(y: int, n: int)
    requires n > 2 && 0 <= y < n && TellingRoot(y, n)
    ensures y > 1
    ensures 1 < Gcd(y - 1, n) < n && Divides(Gcd(y - 1, n), n)
  {
    assert y != 0;
    GcdDivides(y - 1, n);
    var p := Gcd(y - 1, n);
    MulDistributes(y - 1, y, 1);
    assert (y - 1) * (y + 1) == y * y - 1;
    DivModEq(y * y, n);
    assert (y - 1) * (y + 1) == n * (y * y / n);
    assert Divides(n, (y - 1) * (y + 1));
    NoSmallMultiple(y - 1, n);
    NoSmallMultiple(y + 1, n);
    if p == 1 {
      CoprimeDivides(n, y - 1, y + 1);
    }
    DivisorAtMost(p, n);
  }

  lemma DivisorAtMost(p: int, n: int)
    requires p > 0 && n > 0 && Divides(p, n)
    ensures p <= n && 1 <= n / p && p * (n / p) == n
  {
    ExactQuotient(n, p);
    MulAtLeast(p, n / p);
  }

  /** Ordering p and its cofactor gives the factorization. */
  lemma ProperFactor(n: int, p: int)
    requires n > 1 && 1 < p < n && Divides(p, n)
    ensures p <= n / p ==> IsFactorization(n, p, n / p)
    ensures n / p < p ==> IsFactorization(n, n / p, p)
  {
    DivisorAtMost(p, n);
    var q := n / p;
    MulAtLeast(q, p - 1);
    MulDistributes(q, p, 1);
  }

  /** g^(r * 2^i) mod n. */
  function Power(g: nat, r: nat, n: int, i: nat): int
    requires n > 0
  {
    Pow(g, r * Pow2(i)) % n
  }

  /** The i-th power is a square root of 1 other than 1 and n - 1. */
  predicate TellingPower(g: nat, r: nat, n: int, i: nat)
    requires n > 0
  {
    Power(g, r, n, i) != 1 && Power(g, r, n, i) != n - 1 && Power(g, r, n, i + 1) == 1
  }

  lemma RootIsPower(g: nat, r: nat, n: int, i: nat)
    requires n > 0
    ensures TellingRoot(Squares(g, r, n, i), n) <==> TellingPower(g, r, n, i)
  {
    SquaresArePowers(g, r, n, i);
    SquaresArePowers(g, r, n, i + 1);
  }

  /** A base succeeds exactly if it shares a factor with n, or one of its powers tells: said of the powers
      themselves, not of the squarings. */
  lemma SplitsByPowers(g: nat, r: nat, t: nat, n: nat)
    requires n > 2
    ensures Splits(g, r, t, n) <==> 1 < Gcd(g, n) < n || exists i: nat :: i < t && TellingPower(g, r, n, i)
  {
    hide TellingRoot, TellingPower, Squares, Gcd;
    forall i: nat ensures TellingRoot(Squares(g, r, n, i), n) <==> TellingPower(g, r, n, i) {
      RootIsPower(g, r, n, i);
    }
  }

  /** The first square of 1: before it comes n - 1 or a telling root, unless it is the first of all. */
  lemma {:induction false} FirstOne(g: nat, r: nat, n: int, t: nat) returns (i: nat)
    requires n > 2 && Squares(g, r, n, t) == 1
    ensures i <= t && Squares(g, r, n, i) == 1
    ensures i > 0 ==> Squares(g, r, n, i - 1) == n - 1 || TellingRoot(Squares(g, r, n, i - 1), n)
  {
    i := t;
    if t > 0 && Squares(g, r, n, t - 1) == 1 {
      i := FirstOne(g, r, n, t - 1);
    }
  }

  /** For a key that works, where g^(r * 2^t) is 1 mod n, a base coprime to n fails exactly if its powers reach 1
      at once or by way of n - 1. */
  lemma BaseFails(g: nat, r: nat, t: nat, n: nat)
    requires n > 2 && Power(g, r, n, t) == 1 && !(1 < Gcd(g, n) < n)
    ensures !Splits(g, r, t, n) <==> Power(g, r, n, 0) == 1 || exists i: nat :: i < t && Power(g, r, n, i) == n - 1
  {
    forall i: nat ensures Squares(g, r, n, i) == Power(g, r, n, i) {
      SquaresArePowers(g, r, n, i);
    }
    var i := FirstOne(g, r, n, t);
    hide Power;
    if i > 0 && Squares(g, r, n, i - 1) == n - 1 {
      assert Power(g, r, n, i - 1) == n - 1;
    }
    if j: nat :| j < t && TellingRoot(Squares(g, r, n, j), n) {
      assert Squares(g, r, n, j + 1) == 1;
      if Squares(g, r, n, 0) == 1 {
        OnesStay(g, r, n, 0, j);
        assert false;
      }
      forall k: nat | k < t ensures Squares(g, r, n, k) != n - 1 {
        if k <= j && Squares(g, r, n, k) == n - 1 {
          assert k < j;
          MinusOneGivesOne(g, r, n, k);
          OnesStay(g, r, n, k + 1, j);
        } else if k > j {
          OnesStay(g, r, n, j + 1, k);
        }
      }
    }
  }

  lemma MinusOneGivesOne(g: nat, r: nat, n: int, k: nat)
    requires n > 2 && Squares(g, r, n, k) == n - 1
    ensures Squares(g, r, n, k + 1) == 1
  {
    MinusOneSquares(n);
  }

  /** The inner tryBase. */
  method TryBase(g: nat, r: nat, t: nat, n: nat) returns (p: int, q: int, ok: bool)
    requires n > 2
    ensures ok ==> IsFactorization(n, p, q)
    ensures ok <==> Splits(g, r, t, n)
    ensures ok <==> 1 < Gcd(g, n) < n || exists i: nat :: i < t && TellingPower(g, r, n, i)
  {
    hide TellingPower;
    SplitsByPowers(g, r, t, n);
    var gcd := Gcd(g, n);
    if gcd > 1 && gcd < n {
      GcdDivides(g, n);
      ProperFactor(n, gcd);
      p, q := gcd, n / gcd;
      if p > q {
        p, q := q, p;
      }
      return p, q, true;
    }

    var y := Pow(g, r) % n;
    if y == 1 || y == n - 1 {
      forall i | 0 <= i < t ensures !TellingRoot(Squares(g, r, n, i), n) {
        NothingAfter(g, r, n, 0, i);
      }
      return 0, 0, false;
    }

    var i := 0;
    while i < t
      invariant 0 <= i <= t
      invariant y == Squares(g, r, n, i) && 0 <= y < n
      invariant y != 1 && y != n - 1
      invariant forall k :: 0 <= k < i ==> !TellingRoot(Squares(g, r, n, k), n)
    {
      var x := y * y % n;
      if x == 1 {
        TellingRootSplits(y, n);
        p := Gcd(y - 1, n);
        ProperFactor(n, p);
        q := n / p;
        assert !(p <= 1 || p >= n) && p * q == n;
        if p > q {
          p, q := q, p;
        }
        return p, q, true;
      }
      if x == n - 1 {
        assert Squares(g, r, n, i + 1) == n - 1;
        forall k | i < k < t ensures !TellingRoot(Squares(g, r, n, k), n) {
          NothingAfter(g, r, n, i + 1, k);
        }
        return 0, 0, false;
      }
      y := x;
      i := i + 1;
    }
    return 0, 0, false;
  }

  /** The odd part of k, and how often k can be halved to reach it. */
  function OddPart(k: int): nat
    requires k > 0
  {
    if k % 2 == 0 then OddPart(k / 2) else k
  }

  function Halvings(k: int): nat
    requires k > 0
  {
    if k % 2 == 0 then Halvings(k / 2) + 1 else 0
  }

  lemma {:induction false} OddPartOf(k: int)
    requires k > 0
    ensures OddPart(k) > 0 && OddPart(k) % 2 == 1 && k == OddPart(k) * Pow2(Halvings(k))
  {
    if k % 2 == 0 {
      OddPartOf(k / 2);
      MulAssoc(OddPart(k), 2, Pow2(Halvings(k / 2)));
      MulAssoc(2, OddPart(k), Pow2(Halvings(k / 2)));
    }
  }

  /** The base g reveals a factor of n, given the exponent multiple k = d * e - 1. */
  ghost predicate Reveals(g: nat, n: nat, k: int)
    requires n > 0 && k > 0
  {
    Splits(g, OddPart(k), Halvings(k), n)
  }

  /** The bases tried first: 2, 3, ... below both 8192 and n - 1. */
  ghost predicate SmallBaseReveals(n: nat, k: int, bound: int)
    requires n > 0 && k > 0
  {
    exists g: nat :: 2 <= g < bound && g < n - 1 && Reveals(g, n, k)
  }

  /** A value drawn from [0, n - 2), moved into the range of bases. */
  function RandomBase(draw: nat, n: nat): nat {
    if draw + 2 >= n - 1 then draw + 1 else draw + 2
  }

  ghost predicate DrawsSucceed(draw: nat -> Option<nat>, count: nat) {
    forall i :: 0 <= i < count ==> draw(i).Some?
  }

  ghost predicate RevealsAt(n: nat, k: int, draw: nat -> Option<nat>, i: nat)
    requires n > 0 && k > 0
  {
    DrawsSucceed(draw, i + 1) && Reveals(RandomBase(draw(i).value, n), n, k)
  }

  ghost predicate RandomBaseReveals(n: nat, k: int, draw: nat -> Option<nat>, count: nat)
    requires n > 0 && k > 0
  {
    exists i: nat :: i < count && RevealsAt(n, k, draw, i)
  }

  ghost predicate FailsAt(n: nat, k: int, draw: nat -> Option<nat>, i: nat)
    requires n > 0 && k > 0
  {
    draw(i).None? && DrawsSucceed(draw, i) && !RandomBaseReveals(n, k, draw, i)
  }

  /** Some draw fails before any drawn base has revealed a factor. */
  ghost predicate DrawFails(n: nat, k: int, draw: nat -> Option<nat>, count: nat)
    requires n > 0 && k > 0
  {
    exists i: nat :: i < count && FailsAt(n, k, draw, i)
  }

  lemma NotBoth(n: nat, k: int, draw: nat -> Option<nat>, i: nat, j: nat)
    requires n > 0 && k > 0 && RevealsAt(n, k, draw, j)
    ensures !FailsAt(n, k, draw, i)
  {
    hide Reveals;
    assert i <= j ==> draw(i).Some?;
  }

  lemma RevealedBeforeFailure(n: nat, k: int, draw: nat -> Option<nat>, count: nat)
    requires n > 0 && k > 0 && RandomBaseReveals(n, k, draw, count)
    ensures !DrawFails(n, k, draw, count)
  {
    hide RevealsAt, FailsAt;
    var j: nat :| j < count && RevealsAt(n, k, draw, j);
    forall i: nat | i < count ensures !FailsAt(n, k, draw, i) {
      NotBoth(n, k, draw, i, j);
    }
  }

  lemma NoFailure(n: nat, k: int, draw: nat -> Option<nat>, count: nat)
    requires n > 0 && k > 0 && DrawsSucceed(draw, count)
    ensures !DrawFails(n, k, draw, count)
  {
  }

  /** n and d are absent for nil pointers; `draw(i)` is what the i-th rand.Int(rand.Reader, n - 2)
      yields. Factors are returned exactly when some base that is tried reveals them, and the error of
      the random source exactly when it fails before that. */
  method RecoverFactors(n: Option<int>, e: int, d: Option<int>, draw: nat -> Option<nat>) returns (res: Result)
    requires n.Some? && n.value > 2 ==> forall i :: draw(i).Some? ==> draw(i).value < n.value - 2
    ensures res == Failed(InvalidParameters) <==> n.None? || d.None? || e <= 1
    ensures res.Factors? ==> n.Some? && IsFactorization(n.value, res.p, res.q)
    ensures n.Some? && d.Some? && e > 1 ==>
              var k := d.value * e - 1;
              if k <= 0 || k % 2 != 0 || n.value <= 2 then res == Failed(NotRecovered)
              else res.Factors? <==> SmallBaseReveals(n.value, k, 8192) || RandomBaseReveals(n.value, k, draw, 8192)
    ensures n.Some? && d.Some? && e > 1 && d.value * e - 1 > 0 && (d.value * e - 1) % 2 == 0 && n.value > 2 ==>
              var k := d.value * e - 1;
              res == Failed(RandomFailed) <==> !SmallBaseReveals(n.value, k, 8192) && DrawFails(n.value, k, draw, 8192)
  {
    if n.None? || d.None? || e <= 1 {
      return Failed(InvalidParameters);
    }
    var n, d := n.value, d.value;
    var k := d * e - 1;
    if k <= 0 || k % 2 != 0 {
      return Failed(NotRecovered);
    }

    var r, t := k, 0;
    while r % 2 == 0
      invariant r > 0 && t >= 0
      invariant OddPart(r) == OddPart(k) && Halvings(r) + t == Halvings(k)
      decreases r
    {
      r, t := r / 2, t + 1;
    }

    if n - 2 <= 0 {
      return Failed(NotRecovered);
    }

    var base := 2;
    while base < 8192 && base < n - 1
      invariant 2 <= base <= 8192
      invariant !SmallBaseReveals(n, k, base)
    {
      var p, q, ok := TryBase(base, r, t, n);
      if ok {
        assert Reveals(base, n, k);
        return Factors(p, q);
      }
      base := base + 1;
    }

    var tries := 0;
    while tries < 8192
      invariant 0 <= tries <= 8192
      invariant DrawsSucceed(draw, tries)
      invariant !RandomBaseReveals(n, k, draw, tries)
    {
      var drawn := draw(tries);
      if drawn.None? {
        assert FailsAt(n, k, draw, tries);
        return Failed(RandomFailed);
      }
      var g := drawn.value + 2;
      if g >= n - 1 {
        g := g - 1;
      }
      assert g == RandomBase(drawn.value, n) && DrawsSucceed(draw, tries + 1);
      var p, q, ok := TryBase(g, r, t, n);
      if ok {
        assert RevealsAt(n, k, draw, tries);
        RevealedBeforeFailure(n, k, draw, 8192);
        return Factors(p, q);
      }
      tries := tries + 1;
    }
    NoFailure(n, k, draw, 8192);
    return Failed(NotRecovered);
  }

  ghost predicate IsPrime(p: int) {
    p > 1 && forall d :: 1 < d < p ==> !Divides(d, p)
  }

  lemma PrimeDividesFactor(p: int, a: nat, b: int)
    requires IsPrime(p) && Divides(p, a * b)
    ensures Divides(p, a) || Divides(p, b)
  {
    GcdDivides(a, p);
    DivisorAtMost(Gcd(a, p), p);
    if Gcd(a, p) == 1 {
      CoprimeDivides(p, a, b);
    } else {
      assert Gcd(a, p) == p;
    }
  }

  /** For a modulus that is the product of two primes, the factors returned are those primes. */
  lemma FactorsAreThePrimes(n: int, p: int, q: int, a: int, b: int)
    requires IsPrime(a) && IsPrime(b) && a <= b && n == a * b
    requires IsFactorization(n, p, q)
    ensures p == a && q == b
  {
    assert Divides(a, p * q);
    PrimeDividesFactor(a, p, q);
    if Divides(a, p) {
      CofactorIsPrime(a, b, p, q);
    } else {
      CofactorIsPrime(a, b, q, p);
    }
  }

  lemma CofactorIsPrime(a: int, b: int, p: int, q: int)
    requires IsPrime(a) && IsPrime(b) && p > 1 && q > 1
    requires p * q == a * b && Divides(a, p)
    ensures p == a && q == b
  {
    DivisorAtMost(a, p);
    var c := p / a;
    MulAssoc(a, c, q);
    MulDistributes(a, c * q, b);
    MulAtLeast(a, c * q - b);
    assert c * q == b;
    assert Divides(q, b) by { assert b == q * c; }
    DivisorAtMost(q, b);
    assert q == b;
    MulDistributes(b, c, 1);
    MulAtLeast(b, c - 1);
  }
}
