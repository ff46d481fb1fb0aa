/** Divisibility, greatest common divisors and modular powers, as math/big provides them. */
module NumberTheory {

  ghost predicate Divides(d: int, a: int) {
    exists k :: a == d * k
  }

  function Gcd(a: nat, b: nat): nat
    decreases b
  {
    if b == 0 then a else Gcd(b, a % b)
  }

  function Pow(b: int, e: nat): int {
    if e == 0 then 1 else b * Pow(b, e - 1)
  }

  lemma MulAssoc(a: int, b: int, c: int)
    ensures a * (b * c) == (a * b) * c
  {
  }

  lemma MulDistributes(a: int, b: int, c: int)
    ensures a * (b + c) == a * b + a * c
    ensures a * (b - c) == a * b - a * c
  {
  }

  lemma DividesMul(d: int, a: int, c: int)
    requires Divides(d, a)
    ensures Divides(d, a * c) && Divides(d, c * a)
  {
    var k :| a == d * k;
    MulAssoc(d, k, c);
    assert a * c == d * (k * c);
  }

  lemma DividesSum(d: int, a: int, b: int)
    requires Divides(d, a) && Divides(d, b)
    ensures Divides(d, a + b)
  {
    var k :| a == d * k;
    var l :| b == d * l;
    MulDistributes(d, k, l);
    assert a + b == d * (k + l);
  }

  lemma DivModEq(a: int, n: int)
    requires n > 0
    ensures a == n * (a / n) + a % n
  {
  }

  lemma ModZeroDivides(a: int, n: int)
    requires n > 0
    ensures a % n == 0 <==> Divides(n, a)
  {
    DivModEq(a, n);
    if a % n == 0 {
      assert a == n * (a / n);
    }
    if Divides(n, a) {
      var k :| a == n * k;
      ModUnique(a, n, k, 0);
    }
  }

  lemma ModUnique(a: int, n: int, q: int, r: int)
    requires n > 0 && 0 <= r < n && a == n * q + r
    ensures a % n == r
  {
    DivModEq(a, n);
    var c := q - a / n;
    MulDistributes(n, q, a / n);
    assert n * c == a % n - r;
    MulAtLeast(n, c);
  }

  lemma DivUnique(a: int, n: int, q: int, r: int)
    requires n > 0 && 0 <= r < n && a == n * q + r
    ensures a / n == q
  {
    DivModEq(a, n);
    ModUnique(a, n, q, r);
    MulDistributes(n, q, a / n);
    MulAtLeast(n, q - a / n);
  }

  lemma DivTwice(t: nat, b: nat, p: nat)
    requires b > 0 && p > 0
    ensures b * p > 0 && t / b / p == t / (b * p)
  {
    MulAtLeast(b, p);
    var q, r := t / (b * p), t % (b * p);
    DivModEq(t, b * p);
    DivModEq(r, b);
    MulAssoc(b, p, q);
    MulDistributes(b, p * q, r / b);
    DivUnique(t, b, p * q + r / b, r % b);
    if r / b >= p {
      MulDistributes(b, r / b, p);
      MulNonNegative(b, r / b - p);
    }
    DivUnique(t / b, p, q, r / b);
  }

  lemma MulAtLeast(n: int, c: int)
    requires n > 0
    ensures c >= 1 ==> n * c >= n
    ensures c <= -1 ==> n * c <= -n
  {
    MulDistributes(n, c, 1);
    if c >= 1 {
      MulNonNegative(n, c - 1);
    } else if c <= -1 {
      MulDistributes(n, c, -1);
      MulNonNegative(n, -c - 1);
    }
  }

  lemma MulNonNegative(a: int, b: int)
    requires a >= 0 && b >= 0
    ensures a * b >= 0
  {
  }

  /** A multiple of n between 0 and n, both excluded, does not exist. */
  lemma NoSmallMultiple(a: int, n: int)
    requires 0 < a < n
    ensures !Divides(n, a)
  {
    if Divides(n, a) {
      ModZeroDivides(a, n);
      ModUnique(a, n, 0, a);
    }
  }

  /** Bezout: the greatest common divisor is an integer combination. */
  lemma {:induction false} Bezout(a: nat, b: nat) returns (s: int, t: int)
    ensures Gcd(a, b) == s * a + t * b
    decreases b
  {
    if b == 0 {
      s, t := 1, 0;
    } else {
      var s', t' := Bezout(b, a % b);
      DivModEq(a, b);
      s, t := t', s' - t' * (a / b);
      calc {
        s * a + t * b;
        t' * a + (s' - t' * (a / b)) * b;
        { MulDistributes(b, s', t' * (a / b)); }
        t' * a + s' * b - b * (t' * (a / b));
        { MulAssoc(b, t', a / b); MulAssoc(t', b, a / b); }
        t' * a + s' * b - t' * (b * (a / b));
        { MulDistributes(t', a, b * (a / b)); }
        s' * b + t' * (a - b * (a / b));
        s' * b + t' * (a % b);
      }
    }
  }

  lemma {:induction false} GcdDivides(a: nat, b: nat)
    ensures Divides(Gcd(a, b), a) && Divides(Gcd(a, b), b)
    ensures a > 0 || b > 0 ==> Gcd(a, b) > 0
    decreases b
  {
    var g := Gcd(a, b);
    if b == 0 {
      assert a == a * 1 && b == a * 0;
    } else {
      GcdDivides(b, a % b);
      DivModEq(a, b);
      DividesMul(g, b, a / b);
      DividesSum(g, b * (a / b), a % b);
    }
  }

  lemma CollectMultiples(s: int, a: int, t: int, n: int, b: int, k: int)
    requires a * b == n * k
    ensures (s * a + t * n) * b == n * (s * k + t * b)
  {
    calc {
      (s * a + t * n) * b;
      { MulDistributes(b, s * a, t * n); }
      (s * a) * b + (t * n) * b;
      { MulAssoc(s, a, b); MulAssoc(n, t, b); }
      s * (n * k) + n * (t * b);
      { MulAssoc(s, n, k); MulAssoc(n, s, k); }
      n * (s * k) + n * (t * b);
      { MulDistributes(n, s * k, t * b); }
      n * (s * k + t * b);
    }
  }

  /** Euclid's lemma. */
  lemma CoprimeDivides(n: nat, a: nat, b: int)
    requires n > 0 && Gcd(a, n) == 1 && Divides(n, a * b)
    ensures Divides(n, b)
  {
    var s, t := Bezout(a, n);
    var k :| a * b == n * k;
    CollectMultiples(s, a, t, n, b, k);
    assert b == n * (s * k + t * b);
  }

  lemma ExactQuotient(n: int, p: int)
    requires p > 0 && Divides(p, n)
    ensures p * (n / p) == n
  {
    ModZeroDivides(n, p);
    DivModEq(n, p);
  }

  lemma ModMul(a: int, b: int, n: int)
    requires n > 0
    ensures (a % n) * (b % n) % n == a * b % n
  {
    DivModEq(a, n);
    DivModEq(b, n);
    var x, y := a / n, b / n;
    var u, v := a % n, b % n;
    DivModEq(u * v, n);
    calc {
      a * b;
      (n * x + u) * (n * y + v);
      { MulDistributes(n * x + u, n * y, v); }
      (n * x + u) * (n * y) + (n * x + u) * v;
      { MulAssoc(n * x + u, n, y); MulAssoc(n, n * x + u, y); MulDistributes(v, n * x, u); MulAssoc(v, n, x); MulAssoc(n, x, v); }
      n * ((n * x + u) * y) + n * (x * v) + u * v;
      { MulDistributes(n, (n * x + u) * y, x * v); }
      n * ((n * x + u) * y + x * v) + u * v;
      { MulDistributes(n, (n * x + u) * y + x * v, u * v / n); }
      n * ((n * x + u) * y + x * v + u * v / n) + u * v % n;
    }
    ModUnique(a * b, n, (n * x + u) * y + x * v + u * v / n, u * v % n);
  }

  lemma {:induction false} PowAdd(b: int, e: nat, f: nat)
    ensures Pow(b, e + f) == Pow(b, e) * Pow(b, f)
  {
    if e > 0 {
      PowAdd(b, e - 1, f);
      MulAssoc(b, Pow(b, e - 1), Pow(b, f));
    }
  }
}
