/** Rounded-up division and the powers the page and node counts are made of. */
module Counting {

  function CeilDiv(n: nat, b: nat): nat
    requires b >= 1
  {
    (n + b - 1) / b
  }

  lemma MulMono(a: int, c: int, b: nat)
    requires a <= c
    ensures a * b <= c * b
  {
  }

  lemma SmallMultiple(k: int, b: nat)
    requires 0 < k * b + b && k * b < b
    ensures k == 0
  {
    if k >= 1 { MulMono(1, k, b); }
    if k <= -1 { MulMono(k, -1, b); }
  }

  lemma DivIs(n: nat, b: nat, q: nat, r: nat)
    requires b >= 1 && r < b && n == q * b + r
    ensures n / b == q && n % b == r
  {
    var d := n / b - q;
    assert d * b == r - n % b;
    SmallMultiple(d, b);
  }

  /** `q` pieces of `b` are enough and `q - 1` are not. */
  lemma CeilDivIs(n: nat, b: nat, q: nat)
    requires b >= 1 && n <= q * b && (q == 0 || (q - 1) * b < n)
    ensures CeilDiv(n, b) == q
  {
    if q == 0 {
      DivIs(b - 1, b, 0, b - 1);
    } else {
      assert q * b == (q - 1) * b + b;
      DivIs(n + b - 1, b, q, n - (q - 1) * b - 1);
    }
  }

  lemma CeilDivBounds(n: nat, b: nat)
    requires b >= 1
    ensures n <= CeilDiv(n, b) * b && (CeilDiv(n, b) == 0 || (CeilDiv(n, b) - 1) * b < n)
    ensures n > 0 ==> CeilDiv(n, b) > 0
  {
    var q := CeilDiv(n, b);
    assert q * b + (n + b - 1) % b == n + b - 1;
    assert (q - 1) * b == q * b - b;
  }

  lemma Assoc(q: int, b: int, a: int)
    ensures q * b * a == q * (a * b)
  {
  }

  /** Pieces of pieces. */
  lemma CeilTwice(n: nat, a: nat, b: nat)
    requires a >= 1 && b >= 1
    ensures a * b >= 1 && CeilDiv(CeilDiv(n, a), b) == CeilDiv(n, a * b)
  {
    hide CeilDiv;
    var p := CeilDiv(n, a);
    var q := CeilDiv(p, b);
    CeilDivBounds(n, a);
    CeilDivBounds(p, b);
    MulMono(1, a, b);
    var ab, qb, qb' := a * b, q * b, (q - 1) * b;
    MulMono(p, qb, a);
    Assoc(q, b, a);
    Assoc(q - 1, b, a);
    if q > 0 { MulMono(qb', p - 1, a); }
    CeilDivIs(n, ab, q);
  }

  lemma CeilShrinks(n: nat, b: nat)
    requires n >= 2 && b >= 2
    ensures 1 <= CeilDiv(n, b) < n
  {
    hide CeilDiv;
    CeilDivBounds(n, b);
    MulMono(2, b, CeilDiv(n, b) - 1);
  }

  // ----- roots

  /** The library power function. */
  type Power = (real, real) -> real

  ghost function Raised(x: real, n: nat): real { if n == 0 then 1.0 else x * Raised(x, n - 1) }

  ghost predicate RootIs(pow: Power, x: real, n: nat)
    requires n >= 1
  {
    pow(x, 1.0 / n as real) >= 0.0 && Raised(pow(x, 1.0 / n as real), n) == x
  }

  /** The power 1/n is the n-th root. */
  ghost predicate TakesRoots(pow: Power) {
    forall x: real, n: nat :: x >= 0.0 && n >= 1 ==> RootIs(pow, x, n)
  }

  function Ceil(x: real): int { -(-x).Floor }

  /** The n-th root, rounded up. */
  function RootUp(pow: Power, p: nat, n: nat): int
    requires n >= 1
  {
    Ceil(pow(p as real, 1.0 / n as real))
  }

  /** `s` raised to `n` reaches `p`, and less does not. */
  ghost predicate LeastRoot(s: int, n: nat, p: nat) {
    0 <= s && p as real <= Raised(s as real, n) && (s > 0 ==> Raised((s - 1) as real, n) < p as real)
  }

  lemma {:induction false} RaisedMono(a: real, b: real, n: nat)
    requires 0.0 <= a <= b
    ensures 0.0 <= Raised(a, n) <= Raised(b, n)
    ensures n >= 1 && a < b ==> Raised(a, n) < Raised(b, n)
  {
    if n >= 1 {
      var x, y, d := Raised(a, n - 1), Raised(b, n - 1), b - a;
      RaisedMono(a, b, n - 1);
      Products(a, b, x, y);
      if a < b {
        RaisedPos(b, n - 1);
        StrictProducts(a, b, x, y);
      }
    }
  }

  lemma {:induction false} RaisedPos(b: real, n: nat)
    requires b > 0.0
    ensures Raised(b, n) > 0.0
  {
    if n >= 1 { RaisedPos(b, n - 1); }
  }

  lemma Products(a: real, b: real, x: real, y: real)
    requires 0.0 <= a <= b && 0.0 <= x <= y
    ensures 0.0 <= a * x <= b * y
  {
    assert b * y - a * x == (b - a) * y + a * (y - x);
  }

  lemma StrictProducts(a: real, b: real, x: real, y: real)
    requires 0.0 <= a < b && 0.0 <= x <= y && y > 0.0
    ensures a * x < b * y
  {
    var d, e := b - a, y - x;
    assert d * y > 0.0 && a * e >= 0.0;
    assert b * y - a * x == d * y + a * e;
  }

  /** Rounding up the root gives the least whole number that reaches `p`. */
  lemma RootUpIsLeast(pow: Power, p: nat, n: nat)
    requires TakesRoots(pow) && n >= 1
    ensures LeastRoot(RootUp(pow, p, n), n, p) && (p >= 1 ==> RootUp(pow, p, n) >= 1)
  {
    var root, s := pow(p as real, 1.0 / n as real), RootUp(pow, p, n);
    assert RootIs(pow, p as real, n);
    assert s as real - 1.0 < root <= s as real;
    RaisedMono(root, s as real, n);
    if s > 0 { RaisedMono((s - 1) as real, root, n); }
    if p >= 1 && s == 0 { RaisedZero(n); }
  }

  lemma RaisedZero(n: nat)
    requires n >= 1
    ensures Raised(0.0, n) == 0.0
  {
  }
}
