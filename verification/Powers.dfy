/** Powers of two, and division by them. */
module Powers {

  function Pow2(n: nat): (r: nat)
    ensures r > 0
  {
    if n == 0 then 1 else 2 * Pow2(n - 1)
  }

  lemma {:induction false} Pow2Add(m: nat, n: nat)
    ensures Pow2(m + n) == Pow2(m) * Pow2(n)
  {
    if m > 0 { Pow2Add(m - 1, n); }
  }

  lemma {:induction false} Pow2Monotone(m: nat, n: nat)
    requires m <= n
    ensures Pow2(m) <= Pow2(n)
  {
    if m < n { Pow2Monotone(m, n - 1); }
  }

  lemma {:induction false} Pow2Exceeds(n: nat)
    ensures n < Pow2(n)
  {
    if n > 0 { Pow2Exceeds(n - 1); }
  }

  lemma MulMono(w: int, a: int, b: int)
    requires w >= 0 && a <= b
    ensures w * a <= w * b
  {}

  lemma MulLess(w: nat, a: int, b: int)
    requires w * a < w * b
    ensures a < b
  {
    if a >= b { MulMono(w, b, a); }
  }

  /** Quotient and remainder are determined by their defining equation. */
  lemma DivModUnique(x: int, d: int, q: int, r: int)
    requires d > 0 && x == q * d + r && 0 <= r < d
    ensures x / d == q && x % d == r
  {
    var e := x / d - q;
    assert x == (x / d) * d + x % d;
    assert e * d == r - x % d;
    if e >= 1 { MulMono(d, 1, e); } else if e <= -1 { MulMono(d, e, -1); }
  }

  function Quotient(x: nat, d: nat): nat
    requires d > 0
  { x / d }

  lemma DivModFacts(x: nat, d: nat)
    requires d > 0
    ensures x == d * Quotient(x, d) + x % d && 0 <= x % d < d
  {}

  lemma Nested(x: int, a: int, b: int, y: int, r: int, q: int, s: int)
    requires x == a * y + r && 0 <= r < a
    requires y == b * q + s && 0 <= s < b
    ensures x == q * (a * b) + (r + a * s)
    ensures 0 <= r + a * s < a * b
  {
    assert a * (b * q + s) == q * (a * b) + a * s;
    assert a * s >= 0;
    assert a * (b - 1 - s) >= 0;
    assert a * (b - 1 - s) == a * b - a - a * s;
  }

  lemma DivDiv(x: nat, a: nat, b: nat)
    requires a > 0 && b > 0
    ensures a * b > 0 && x / (a * b) == (x / a) / b
    ensures x % (a * b) == x % a + a * ((x / a) % b)
  {
    var y := x / a;
    Nested(x, a, b, y, x % a, y / b, y % b);
    DivModUnique(x, a * b, y / b, x % a + a * (y % b));
  }

  lemma DivSmall(x: nat, d: nat)
    requires x < d
    ensures x / d == 0 && x % d == x
  { DivModUnique(x, d, 0, x); }
}
