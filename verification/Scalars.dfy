/** The scalar field of a ciphersuite: the residues of an unspecified prime above 65535, so every
    statement holds for each such prime.

    Code works on reduced residues (`FAdd`, `FMul`, ...); proofs work on integers up to `Cong`, which
    leaves ring identities to integer arithmetic. */
module Scalars {

  predicate IsPrime(n: nat) {
    n >= 2 && forall d :: 2 <= d < n ==> n % d != 0
  }

  /** The order of the group. Participants are non-zero 16-bit integers, so distinct participants
      are distinct scalars. */
  type Modulus = q: nat | q > 65535 && IsPrime(q) witness (FermatPrime(); 65537)

  const Q: Modulus

  type Scalar = x: nat | x < Q

  /** None of d, ..., d + 7 divides n. */
  predicate NoDivisor(n: nat, d: nat)
    requires d > 0
  {
    && n % d != 0 && n % (d + 1) != 0 && n % (d + 2) != 0 && n % (d + 3) != 0
    && n % (d + 4) != 0 && n % (d + 5) != 0 && n % (d + 6) != 0 && n % (d + 7) != 0
  }

  lemma NoDivisorAt(n: nat, d: nat, e: nat)
    requires 0 < d <= e < d + 8 && NoDivisor(n, d)
    ensures n % e != 0
  {
    assert e == d || e == d + 1 || e == d + 2 || e == d + 3 || e == d + 4 || e == d + 5 || e == d + 6 || e == d + 7;
  }

  lemma TrialDivision(k: nat)
    requires k < 32
    ensures NoDivisor(65537, 2 + 8 * k)
  {
    match k {
      case 0 => assert NoDivisor(65537, 2);
      case 1 => assert NoDivisor(65537, 10);
      case 2 => assert NoDivisor(65537, 18);
      case 3 => assert NoDivisor(65537, 26);
      case 4 => assert NoDivisor(65537, 34);
      case 5 => assert NoDivisor(65537, 42);
      case 6 => assert NoDivisor(65537, 50);
      case 7 => assert NoDivisor(65537, 58);
      case 8 => assert NoDivisor(65537, 66);
      case 9 => assert NoDivisor(65537, 74);
      case 10 => assert NoDivisor(65537, 82);
      case 11 => assert NoDivisor(65537, 90);
      case 12 => assert NoDivisor(65537, 98);
      case 13 => assert NoDivisor(65537, 106);
      case 14 => assert NoDivisor(65537, 114);
      case 15 => assert NoDivisor(65537, 122);
      case 16 => assert NoDivisor(65537, 130);
      case 17 => assert NoDivisor(65537, 138);
      case 18 => assert NoDivisor(65537, 146);
      case 19 => assert NoDivisor(65537, 154);
      case 20 => assert NoDivisor(65537, 162);
      case 21 => assert NoDivisor(65537, 170);
      case 22 => assert NoDivisor(65537, 178);
      case 23 => assert NoDivisor(65537, 186);
      case 24 => assert NoDivisor(65537, 194);
      case 25 => assert NoDivisor(65537, 202);
      case 26 => assert NoDivisor(65537, 210);
      case 27 => assert NoDivisor(65537, 218);
      case 28 => assert NoDivisor(65537, 226);
      case 29 => assert NoDivisor(65537, 234);
      case 30 => assert NoDivisor(65537, 242);
      case 31 => assert NoDivisor(65537, 250);
    }
  }

  lemma FermatPrime()
    ensures IsPrime(65537)
  {
    forall d | 2 <= d < 65537 ensures 65537 % d != 0 {
      if d <= 256 {
        NotDividing(d);
      } else {
        NotDividingAbove(d);
      }
    }
  }

  lemma NotDividing(d: nat)
    requires 2 <= d <= 256
    ensures 65537 % d != 0
  {
    var k := (d - 2) / 8;
    TrialDivision(k);
    NoDivisorAt(65537, 2 + 8 * k, d);
  }

  lemma NotDividingAbove(d: nat)
    requires 256 < d < 65537
    ensures 65537 % d != 0
  {
    var e := 65537 / d;
    if 65537 % d == 0 {
      assert e * d == 65537;
      MultipleMod(e, d);
      NotDividing(e);
    }
  }

  // Congruence modulo Q

  /** A residue is only computed where `ResidueAt` is mentioned, so that a congruence stays an equality
      of two terms everywhere else. */
  predicate ResidueAt(a: int) { true }

  type ResidueMap = f: int -> Scalar | forall a {:trigger ResidueAt(a)} :: ResidueAt(a) ==> f(a) == a % Q
    witness (a: int) => (a % Q) as Scalar

  ghost const Residue: ResidueMap

  lemma ResidueIs(a: int)
    ensures Residue(a) == a % Q
  {
    assert ResidueAt(a);
  }

  ghost predicate Cong(a: int, b: int) {
    Residue(a) == Residue(b)
  }

  lemma MulBound(k: int)
    requires k != 0
    ensures k * Q >= Q || k * Q <= 0 - Q
  {
    if k >= 1 { assert (k - 1) * Q >= 0; } else { assert (-k - 1) * Q >= 0; }
  }

  lemma CongIntro(a: int, b: int, k: int)
    requires a == b + k * Q
    ensures Cong(a, b)
  {
    ResidueIs(a);
    ResidueIs(b);
    var d := a / Q - b / Q - k;
    assert a == (a / Q) * Q + a % Q && b == (b / Q) * Q + b % Q;
    assert b % Q - a % Q == d * Q;
    if d != 0 { MulBound(d); }
  }

  lemma CongElim(a: int, b: int) returns (k: int)
    requires Cong(a, b)
    ensures a == b + k * Q
  {
    ResidueIs(a);
    ResidueIs(b);
    k := a / Q - b / Q;
    assert a == (a / Q) * Q + a % Q && b == (b / Q) * Q + b % Q;
  }

  lemma CongMod(a: int)
    ensures 0 <= a % Q < Q && Residue(a) == a % Q && Cong(a % Q, a)
  {
    ResidueIs(a);
    assert a == (a / Q) * Q + a % Q;
    CongIntro(a % Q, a, -(a / Q));
  }

  lemma CongResidue(a: int)
    ensures Cong(Residue(a), a)
  {
    CongMod(a);
  }

  lemma ResidueReduced(a: Scalar)
    ensures Residue(a) == a
  {
    CongResidue(a);
    CongReduced(Residue(a), a);
  }

  lemma CongAdd(a: int, b: int, c: int, d: int)
    requires Cong(a, b) && Cong(c, d)
    ensures Cong(a + c, b + d)
  {
    var k := CongElim(a, b);
    var l := CongElim(c, d);
    CongIntro(a + c, b + d, k + l);
  }

  lemma ShiftedProduct(b: int, k: int, d: int, l: int, q: int)
    ensures (b + k * q) * (d + l * q) == b * d + (k * d + b * l + k * l * q) * q
  {}

  lemma CongMul(a: int, b: int, c: int, d: int)
    requires Cong(a, b) && Cong(c, d)
    ensures Cong(a * c, b * d)
  {
    var k := CongElim(a, b);
    var l := CongElim(c, d);
    ShiftedProduct(b, k, d, l, Q);
    CongIntro(a * c, b * d, k * d + b * l + k * l * Q);
  }

  /** Congruent reduced residues are equal. */
  lemma CongReduced(a: Scalar, b: Scalar)
    requires Cong(a, b)
    ensures a == b
  {
    var k := CongElim(a, b);
    if k != 0 { MulBound(k); }
  }

  // Field operations on reduced residues

  function FAdd(a: Scalar, b: Scalar): Scalar { (a + b) % Q }
  function FSub(a: Scalar, b: Scalar): Scalar { (a - b) % Q }
  function FMul(a: Scalar, b: Scalar): Scalar { (a * b) % Q }
  function FNeg(a: Scalar): Scalar { (0 - a) % Q }

  lemma FAddCong(a: Scalar, b: Scalar)
    ensures FAdd(a, b) == Residue(a + b) && Cong(FAdd(a, b), a + b)
  { CongMod(a + b); }

  lemma FSubCong(a: Scalar, b: Scalar)
    ensures FSub(a, b) == Residue(a - b) && Cong(FSub(a, b), a - b)
  { CongMod(a - b); }

  lemma FMulCong(a: Scalar, b: Scalar)
    ensures FMul(a, b) == Residue(a * b) && Cong(FMul(a, b), a * b)
  { CongMod(a * b); }

  lemma FNegCong(a: Scalar)
    ensures Cong(FNeg(a), 0 - a)
  { CongMod(0 - a); }

  /** Bezout: a common divisor of `a` and `b` that is an integer combination of them. */
  lemma {:induction false} Bezout(a: nat, b: nat) returns (g: nat, x: int, y: int)
    requires a > 0 || b > 0
    ensures g > 0 && g == a * x + b * y && Divides(g, a) && Divides(g, b)
    decreases b
  {
    if b == 0 {
      g, x, y := a, 1, 0;
      assert a == g * 1 && b == g * 0;
    } else {
      var q, m := a / b, a % b;
      assert a == b * q + m;
      var x', y';
      g, x', y' := Bezout(b, m);
      x, y := y', x' - q * y';
      assert g == a * x + b * y by {
        assert b * x' + m * y' == (b * q + m) * y' + b * (x' - q * y');
      }
      var c :| b == g * c;
      var d :| m == g * d;
      assert a == g * (c * q + d);
    }
  }

  ghost predicate Divides(g: nat, a: int) {
    exists c :: a == g * c
  }

  lemma CoprimeToPrime(a: nat, g: nat)
    requires 0 < a < Q && g > 0 && Divides(g, a) && Divides(g, Q)
    ensures g == 1
  {
    var c :| a == g * c;
    assert g <= a;
    if g >= 2 {
      var d :| Q == g * d;
      MultipleMod(g, d);
    }
  }

  lemma MultipleMod(g: nat, d: int)
    requires g > 0
    ensures (g * d) % g == 0
  {
    var e := d - (g * d) / g;
    assert (g * d) % g == g * e;
    if e >= 1 { assert g * e == g + g * (e - 1); }
    if e <= -1 { assert g * e == g * (e + 1) - g; }
  }

  lemma InverseExists(a: Scalar)
    requires a != 0
    ensures exists r: Scalar :: IsInverse(a, r)
  {
    var g, x, y := Bezout(a, Q);
    CoprimeToPrime(a, g);
    assert a * x == 1 + (0 - y) * Q;
    CongIntro(a * x, 1, 0 - y);
    var r := Residue(x);
    CongResidue(x);
    CongMul(a, a, r, x);
    InverseIs(a, r);
  }

  predicate IsInverse(a: Scalar, r: Scalar) {
    FMul(a, r) == 1
  }

  lemma InverseIs(a: Scalar, r: Scalar)
    ensures IsInverse(a, r) <==> Cong(a * r, 1)
  {
    FMulCong(a, r);
    ResidueReduced(1);
  }

  /** `invert().unwrap()`: defined for every non-zero scalar. */
  ghost function FInv(a: Scalar): (r: Scalar)
    requires a != 0
    ensures Cong(a * r, 1)
  {
    InverseExists(a);
    var r: Scalar :| IsInverse(a, r);
    InverseIs(a, r);
    r
  }

  /** A multiple of Q has a factor that is one. */
  lemma ZeroProduct(a: int, b: int)
    requires Cong(a * b, 0)
    ensures Cong(a, 0) || Cong(b, 0)
  {
    if !Cong(a, 0) {
      CongResidue(a);
      var r := FInv(Residue(a));
      CongMul(Residue(a), a, r, r);
      CongMul(a * r, 1, b, b);
      CongMul(a * b, 0, r, r);
      assert a * b * r == a * r * b;
    }
  }

  lemma OneIsNotZero()
    ensures !Cong(1, 0)
  {
    ResidueReduced(1);
    ResidueReduced(0);
  }

  lemma Injective(a: int, b: int)
    requires 0 <= a < Q && 0 <= b < Q && a != b
    ensures !Cong(a - b, 0)
  {
    if Cong(a - b, 0) {
      CongAdd(a - b, 0, b, b);
      CongReduced(a, b);
    }
  }
}
