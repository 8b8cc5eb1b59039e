/** Lagrange coefficients at zero, and the moments that make interpolation work. */
module Lagrange {
  import opened Scalars
  import opened Points
  import opened Sums

  // The coefficient over a list of participants, as computed

  ghost function Numerator(i: Participant, included: seq<Participant>): int {
    if included == [] then 1
    else
      var l := included[|included| - 1];
      Numerator(i, included[..|included| - 1]) * (if l == i then 1 else l)
  }

  ghost function Denominator(i: Participant, included: seq<Participant>): int {
    if included == [] then 1
    else
      var l := included[|included| - 1];
      Denominator(i, included[..|included| - 1]) * (if l == i then 1 else l - i)
  }

  lemma {:induction false} DenominatorNonZero(i: Participant, included: seq<Participant>)
    ensures !Cong(Denominator(i, included), 0)
  {
    OneIsNotZero();
    if included == [] {
    } else {
      var l, rest := included[|included| - 1], included[..|included| - 1];
      DenominatorNonZero(i, rest);
      if l != i {
        Injective(l, i);
        if Cong(Denominator(i, included), 0) { ZeroProduct(Denominator(i, rest), l - i); }
      }
    }
  }

  /** `r` is num / den. */
  ghost predicate IsQuotient(r: Scalar, num: int, den: int) {
    Cong(r * den, num)
  }

  lemma QuotientOf(num: int, den: int, v: Scalar)
    requires Cong(Residue(den) * v, 1)
    ensures IsQuotient(FMul(Residue(num), v), num, den)
  {
    var n, d := Residue(num), Residue(den);
    CongResidue(num);
    CongResidue(den);
    FMulCong(n, v);
    CongMul(FMul(n, v), n * v, den, d);
    CongMul(n, num, d * v, 1);
    assert n * v * d == n * (d * v);
  }

  lemma QuotientExists(num: int, den: int)
    requires !Cong(den, 0)
    ensures exists r: Scalar :: IsQuotient(r, num, den)
  {
    CongResidue(den);
    QuotientOf(num, den, FInv(Residue(den)));
  }

  lemma QuotientUnique(r: Scalar, t: Scalar, num: int, den: int)
    requires !Cong(den, 0) && IsQuotient(r, num, den) && IsQuotient(t, num, den)
    ensures r == t
  {
    assert r * den == den * r && t * den == den * t;
    CongCancel(den, r, t);
    CongReduced(r, t);
  }

  /** Coefficients over lists, whose definition is only used where `CoefficientAt` is mentioned. */
  predicate CoefficientAt(i: Participant, included: seq<Participant>) { true }

  ghost predicate IsCoefficient(f: (Participant, seq<Participant>) -> Scalar) {
    forall i, included {:trigger CoefficientAt(i, included)} :: CoefficientAt(i, included) ==>
      IsQuotient(f(i, included), Numerator(i, included), Denominator(i, included))
  }

  ghost function SomeCoefficient(i: Participant, included: seq<Participant>): (r: Scalar)
    ensures IsQuotient(r, Numerator(i, included), Denominator(i, included))
  {
    DenominatorNonZero(i, included);
    QuotientExists(Numerator(i, included), Denominator(i, included));
    var r: Scalar :| IsQuotient(r, Numerator(i, included), Denominator(i, included));
    r
  }

  type CoefficientMap = f: (Participant, seq<Participant>) -> Scalar | IsCoefficient(f)
    ghost witness (i: Participant, included: seq<Participant>) => SomeCoefficient(i, included)

  /** The coefficient of `i` for the list `included`: the numerator over the denominator, which is
      never zero. */
  ghost const Coefficient: CoefficientMap

  lemma CoefficientIs(i: Participant, included: seq<Participant>)
    ensures IsQuotient(Coefficient(i, included), Numerator(i, included), Denominator(i, included))
  {
    assert CoefficientAt(i, included);
  }

  /** A non-zero factor cancels. */
  lemma CongCancel(d: int, a: int, b: int)
    requires !Cong(d, 0) && Cong(d * a, d * b)
    ensures Cong(a, b)
  {
    var k := CongElim(d * a, d * b);
    assert d * (a - b) == d * a - d * b;
    CongIntro(d * (a - b), 0, k);
    ZeroProduct(d, a - b);
    CongAdd(a - b, 0, b, b);
  }

  method Invert(a: Scalar) returns (r: Scalar)
    requires a != 0
    ensures Cong(a * r, 1)
  {
    InverseExists(a);
    r :| IsInverse(a, r);
    InverseIs(a, r);
  }

  /** Calculate the Lagrange coefficient for a signing set. */
  method LagrangeCoefficient(i: Participant, included: seq<Participant>) returns (r: Scalar)
    ensures r == Coefficient(i, included)
  {
    var num: Scalar, denom: Scalar := 1, 1;
    ResidueReduced(1);
    for k := 0 to |included|
      invariant num == Residue(Numerator(i, included[..k]))
      invariant denom == Residue(Denominator(i, included[..k]))
    {
      var l := included[k];
      assert included[..k + 1][..k] == included[..k];
      if i != l {
        ProductStep(Numerator(i, included[..k]), l, num, l);
        FSubCong(l, i);
        ProductStep(Denominator(i, included[..k]), l - i, denom, FSub(l, i));
        num := FMul(num, l);
        denom := FMul(denom, FSub(l, i));
      }
    }
    assert included[..|included|] == included;
    DenominatorNonZero(i, included);
    CongResidue(Denominator(i, included));
    var inverse := Invert(denom);
    QuotientOf(Numerator(i, included), Denominator(i, included), inverse);
    r := FMul(num, inverse);
    CoefficientIs(i, included);
    QuotientUnique(r, Coefficient(i, included), Numerator(i, included), Denominator(i, included));
  }

  lemma ProductStep(a: int, b: int, x: Scalar, y: Scalar)
    requires x == Residue(a) && Cong(y, b)
    ensures FMul(x, y) == Residue(a * b)
  {
    CongResidue(a);
    FMulCong(x, y);
    CongMul(x, a, y, b);
  }

  // The coefficient over a set, which is the same for every duplicate-free list of its members

  ghost function Indices(s: set<Participant>): map<Participant, int> {
    map l | l in s :: l
  }

  ghost function Differences(i: Participant, s: set<Participant>): map<Participant, int> {
    map l | l in s :: l - i
  }

  ghost predicate Distinct(s: seq<Participant>) {
    forall i, j :: 0 <= i < j < |s| ==> s[i] != s[j]
  }

  ghost function Members(s: seq<Participant>): set<Participant> {
    set l | l in s
  }

  /** The last element of a duplicate-free list is the only difference to the list without it. */
  lemma LastMember(s: seq<Participant>)
    requires Distinct(s) && s != []
    ensures Distinct(s[..|s| - 1]) && s[|s| - 1] in Members(s)
    ensures Members(s[..|s| - 1]) == Members(s) - {s[|s| - 1]}
  {
    var l, rest := s[|s| - 1], s[..|s| - 1];
    assert s == rest + [l];
  }

  lemma Commute(a: int, b: int)
    ensures a * b == b * a
  {}

  lemma {:induction false} NumeratorOver(i: Participant, s: seq<Participant>)
    requires Distinct(s)
    ensures Numerator(i, s) == ProductMap(Indices(Members(s) - {i}))
  {
    if s == [] {
      assert Indices(Members(s) - {i}) == map[];
    } else {
      var l, rest := s[|s| - 1], s[..|s| - 1];
      LastMember(s);
      NumeratorOver(i, rest);
      if l == i {
        assert Members(rest) - {i} == Members(s) - {i};
      } else {
        ProductMapRemove(Indices(Members(s) - {i}), l);
        Commute(Numerator(i, rest), l);
        assert Indices(Members(s) - {i}) - {l} == Indices(Members(rest) - {i});
      }
    }
  }

  lemma {:induction false} DenominatorOver(i: Participant, s: seq<Participant>)
    requires Distinct(s)
    ensures Denominator(i, s) == ProductMap(Differences(i, Members(s) - {i}))
  {
    if s == [] {
      assert Differences(i, Members(s) - {i}) == map[];
    } else {
      var l, rest := s[|s| - 1], s[..|s| - 1];
      LastMember(s);
      DenominatorOver(i, rest);
      if l == i {
        assert Members(rest) - {i} == Members(s) - {i};
      } else {
        ProductMapRemove(Differences(i, Members(s) - {i}), l);
        Commute(Denominator(i, rest), l - i);
        assert Differences(i, Members(s) - {i}) - {l} == Differences(i, Members(rest) - {i});
      }
    }
  }

  lemma DifferencesNonZero(i: Participant, s: set<Participant>)
    requires i !in s
    ensures !Cong(ProductMap(Differences(i, s)), 0)
  {
    var d := Differences(i, s);
    forall k | k in d ensures !Cong(d[k], 0) { Injective(k, i); }
    ProductNonZero(d);
  }

  /** Coefficients over sets, whose definition is only used where `LambdaAt` is mentioned. */
  predicate LambdaAt(i: Participant, s: set<Participant>) { true }

  ghost predicate IsLambda(f: (Participant, set<Participant>) -> Scalar) {
    forall i, s {:trigger LambdaAt(i, s)} :: LambdaAt(i, s) ==>
      IsQuotient(f(i, s), ProductMap(Indices(s - {i})), ProductMap(Differences(i, s - {i})))
  }

  ghost function SomeLambda(i: Participant, s: set<Participant>): (r: Scalar)
    ensures IsQuotient(r, ProductMap(Indices(s - {i})), ProductMap(Differences(i, s - {i})))
  {
    DifferencesNonZero(i, s - {i});
    QuotientExists(ProductMap(Indices(s - {i})), ProductMap(Differences(i, s - {i})));
    var r: Scalar :| IsQuotient(r, ProductMap(Indices(s - {i})), ProductMap(Differences(i, s - {i})));
    r
  }

  type LambdaMap = f: (Participant, set<Participant>) -> Scalar | IsLambda(f)
    ghost witness (i: Participant, s: set<Participant>) => SomeLambda(i, s)

  /** The coefficient of `i` over the set `s`. */
  ghost const Lambda: LambdaMap

  lemma LambdaIs(i: Participant, s: set<Participant>)
    ensures IsQuotient(Lambda(i, s), ProductMap(Indices(s - {i})), ProductMap(Differences(i, s - {i})))
  {
    assert LambdaAt(i, s);
  }

  lemma CoefficientIsLambda(i: Participant, s: seq<Participant>)
    requires Distinct(s)
    ensures Coefficient(i, s) == Lambda(i, Members(s))
  {
    NumeratorOver(i, s);
    DenominatorOver(i, s);
    DenominatorNonZero(i, s);
    LambdaIs(i, Members(s));
    CoefficientIs(i, s);
    QuotientUnique(Coefficient(i, s), Lambda(i, Members(s)), Numerator(i, s), Denominator(i, s));
  }

  lemma LambdaAlone(i: Participant)
    ensures Lambda(i, {i}) == 1
  {
    assert {i} - {i} == {};
    assert Indices({}) == map[] && Differences(i, {}) == map[];
    LambdaIs(i, {i});
    CongReduced(Lambda(i, {i}), 1);
  }

  /** Leaving out `a` divides the coefficient of `i` by a / (a - i). */
  lemma LambdaRemove(i: Participant, a: Participant, s: set<Participant>)
    requires i in s && a in s && i != a
    ensures Cong(Lambda(i, s) * (a - i), a * Lambda(i, s - {a}))
  {
    var r := s - {a};
    var n, d := Indices(s - {i}), Differences(i, s - {i});
    assert n - {a} == Indices(r - {i}) && d - {a} == Differences(i, r - {i});
    ProductMapRemove(n, a);
    ProductMapRemove(d, a);
    DifferencesNonZero(i, r - {i});
    LambdaIs(i, s);
    LambdaIs(i, r);
    CancelCommon(Lambda(i, s), Lambda(i, r), ProductMap(Indices(r - {i})), ProductMap(Differences(i, r - {i})), a,
                 a - i);
  }

  lemma CancelCommon(x: int, y: int, n: int, d: int, a: int, e: int)
    requires Cong(x * (e * d), a * n) && Cong(y * d, n) && !Cong(d, 0)
    ensures Cong(x * e, a * y)
  {
    CongMul(a, a, y * d, n);
    assert x * (e * d) == d * (x * e);
    assert a * (y * d) == d * (a * y);
    CongCancel(d, x * e, a * y);
  }

  /** Every member's coefficient. */
  ghost function Weights(s: set<Participant>): (w: map<Participant, int>)
    ensures w.Keys == s
  {
    map i | i in s :: Lambda(i, s)
  }

  /** `v` holds the coefficients of `w` once `a` is left out. */
  ghost predicate Reweighted(w: map<Participant, int>, a: Participant, v: map<Participant, int>) {
    && a in w && v.Keys == w.Keys - {a}
    && forall i :: i in v ==> Cong(w[i] * (a - i), a * v[i])
  }

  lemma WeightsRemove(s: set<Participant>, a: Participant)
    requires a in s
    ensures Reweighted(Weights(s), a, Weights(s - {a}))
  {
    var w, v := Weights(s), Weights(s - {a});
    forall i | i in v ensures Cong(w[i] * (a - i), a * v[i]) {
      WeightRemove(s, a, i);
    }
  }

  lemma WeightRemove(s: set<Participant>, a: Participant, i: Participant)
    requires a in s && i in s && i != a
    ensures Cong(Weights(s)[i] * (a - i), a * Weights(s - {a})[i])
  {
    LambdaRemove(i, a, s);
  }

  // Moments: the sum of weight times i^k

  ghost function Pow(x: int, k: nat): int {
    if k == 0 then 1 else x * Pow(x, k - 1)
  }

  ghost function MomentTerms(w: map<Participant, int>, k: nat): map<Participant, int> {
    map i | i in w :: w[i] * Pow(i, k)
  }

  ghost function Moment(w: map<Participant, int>, k: nat): int {
    SumMap(MomentTerms(w, k))
  }

  ghost function ShiftedTerms(w: map<Participant, int>, k: nat, a: Participant): map<Participant, int> {
    map i | i in w :: w[i] * ((i - a) * Pow(i, k))
  }

  /** The sum of weight times (i - a) * i^k is -a times the moment without `a`. */
  lemma ShiftedMoment(w: map<Participant, int>, k: nat, a: Participant, v: map<Participant, int>)
    requires Reweighted(w, a, v)
    ensures Cong(SumMap(ShiftedTerms(w, k, a)), (0 - a) * Moment(v, k))
  {
    SumMapRemove(ShiftedTerms(w, k, a), a);
    ZeroTerm(w[a], a - a, Pow(a, k));
    ShiftedRest(w, k, a, v);
    SumMapScaled(0 - a, MomentTerms(v, k), ShiftedTerms(w, k, a) - {a});
  }

  lemma ShiftedRest(w: map<Participant, int>, k: nat, a: Participant, v: map<Participant, int>)
    requires Reweighted(w, a, v)
    ensures (ShiftedTerms(w, k, a) - {a}).Keys == MomentTerms(v, k).Keys
    ensures forall i :: i in ShiftedTerms(w, k, a) - {a} ==>
              Cong((ShiftedTerms(w, k, a) - {a})[i], (0 - a) * MomentTerms(v, k)[i])
  {
    forall i | i in ShiftedTerms(w, k, a) - {a}
      ensures Cong((ShiftedTerms(w, k, a) - {a})[i], (0 - a) * MomentTerms(v, k)[i])
    {
      NegateTerm(w[i], v[i], i, a, Pow(i, k));
    }
  }

  lemma ZeroTerm(x: int, z: int, y: int)
    requires z == 0
    ensures x * (z * y) == 0
  {}

  lemma NegateTerm(x: int, y: int, i: int, a: int, p: int)
    requires Cong(x * (a - i), a * y)
    ensures Cong(x * ((i - a) * p), (0 - a) * (y * p))
  {
    CongMul(x * (a - i), a * y, 0 - p, 0 - p);
    assert x * (a - i) * (0 - p) == x * ((i - a) * p);
    assert a * y * (0 - p) == (0 - a) * (y * p);
  }

  /** If the weights sum to one without `a`, and without `b`, they sum to one. */
  lemma MomentFromTwo(w: map<Participant, int>, a: Participant, v: map<Participant, int>, b: Participant,
                      u: map<Participant, int>)
    requires Reweighted(w, a, v) && Reweighted(w, b, u) && a != b
    requires Cong(Moment(v, 0), 1) && Cong(Moment(u, 0), 1)
    ensures Cong(Moment(w, 0), 1)
  {
    ShiftedMoment(w, 0, a, v);
    ShiftedMoment(w, 0, b, u);
    DifferenceOfShifts(w, a, b);
    TwoPoints(a, b, Moment(w, 0), SumMap(ShiftedTerms(w, 0, a)), SumMap(ShiftedTerms(w, 0, b)), Moment(v, 0),
              Moment(u, 0));
  }

  lemma DifferenceOfShifts(w: map<Participant, int>, a: Participant, b: Participant)
    ensures (a - b) * Moment(w, 0) == (0 - 1) * SumMap(ShiftedTerms(w, 0, a)) + 1 * SumMap(ShiftedTerms(w, 0, b))
  {
    var t, ta, tb := MomentTerms(w, 0), ShiftedTerms(w, 0, a), ShiftedTerms(w, 0, b);
    forall i | i in w ensures (a - b) * t[i] == (0 - 1) * ta[i] + 1 * tb[i] {
      Differ(w[i], i, a, b, Pow(i, 0));
    }
    SumMapLinear(0 - 1, ta, 1, tb, a - b, t);
  }

  lemma Differ(l: int, i: int, a: int, b: int, p: int)
    ensures (a - b) * (l * p) == (0 - 1) * (l * ((i - a) * p)) + 1 * (l * ((i - b) * p))
  {}

  lemma TwoPoints(a: Participant, b: Participant, m: int, sa: int, sb: int, ma: int, mb: int)
    requires a != b && (a - b) * m == (0 - 1) * sa + 1 * sb
    requires Cong(sa, (0 - a) * ma) && Cong(sb, (0 - b) * mb) && Cong(ma, 1) && Cong(mb, 1)
    ensures Cong(m, 1)
  {
    CongMul(0 - a, 0 - a, ma, 1);
    CongMul(0 - b, 0 - b, mb, 1);
    CongMul(0 - 1, 0 - 1, sa, 0 - a);
    CongAdd((0 - 1) * sa, a, sb, 0 - b);
    Injective(a, b);
    CongCancel(a - b, m, 1);
  }

  lemma MomentStep(w: map<Participant, int>, k: nat, a: Participant, v: map<Participant, int>)
    requires k > 0 && Reweighted(w, a, v) && Cong(Moment(w, k - 1), Moment(v, k - 1))
    ensures Cong(Moment(w, k), 0)
  {
    SplitPower(w, k, a);
    ShiftedMoment(w, k - 1, a, v);
    Cancelling(a, Moment(w, k - 1), Moment(v, k - 1), SumMap(ShiftedTerms(w, k - 1, a)));
  }

  /** i^k == a * i^(k-1) + (i - a) * i^(k-1) */
  lemma SplitPower(w: map<Participant, int>, k: nat, a: Participant)
    requires k > 0
    ensures Moment(w, k) == a * Moment(w, k - 1) + SumMap(ShiftedTerms(w, k - 1, a))
  {
    var t, low, shifted := MomentTerms(w, k), MomentTerms(w, k - 1), ShiftedTerms(w, k - 1, a);
    forall i | i in w ensures 1 * t[i] == a * low[i] + 1 * shifted[i] {
      Split(w[i], i, a, Pow(i, k - 1));
    }
    SumMapLinear(a, low, 1, shifted, 1, t);
  }

  lemma Split(l: int, i: int, a: int, p: int)
    ensures l * (i * p) == a * (l * p) + l * ((i - a) * p)
  {}

  lemma Cancelling(a: int, m: int, n: int, s: int)
    requires Cong(m, n) && Cong(s, (0 - a) * n)
    ensures Cong(a * m + s, 0)
  {
    CongMul(a, a, m, n);
    CongAdd(a * m, a * n, s, (0 - a) * n);
    assert a * n + (0 - a) * n == 0;
  }

  /** The coefficients sum to one. */
  lemma {:induction false} MomentZero(s: set<Participant>)
    requires s != {}
    ensures Cong(Moment(Weights(s), 0), 1)
    decreases |s|
  {
    var a :| a in s;
    if s == {a} {
      MomentAlone(a);
    } else {
      assert s - {a} != {};
      var b :| b in s - {a};
      MomentZero(s - {a});
      MomentZero(s - {b});
      WeightsRemove(s, a);
      WeightsRemove(s, b);
      MomentFromTwo(Weights(s), a, Weights(s - {a}), b, Weights(s - {b}));
    }
  }

  lemma MomentAlone(a: Participant)
    ensures Moment(Weights({a}), 0) == 1
  {
    var t := MomentTerms(Weights({a}), 0);
    SumMapRemove(t, a);
    LambdaAlone(a);
    assert t - {a} == map[];
  }

  /** Every higher moment below the size of the set vanishes. */
  lemma {:induction false} MomentHigher(s: set<Participant>, k: nat)
    requires 0 < k < |s|
    ensures Cong(Moment(Weights(s), k), 0)
    decreases k
  {
    var a :| a in s;
    var r := s - {a};
    assert |r| == |s| - 1;
    if k == 1 {
      MomentZero(s);
      MomentZero(r);
    } else {
      MomentHigher(s, k - 1);
      MomentHigher(r, k - 1);
    }
    WeightsRemove(s, a);
    MomentStep(Weights(s), k, a, Weights(r));
  }

  // Interpolation

  ghost function PolyFold(c: seq<int>, x: int): int {
    if c == [] then 0 else PolyFold(c[..|c| - 1], x) + c[|c| - 1] * Pow(x, |c| - 1)
  }

  predicate PolyAt(c: seq<int>, x: int) { true }

  ghost predicate IsPoly(f: (seq<int>, int) -> int) {
    forall c, x {:trigger PolyAt(c, x)} :: PolyAt(c, x) ==>
      f(c, x) == if c == [] then 0 else f(c[..|c| - 1], x) + c[|c| - 1] * Pow(x, |c| - 1)
  }

  type PolyType = f: (seq<int>, int) -> int | IsPoly(f) ghost witness PolyFold

  /** The value at `x` of the polynomial with the given coefficients, lowest first. It is unfolded only by `PolyIs`. */
  ghost const Poly: PolyType

  lemma PolyIs(c: seq<int>, x: int)
    ensures Poly(c, x) == if c == [] then 0 else Poly(c[..|c| - 1], x) + c[|c| - 1] * Pow(x, |c| - 1)
  {
    assert PolyAt(c, x);
  }

  ghost function WeightedValues(w: map<Participant, int>, c: seq<int>): map<Participant, int> {
    map i | i in w :: w[i] * Poly(c, i)
  }

  lemma {:induction false} ValuesFromMoments(w: map<Participant, int>, c: seq<int>)
    requires forall k :: 0 <= k < |c| ==> Cong(Moment(w, k), if k == 0 then 1 else 0)
    ensures Cong(SumMap(WeightedValues(w, c)), if c == [] then 0 else c[0])
  {
    if c == [] {
      forall i | i in w ensures WeightedValues(w, c)[i] == 0 { PolyIs(c, i); }
      SumMapLinear(0, WeightedValues(w, c), 0, WeightedValues(w, c), 1, WeightedValues(w, c));
    } else {
      var n := |c| - 1;
      ValuesFromMoments(w, c[..n]);
      LastCoefficient(w, c);
      var e, low := if n == 0 then 1 else 0, if n == 0 then 0 else c[0];
      CongMul(c[n], c[n], Moment(w, n), e);
      CongAdd(SumMap(WeightedValues(w, c[..n])), low, c[n] * Moment(w, n), c[n] * e);
    }
  }

  lemma LastCoefficient(w: map<Participant, int>, c: seq<int>)
    requires c != []
    ensures SumMap(WeightedValues(w, c)) == SumMap(WeightedValues(w, c[..|c| - 1])) + c[|c| - 1] * Moment(w, |c| - 1)
  {
    var n := |c| - 1;
    var x, v, t := WeightedValues(w, c), WeightedValues(w, c[..n]), MomentTerms(w, n);
    forall i | i in w ensures 1 * x[i] == 1 * v[i] + c[n] * t[i] {
      PolyIs(c, i);
      AddTerm(w[i], Poly(c[..n], i), c[n], Pow(i, n));
    }
    SumMapLinear(1, v, c[n], t, 1, x);
  }

  lemma AddTerm(l: int, p: int, c: int, x: int)
    ensures l * (p + c * x) == l * p + c * (l * x)
  {}

  lemma Moments(s: set<Participant>, n: nat)
    requires n <= |s|
    ensures forall k :: 0 <= k < n ==> Cong(Moment(Weights(s), k), if k == 0 then 1 else 0)
  {
    forall k | 0 <= k < n ensures Cong(Moment(Weights(s), k), if k == 0 then 1 else 0) {
      if k == 0 { MomentZero(s); } else { MomentHigher(s, k); }
    }
  }

  /** Any polynomial of degree below the size of a signing set is recovered at zero from its values
      at the set's members. */
  lemma Interpolate(s: set<Participant>, c: seq<int>)
    requires |c| <= |s|
    ensures Cong(SumMap(WeightedValues(Weights(s), c)), if c == [] then 0 else c[0])
  {
    Moments(s, |c|);
    ValuesFromMoments(Weights(s), c);
  }

  ghost function PolyPointFold(c: seq<Point>, x: int): Point {
    if c == [] then Identity else Plus(PolyPointFold(c[..|c| - 1], x), Scale(Pow(x, |c| - 1), c[|c| - 1]))
  }

  predicate PolyPointAt(c: seq<Point>, x: int) { true }

  ghost predicate IsPolyPoint(f: (seq<Point>, int) -> Point) {
    forall c, x {:trigger PolyPointAt(c, x)} :: PolyPointAt(c, x) ==>
      f(c, x) == if c == [] then Identity else Plus(f(c[..|c| - 1], x), Scale(Pow(x, |c| - 1), c[|c| - 1]))
  }

  type PolyPointType = f: (seq<Point>, int) -> Point | IsPolyPoint(f) ghost witness PolyPointFold

  /** The value at `x` of the polynomial whose coefficients are committed to by `c`. It is unfolded only by
      `PolyPointIs`. */
  ghost const PolyPoint: PolyPointType

  lemma PolyPointIs(c: seq<Point>, x: int)
    ensures PolyPoint(c, x) ==
              if c == [] then Identity
              else Plus(PolyPoint(c[..|c| - 1], x), Scale(Pow(x, |c| - 1), c[|c| - 1]))
  {
    assert PolyPointAt(c, x);
  }

  ghost function WeightedPoints(w: map<Participant, int>, c: seq<Point>): map<Participant, Point> {
    map i | i in w :: Scale(w[i], PolyPoint(c, i))
  }

  lemma WeightedNothing(w: map<Participant, int>)
    ensures PointSum(WeightedPoints(w, [])) == Identity
  {
    var x := WeightedPoints(w, []);
    forall i | i in w ensures x[i] == Scale(0, x[i]) {
      PolyPointIs([], i);
      ScaleIdentity(w[i]);
      ScaleIdentity(0);
    }
    PointSumScale(x, 0, x);
    ScaleZeroOne(PointSum(x));
  }

  lemma LastCommitment(w: map<Participant, int>, c: seq<Point>)
    requires c != []
    ensures PointSum(WeightedPoints(w, c))
         == Plus(PointSum(WeightedPoints(w, c[..|c| - 1])), Scale(Moment(w, |c| - 1), c[|c| - 1]))
  {
    var n := |c| - 1;
    var x, v, t := WeightedPoints(w, c), WeightedPoints(w, c[..n]), MomentTerms(w, n);
    var u := map i | i in w :: Scale(t[i], c[n]);
    forall i | i in w ensures x[i] == Plus(v[i], u[i]) {
      PolyPointIs(c, i);
      ScalePlus(w[i], PolyPoint(c[..n], i), Scale(Pow(i, n), c[n]));
      ScaleMul(w[i], Pow(i, n), c[n]);
    }
    PointSumPlus(v, u, x);
    PointSumOfMultiples(t, c[n], u);
  }

  lemma {:induction false} PointsFromMoments(w: map<Participant, int>, c: seq<Point>)
    requires forall k :: 0 <= k < |c| ==> Cong(Moment(w, k), if k == 0 then 1 else 0)
    ensures PointSum(WeightedPoints(w, c)) == if c == [] then Identity else c[0]
  {
    if c == [] {
      WeightedNothing(w);
    } else {
      var n := |c| - 1;
      PointsFromMoments(w, c[..n]);
      LastCommitment(w, c);
      ScaleCong(Moment(w, n), if n == 0 then 1 else 0, c[n]);
      ScaleZeroOne(c[n]);
      PlusLaws(c[0], Identity, Identity);
    }
  }

  /** Interpolation in the exponent: from the committed polynomial's values, its value at zero. */
  lemma InterpolatePoints(s: set<Participant>, c: seq<Point>)
    requires |c| <= |s|
    ensures PointSum(WeightedPoints(Weights(s), c)) == if c == [] then Identity else c[0]
  {
    Moments(s, |c|);
    PointsFromMoments(Weights(s), c);
  }
}
