/** Keys with an offset, and their view for a signing set: interpolated shares, with the offset given to
    the signer with the lowest index. */
module KeyView {
  import opened Wrappers
  import opened Scalars
  import opened Points
  import opened Sums
  import opened Lagrange
  import opened ThresholdKeys
  import opened Sequences

  datatype Keys = Keys(core: ThresholdCore, offset: Option<Scalar>)

  function CurrentOffset(keys: Keys): Scalar {
    match keys.offset case Some(offset) => offset case None => 0
  }

  /** Offsets accumulate. */
  function Offset(keys: Keys, offset: Scalar): (r: Keys)
    ensures r.core == keys.core && r.offset.Some?
    ensures Cong(CurrentOffset(r), CurrentOffset(keys) + offset)
  {
    FAddCong(offset, CurrentOffset(keys));
    keys.(offset := Some(FAdd(offset, CurrentOffset(keys))))
  }

  ghost function GroupKey(keys: Keys): Point {
    Plus(keys.core.groupKey, Scale(CurrentOffset(keys), Generator))
  }

  /** Without an offset the group key is the one generated. */
  lemma OffsetGroupKey(keys: Keys, offset: Scalar)
    ensures keys.offset.None? ==> GroupKey(keys) == keys.core.groupKey
    ensures GroupKey(Offset(keys, offset)) == Plus(GroupKey(keys), Scale(offset, Generator))
  {
    var c := CurrentOffset(keys);
    ScaleZeroOne(Generator);
    PlusLaws(keys.core.groupKey, Identity, Identity);
    FAddCong(offset, c);
    ScaleCong(FAdd(offset, c), c + offset, Generator);
    ScaleAdd(c, offset, Generator);
    PlusLaws(keys.core.groupKey, Scale(c, Generator), Scale(offset, Generator));
  }

  // Sorting the signing set

  function Index(p: Participant): nat { p }

  function Sort(s: seq<Participant>): (r: seq<Participant>)
    ensures multiset(r) == multiset(s) && |r| == |s|
  {
    SortBy(Index, s)
  }

  ghost predicate Sorted(s: seq<Participant>) {
    forall i, j :: 0 <= i < j < |s| ==> s[i] <= s[j]
  }

  lemma SortIsSorted(s: seq<Participant>)
    ensures Sorted(Sort(s))
  {
    SortSorted(Index, s);
    var r := Sort(s);
    forall i, j | 0 <= i < j < |r| ensures r[i] <= r[j] { assert Index(r[i]) <= Index(r[j]); }
  }

  lemma WithoutFirst(a: seq<Participant>)
    requires a != []
    ensures multiset(a[1..]) == multiset(a) - multiset{a[0]}
  {
    assert a == [a[0]] + a[1..];
  }

  lemma SameFirst(a: seq<Participant>, b: seq<Participant>)
    requires Sorted(a) && Sorted(b) && multiset(a) == multiset(b) && a != []
    ensures b != [] && a[0] == b[0]
  {
    assert a[0] in multiset(b);
    assert b[0] in multiset(a);
  }

  lemma SameRest(a: seq<Participant>, b: seq<Participant>)
    requires multiset(a) == multiset(b) && a != [] && b != [] && a[0] == b[0]
    ensures multiset(a[1..]) == multiset(b[1..])
  {
    WithoutFirst(a);
    WithoutFirst(b);
  }

  lemma NoneLeft(b: seq<Participant>)
    requires multiset(b) == multiset{}
    ensures b == []
  {
    assert |multiset(b)| == |b|;
  }

  /** Two sorted lists of the same participants are the same list. */
  lemma {:induction false} SortedUnique(a: seq<Participant>, b: seq<Participant>)
    requires Sorted(a) && Sorted(b) && multiset(a) == multiset(b)
    ensures a == b
  {
    if a == [] {
      NoneLeft(b);
    } else {
      SameFirst(a, b);
      SameRest(a, b);
      SortedUnique(a[1..], b[1..]);
      assert a == [a[0]] + a[1..] && b == [b[0]] + b[1..];
    }
  }

  // Views

  datatype View = View(
    offset: Scalar,
    groupKey: Point,
    included: seq<Participant>,
    secretShare: Scalar,
    originalVerificationShares: map<Participant, Point>,
    verificationShares: map<Participant, Point>)

  ghost function ViewSecret(keys: Keys, included: seq<Participant>): Scalar
    requires included != []
  {
    Residue(Coefficient(keys.core.params.i, included) * keys.core.secretShare
            + if included[0] == keys.core.params.i then CurrentOffset(keys) else 0)
  }

  ghost function ViewShare(keys: Keys, included: seq<Participant>, l: Participant): Point
    requires included != [] && l in keys.core.verificationShares
  {
    var share := Scale(Coefficient(l, included), keys.core.verificationShares[l]);
    if l == included[0] then Plus(share, Scale(CurrentOffset(keys), Generator)) else share
  }

  ghost function ViewOf(keys: Keys, included: seq<Participant>): View
    requires included != []
  {
    View(CurrentOffset(keys), GroupKey(keys), included, ViewSecret(keys, included), keys.core.verificationShares,
         map l | l in keys.core.verificationShares :: ViewShare(keys, included, l))
  }

  /** The loop applying each participant's coefficient to their verification share. */
  method ScaleShares(original: map<Participant, Point>, included: seq<Participant>)
    returns (shares: map<Participant, Point>)
    ensures shares == map l | l in original :: Scale(Coefficient(l, included), original[l])
  {
    shares := original;
    var left := original.Keys;
    while left != {}
      invariant left <= shares.Keys == original.Keys
      invariant forall l :: l in original && l in left ==> shares[l] == original[l]
      invariant forall l :: l in original && l !in left ==> shares[l] == Scale(Coefficient(l, included), original[l])
    {
      var l :| l in left;
      var factor := LagrangeCoefficient(l, included);
      var share := ScalePoint(factor, shares[l]);
      shares := shares[l := share];
      left := left - {l};
    }
  }

  lemma SecretWithOffset(coefficient: Scalar, x: Scalar, offset: Scalar)
    ensures FMul(coefficient, x) == Residue(coefficient * x)
    ensures FAdd(FMul(coefficient, x), offset) == Residue(coefficient * x + offset)
  {
    FMulCong(coefficient, x);
    FAddCong(FMul(coefficient, x), offset);
    CongAdd(FMul(coefficient, x), coefficient * x, offset, offset);
  }

  lemma SharesWithOffset(keys: Keys, included: seq<Participant>, scaled: map<Participant, Point>, shift: Point)
    requires included != [] && included[0] in keys.core.verificationShares
    requires shift == Scale(CurrentOffset(keys), Generator)
    requires scaled == map l | l in keys.core.verificationShares ::
                          Scale(Coefficient(l, included), keys.core.verificationShares[l])
    ensures scaled[included[0] := Plus(scaled[included[0]], shift)] == ViewOf(keys, included).verificationShares
  {}

  /** `ThresholdKeys::view`. The lowest index must be a participant of the keys, or looking its share up
      panics. */
  method ViewKeys(keys: Keys, signingSet: seq<Participant>) returns (r: Result<View, DkgError>)
    requires keys.core.params.Valid()
    requires keys.core.params.t <= |signingSet| <= keys.core.params.n ==>
              Sort(signingSet)[0] in keys.core.verificationShares
    ensures r.Ok? <==> keys.core.params.t <= |signingSet| <= keys.core.params.n
    ensures r.Ok? ==> r.value == ViewOf(keys, Sort(signingSet))
    ensures r.Err? ==> r.error == InvalidSigningSet
  {
    if |signingSet| < keys.core.params.t || keys.core.params.n < |signingSet| {
      return Err(InvalidSigningSet);
    }
    var included := Sort(signingSet);

    var coefficient := LagrangeCoefficient(keys.core.params.i, included);
    var secretShare := FMul(coefficient, keys.core.secretShare);

    var verificationShares := ScaleShares(keys.core.verificationShares, included);

    var offset := CurrentOffset(keys);
    SecretWithOffset(coefficient, keys.core.secretShare, offset);
    if included[0] == keys.core.params.i {
      secretShare := FAdd(secretShare, offset);
    }
    var shift := ScalePoint(offset, Generator);
    SharesWithOffset(keys, included, verificationShares, shift);
    verificationShares := verificationShares[included[0] := Plus(verificationShares[included[0]], shift)];

    var view := View(offset, Plus(keys.core.groupKey, shift), included, secretShare, keys.core.verificationShares,
                     verificationShares);
    r := Ok(view);
  }

  // What the views of a signing set add up to

  /** The keys held by a signing set: one group key, one map of verification shares each signer's secret
      matches, and one offset; the set's interpolated verification shares sum to the group key. */
  ghost predicate SigningKeys(keys: map<Participant, Keys>, shares: map<Participant, Point>, groupKey: Point,
                              offset: Scalar) {
    && keys.Keys != {} && keys.Keys <= shares.Keys
    && (forall i :: i in keys ==> HeldBy(keys[i], i, shares, groupKey, offset))
    && PointSum(Interpolated(keys.Keys, shares)) == groupKey
  }

  ghost predicate HeldBy(k: Keys, i: Participant, shares: map<Participant, Point>, groupKey: Point, offset: Scalar) {
    && k.core.params.i == i && k.core.verificationShares == shares && k.core.groupKey == groupKey
    && CurrentOffset(k) == offset
    && i in shares && shares[i] == Scale(k.core.secretShare, Generator)
  }

  /** The list every signer's view holds. */
  ghost predicate SigningList(included: seq<Participant>, s: set<Participant>) {
    included != [] && Distinct(included) && Members(included) == s
  }

  /** A signer's view share matches the verification share every view holds for them. */
  lemma ViewShareMatches(k: Keys, i: Participant, shares: map<Participant, Point>, groupKey: Point, offset: Scalar,
                         included: seq<Participant>)
    requires HeldBy(k, i, shares, groupKey, offset) && included != []
    ensures ViewShare(k, included, i) == Scale(ViewSecret(k, included), Generator)
  {
    var c: int, x: int := Coefficient(i, included), k.core.secretShare;
    var e: int := if included[0] == i then offset else 0;
    CongResidue(c * x + e);
    ScaleCong(ViewSecret(k, included), c * x + e, Generator);
    ScaleAdd(c * x, e, Generator);
    ScaleMul(c, x, Generator);
    ScaleZeroOne(Generator);
    PlusLaws(Scale(c * x, Generator), Identity, Identity);
  }

  lemma PointSumShift(m: map<Participant, Point>, k: Participant, p: Point)
    requires k in m
    ensures PointSum(m[k := Plus(m[k], p)]) == Plus(PointSum(m), p)
  {
    var n := m[k := Plus(m[k], p)];
    PointSumRemove(m, k);
    PointSumRemove(n, k);
    assert n - {k} == m - {k};
    var rest := PointSum(m - {k});
    PlusLaws(m[k], p, rest);
    PlusLaws(m[k], rest, p);
    PlusLaws(p, rest, rest);
  }

  ghost function ViewShares(k: Keys, included: seq<Participant>, s: set<Participant>): map<Participant, Point>
    requires included != [] && s <= k.core.verificationShares.Keys
  {
    map i | i in s :: ViewShare(k, included, i)
  }

  /** The view's verification shares of the signing set sum to the offset group key. */
  lemma ViewSharesSum(k: Keys, included: seq<Participant>, s: set<Participant>)
    requires s <= k.core.verificationShares.Keys && SigningList(included, s)
    requires PointSum(Interpolated(s, k.core.verificationShares)) == k.core.groupKey
    ensures PointSum(ViewShares(k, included, s)) == GroupKey(k)
  {
    var plain, low, g := Interpolated(s, k.core.verificationShares), included[0], Scale(CurrentOffset(k), Generator);
    assert low in s;
    PointSumShift(plain, low, g);
    forall i | i in s ensures ViewShares(k, included, s)[i] == plain[low := Plus(plain[low], g)][i] {
      CoefficientIsLambda(i, included);
    }
    assert ViewShares(k, included, s) == plain[low := Plus(plain[low], g)];
  }

  ghost function ViewSecrets(keys: map<Participant, Keys>, included: seq<Participant>): map<Participant, int>
    requires included != []
  {
    map i | i in keys :: ViewSecret(keys[i], included)
  }

  /** The view's secret shares of the signing set sum, in the exponent, to the offset group key. */
  lemma ViewSecretsExponent(keys: map<Participant, Keys>, shares: map<Participant, Point>, groupKey: Point,
                            offset: Scalar, included: seq<Participant>)
    requires SigningKeys(keys, shares, groupKey, offset) && SigningList(included, keys.Keys)
    ensures Scale(SumMap(ViewSecrets(keys, included)), Generator) == Plus(groupKey, Scale(offset, Generator))
  {
    var k :| k in keys;
    var points := ViewShares(keys[k], included, keys.Keys);
    forall i | i in keys ensures points[i] == Scale(ViewSecret(keys[i], included), Generator) {
      ViewShareMatches(keys[i], i, shares, groupKey, offset, included);
    }
    PointSumOfMultiples(ViewSecrets(keys, included), Generator, points);
    ViewSharesSum(keys[k], included, keys.Keys);
  }

  lemma SumMapShift(m: map<Participant, int>, k: Participant, x: int)
    requires k in m
    ensures SumMap(m[k := m[k] + x]) == SumMap(m) + x
  {
    var n := m[k := m[k] + x];
    SumMapRemove(m, k);
    SumMapRemove(n, k);
    assert n - {k} == m - {k};
  }

  /** The view's secret shares sum to the interpolation of the secret shares, plus the offset. */
  lemma ViewSecretsLinear(keys: map<Participant, Keys>, v: map<Participant, int>, offset: Scalar,
                          included: seq<Participant>, terms: map<Participant, int>)
    requires SigningList(included, keys.Keys) && v.Keys == terms.Keys == keys.Keys
    requires forall i :: i in keys ==> keys[i].core.params.i == i && CurrentOffset(keys[i]) == offset
    requires forall i :: i in keys ==> Cong(keys[i].core.secretShare, v[i])
    requires forall i :: i in keys ==> terms[i] == Lambda(i, keys.Keys) * v[i]
    ensures Cong(SumMap(ViewSecrets(keys, included)), SumMap(terms) + offset)
  {
    assert included[0] in Members(included);
    var a := ViewSecrets(keys, included);
    forall i | i in keys ensures Cong(a[i], terms[i] + if i == included[0] then offset else 0) {
      CoefficientIsLambda(i, included);
      SecretTerm(keys[i], v[i], included);
    }
    SumOfShifted(a, terms, included[0], offset);
  }

  lemma SecretTerm(k: Keys, v: int, included: seq<Participant>)
    requires included != [] && Cong(k.core.secretShare, v)
    ensures Cong(ViewSecret(k, included),
                 Coefficient(k.core.params.i, included) * v
                 + if included[0] == k.core.params.i then CurrentOffset(k) else 0)
  {
    var l: int := Coefficient(k.core.params.i, included);
    var e: int := if included[0] == k.core.params.i then CurrentOffset(k) else 0;
    CongMul(l, l, k.core.secretShare, v);
    CongAdd(l * k.core.secretShare, l * v, e, e);
    CongResidue(l * k.core.secretShare + e);
  }

  lemma SumOfShifted(a: map<Participant, int>, values: map<Participant, int>, low: Participant, x: int)
    requires low in values && a.Keys == values.Keys
    requires forall i :: i in a ==> Cong(a[i], values[i] + if i == low then x else 0)
    ensures Cong(SumMap(a), SumMap(values) + x)
  {
    SumMapShift(values, low, x);
    SumMapCong(a, values[low := values[low] + x]);
  }

  /** For secret shares on a polynomial of degree below the size of the signing set, the view's secret
      shares sum to the polynomial's value at zero, the group secret, plus the offset. */
  lemma ViewSecretsSum(keys: map<Participant, Keys>, c: seq<int>, offset: Scalar, included: seq<Participant>)
    requires SigningList(included, keys.Keys) && 0 < |c| <= |keys.Keys|
    requires forall i :: i in keys ==> keys[i].core.params.i == i && CurrentOffset(keys[i]) == offset
    requires forall i :: i in keys ==> Cong(keys[i].core.secretShare, Poly(c, i))
    ensures Cong(SumMap(ViewSecrets(keys, included)), c[0] + offset)
  {
    ViewSecretsLinear(keys, Values(keys.Keys, c), offset, included, WeightedValues(Weights(keys.Keys), c));
    Interpolate(keys.Keys, c);
    CongAdd(SumMap(WeightedValues(Weights(keys.Keys), c)), c[0], offset, offset);
  }

  ghost function Values(s: set<Participant>, c: seq<int>): map<Participant, int> {
    map i | i in s :: Poly(c, i)
  }
}
