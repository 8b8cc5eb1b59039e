/** MuSig: an n-of-n key whose parts are the participants' own keys. */
module MuSig {
  import opened Wrappers
  import opened Scalars
  import opened Points
  import opened Sums
  import opened Lagrange
  import opened ThresholdKeys
  import opened KeyView

  /** The hash to a participant's binding factor, of which nothing is assumed. */
  const HashToF: (seq<nat>, seq<Point>, Participant) -> Scalar

  ghost predicate DistinctKeys(keys: seq<Point>) {
    forall i, j :: 0 <= i < j < |keys| ==> keys[i] != keys[j]
  }

  function KeySet(keys: seq<Point>): set<Point> {
    set k | k in keys
  }

  lemma {:induction false} KeySetSize(keys: seq<Point>)
    ensures |KeySet(keys)| <= |keys|
    ensures |KeySet(keys)| == |keys| <==> DistinctKeys(keys)
  {
    if keys != [] {
      var last, rest := keys[|keys| - 1], keys[..|keys| - 1];
      assert keys == rest + [last];
      KeySetSize(rest);
      assert KeySet(keys) == KeySet(rest) + {last};
      if last in rest {
        assert KeySet(keys) == KeySet(rest);
        var i :| 0 <= i < |rest| && rest[i] == last;
        assert keys[i] == keys[|keys| - 1];
      } else {
        assert last !in KeySet(rest);
        if DistinctKeys(rest) {
          forall i, j | 0 <= i < j < |keys| ensures keys[i] != keys[j] {
            if j == |keys| - 1 { assert keys[i] in rest; } else { assert rest[i] != rest[j]; }
          }
        } else {
          var i, j :| 0 <= i < j < |rest| && rest[i] == rest[j];
          assert keys[i] == keys[j];
        }
      }
    }
  }

  ghost predicate ValidKeys(keys: seq<Point>) {
    0 < |keys| <= 65535 && DistinctKeys(keys)
  }

  method CheckKeys(keys: seq<Point>) returns (r: Result<nat, DkgError>)
    ensures r == if ValidKeys(keys) then Ok(|keys|) else Err(InvalidSigningSet)
  {
    KeySetSize(keys);
    if keys == [] || |keys| > 65535 || |KeySet(keys)| != |keys| {
      return Err(InvalidSigningSet);
    }
    r := Ok(|keys|);
  }

  /** A participant's key times their binding factor. */
  ghost function BoundKey(context: seq<nat>, keys: seq<Point>, p: Participant): Point
    requires p <= |keys|
  {
    Scale(HashToF(context, keys, p), keys[p - 1])
  }

  ghost function BoundKeys(context: seq<nat>, keys: seq<Point>, n: nat): map<Participant, Point>
    requires n <= |keys| && n <= 65535
  {
    map p | p in UpTo(n) :: BoundKey(context, keys, p)
  }

  lemma NextKey(context: seq<nat>, keys: seq<Point>, l: nat)
    requires l < |keys| <= 65535
    ensures PointSum(BoundKeys(context, keys, l + 1)) ==
              Plus(PointSum(BoundKeys(context, keys, l)), BoundKey(context, keys, l + 1))
  {
    var p: Participant := l + 1;
    var more := BoundKeys(context, keys, l + 1);
    PointSumRemove(more, p);
    assert UpTo(l + 1) - {p} == UpTo(l);
    assert more - {p} == BoundKeys(context, keys, l);
    PlusLaws(PointSum(more - {p}), BoundKey(context, keys, p), Identity);
  }

  lemma NoKeys(context: seq<nat>, keys: seq<Point>)
    ensures PointSum(BoundKeys(context, keys, 0)) == Identity
  {
    assert BoundKeys(context, keys, 0) == map[];
  }

  /** `musig_key`: the sum of the bound keys. */
  method MusigKey(context: seq<nat>, keys: seq<Point>) returns (r: Result<Point, DkgError>)
    ensures r.Ok? <==> ValidKeys(keys) && |context| <= 255
    ensures r.Ok? ==> r.value == PointSum(BoundKeys(context, keys, |keys|))
    ensures r.Err? ==> r.error == InvalidSigningSet
  {
    var checked := CheckKeys(keys);
    if checked.Err? {
      return Err(checked.error);
    }
    if |context| > 255 {
      return Err(InvalidSigningSet);
    }
    var res := Identity;
    NoKeys(context, keys);
    for l := 0 to |keys|
      invariant res == PointSum(BoundKeys(context, keys, l))
    {
      NextKey(context, keys, l);
      var bound := ScalePoint(HashToF(context, keys, l + 1), keys[l]);
      res := Plus(res, bound);
    }
    r := Ok(res);
  }

  /** Coefficients over a set of participants are never zero. */
  lemma CoefficientNonZero(i: Participant, included: seq<Participant>)
    ensures Coefficient(i, included) != 0
  {
    CoefficientIs(i, included);
    NumeratorNonZero(i, included);
    assert 0 * Denominator(i, included) == 0;
  }

  lemma {:induction false} NumeratorNonZero(i: Participant, included: seq<Participant>)
    ensures !Cong(Numerator(i, included), 0)
  {
    OneIsNotZero();
    if included != [] {
      var l, rest := included[|included| - 1], included[..|included| - 1];
      NumeratorNonZero(i, rest);
      ParticipantNonZero(l);
      if Cong(Numerator(i, included), 0) { ZeroProduct(Numerator(i, rest), if l == i then 1 else l); }
    }
  }

  lemma ParticipantNonZero(l: Participant)
    ensures !Cong(l, 0)
  {
    if Cong(l, 0) { CongReduced(l, 0); }
  }

  /** Each verification share, times its coefficient, is the bound key. */
  ghost predicate SharesUndo(shares: map<Participant, Point>, context: seq<nat>, keys: seq<Point>, n: nat)
    requires n <= |keys| <= 65535
  {
    && shares.Keys == UpTo(n)
    && forall p :: p in shares ==> Scale(Coefficient(p, Range(|keys|)), shares[p]) == BoundKey(context, keys, p)
  }

  lemma SharesStep(shares: map<Participant, Point>, context: seq<nat>, keys: seq<Point>, l: nat, share: Point)
    requires l < |keys| <= 65535 && SharesUndo(shares, context, keys, l)
    requires Scale(Coefficient(l + 1, Range(|keys|)), share) == BoundKey(context, keys, l + 1)
    ensures SharesUndo(shares[(l + 1) as Participant := share], context, keys, l + 1)
  {}

  lemma UndoCoefficient(c: Scalar, inverse: Scalar, bound: Point)
    requires Cong(c * inverse, 1)
    ensures Scale(c, Scale(inverse, bound)) == bound
  {
    ScaleMul(c, inverse, bound);
    ScaleCong(c * inverse, 1, bound);
    ScaleZeroOne(bound);
  }

  lemma SecretUndo(x: Scalar, b: Scalar, inverse: Scalar)
    ensures Scale(FMul(FMul(x, b), inverse), Generator) == Scale(inverse, Scale(b, Scale(x, Generator)))
  {
    FMulCong(x, b);
    FMulCong(FMul(x, b), inverse);
    CongMul(FMul(x, b), x * b, inverse, inverse);
    Reorder(x, b, inverse);
    ScaleCong(FMul(FMul(x, b), inverse), inverse * (b * x), Generator);
    ScaleMul(inverse, b * x, Generator);
    ScaleMul(b, x, Generator);
  }

  lemma Reorder(x: int, b: int, v: int)
    ensures x * b * v == v * (b * x)
  {}

  /** `musig`: a participant's threshold keys. */
  method Musig(context: seq<nat>, privateKey: Scalar, keys: seq<Point>) returns (r: Result<ThresholdCore, DkgError>)
    ensures r.Ok? <==> ValidKeys(keys) && |context| <= 255 && Scale(privateKey, Generator) in keys
    ensures r.Err? ==> r.error == InvalidSigningSet
    ensures r.Ok? ==> MusigCore(r.value, context, keys)
    ensures r.Ok? ==> keys[r.value.params.i - 1] == Scale(privateKey, Generator)
  {
    var checked := CheckKeys(keys);
    if checked.Err? {
      return Err(checked.error);
    }
    var ourKey := ScalePoint(privateKey, Generator);
    if ourKey !in keys {
      return Err(InvalidSigningSet);
    }
    var pos :| 0 <= pos < |keys| && keys[pos] == ourKey && forall j :: 0 <= j < pos ==> keys[j] != ourKey;
    var params := NewParams(|keys|, |keys|, pos + 1);
    if |context| > 255 {
      return Err(InvalidSigningSet);
    }
    var core := MusigShares(context, privateKey, keys, params.value);
    r := Ok(core);
  }

  /** The keys derived for a participant: the group key is the sum of the bound keys, the verification shares
      interpolate the bound keys, and ours is by our secret share. */
  ghost predicate MusigCore(core: ThresholdCore, context: seq<nat>, keys: seq<Point>)
    requires ValidKeys(keys)
  {
    && core.params.Valid() && core.params.t == core.params.n == |keys|
    && core.groupKey == PointSum(BoundKeys(context, keys, |keys|))
    && SharesUndo(core.verificationShares, context, keys, |keys|)
    && core.verificationShares[core.params.i] == Scale(core.secretShare, Generator)
  }

  /** A participant's bound key, and their verification share with the inverse that undoes the coefficient. */
  method ShareOf(context: seq<nat>, keys: seq<Point>, p: Participant)
    returns (key: Point, inverse: Scalar, share: Point)
    requires p <= |keys| <= 65535
    ensures key == BoundKey(context, keys, p) && share == Scale(inverse, key)
    ensures Scale(Coefficient(p, Range(|keys|)), share) == key
  {
    key := ScalePoint(HashToF(context, keys, p), keys[p - 1]);
    var coefficient := LagrangeCoefficient(p, Range(|keys|));
    CoefficientNonZero(p, Range(|keys|));
    inverse := Invert(coefficient);
    UndoCoefficient(coefficient, inverse, key);
    share := ScalePoint(inverse, key);
  }

  method MusigShares(context: seq<nat>, privateKey: Scalar, keys: seq<Point>, params: ThresholdParams)
    returns (core: ThresholdCore)
    requires ValidKeys(keys) && params.Valid() && params.t == params.n == |keys|
    requires keys[params.i - 1] == Scale(privateKey, Generator)
    ensures core.params == params && MusigCore(core, context, keys)
  {
    var binding := HashToF(context, keys, params.i);
    var bound := FMul(privateKey, binding);
    var secretShare := bound;
    var shares: map<Participant, Point> := map[];
    var groupKey := Identity;
    NoKeys(context, keys);
    for l := 0 to |keys|
      invariant groupKey == PointSum(BoundKeys(context, keys, l))
      invariant SharesUndo(shares, context, keys, l)
      invariant l < params.i ==> secretShare == bound
      invariant l >= params.i ==> params.i in shares && shares[params.i] == Scale(secretShare, Generator)
    {
      var p: Participant := l + 1;
      var key, inverse, share := ShareOf(context, keys, p);
      NextKey(context, keys, l);
      groupKey := Plus(groupKey, key);
      if params.i == p {
        SecretUndo(privateKey, binding, inverse);
        secretShare := FMul(secretShare, inverse);
      }
      SharesStep(shares, context, keys, l, share);
      shares := shares[p := share];
    }
    core := ThresholdCore(params, secretShare, groupKey, shares);
  }

  /** Verification shares whose multiples by the coefficients are the bound keys are the same for everyone. */
  lemma SharesAgree(a: map<Participant, Point>, b: map<Participant, Point>, context: seq<nat>, keys: seq<Point>)
    requires |keys| <= 65535 && SharesUndo(a, context, keys, |keys|) && SharesUndo(b, context, keys, |keys|)
    ensures a == b
  {
    forall p | p in a ensures a[p] == b[p] {
      var c := Coefficient(p, Range(|keys|));
      CoefficientNonZero(p, Range(|keys|));
      UndoneUnique(c, a[p], b[p]);
    }
  }

  lemma UndoneUnique(c: Scalar, x: Point, y: Point)
    requires c != 0 && Scale(c, x) == Scale(c, y)
    ensures x == y
  {
    var v := FInv(c);
    assert c * v == v * c;
    ScaleMul(v, c, x);
    ScaleMul(v, c, y);
    ScaleCong(v * c, 1, x);
    ScaleCong(v * c, 1, y);
    ScaleZeroOne(x);
    ScaleZeroOne(y);
  }

  lemma SharesInterpolate(shares: map<Participant, Point>, context: seq<nat>, keys: seq<Point>)
    requires |keys| <= 65535 && SharesUndo(shares, context, keys, |keys|)
    ensures PointSum(Interpolated(UpTo(|keys|), shares)) == PointSum(BoundKeys(context, keys, |keys|))
  {
    var s := UpTo(|keys|);
    RangeMembers(|keys|);
    forall p | p in s ensures Interpolated(s, shares)[p] == BoundKey(context, keys, p) {
      CoefficientIsLambda(p, Range(|keys|));
    }
    assert Interpolated(s, shares) == BoundKeys(context, keys, |keys|);
  }

  /** The keys of all participants, with any one offset, are the keys of a signing set for the sum of the
      bound keys. */
  lemma MusigSigningKeys(cores: map<Participant, Keys>, context: seq<nat>, keys: seq<Point>, offset: Scalar,
                         first: Participant)
    requires ValidKeys(keys) && cores.Keys == UpTo(|keys|) && first in cores
    requires forall i :: i in cores ==>
               && MusigCore(cores[i].core, context, keys)
               && cores[i].core.params.i == i && CurrentOffset(cores[i]) == offset
    ensures SigningKeys(cores, cores[first].core.verificationShares, PointSum(BoundKeys(context, keys, |keys|)), offset)
  {
    var shares := cores[first].core.verificationShares;
    forall i | i in cores ensures cores[i].core.verificationShares == shares {
      SharesAgree(cores[i].core.verificationShares, shares, context, keys);
    }
    SharesInterpolate(shares, context, keys);
  }
}
