/** FROST's nonces: commitments to pairs of nonces, the factors binding each pair, and their sums. */
module Nonces {
  import opened Wrappers
  import opened Scalars
  import opened Points
  import opened Sums
  import opened MultiExponentiation
  import opened Batch
  import opened ThresholdKeys

  /** Commitments to both nonces of a pair, by one generator. */
  datatype GeneratorCommitments = GeneratorCommitments(D: Point, E: Point)

  /** For each nonce, for each of its generators. */
  type Commitments = seq<seq<GeneratorCommitments>>

  type Generators = seq<seq<Point>>

  /** The commitments were read for the nonces planned. */
  ghost predicate Shaped(c: Commitments, planned: Generators) {
    |c| == |planned| && forall n :: 0 <= n < |c| ==> |c[n]| == |planned[n]|
  }

  /** What the binding factors are drawn from. */
  datatype Transcript = Transcript(
    context: seq<nat>, groupKey: Point, msg: seq<nat>, preprocesses: seq<(Participant, Commitments)>)

  /** The hash to a binding factor, of which nothing is assumed. */
  const HashBindingFactor: (Transcript, Participant, nat) -> Scalar

  function Factors(transcript: Transcript, l: Participant, n: nat): seq<Scalar> {
    seq(n, k requires 0 <= k < n => HashBindingFactor(transcript, l, k))
  }

  /** D + rho * E */
  ghost function Bind(c: GeneratorCommitments, rho: Scalar): Point {
    Plus(c.D, Scale(rho, c.E))
  }

  datatype IndividualBinding = IndividualBinding(commitments: Commitments, bindingFactors: Option<seq<Scalar>>) {
    ghost predicate IsBound() {
      bindingFactors.Some? && |bindingFactors.value| == |commitments|
    }

    /** The binding has the given nonce, by the given generator. */
    ghost predicate Has(n: nat, g: nat) {
      IsBound() && n < |commitments| && g < |commitments[n]|
    }

    ghost function Bound(n: nat, g: nat): Point
      requires Has(n, g)
    {
      Bind(commitments[n][g], bindingFactors.value[n])
    }

    /** The binding, with factors from the transcript. */
    ghost predicate BoundBy(before: IndividualBinding, transcript: Transcript, l: Participant) {
      this == IndividualBinding(before.commitments, Some(Factors(transcript, l, |before.commitments|)))
    }
  }

  type Bindings = map<Participant, IndividualBinding>

  /** Everyone's commitments have the planned shape, and have been bound. */
  ghost predicate AllBound(bindings: Bindings, planned: Generators) {
    forall l :: l in bindings ==> bindings[l].IsBound() && Shaped(bindings[l].commitments, planned)
  }

  ghost function BoundsOf(bindings: Bindings, n: nat, g: nat): map<Participant, Point>
    requires forall l :: l in bindings ==> bindings[l].Has(n, g)
  {
    map l | l in bindings :: bindings[l].Bound(n, g)
  }

  /** A participant's bound nonces. */
  method BoundOf(binding: IndividualBinding) returns (res: seq<seq<Point>>)
    requires binding.IsBound()
    ensures |res| == |binding.commitments|
    ensures forall n :: 0 <= n < |res| ==> |res[n]| == |binding.commitments[n]|
    ensures forall n, g :: 0 <= n < |res| && 0 <= g < |res[n]| ==> res[n][g] == binding.Bound(n, g)
  {
    var commitments, factors := binding.commitments, binding.bindingFactors.value;
    res := [];
    for n := 0 to |commitments|
      invariant |res| == n
      invariant forall m :: 0 <= m < n ==> |res[m]| == |commitments[m]|
      invariant forall m, g :: 0 <= m < n && 0 <= g < |res[m]| ==> res[m][g] == Bind(commitments[m][g], factors[m])
    {
      var row := [];
      for g := 0 to |commitments[n]|
        invariant |row| == g
        invariant forall h :: 0 <= h < g ==> row[h] == Bind(commitments[n][h], factors[n])
      {
        var bound := ScalePoint(factors[n], commitments[n][g].E);
        row := row + [Plus(commitments[n][g].D, bound)];
      }
      res := res + [row];
    }
  }

  class BindingFactor {
    var bindings: Bindings

    constructor ()
      ensures bindings == map[]
    {
      bindings := map[];
    }

    method Insert(i: Participant, commitments: Commitments)
      modifies this
      ensures bindings == old(bindings)[i := IndividualBinding(commitments, None)]
    {
      bindings := bindings[i := IndividualBinding(commitments, None)];
    }

    /** Every participant's factors are drawn from the one transcript. */
    method CalculateBindingFactors(transcript: Transcript)
      modifies this
      ensures bindings.Keys == old(bindings).Keys
      ensures forall l :: l in bindings ==> bindings[l].BoundBy(old(bindings)[l], transcript, l)
    {
      var left := bindings.Keys;
      while left != {}
        invariant left <= bindings.Keys == old(bindings).Keys
        invariant forall l :: l in left ==> bindings[l] == old(bindings)[l]
        invariant forall l :: l in bindings && l !in left ==> bindings[l].BoundBy(old(bindings)[l], transcript, l)
      {
        var l :| l in left;
        var factors := Factors(transcript, l, |bindings[l].commitments|);
        bindings := bindings[l := bindings[l].(bindingFactors := Some(factors))];
        left := left - {l};
      }
    }

    ghost predicate Ready(planned: Generators)
      reads this
    {
      AllBound(bindings, planned)
    }

    /** The sum of the first nonces plus a multi-exponentiation of the second ones is the sum of the
        bound nonces. */
    method NonceSum(n: nat, g: nat) returns (sum: Point)
      requires forall l :: l in bindings ==> bindings[l].Has(n, g)
      ensures sum == PointSum(BoundsOf(bindings, n, g))
    {
      var D := Identity;
      var statements: seq<Pair> := [];
      var left := bindings.Keys;
      ghost var all := BoundsOf(bindings, n, g);
      assert all - {} == all;
      SumIs([]);
      PlusLaws(PointSum(all), Identity, Identity);
      PlusLaws(Identity, Identity, Identity);
      assert bindings.Keys - left == {};
      while left != {}
        invariant left <= bindings.Keys
        invariant Plus(Plus(D, Sum(statements)), PointSum(all - (bindings.Keys - left))) == PointSum(all)
      {
        var l :| l in left;
        ghost var rest := all - (bindings.Keys - left);
        ghost var next := all - (bindings.Keys - (left - {l}));
        PointSumRemove(rest, l);
        assert rest - {l} == next;
        var c, rho := bindings[l].commitments[n][g], bindings[l].bindingFactors.value[n];
        AddStatement(D, statements, c, rho, PointSum(next));
        D := Plus(D, c.D);
        statements := statements + [(rho, c.E)];
        left := left - {l};
      }
      assert all - (bindings.Keys - left) == map[];
      var product := MultiexpVartime(statements, false);
      sum := Plus(D, product);
      PlusLaws(sum, Identity, Identity);
    }

    /** The nonces of the session. */
    method Nonces(planned: Generators) returns (nonces: seq<seq<Point>>)
      requires Ready(planned)
      ensures |nonces| == |planned| && forall n :: 0 <= n < |nonces| ==> |nonces[n]| == |planned[n]|
      ensures forall n, g :: 0 <= n < |nonces| && 0 <= g < |nonces[n]| ==>
                nonces[n][g] == PointSum(BoundsOf(bindings, n, g))
    {
      nonces := [];
      for n := 0 to |planned|
        invariant |nonces| == n
        invariant forall m :: 0 <= m < n ==> |nonces[m]| == |planned[m]|
        invariant forall m, g :: 0 <= m < n && 0 <= g < |nonces[m]| ==>
                  nonces[m][g] == PointSum(BoundsOf(bindings, m, g))
      {
        var row := [];
        for g := 0 to |planned[n]|
          invariant |row| == g
          invariant forall h :: 0 <= h < g ==> row[h] == PointSum(BoundsOf(bindings, n, h))
        {
          var sum := NonceSum(n, g);
          row := row + [sum];
        }
        nonces := nonces + [row];
      }
    }
  }

  lemma AddStatement(D: Point, statements: seq<Pair>, c: GeneratorCommitments, rho: Scalar, rest: Point)
    ensures Plus(Plus(Plus(D, c.D), Sum(statements + [(rho, c.E)])), rest) ==
              Plus(Plus(D, Sum(statements)), Plus(Bind(c, rho), rest))
  {
    var n := |statements|;
    SumOfPrefix(statements, [(rho, c.E)], n);
    SumIs(statements);
    SumIs(statements + [(rho, c.E)]);
    ScaleNat(rho, c.E);
    PlusSwap(D, Sum(statements), c.D, Scale(rho, c.E));
    PlusLaws(Plus(D, Sum(statements)), Bind(c, rho), rest);
  }
}
