/** Batch verification of statements expected to sum to the identity, and the binary search that
    names a faulty one. */
module Batch {
  import opened Wrappers
  import opened Scalars
  import opened Points
  import opened MultiExponentiation

  /** Every scalar of a statement times the statement's weight. */
  function Weigh(u: Scalar, pairs: seq<Pair>): (r: seq<Pair>)
    ensures |r| == |pairs|
    ensures forall i :: 0 <= i < |r| ==> r[i] == (FMul(pairs[i].0, u), pairs[i].1)
  {
    seq(|pairs|, i requires 0 <= i < |pairs| => (FMul(pairs[i].0, u), pairs[i].1))
  }

  lemma {:induction false} WeighSum(u: Scalar, pairs: seq<Pair>, n: nat)
    requires n <= |pairs|
    ensures SumTo(Weigh(u, pairs), n) == Scale(u, SumTo(pairs, n))
  {
    if n == 0 {
      ScaleIdentity(u);
    } else {
      WeighSum(u, pairs, n - 1);
      var (s, p) := pairs[n - 1];
      FMulCong(s, u);
      ScaleNat(FMul(s, u), p);
      ScaleCong(FMul(s, u), s * u, p);
      assert s * u == u * s;
      ScaleMul(u, s, p);
      ScaleNat(s, p);
      ScalePlus(u, SumTo(pairs, n - 1), Times(s, p));
    }
  }

  function Flat<Id>(slice: seq<(Id, seq<Pair>)>): seq<Pair> {
    if slice == [] then [] else Flat(slice[..|slice| - 1]) + slice[|slice| - 1].1
  }

  lemma {:induction false} SumOfPrefix(a: seq<Pair>, b: seq<Pair>, n: nat)
    requires n <= |a|
    ensures SumTo(a + b, n) == SumTo(a, n)
  {
    if n > 0 { SumOfPrefix(a, b, n - 1); }
  }

  lemma {:induction false} SumOfConcat(a: seq<Pair>, b: seq<Pair>, n: nat)
    requires n <= |b|
    ensures SumTo(a + b, |a| + n) == Plus(Sum(a), SumTo(b, n))
  {
    SumIs(a);
    if n == 0 {
      SumOfPrefix(a, b, |a|);
      PlusLaws(Sum(a), Identity, Identity);
    } else {
      SumOfConcat(a, b, n - 1);
      PlusLaws(Sum(a), SumTo(b, n - 1), Times(b[n - 1].0, b[n - 1].1));
    }
  }

  lemma FlatLast<Id>(a: seq<(Id, seq<Pair>)>, b: seq<(Id, seq<Pair>)>)
    requires b != []
    ensures Flat(a + b) == Flat(a + b[..|b| - 1]) + b[|b| - 1].1
  {
    var c := a + b;
    assert c[..|c| - 1] == a + b[..|b| - 1];
    assert c[|c| - 1] == b[|b| - 1];
  }

  lemma {:induction false} FlatConcat<Id>(a: seq<(Id, seq<Pair>)>, b: seq<(Id, seq<Pair>)>)
    ensures Flat(a + b) == Flat(a) + Flat(b)
    decreases |b|
  {
    if b == [] {
      assert a + b == a;
    } else {
      var n := |b| - 1;
      FlatConcat(a, b[..n]);
      FlatLast(a, b);
      assert Flat(a) + (Flat(b[..n]) + b[n].1) == (Flat(a) + Flat(b[..n])) + b[n].1;
    }
  }

  lemma ConcatSum<Id>(a: seq<(Id, seq<Pair>)>, b: seq<(Id, seq<Pair>)>)
    ensures Sum(Flat(a + b)) == Plus(Sum(Flat(a)), Sum(Flat(b)))
  {
    FlatConcat(a, b);
    SumIs(Flat(a + b));
    SumIs(Flat(b));
    SumOfConcat(Flat(a), Flat(b), |Flat(b)|);
  }

  /** The sum over a slice is the sum over either half. */
  lemma SplitSum<Id>(slice: seq<(Id, seq<Pair>)>, split: nat)
    requires split <= |slice|
    ensures Sum(Flat(slice)) == Plus(Sum(Flat(slice[..split])), Sum(Flat(slice[split..])))
  {
    assert slice == slice[..split] + slice[split..];
    ConcatSum(slice[..split], slice[split..]);
  }

  lemma SplitRange<Id>(statements: seq<(Id, seq<Pair>)>, lo: nat, mid: nat, hi: nat)
    requires lo <= mid <= hi <= |statements|
    ensures Sum(Flat(statements[lo..mid])) == Identity ==>
              Sum(Flat(statements[lo..hi])) == Sum(Flat(statements[mid..hi]))
  {
    var slice := statements[lo..hi];
    SplitSum(slice, mid - lo);
    assert slice[..mid - lo] == statements[lo..mid] && slice[mid - lo..] == statements[mid..hi];
    PlusLaws(Sum(Flat(statements[mid..hi])), Identity, Identity);
  }

  lemma FlatOne<Id>(statement: (Id, seq<Pair>))
    ensures Flat([statement]) == statement.1
  {
    assert [statement][..0] == [];
  }

  lemma {:induction false} AllIdentity<Id>(slice: seq<(Id, seq<Pair>)>)
    requires forall i :: 0 <= i < |slice| ==> Sum(slice[i].1) == Identity
    ensures Sum(Flat(slice)) == Identity
  {
    if slice == [] {
      SumIs([]);
    } else {
      var n := |slice| - 1;
      AllIdentity(slice[..n]);
      SplitSum(slice, n);
      assert slice[n..] == [slice[n]];
      FlatOne(slice[n]);
      PlusLaws(Identity, Identity, Identity);
    }
  }

  /** A batch whose only statement off the identity is `k` is off the identity. */
  lemma OneOff<Id>(slice: seq<(Id, seq<Pair>)>, k: nat)
    requires k < |slice| && Sum(slice[k].1) != Identity
    requires forall i :: 0 <= i < |slice| && i != k ==> Sum(slice[i].1) == Identity
    ensures Sum(Flat(slice)) != Identity
  {
    SplitSum(slice, k);
    var rest := slice[k..];
    SplitSum(rest, 1);
    assert rest[..1] == [slice[k]] && rest[1..] == slice[k + 1..];
    FlatOne(slice[k]);
    AllIdentity(slice[..k]);
    AllIdentity(slice[k + 1..]);
    PlusLaws(Sum(slice[k].1), Identity, Identity);
  }

  class BatchVerifier<Id(==)> {
    var statements: seq<(Id, seq<Pair>)>

    /** The statements as queued, and the weight each was queued with. */
    ghost var queued: seq<(Id, seq<Pair>)>
    ghost var weights: seq<Scalar>

    ghost predicate Valid()
      reads this
    {
      && |statements| == |queued| == |weights|
      && forall i :: 0 <= i < |queued| ==>
           && weights[i] != 0
           && statements[i] == (queued[i].0, Weigh(weights[i], queued[i].1))
    }

    /** The statement queued `i`th doesn't sum to the identity. */
    ghost predicate Faulty(i: nat)
      requires i < |queued|
      reads this
    {
      Sum(queued[i].1) != Identity
    }

    constructor ()
      ensures Valid() && queued == []
    {
      statements, queued, weights := [], [], [];
    }

    /** Queue a statement. `weight` is the scalar the generator settled on, which isn't zero; the
        first statement is queued with weight one. */
    method Queue(weight: Scalar, id: Id, pairs: seq<Pair>)
      requires Valid() && weight != 0
      modifies this
      ensures Valid()
      ensures queued == old(queued) + [(id, pairs)]
      ensures weights == old(weights) + [if old(queued) == [] then 1 else weight]
    {
      var u := if statements == [] then 1 else weight;
      statements := statements + [(id, Weigh(u, pairs))];
      queued := queued + [(id, pairs)];
      weights := weights + [u];
    }

    /** Weighting doesn't change whether a statement is faulty. */
    lemma FaultyWeighted(i: nat)
      requires Valid() && i < |queued|
      ensures Faulty(i) <==> Sum(statements[i].1) != Identity
    {
      WeighSum(weights[i], queued[i].1, |queued[i].1|);
      SumIs(queued[i].1);
      SumIs(statements[i].1);
      ScaleCancel(weights[i], Sum(queued[i].1));
    }

    lemma FaultyAll()
      requires Valid()
      ensures (forall i :: 0 <= i < |queued| ==> !Faulty(i)) ==> Sum(Flat(statements)) == Identity
      ensures forall k :: 0 <= k < |queued| && Faulty(k) && (forall i :: 0 <= i < |queued| && i != k ==> !Faulty(i)) ==>
                            Sum(Flat(statements)) != Identity
    {
      forall i | 0 <= i < |queued| ensures Faulty(i) <==> Sum(statements[i].1) != Identity {
        FaultyWeighted(i);
      }
      if forall i :: 0 <= i < |queued| ==> !Faulty(i) { AllIdentity(statements); }
      forall k | 0 <= k < |queued| && Faulty(k) && (forall i :: 0 <= i < |queued| && i != k ==> !Faulty(i))
        ensures Sum(Flat(statements)) != Identity
      {
        OneOff(statements, k);
      }
    }

    method Verify(debugAssertions: bool) returns (r: bool)
      requires Valid()
      ensures r <==> Sum(Flat(statements)) == Identity
    {
      var sum := Multiexp(Flat(statements), debugAssertions);
      r := sum == Identity;
    }

    method VerifyVartime(debugAssertions: bool) returns (r: bool)
      requires Valid()
      ensures r <==> Sum(Flat(statements)) == Identity
    {
      var sum := MultiexpVartime(Flat(statements), debugAssertions);
      r := sum == Identity;
    }

    /** Binary search for a faulty statement: whatever it names is faulty, and it names one whenever
        the batch as a whole is off the identity. */
    method BlameVartime(debugAssertions: bool) returns (r: Option<Id>)
      requires Valid()
      ensures r.Some? ==> exists i :: 0 <= i < |queued| && queued[i].0 == r.value && Faulty(i)
      ensures Sum(Flat(statements)) != Identity ==> r.Some?
    {
      var lo, hi := 0, |statements|;
      assert statements[lo..hi] == statements;
      while hi - lo > 1
        invariant 0 <= lo <= hi <= |statements|
        invariant statements != [] ==> lo < hi
        invariant Sum(Flat(statements)) != Identity ==> Sum(Flat(statements[lo..hi])) != Identity
      {
        var split := (hi - lo) / 2;
        SplitRange(statements, lo, lo + split, hi);
        var left := MultiexpVartime(Flat(statements[lo..lo + split]), debugAssertions);
        if left == Identity {
          lo := lo + split;
        } else {
          hi := lo + split;
        }
      }
      r := None;
      if lo < hi {
        var value := MultiexpVartime(statements[lo].1, debugAssertions);
        assert statements[lo..hi] == [statements[lo]];
        FlatOne(statements[lo]);
        FaultyWeighted(lo);
        if value != Identity {
          r := Some(statements[lo].0);
        }
      } else {
        assert statements[lo..hi] == [];
        SumIs([]);
      }
    }

    /** The common contract of both `verify_*_with_vartime_blame`. */
    ghost predicate Verdict(r: Result<(), Id>)
      reads this
    {
      && (r.Ok? <==> Sum(Flat(statements)) == Identity)
      && (r.Err? ==> exists i :: 0 <= i < |queued| && queued[i].0 == r.error && Faulty(i))
      && ((forall i :: 0 <= i < |queued| ==> !Faulty(i)) ==> r.Ok?)
      && (forall k :: 0 <= k < |queued| && Faulty(k) && (forall i :: 0 <= i < |queued| && i != k ==> !Faulty(i)) ==>
                        r == Err(queued[k].0))
    }

    method VerifyWithVartimeBlame(debugAssertions: bool) returns (r: Result<(), Id>)
      requires Valid()
      ensures Verdict(r)
    {
      FaultyAll();
      var ok := Verify(debugAssertions);
      if ok {
        r := Ok(());
      } else {
        var blamed := BlameVartime(debugAssertions);
        r := Err(blamed.value);
      }
    }

    method VerifyVartimeWithVartimeBlame(debugAssertions: bool) returns (r: Result<(), Id>)
      requires Valid()
      ensures Verdict(r)
    {
      FaultyAll();
      var ok := VerifyVartime(debugAssertions);
      if ok {
        r := Ok(());
      } else {
        var blamed := BlameVartime(debugAssertions);
        r := Err(blamed.value);
      }
    }
  }
}
