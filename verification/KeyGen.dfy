/** The FROST distributed key generation: Shamir shares, Feldman commitments, and the keys each
    participant derives from them. */
module KeyGen {
  import opened Wrappers
  import opened Scalars
  import opened Points
  import opened Sums
  import opened Lagrange
  import opened MultiExponentiation
  import opened Batch
  import opened Schnorr
  import opened ThresholdKeys

  // Shares of a polynomial

  /** The sum of c[k] * x^(k - m) over k >= m. */
  ghost function Tail(c: seq<Scalar>, m: nat, x: int): int
    requires m <= |c|
    decreases |c| - m
  {
    if m == |c| then 0 else c[m] + x * Tail(c, m + 1, x)
  }

  lemma {:induction false} TailIsPoly(c: seq<Scalar>, m: nat, x: int)
    requires m <= |c|
    ensures Poly(c, x) == Poly(c[..m], x) + Pow(x, m) * Tail(c, m, x)
    decreases |c| - m
  {
    if m == |c| {
      assert c[..m] == c;
      assert Pow(x, m) * 0 == 0;
    } else {
      TailIsPoly(c, m + 1, x);
      assert c[..m + 1][..m] == c[..m];
      PolyIs(c[..m + 1], x);
      Factor(Poly(c[..m], x), c[m], Pow(x, m), x, Tail(c, m + 1, x));
    }
  }

  lemma Factor(p: int, c: int, w: int, x: int, t: int)
    ensures (p + c * w) + (x * w) * t == p + w * (c + x * t)
  {}

  /** `polynomial`: Horner's rule. */
  method Polynomial(coefficients: seq<Scalar>, l: Participant) returns (share: Scalar)
    ensures Cong(share, Poly(coefficients, l))
  {
    share := 0;
    var n := |coefficients|;
    for idx := 0 to n
      invariant Cong(share, if idx == n then Tail(coefficients, 0, l) else l * Tail(coefficients, n - idx, l))
    {
      ghost var tail := l * Tail(coefficients, n - idx, l);
      FAddCong(share, coefficients[n - 1 - idx]);
      CongAdd(share, tail, coefficients[n - 1 - idx], coefficients[n - 1 - idx]);
      share := FAdd(share, coefficients[n - 1 - idx]);
      if idx != n - 1 {
        FMulCong(share, l);
        CongMul(share, coefficients[n - 1 - idx] + tail, l, l);
        Flip(coefficients[n - 1 - idx] + tail, l);
        share := FMul(share, l);
      }
    }
    TailIsPoly(coefficients, 0, l);
    assert Pow(l, 0) == 1 && coefficients[..0] == [];
    PolyIs([], l);
  }

  lemma Flip(a: int, b: int)
    ensures a * b == b * a
  {}

  // Commitments

  /** A commitment to each coefficient. */
  ghost function Commit(c: seq<Scalar>): seq<Point> {
    seq(|c|, k requires 0 <= k < |c| => Scale(c[k], Generator))
  }

  lemma {:induction false} CommitPoly(c: seq<Scalar>, x: int, n: nat)
    requires n <= |c|
    ensures PolyPoint(Commit(c)[..n], x) == Scale(Poly(c[..n], x), Generator)
  {
    PolyIs(c[..n], x);
    PolyPointIs(Commit(c)[..n], x);
    if n == 0 {
      ScaleZeroOne(Generator);
    } else {
      CommitPoly(c, x, n - 1);
      assert Commit(c)[..n][..n - 1] == Commit(c)[..n - 1] && c[..n][..n - 1] == c[..n - 1];
      ScaleMul(Pow(x, n - 1), c[n - 1], Generator);
      Flip(Pow(x, n - 1), c[n - 1]);
      ScaleAdd(Poly(c[..n - 1], x), c[n - 1] * Pow(x, n - 1), Generator);
    }
  }

  /** The share a participant was sent satisfies the sender's commitments. */
  ghost predicate ValidShare(commitments: seq<Point>, target: Participant, share: Scalar) {
    PolyPoint(commitments, target) == Scale(share, Generator)
  }

  /** A share computed from the committed polynomial satisfies the commitments. */
  lemma HonestShare(c: seq<Scalar>, target: Participant, share: Scalar)
    requires Cong(share, Poly(c, target))
    ensures ValidShare(Commit(c), target, share)
  {
    assert Commit(c)[..|c|] == Commit(c) && c[..|c|] == c;
    CommitPoly(c, target, |c|);
    ScaleCong(share, Poly(c, target), Generator);
  }

  /** `exponential`: the powers of `i` paired with the values. */
  method Exponential(i: Participant, values: seq<Point>) returns (res: seq<Pair>)
    ensures |res| == |values| && Sum(res) == PolyPoint(values, i)
  {
    res := [];
    var exp: Scalar := 1;
    PolyPointIs([], i);
    SumIs([]);
    for l := 0 to |values|
      invariant |res| == l
      invariant Cong(exp, Pow(i, l))
      invariant Sum(res) == PolyPoint(values[..l], i)
    {
      ghost var before := res;
      res := res + [(exp, values[l])];
      SumOfPrefix(before, [(exp, values[l])], l);
      SumIs(before);
      SumIs(res);
      assert values[..l + 1][..l] == values[..l];
      PolyPointIs(values[..l + 1], i);
      ScaleNat(exp, values[l]);
      ScaleCong(exp, Pow(i, l), values[l]);
      FMulCong(exp, i);
      CongMul(exp, Pow(i, l), i, i);
      Flip(Pow(i, l), i);
      exp := FMul(exp, i);
    }
    assert values[..|values|] == values;
  }

  /** `share_verification_statements`: a statement that sums to the identity exactly for valid shares. */
  method ShareVerificationStatements(target: Participant, commitments: seq<Point>, share: Scalar)
    returns (values: seq<Pair>)
    ensures Sum(values) == Identity <==> ValidShare(commitments, target, share)
  {
    var exponential := Exponential(target, commitments);
    var negSharePub := ScalePoint(FNeg(share), Generator);
    values := exponential + [(1, negSharePub)];
    SumOfPrefix(exponential, [(1, negSharePub)], |exponential|);
    SumIs(exponential);
    SumIs(values);
    ScaleNat(1, negSharePub);
    ScaleZeroOne(negSharePub);
    DifferenceIsIdentity(PolyPoint(commitments, target), share);
  }

  // Deriving the keys

  /** What a participant holds once it sent its shares: its share of its own polynomial, and everyone's
      commitments. */
  datatype KeyMachine = KeyMachine(params: ThresholdParams, secret: Scalar, commitments: map<Participant, seq<Point>>) {
    ghost predicate Valid() {
      && params.Valid()
      && commitments.Keys == UpTo(params.n)
      && (forall l :: l in commitments ==> |commitments[l]| == params.t)
      && ValidShare(commitments[params.i], params.i, secret)
    }
  }

  ghost function Column(commitments: map<Participant, seq<Point>>, k: nat): map<Participant, Point>
    requires forall l :: l in commitments ==> k < |commitments[l]|
  {
    map l | l in commitments :: commitments[l][k]
  }

  /** The commitments to the sum of everyone's polynomials. */
  ghost function Stripes(commitments: map<Participant, seq<Point>>, t: nat): seq<Point>
    requires forall l :: l in commitments ==> |commitments[l]| >= t
  {
    seq(t, k requires 0 <= k < t => PointSum(Column(commitments, k)))
  }

  ghost function Evaluations(commitments: map<Participant, seq<Point>>, n: nat, x: int): map<Participant, Point>
    requires forall l :: l in commitments ==> n <= |commitments[l]|
  {
    map l | l in commitments :: PolyPoint(commitments[l][..n], x)
  }

  lemma EvaluationsNone(commitments: map<Participant, seq<Point>>, x: int)
    ensures PointSum(Evaluations(commitments, 0, x)) == Identity
  {
    var e := Evaluations(commitments, 0, x);
    forall l | l in e ensures e[l] == Scale(0, e[l]) {
      PolyPointIs([], x);
      ScaleIdentity(0);
    }
    PointSumScale(e, 0, e);
    ScaleZeroOne(PointSum(e));
  }

  /** Evaluating the summed commitments is summing the evaluations. */
  lemma {:induction false} PolyOfStripes(commitments: map<Participant, seq<Point>>, t: nat, n: nat, x: int)
    requires n <= t && forall l :: l in commitments ==> t <= |commitments[l]|
    ensures PolyPoint(Stripes(commitments, t)[..n], x) == PointSum(Evaluations(commitments, n, x))
  {
    PolyPointIs(Stripes(commitments, t)[..n], x);
    if n == 0 {
      EvaluationsNone(commitments, x);
    } else {
      PolyOfStripes(commitments, t, n - 1, x);
      var k := n - 1;
      assert Stripes(commitments, t)[..n][..k] == Stripes(commitments, t)[..k];
      var p := Pow(x, k);
      var top := map l | l in commitments :: Scale(p, commitments[l][k]);
      PointSumScale(Column(commitments, k), p, top);
      forall l | l in commitments
        ensures Evaluations(commitments, n, x)[l] == Plus(Evaluations(commitments, k, x)[l], top[l])
      {
        assert commitments[l][..n][..k] == commitments[l][..k];
        PolyPointIs(commitments[l][..n], x);
      }
      PointSumPlus(Evaluations(commitments, k, x), top, Evaluations(commitments, n, x));
    }
  }

  /** The keys the commitments determine for a participant. */
  ghost predicate Derived(core: ThresholdCore, params: ThresholdParams, commitments: map<Participant, seq<Point>>)
    requires params.Valid() && forall l :: l in commitments ==> |commitments[l]| == params.t
  {
    var stripes := Stripes(commitments, params.t);
    && core.params == params
    && core.groupKey == stripes[0]
    && core.verificationShares.Keys == UpTo(params.n)
    && (forall j :: j in core.verificationShares ==> core.verificationShares[j] == PolyPoint(stripes, j))
    && core.verificationShares[params.i] == Scale(core.secretShare, Generator)
  }

  /** Participants whose keys are derived from the same commitments agree on the group key and on every
      verification share. */
  lemma DerivedAgree(a: ThresholdCore, b: ThresholdCore, p: ThresholdParams, q: ThresholdParams,
                     commitments: map<Participant, seq<Point>>)
    requires p.Valid() && q.Valid() && p.t == q.t && p.n == q.n
    requires forall l :: l in commitments ==> |commitments[l]| == p.t
    requires Derived(a, p, commitments) && Derived(b, q, commitments)
    ensures a.groupKey == b.groupKey && a.verificationShares == b.verificationShares
  {
    assert forall j :: j in a.verificationShares ==> a.verificationShares[j] == b.verificationShares[j];
  }

  /** Derived verification shares interpolate to the group key over any set of at least t participants:
      in particular over the first t, which is how keys read back recompute it. */
  lemma DerivedInterpolate(core: ThresholdCore, params: ThresholdParams, commitments: map<Participant, seq<Point>>,
                           s: set<Participant>)
    requires params.Valid() && forall l :: l in commitments ==> |commitments[l]| == params.t
    requires Derived(core, params, commitments)
    requires s <= UpTo(params.n) && |s| >= params.t
    ensures PointSum(Interpolated(s, core.verificationShares)) == core.groupKey
  {
    var stripes := Stripes(commitments, params.t);
    InterpolatePoints(s, stripes);
    assert Interpolated(s, core.verificationShares) == WeightedPoints(Weights(s), stripes);
  }

  /** Keys derived by key generation are written and read back unchanged. */
  lemma DerivedSurvive(core: ThresholdCore, params: ThresholdParams, commitments: map<Participant, seq<Point>>)
    requires params.Valid() && forall l :: l in commitments ==> |commitments[l]| == params.t
    requires Derived(core, params, commitments)
    ensures Store(core).Valid() && Decoded(Encoded(Store(core))) == Ok(Store(core)) && Recovered(Store(core)) == core
  {
    ReadWritten(Store(core));
    UpToSize(params.t);
    DerivedInterpolate(core, params, commitments, UpTo(params.t));
  }

  type NonZero = x: Scalar | x != 0 witness 1

  /** An encrypted share: the key it is encrypted with, the proof of possession of that key with its challenge, and
      what it decrypts to, which is None for an encoding that isn't a scalar. */
  datatype EncryptedShare = EncryptedShare(key: Point, pop: Signature, challenge: Scalar, decrypted: Option<Scalar>)

  type Received = map<Participant, EncryptedShare>

  /** What the batch is of: everyone's proof of possession, and everyone's share. */
  datatype BatchId = Decryption(l: Participant) | Share(l: Participant)

  ghost predicate Holds(machine: KeyMachine, shares: Received, id: BatchId)
    requires id.l in shares && id.l in machine.commitments
  {
    var share := shares[id.l];
    match id
    case Decryption(_) => Verifies(share.pop, share.key, share.challenge)
    case Share(l) =>
      share.decrypted.Some? && ValidShare(machine.commitments[l], machine.params.i, share.decrypted.value)
  }

  /** Everyone else sent a share. */
  ghost predicate Complete(machine: KeyMachine, shares: Received)
    requires machine.params.Valid()
  {
    shares.Keys == UpTo(machine.params.n) - {machine.params.i}
  }

  /** The secret share and its verification share match when every share received is valid. */
  lemma SecretMatches(machine: KeyMachine, shares: map<Participant, Scalar>, secret: int)
    requires machine.Valid() && shares.Keys == UpTo(machine.params.n) - {machine.params.i}
    requires forall l :: l in shares ==> ValidShare(machine.commitments[l], machine.params.i, shares[l])
    requires Cong(secret, machine.secret + SumMap(shares))
    ensures PolyPoint(Stripes(machine.commitments, machine.params.t), machine.params.i) == Scale(secret, Generator)
  {
    var i, t, commitments := machine.params.i, machine.params.t, machine.commitments;
    var stripes := Stripes(commitments, t);
    assert stripes[..t] == stripes;
    PolyOfStripes(commitments, t, t, i);
    var e := Evaluations(commitments, t, i);
    var all: map<Participant, int> := shares[i := machine.secret];
    forall l | l in e ensures e[l] == Scale(all[l], Generator) {
      assert commitments[l][..t] == commitments[l];
    }
    PointSumOfMultiples(all, Generator, e);
    SumMapRemove(all, i);
    assert all - {i} == shares;
    ScaleCong(secret, machine.secret + SumMap(shares), Generator);
  }

  /** The shares sent to everyone else, and the share kept: all satisfy the commitments sent. */
  method GenerateSecretShares(params: ThresholdParams, coefficients: seq<Scalar>)
    returns (shares: map<Participant, Scalar>, share: Scalar)
    requires params.Valid()
    ensures shares.Keys == UpTo(params.n) - {params.i}
    ensures forall l :: l in shares ==> ValidShare(Commit(coefficients), l, shares[l])
    ensures ValidShare(Commit(coefficients), params.i, share)
  {
    shares := map[];
    var range := Range(params.n);
    for k := 0 to |range|
      invariant forall l: Participant :: l in shares <==> l <= k && l != params.i
      invariant forall l :: l in shares ==> ValidShare(Commit(coefficients), l, shares[l])
    {
      var l := range[k];
      if l != params.i {
        var s := Polynomial(coefficients, l);
        HonestShare(coefficients, l, s);
        shares := shares[l := s];
      }
    }
    share := Polynomial(coefficients, params.i);
    HonestShare(coefficients, params.i, share);
  }

  /** The sum of everyone's commitment to their coefficient `k`. */
  method Stripe(commitments: map<Participant, seq<Point>>, k: nat) returns (sum: Point)
    requires forall l :: l in commitments ==> k < |commitments[l]|
    ensures sum == PointSum(Column(commitments, k))
  {
    sum := Identity;
    var left := commitments.Keys;
    ghost var rest := Column(commitments, k);
    PlusLaws(PointSum(rest), Identity, Identity);
    while left != {}
      invariant left <= commitments.Keys && rest.Keys == left
      invariant forall l :: l in left ==> rest[l] == commitments[l][k]
      invariant Plus(sum, PointSum(rest)) == PointSum(Column(commitments, k))
    {
      var l :| l in left;
      PointSumRemove(rest, l);
      PlusLaws(sum, rest[l], PointSum(rest - {l}));
      sum := Plus(sum, commitments[l][k]);
      left := left - {l};
      rest := rest - {l};
    }
    assert rest == map[];
    PlusLaws(sum, Identity, Identity);
  }

  /** Everyone's verification share, once the secret share is known. */
  method VerificationShares(params: ThresholdParams, secret: Scalar, stripes: seq<Point>)
    returns (shares: map<Participant, Point>)
    requires params.Valid()
    ensures shares.Keys == UpTo(params.n)
    ensures forall j :: j in shares ==>
              shares[j] == if j == params.i then Scale(secret, Generator) else PolyPoint(stripes, j)
  {
    shares := map[];
    var range := Range(params.n);
    for k := 0 to |range|
      invariant forall l: Participant :: l in shares <==> l <= k
      invariant forall j :: j in shares ==>
                shares[j] == if j == params.i then Scale(secret, Generator) else PolyPoint(stripes, j)
    {
      var i := range[k];
      var share;
      if i == params.i {
        share := ScalePoint(secret, Generator);
      } else {
        var exponential := Exponential(i, stripes);
        share := MultiexpVartime(exponential, false);
      }
      shares := shares[i := share];
    }
  }

  /** Each sender processed has exactly both statements in the batch, each faulty exactly if it doesn't hold. */
  ghost predicate Queued(machine: KeyMachine, shares: Received, done: set<BatchId>, queued: seq<(BatchId, seq<Pair>)>)
    requires forall id :: id in done ==> id.l in shares && id.l in machine.commitments
  {
    && (forall j, k :: 0 <= j < k < |queued| ==> queued[j].0 != queued[k].0)
    && (forall k :: 0 <= k < |queued| ==>
          queued[k].0 in done && (Sum(queued[k].1) == Identity <==> Holds(machine, shares, queued[k].0)))
    && (forall id :: id in done ==> exists k :: 0 <= k < |queued| && queued[k].0 == id)
  }

  /** The statements of the senders processed. */
  ghost function Both(senders: set<Participant>): (r: set<BatchId>)
    ensures forall id :: id in r <==> id.l in senders
  {
    (set l | l in senders :: Decryption(l)) + (set l | l in senders :: Share(l))
  }

  lemma QueuedStep(machine: KeyMachine, shares: Received, done: set<BatchId>, queued: seq<(BatchId, seq<Pair>)>,
                   id: BatchId, statement: seq<Pair>)
    requires forall other :: other in done + {id} ==> other.l in shares && other.l in machine.commitments
    requires id !in done && Queued(machine, shares, done, queued)
    requires Sum(statement) == Identity <==> Holds(machine, shares, id)
    ensures Queued(machine, shares, done + {id}, queued + [(id, statement)])
  {
    var after := queued + [(id, statement)];
    assert after[|queued|].0 == id;
    assert forall k :: 0 <= k < |queued| ==> after[k] == queued[k];
  }

  /** Queues one sender's proof, as decrypting does. */
  method Decrypt(machine: KeyMachine, shares: Received, l: Participant, weight: NonZero,
                 batch: BatchVerifier<BatchId>, ghost done: set<Participant>)
    returns (share: Option<Scalar>)
    requires done <= shares.Keys <= machine.commitments.Keys && l in shares && l !in done
    requires batch.Valid() && Queued(machine, shares, Both(done), batch.queued)
    modifies batch
    ensures batch.Valid() && Queued(machine, shares, Both(done) + {Decryption(l)}, batch.queued)
    ensures share == shares[l].decrypted
  {
    var message := shares[l];
    var statements := BatchStatements(message.pop, message.key, message.challenge);
    StatementsVerify(message.pop, message.key, message.challenge);
    QueuedStep(machine, shares, Both(done), batch.queued, Decryption(l), statements);
    batch.Queue(weight, Decryption(l), statements);
    share := message.decrypted;
  }

  /** Queues one sender's share. */
  method QueueShare(machine: KeyMachine, shares: Received, l: Participant, weight: NonZero,
                    batch: BatchVerifier<BatchId>, ghost done: set<Participant>)
    requires done <= shares.Keys <= machine.commitments.Keys && l in shares && l !in done && shares[l].decrypted.Some?
    requires batch.Valid() && Queued(machine, shares, Both(done) + {Decryption(l)}, batch.queued)
    modifies batch
    ensures batch.Valid() && Queued(machine, shares, Both(done + {l}), batch.queued)
  {
    var share := shares[l].decrypted.value;
    var statements := ShareVerificationStatements(machine.params.i, machine.commitments[l], share);
    QueuedStep(machine, shares, Both(done) + {Decryption(l)}, batch.queued, Share(l), statements);
    assert Both(done + {l}) == Both(done) + {Decryption(l)} + {Share(l)};
    batch.Queue(weight, Share(l), statements);
  }

  /** Everyone's share is a scalar. */
  ghost predicate AllDecrypted(shares: Received) {
    forall l :: l in shares ==> shares[l].decrypted.Some?
  }

  ghost function Decrypted(shares: Received): map<Participant, Scalar>
    requires AllDecrypted(shares)
  {
    map l | l in shares :: shares[l].decrypted.value
  }

  /** The secret is the share kept plus every share received. */
  ghost predicate SecretOf(machine: KeyMachine, shares: Received, secret: Scalar) {
    AllDecrypted(shares) && Cong(secret, machine.secret + SumMap(Decrypted(shares)))
  }

  /** Sums every share received into the secret, and queues its statements. */
  method SumShares(machine: KeyMachine, shares: Received, weight: BatchId -> NonZero, batch: BatchVerifier<BatchId>)
    returns (r: Result<Scalar, Participant>)
    requires shares.Keys <= machine.commitments.Keys
    requires batch.Valid() && batch.queued == []
    modifies batch
    ensures batch.Valid()
    ensures r.Err? ==> r.error in shares && shares[r.error].decrypted.None?
    ensures r.Ok? ==>
              SecretOf(machine, shares, r.value) && Queued(machine, shares, Both(shares.Keys), batch.queued)
  {
    var secret := machine.secret;
    var left := shares.Keys;
    ghost var processed: map<Participant, Scalar> := map[];
    while left != {}
      invariant Summed(machine, shares, left, secret, processed)
      invariant batch.Valid() && Queued(machine, shares, Both(processed.Keys), batch.queued)
    {
      var l :| l in left;
      var decrypted := Decrypt(machine, shares, l, weight(Decryption(l)), batch, processed.Keys);
      if decrypted.None? {
        return Err(l);
      }
      var share := decrypted.value;
      SummedStep(machine, shares, left, secret, processed, l);
      QueueShare(machine, shares, l, weight(Share(l)), batch, processed.Keys);
      secret := FAdd(secret, share);
      processed := processed[l := share];
      left := left - {l};
    }
    SummedAll(machine, shares, secret, processed);
    r := Ok(secret);
  }

  ghost predicate Summed(machine: KeyMachine, shares: Received, left: set<Participant>, secret: Scalar,
                         processed: map<Participant, Scalar>) {
    && left <= shares.Keys && processed.Keys == shares.Keys - left
    && (forall l :: l in processed ==> shares[l].decrypted == Some(processed[l]))
    && Cong(secret, machine.secret + SumMap(processed))
  }

  lemma SummedStep(machine: KeyMachine, shares: Received, left: set<Participant>, secret: Scalar,
                   processed: map<Participant, Scalar>, l: Participant)
    requires Summed(machine, shares, left, secret, processed) && l in left && shares[l].decrypted.Some?
    ensures l !in processed && processed.Keys <= shares.Keys
    ensures var share := shares[l].decrypted.value;
            && processed[l := share].Keys == processed.Keys + {l}
            && Summed(machine, shares, left - {l}, FAdd(secret, share), processed[l := share])
  {
    var share := shares[l].decrypted.value;
    FAddCong(secret, share);
    CongAdd(secret, machine.secret + SumMap(processed), share, share);
    SumMapInsert(processed, l, share);
  }

  lemma SummedAll(machine: KeyMachine, shares: Received, secret: Scalar, processed: map<Participant, Scalar>)
    requires Summed(machine, shares, {}, secret, processed)
    ensures SecretOf(machine, shares, secret) && processed.Keys == shares.Keys
  {
    assert processed == Decrypted(shares);
  }

  /** With every share valid, the secret matches the commitments. */
  lemma GoodSecret(machine: KeyMachine, shares: Received, secret: Scalar)
    requires machine.Valid() && Complete(machine, shares) && AllGood(machine, shares)
    requires SecretOf(machine, shares, secret)
    ensures PolyPoint(Stripes(machine.commitments, machine.params.t), machine.params.i) == Scale(secret, Generator)
  {
    forall l | l in shares ensures Holds(machine, shares, Share(l)) { assert Share(l).l in shares; }
    SecretMatches(machine, Decrypted(shares), secret);
  }

  lemma SumMapInsert(m: map<Participant, Scalar>, k: Participant, x: Scalar)
    requires k !in m
    ensures SumMap(m[k := x]) == SumMap(m) + x
  {
    var n: map<Participant, int> := m[k := x];
    SumMapRemove(n, k);
    assert n - {k} == m;
  }

  /** Everyone's proof and share hold. */
  ghost predicate AllGood(machine: KeyMachine, shares: Received)
    requires machine.Valid() && Complete(machine, shares)
  {
    forall id: BatchId :: id.l in shares ==> Holds(machine, shares, id)
  }

  ghost predicate Bad(machine: KeyMachine, shares: Received, bad: BatchId)
    requires machine.Valid() && Complete(machine, shares)
  {
    bad.l in shares && !Holds(machine, shares, bad)
  }

  ghost predicate OnlyBad(machine: KeyMachine, shares: Received, bad: BatchId)
    requires machine.Valid() && Complete(machine, shares)
  {
    Bad(machine, shares, bad) && forall id: BatchId :: id.l in shares && id != bad ==> Holds(machine, shares, id)
  }

  /** Verifies the shares: the secret share, unless a proof or a share doesn't hold. */
  method VerifyShares(machine: KeyMachine, shares: Received, weight: BatchId -> NonZero)
    returns (r: Result<Scalar, BatchId>)
    requires machine.Valid() && Complete(machine, shares)
    ensures AllGood(machine, shares) ==>
              var stripes := Stripes(machine.commitments, machine.params.t);
              r.Ok? && PolyPoint(stripes, machine.params.i) == Scale(r.value, Generator)
    ensures r.Err? ==> Bad(machine, shares, r.error)
    ensures forall bad: BatchId :: OnlyBad(machine, shares, bad) ==> r == Err(bad)
    ensures r.Ok? ==> SecretOf(machine, shares, r.value)
  {
    var batch := new BatchVerifier<BatchId>();
    var summed := SumShares(machine, shares, weight, batch);
    if summed.Err? {
      assert !Holds(machine, shares, Share(summed.error));
      return Err(Share(summed.error));
    }
    var verdict := batch.VerifyWithVartimeBlame(false);
    Verdicts(machine, shares, batch, verdict);
    if AllGood(machine, shares) { GoodSecret(machine, shares, summed.value); }
    r := if verdict.Err? then Err(verdict.error) else Ok(summed.value);
  }

  /** Stripes the commitments, and assembles the keys. */
  method DeriveKeys(machine: KeyMachine, secret: Scalar) returns (core: ThresholdCore)
    requires machine.Valid()
    ensures core.groupKey == Stripes(machine.commitments, machine.params.t)[0] && core.secretShare == secret
    ensures PolyPoint(Stripes(machine.commitments, machine.params.t), machine.params.i) == Scale(secret, Generator) ==>
              Derived(core, machine.params, machine.commitments)
  {
    var stripes := [];
    for t := 0 to machine.params.t
      invariant stripes == Stripes(machine.commitments, machine.params.t)[..t]
    {
      var stripe := Stripe(machine.commitments, t);
      stripes := stripes + [stripe];
    }
    assert stripes == Stripes(machine.commitments, machine.params.t);
    var verificationShares := VerificationShares(machine.params, secret, stripes);
    core := ThresholdCore(machine.params, secret, stripes[0], verificationShares);
  }

  /** Calculate our share given the shares sent to us. If every proof and share holds, the keys are the ones the
      commitments determine; someone is only blamed for what doesn't hold, with a proof for a share and without one
      for a proof of possession; and what alone doesn't hold is blamed. */
  method CalculateShare(machine: KeyMachine, shares: Received, weight: BatchId -> NonZero)
    returns (r: Result<ThresholdCore, DkgError>)
    requires machine.Valid()
    ensures Complete(machine, shares) ==>
              && (AllGood(machine, shares) ==> r.Ok? && Derived(r.value, machine.params, machine.commitments))
              && (r.Err? ==> r.error.InvalidShare? && r.error.participant in shares)
              && (forall l :: r == Err(InvalidShare(l, true)) ==> !Holds(machine, shares, Share(l)))
              && (forall l :: r == Err(InvalidShare(l, false)) ==> !Holds(machine, shares, Decryption(l)))
              && (forall l :: OnlyBad(machine, shares, Share(l)) ==> r == Err(InvalidShare(l, true)))
              && (forall l :: OnlyBad(machine, shares, Decryption(l)) ==> r == Err(InvalidShare(l, false)))
    ensures Complete(machine, shares) && r.Ok? ==>
              && SecretOf(machine, shares, r.value.secretShare)
              && r.value.groupKey == Stripes(machine.commitments, machine.params.t)[0]
    ensures !Complete(machine, shares) ==> r.Err? && !r.error.InvalidShare?
  {
    var valid := ValidateMap(shares, Range(machine.params.n), machine.params.i);
    CompleteIsValidated(machine, shares);
    if valid.Err? { return Err(valid.error); }

    var secret := VerifyShares(machine, shares, weight);
    if secret.Err? {
      match secret.error {
        case Decryption(l) => return Err(InvalidShare(l, false));
        case Share(l) => return Err(InvalidShare(l, true));
      }
    }

    var core := DeriveKeys(machine, secret.value);
    r := Ok(core);
  }

  /** `validate_map` accepts exactly a share from everyone else. */
  lemma CompleteIsValidated(machine: KeyMachine, shares: Received)
    requires machine.params.Valid()
    ensures Complete(machine, shares) <==>
              |shares| + 1 == |Range(machine.params.n)| &&
              forall l :: l in Range(machine.params.n) ==> (l in shares <==> l != machine.params.i)
  {
    var n, i := machine.params.n, machine.params.i;
    RangeMembers(n);
    UpToSize(n);
    var others := UpTo(n) - {i};
    if |shares| + 1 == n && forall l :: l in Range(n) ==> (l in shares <==> l != i) {
      assert others <= shares.Keys;
      SubsetOfSameSize(others, shares.Keys);
    }
  }

  lemma SubsetOfSameSize(a: set<Participant>, b: set<Participant>)
    requires a <= b && |a| == |b|
    ensures a == b
  {
    assert |b - a| == 0;
  }

  /** What a verdict on the batch says about the shares. */
  lemma Verdicts(machine: KeyMachine, shares: Received, batch: BatchVerifier<BatchId>, verdict: Result<(), BatchId>)
    requires machine.Valid() && Complete(machine, shares) && batch.Valid()
    requires Queued(machine, shares, Both(shares.Keys), batch.queued) && batch.Verdict(verdict)
    ensures AllGood(machine, shares) ==> verdict.Ok?
    ensures verdict.Err? ==> Bad(machine, shares, verdict.error)
    ensures forall bad: BatchId :: OnlyBad(machine, shares, bad) ==> verdict == Err(bad)
  {
    forall bad: BatchId | OnlyBad(machine, shares, bad) ensures verdict == Err(bad) {
      assert bad in Both(shares.Keys);
      var k :| 0 <= k < |batch.queued| && batch.queued[k].0 == bad;
      assert batch.Faulty(k);
      forall j | 0 <= j < |batch.queued| && j != k ensures !batch.Faulty(j) {
        assert batch.queued[j].0 != bad && batch.queued[j].0 in Both(shares.Keys);
      }
    }
  }
}
