/** FROST signing with the Schnorr algorithm: a signer's share, and the signature from everyone's. */
module Signing {
  import opened Wrappers
  import opened Scalars
  import opened Points
  import opened Sums
  import opened Lagrange
  import opened MultiExponentiation
  import opened Batch
  import opened Schnorr
  import opened ThresholdKeys
  import opened KeyView
  import opened Sequences
  import opened KeyGen
  import opened Nonces

  datatype FrostError =
    | InvalidSigningSet
    | InvalidParticipant(n: nat, participant: Participant)
    | DuplicatedParticipant(participant: Participant)
    | InvalidParticipantQuantity(expected: nat, got: nat)
    | MissingParticipant(participant: Participant)
    | InvalidShare(participant: Participant)
    | InternalError

  /** The Schnorr algorithm plans one nonce, by one generator. */
  function Planned(): Generators { [[Generator]] }

  /** The hash to a challenge, of which nothing is assumed. */
  const Hram: (Point, Point, seq<nat>) -> Scalar

  /** Both nonces of a signer. */
  datatype NoncePair = NoncePair(d: Scalar, e: Scalar)

  ghost function CommitNonces(nonces: NoncePair): Commitments {
    [[GeneratorCommitments(Scale(nonces.d, Generator), Scale(nonces.e, Generator))]]
  }

  // What a session determines

  /** A signing session: the signers in order, what each committed to, and the message. */
  datatype Session = Session(
    context: seq<nat>, msg: seq<nat>, included: seq<Participant>, commitments: map<Participant, Commitments>)
  {
    ghost predicate Valid() {
      && SigningList(included, commitments.Keys)
      && forall l :: l in commitments ==> Shaped(commitments[l], Planned())
    }
  }

  function Ordered(commitments: map<Participant, Commitments>,
                   included: seq<Participant>): seq<(Participant, Commitments)>
    requires Members(included) <= commitments.Keys
  {
    seq(|included|, k requires 0 <= k < |included| =>
      assert included[k] in Members(included);
      (included[k], commitments[included[k]]))
  }

  /** The binding factors are drawn from the group key with the offset added once more. */
  ghost function TranscriptOf(k: Keys, session: Session): Transcript
    requires session.Valid()
  {
    Transcript(session.context, Plus(GroupKey(k), Scale(CurrentOffset(k), Generator)), session.msg,
               Ordered(session.commitments, session.included))
  }

  lemma OrderedAt(commitments: map<Participant, Commitments>, included: seq<Participant>, j: nat)
    requires Members(included) <= commitments.Keys && j < |included|
    ensures |Ordered(commitments, included)| == |included|
    ensures included[j] in commitments && Ordered(commitments, included)[j] == (included[j], commitments[included[j]])
  {
    assert included[j] in Members(included);
  }

  /** The transcript commits to the whole session: with one transcript, two sessions have one context, one message,
      the same signers in the same order, and the same commitments by each of them. */
  lemma TranscriptBinds(a: Keys, b: Keys, s: Session, t: Session)
    requires s.Valid() && t.Valid() && TranscriptOf(a, s) == TranscriptOf(b, t)
    ensures s.context == t.context && s.msg == t.msg && s.included == t.included && s.commitments == t.commitments
  {
    var p, q := Ordered(s.commitments, s.included), Ordered(t.commitments, t.included);
    assert p == q;
    assert |p| == |s.included| by { OrderedAt(s.commitments, s.included, 0); }
    assert |q| == |t.included| by { OrderedAt(t.commitments, t.included, 0); }
    forall j | 0 <= j < |s.included|
      ensures s.included[j] == t.included[j]
      ensures s.commitments[s.included[j]] == t.commitments[t.included[j]]
    {
      OrderedAt(s.commitments, s.included, j);
      OrderedAt(t.commitments, t.included, j);
    }
    forall l | l in s.commitments ensures l in t.commitments && s.commitments[l] == t.commitments[l] {
      assert l in Members(s.included);
    }
  }

  /** The transcript holds the group key signed with exactly if there isn't an offset, given a generator which isn't
      the identity: the key the offset is added to already has it. */
  lemma TranscriptKey(k: Keys, session: Session)
    requires session.Valid()
    ensures TranscriptOf(k, session).groupKey == Plus(k.core.groupKey, Scale(2 * CurrentOffset(k), Generator))
    ensures TranscriptOf(k, session).groupKey == GroupKey(k) <==> CurrentOffset(k) == 0 || Generator == Identity
  {
    var o, g, shift := CurrentOffset(k), GroupKey(k), Scale(CurrentOffset(k), Generator);
    ScaleAdd(o, o, Generator);
    PlusLaws(k.core.groupKey, shift, shift);
    PlusLaws(g, shift, Identity);
    ScaleZeroOne(Generator);
    if o != 0 { ScaleCancel(o, Generator); }
    if Plus(g, shift) == g {
      PlusLaws(shift, g, Identity);
      PlusLaws(Identity, g, Identity);
      PlusCancel(shift, Identity, g);
    }
  }

  /** With an offset of one, the transcript's key isn't the group key. */
  lemma TranscriptKeyDiffers(k: Keys, session: Session)
    requires session.Valid() && Generator != Identity && k.offset == Some(1)
    ensures TranscriptOf(k, session).groupKey != GroupKey(k)
  {
    TranscriptKey(k, session);
  }

  ghost function Rho(k: Keys, session: Session, l: Participant): Scalar
    requires session.Valid()
  {
    HashBindingFactor(TranscriptOf(k, session), l, 0)
  }

  ghost function BoundNonce(k: Keys, session: Session, l: Participant): Point
    requires session.Valid() && l in session.commitments
  {
    Bind(session.commitments[l][0][0], Rho(k, session, l))
  }

  ghost function BoundNonces(k: Keys, session: Session): map<Participant, Point>
    requires session.Valid()
  {
    map l | l in session.commitments :: BoundNonce(k, session, l)
  }

  ghost function SessionNonce(k: Keys, session: Session): Point
    requires session.Valid()
  {
    PointSum(BoundNonces(k, session))
  }

  ghost function Challenge(k: Keys, session: Session): Scalar
    requires session.Valid()
  {
    Hram(SessionNonce(k, session), GroupKey(k), session.msg)
  }

  ghost function ShareOf(k: Keys, session: Session, nonces: NoncePair): Scalar
    requires session.Valid()
  {
    SignWith(ViewSecret(k, session.included),
             FAdd(FMul(nonces.e, Rho(k, session, k.core.params.i)), nonces.d),
             Challenge(k, session))
  }

  // Honest signers

  lemma BoundCommitment(nonces: NoncePair, rho: Scalar)
    ensures Bind(CommitNonces(nonces)[0][0], rho) == Scale(FAdd(FMul(nonces.e, rho), nonces.d), Generator)
  {
    var e: int, d: int, r: int := nonces.e, nonces.d, rho;
    FMulCong(nonces.e, rho);
    FAddCong(FMul(nonces.e, rho), nonces.d);
    CongAdd(FMul(nonces.e, rho), e * r, d, d);
    ScaleCong(FAdd(FMul(nonces.e, rho), nonces.d), e * r + d, Generator);
    ScaleAdd(e * r, d, Generator);
    assert e * r == r * e;
    ScaleMul(r, e, Generator);
    PlusLaws(Scale(d, Generator), Scale(e * r, Generator), Identity);
  }

  /** Signers with keys of one group see one session: the same nonce sum and the same challenge. */
  lemma SessionAgrees(a: Keys, b: Keys, session: Session)
    requires session.Valid() && GroupKey(a) == GroupKey(b) && CurrentOffset(a) == CurrentOffset(b)
    ensures BoundNonces(a, session) == BoundNonces(b, session)
    ensures SessionNonce(a, session) == SessionNonce(b, session)
    ensures Challenge(a, session) == Challenge(b, session)
  {
    assert TranscriptOf(a, session) == TranscriptOf(b, session);
  }

  /** The share of an honest signer is valid to every signer of the group. */
  lemma HonestShare(a: Keys, b: Keys, i: Participant, j: Participant, shares: map<Participant, Point>, groupKey: Point,
                    offset: Scalar,
                    session: Session, nonces: NoncePair)
    requires HeldBy(a, i, shares, groupKey, offset) && HeldBy(b, j, shares, groupKey, offset)
    requires session.Valid() && i in session.commitments && session.commitments[i] == CommitNonces(nonces)
    ensures Verifies(Signature(BoundNonce(b, session, i), ShareOf(a, session, nonces)),
                     ViewShare(b, session.included, i), Challenge(b, session))
  {
    SessionAgrees(a, b, session);
    ViewShareMatches(a, i, shares, groupKey, offset, session.included);
    assert ViewShare(a, session.included, i) == ViewShare(b, session.included, i);
    BoundCommitment(nonces, Rho(a, session, i));
    var nonce := FAdd(FMul(nonces.e, Rho(a, session, i)), nonces.d);
    SignVerifies(ViewSecret(a, session.included), nonce, Challenge(a, session));
  }

  // Shares and the signature

  /** Everyone's share of the equation sG = R + cA: their bound nonce, verification share and response. */
  datatype Equations = Equations(
    bounds: map<Participant, Point>, shares: map<Participant, Point>, c: Scalar, responses: map<Participant, Scalar>)
  {
    ghost predicate Valid() {
      bounds.Keys == shares.Keys == responses.Keys
    }

    ghost predicate Holds(l: Participant)
      requires Valid() && l in responses
    {
      Verifies(Signature(bounds[l], responses[l]), shares[l], c)
    }

    /** Whose shares are valid. */
    ghost function Verdicts(): map<Participant, bool>
      requires Valid()
    {
      map l | l in responses :: Holds(l)
    }

    ghost function Signed(): Signature {
      Signature(PointSum(bounds), Residue(SumMap(responses)))
    }

    ghost predicate Completes() {
      Verifies(Signed(), PointSum(shares), c)
    }
  }

  ghost function LeftSides(eqs: Equations): map<Participant, Point> {
    map l | l in eqs.responses :: Scale(eqs.responses[l], Generator)
  }

  ghost function RightSides(eqs: Equations): map<Participant, Point>
    requires eqs.Valid()
  {
    map l | l in eqs.bounds :: Plus(eqs.bounds[l], Scale(eqs.c, eqs.shares[l]))
  }

  /** The signature's equation is the sum of the shares' equations. */
  lemma EquationsSum(eqs: Equations)
    requires eqs.Valid()
    ensures eqs.Completes() <==> PointSum(LeftSides(eqs)) == PointSum(RightSides(eqs))
  {
    var sum := SumMap(eqs.responses);
    PointSumOfMultiples(eqs.responses, Generator, LeftSides(eqs));
    CongResidue(sum);
    ScaleCong(Residue(sum), sum, Generator);
    var scaled := map l | l in eqs.shares :: Scale(eqs.c, eqs.shares[l]);
    PointSumScale(eqs.shares, eqs.c, scaled);
    PointSumPlus(eqs.bounds, scaled, RightSides(eqs));
  }

  /** Valid shares add up to a valid signature. */
  lemma ValidSharesComplete(eqs: Equations)
    requires eqs.Valid() && forall l :: l in eqs.responses ==> eqs.Holds(l)
    ensures eqs.Completes()
  {
    EquationsSum(eqs);
    assert LeftSides(eqs) == RightSides(eqs);
  }

  /** One invalid share spoils the signature. */
  lemma InvalidShareSpoils(eqs: Equations, bad: Participant)
    requires eqs.Valid() && bad in eqs.responses && !eqs.Holds(bad)
    requires forall l :: l in eqs.responses && l != bad ==> eqs.Holds(l)
    ensures !eqs.Completes()
  {
    EquationsSum(eqs);
    var left: map<Participant, Point>, right: map<Participant, Point> := LeftSides(eqs), RightSides(eqs);
    PointSumRemove(left, bad);
    PointSumRemove(right, bad);
    assert left - {bad} == right - {bad};
    if PointSum(left) == PointSum(right) {
      PlusCancel(left[bad], right[bad], PointSum(left - {bad}));
    }
  }

  // Honest sessions

  ghost function HonestShares(keys: map<Participant, Keys>, nonces: map<Participant, NoncePair>,
                              session: Session): map<Participant, Scalar>
    requires session.Valid() && keys.Keys <= nonces.Keys
  {
    map i | i in keys :: ShareOf(keys[i], session, nonces[i])
  }

  /** A signer's equations for the session. */
  ghost function SessionEquations(k: Keys, session: Session, responses: map<Participant, Scalar>): Equations
    requires session.Valid() && session.commitments.Keys <= k.core.verificationShares.Keys
  {
    Equations(BoundNonces(k, session), ViewShares(k, session.included, session.commitments.Keys),
              Challenge(k, session), responses)
  }

  /** For any signing set whose keys interpolate to the group key, with any offset, everyone's honest shares
      are valid to everyone and add up to a signature by the offset group key. */
  lemma HonestSession(keys: map<Participant, Keys>, shares: map<Participant, Point>, groupKey: Point, offset: Scalar,
                      nonces: map<Participant, NoncePair>, session: Session, j: Participant)
    requires SigningKeys(keys, shares, groupKey, offset) && session.Valid() && j in keys
    requires keys.Keys == nonces.Keys == session.commitments.Keys
    requires forall i :: i in keys ==> session.commitments[i] == CommitNonces(nonces[i])
    ensures PointSum(ViewShares(keys[j], session.included, session.commitments.Keys)) == GroupKey(keys[j])
    ensures GroupKey(keys[j]) == Plus(groupKey, Scale(offset, Generator))
    ensures var eqs := SessionEquations(keys[j], session, HonestShares(keys, nonces, session));
            eqs.Valid() && eqs.Completes() && forall i :: i in keys ==> eqs.Holds(i)
  {
    var eqs := SessionEquations(keys[j], session, HonestShares(keys, nonces, session));
    forall i | i in keys ensures eqs.Holds(i) {
      HonestShare(keys[i], keys[j], i, j, shares, groupKey, offset, session, nonces[i]);
    }
    ValidSharesComplete(eqs);
    ViewSharesSum(keys[j], session.included, keys.Keys);
  }

  // The first round's other half: binding the nonces and producing a share

  ghost predicate KeysValid(k: Keys) {
    k.core.params.Valid() && k.core.verificationShares.Keys == UpTo(k.core.params.n)
  }

  /** Our index and everyone else's, in any order. */
  method Collect(i: Participant, others: set<Participant>) returns (included: seq<Participant>)
    ensures multiset(included) == multiset(others) + multiset{i}
  {
    included := [i];
    var left := others;
    while left != {}
      invariant left <= others
      invariant multiset(included) + multiset(left) == multiset(others) + multiset{i}
    {
      var l :| l in left;
      included := included + [l];
      left := left - {l};
    }
  }

  lemma CollectedMembers(included: seq<Participant>, i: Participant, others: set<Participant>)
    requires multiset(included) == multiset(others) + multiset{i}
    ensures Members(included) == others + {i} && |included| == |others| + 1
    ensures i !in others ==> Distinct(included)
  {
    assert |included| == |multiset(included)| && |multiset(others)| == |others|;
    forall l ensures l in included <==> l in others + {i} { assert l in included <==> l in multiset(included); }
    if i !in others {
      forall a, b | 0 <= a < b < |included| ensures included[a] != included[b] {
        if included[a] == included[b] { TwiceIn(included, a, b); }
      }
    }
  }

  /** Two equal neighbours can only be our own index, given by someone else too. */
  lemma Repeated(included: seq<Participant>, i: Participant, others: set<Participant>, j: nat)
    requires multiset(included) == multiset(others) + multiset{i}
    requires j + 1 < |included| && included[j] == included[j + 1]
    ensures included[j] == i && i in others
  {
    TwiceIn(included, j, j + 1);
  }

  lemma Unrepeated(included: seq<Participant>, i: Participant, others: set<Participant>)
    requires multiset(included) == multiset(others) + multiset{i} && Sorted(included)
    requires forall k :: 0 <= k < |included| - 1 ==> included[k] != included[k + 1]
    ensures i !in others
  {
    forall a, b | 0 <= a < b < |included| ensures included[a] != included[b] {
      assert included[a] <= included[a + 1] && included[a] != included[a + 1];
      assert a + 1 == b || included[a + 1] <= included[b];
    }
    OnceIn(included, i);
  }

  ghost predicate TooFew(k: Keys, others: set<Participant>) { |others| + 1 < k.core.params.t }

  ghost predicate OutOfBounds(k: Keys, others: set<Participant>) { exists l :: l in others && l > k.core.params.n }

  ghost predicate Accepted(k: Keys, others: set<Participant>) {
    !TooFew(k, others) && !OutOfBounds(k, others) && k.core.params.i !in others
  }

  /** The error for a signing set that isn't accepted. */
  ghost predicate Refused(k: Keys, others: set<Participant>, e: FrostError) {
    if TooFew(k, others) then e == FrostError.InvalidSigningSet
    else if OutOfBounds(k, others) then
      && e.InvalidParticipant? && e.n == k.core.params.n
      && e.participant in others && forall l :: l in others ==> l <= e.participant
    else k.core.params.i in others && e == FrostError.DuplicatedParticipant(k.core.params.i)
  }

  /** The checks on the signing set, in order. */
  method SigningSet(k: Keys, others: set<Participant>) returns (r: Result<seq<Participant>, FrostError>)
    requires KeysValid(k)
    ensures r.Ok? <==> Accepted(k, others)
    ensures r.Err? ==> Refused(k, others, r.error)
    ensures r.Ok? ==> Sorted(r.value) && SigningList(r.value, others + {k.core.params.i})
  {
    var i := k.core.params.i;
    var collected := Collect(i, others);
    var included := Sort(collected);
    SortIsSorted(collected);
    CollectedMembers(included, i, others);
    if |included| < k.core.params.t {
      return Err(FrostError.InvalidSigningSet);
    }
    var last := included[|included| - 1];
    assert last in Members(included);
    forall l | l in others ensures l <= last { assert l in Members(included); }
    if last > k.core.params.n {
      return Err(FrostError.InvalidParticipant(k.core.params.n, last));
    }
    for j := 0 to |included| - 1
      invariant forall m :: 0 <= m < j ==> included[m] != included[m + 1]
    {
      if included[j] == included[j + 1] {
        Repeated(included, i, others, j);
        return Err(FrostError.DuplicatedParticipant(included[j]));
      }
    }
    Unrepeated(included, i, others);
    r := Ok(included);
  }

  /** A signer of the session, between both rounds. */
  datatype SignatureMachine = SignatureMachine(
    keys: Keys, view: View, B: Bindings, Rs: seq<seq<Point>>, share: Scalar, c: Scalar)
  {
    ghost predicate Valid() {
      && Distinct(view.included) && Members(view.included) == B.Keys <= view.verificationShares.Keys
      && keys.core.params.i in view.included
      && AllBound(B, Planned()) && Rs == [[PointSum(BoundsOf(B, 0, 0))]]
    }

    /** Everyone's equations, with the given responses. */
    ghost function Shares(responses: map<Participant, Scalar>): Equations
      requires Valid()
    {
      Equations(BoundsOf(B, 0, 0), map l | l in B :: view.verificationShares[l], c, responses)
    }

    ghost predicate For(session: Session) {
      && session.Valid() && session.commitments.Keys <= keys.core.verificationShares.Keys
      && keys.core.params.i in session.commitments
      && view == ViewOf(keys, session.included)
      && BoundFor(B, keys, session)
      && Rs == [[SessionNonce(keys, session)]]
      && c == Challenge(keys, session)
    }
  }

  /** A machine for a session holds the session's equations. */
  lemma MachineEquations(machine: SignatureMachine, session: Session, responses: map<Participant, Scalar>)
    requires machine.For(session)
    ensures machine.Valid() && machine.Shares(responses) == SessionEquations(machine.keys, session, responses)
  {
    BoundForNonces(machine.B, machine.keys, session);
    assert machine.keys.core.params.i in Members(session.included);
    assert forall l :: l in session.commitments ==>
                         machine.view.verificationShares[l] == ViewShare(machine.keys, session.included, l);
  }

  ghost predicate BoundFor(bindings: map<Participant, IndividualBinding>, k: Keys, session: Session)
    requires session.Valid()
  {
    && bindings.Keys == session.commitments.Keys
    && forall l :: l in bindings ==>
         bindings[l] ==
           IndividualBinding(session.commitments[l], Some([HashBindingFactor(TranscriptOf(k, session), l, 0)]))
  }

  ghost function Unbound(commitments: map<Participant, Commitments>, s: set<Participant>): map<Participant,
                         IndividualBinding>
    requires s <= commitments.Keys
  {
    map l | l in s :: IndividualBinding(commitments[l], None)
  }

  /** The loop over the signers which inserts their commitments. */
  method InsertAll(B: BindingFactor, i: Participant, ours: Commitments, preprocesses: map<Participant, Commitments>,
                   included: seq<Participant>)
    requires B.bindings == map[] && Members(included) == preprocesses.Keys + {i}
    modifies B
    ensures B.bindings == Unbound(preprocesses[i := ours], Members(included))
  {
    ghost var all := preprocesses[i := ours];
    for k := 0 to |included|
      invariant Members(included[..k]) <= all.Keys
      invariant B.bindings == Unbound(all, Members(included[..k]))
    {
      var l := included[k];
      LastOf(included, k);
      if l == i {
        B.Insert(l, ours);
      } else {
        B.Insert(l, preprocesses[l]);
      }
    }
    assert included[..|included|] == included;
  }

  lemma LastOf(s: seq<Participant>, k: nat)
    requires k < |s|
    ensures Members(s[..k + 1]) == Members(s[..k]) + {s[k]} && Members(s[..k + 1]) <= Members(s)
  {
    assert s[..k + 1] == s[..k] + [s[k]];
  }

  /** Binding everyone's commitments, and the sum of the bound nonces. */
  method BindNonces(k: Keys, session: Session, preprocesses: map<Participant, Commitments>, ours: Commitments)
    returns (B: BindingFactor, Rs: seq<seq<Point>>)
    requires session.Valid() && session.commitments == preprocesses[k.core.params.i := ours]
    ensures fresh(B) && BoundFor(B.bindings, k, session)
    ensures Rs == [[SessionNonce(k, session)]]
  {
    B := new BindingFactor();
    InsertAll(B, k.core.params.i, ours, preprocesses, session.included);
    var shift := ScalePoint(CurrentOffset(k), Generator);
    var groupKey := Plus(Plus(k.core.groupKey, shift), shift);
    var ordered := Ordered(session.commitments, session.included);
    var transcript := Transcript(session.context, groupKey, session.msg, ordered);
    assert transcript == TranscriptOf(k, session);
    B.CalculateBindingFactors(transcript);
    FactorsBind(B.bindings, k, session);
    BoundForNonces(B.bindings, k, session);
    Rs := B.Nonces(Planned());
    assert Rs == [Rs[0]] && Rs[0] == [Rs[0][0]];
  }

  lemma FactorsBind(bindings: map<Participant, IndividualBinding>, k: Keys, session: Session)
    requires session.Valid() && bindings.Keys == session.commitments.Keys
    requires forall l :: l in bindings ==>
              bindings[l].BoundBy(IndividualBinding(session.commitments[l], None), TranscriptOf(k, session), l)
    ensures BoundFor(bindings, k, session)
  {
    forall l | l in bindings
      ensures bindings[l] == IndividualBinding(session.commitments[l], Some([Rho(k, session, l)]))
    {
      assert Factors(TranscriptOf(k, session), l, 1) == [Rho(k, session, l)];
    }
  }

  lemma BoundForNonces(bindings: Bindings, k: Keys, session: Session)
    requires session.Valid() && BoundFor(bindings, k, session)
    ensures AllBound(bindings, Planned()) && BoundsOf(bindings, 0, 0) == BoundNonces(k, session)
  {}

  lemma SigningSetFits(k: Keys, session: Session, preprocesses: map<Participant, Commitments>, ours: Commitments)
    requires KeysValid(k) && Accepted(k, preprocesses.Keys)
    requires Shaped(ours, Planned()) && forall l :: l in preprocesses ==> Shaped(preprocesses[l], Planned())
    requires session.commitments == preprocesses[k.core.params.i := ours]
    requires SigningList(session.included, preprocesses.Keys + {k.core.params.i})
    ensures session.Valid() && session.commitments.Keys <= UpTo(k.core.params.n)
    ensures k.core.params.t <= |session.included| <= k.core.params.n
  {
    MembersSize(session.included);
    UpToSize(k.core.params.n);
    var others, i := preprocesses.Keys, k.core.params.i;
    WithOurs(others, i, k.core.params.n);
    assert session.commitments.Keys == others + {i};
  }

  lemma WithOurs(others: set<Participant>, i: Participant, n: nat)
    requires n <= 65535 && i !in others && i <= n && forall l :: l in others ==> l <= n
    ensures others + {i} <= UpTo(n) && |others + {i}| == |others| + 1 <= |UpTo(n)|
  {
    var all, some := UpTo(n), others + {i};
    assert |all - some| == |all| - |some|;
  }

  /** `sign`: with enough signers, all of them known and none given twice, a share for the session they
      form. */
  method Sign(k: Keys, nonces: NoncePair, ours: Commitments, preprocesses: map<Participant, Commitments>,
              context: seq<nat>, msg: seq<nat>)
    returns (r: Result<(SignatureMachine, Scalar), FrostError>, ghost session: Session)
    requires KeysValid(k)
    requires Shaped(ours, Planned()) && forall l :: l in preprocesses ==> Shaped(preprocesses[l], Planned())
    ensures r.Ok? <==> Accepted(k, preprocesses.Keys)
    ensures r.Err? ==> Refused(k, preprocesses.Keys, r.error)
    ensures r.Ok? ==>
              && session == Session(context, msg, session.included, preprocesses[k.core.params.i := ours])
              && Sorted(session.included)
              && r.value.0.For(session) && r.value.0.keys == k
              && r.value.1 == r.value.0.share == ShareOf(k, session, nonces)
  {
    session := Session(context, msg, [], map[]);
    var checked := SigningSet(k, preprocesses.Keys);
    if checked.Err? {
      return Err(checked.error), session;
    }
    var included := checked.value;
    var open := Session(context, msg, included, preprocesses[k.core.params.i := ours]);
    SigningSetFits(k, open, preprocesses, ours);
    var machine := SignSession(k, nonces, ours, preprocesses, open);
    session := open;
    r := Ok((machine, machine.share));
  }

  /** Signing, with the signing set already checked. */
  method SignSession(k: Keys, nonces: NoncePair, ours: Commitments, preprocesses: map<Participant, Commitments>,
                     session: Session)
    returns (machine: SignatureMachine)
    requires KeysValid(k) && session.Valid() && session.commitments == preprocesses[k.core.params.i := ours]
    requires k.core.params.i !in preprocesses
    requires Sorted(session.included) && session.commitments.Keys <= UpTo(k.core.params.n)
    requires k.core.params.t <= |session.included| <= k.core.params.n
    ensures machine.For(session) && machine.keys == k
    ensures machine.share == ShareOf(k, session, nonces)
  {
    SortedIsSorted(session.included);
    assert session.included[0] in Members(session.included);
    var view := ViewKeys(k, session.included);
    assert k.core.params.i in Members(session.included);
    var valid := ValidateOthers(preprocesses, session.included, k.core.params.i);
    assert valid.Ok?;
    var B, Rs := BindNonces(k, session, preprocesses, ours);
    var c := Hram(Rs[0][0], view.value.groupKey, session.msg);
    var nonce := FAdd(FMul(nonces.e, B.bindings[k.core.params.i].bindingFactors.value[0]), nonces.d);
    var share := SignWith(view.value.secretShare, nonce, c);
    machine := SignatureMachine(k, view.value, B.bindings, Rs, share, c);
  }

  lemma SortedIsSorted(s: seq<Participant>)
    requires Sorted(s)
    ensures Sort(s) == s
  {
    SortIsSorted(s);
    SortedUnique(Sort(s), s);
  }

  /** A map passes `validate_map` exactly if it is of everyone else. */
  lemma OthersValidate<T>(m: map<Participant, T>, included: seq<Participant>, i: Participant)
    requires Distinct(included) && i in included
    ensures m.Keys == Members(included) - {i} <==>
              |m| + 1 == |included| && forall l :: l in included ==> (l in m <==> l != i)
  {
    MembersSize(included);
    var others := Members(included) - {i};
    OneLess(Members(included), i);
    if |m| + 1 == |included| && forall l :: l in included ==> (l in m <==> l != i) {
      forall l | l in others ensures l in m { assert l in included; }
      SubsetOfSameSize(others, m.Keys);
    }
  }

  lemma OneLess(s: set<Participant>, i: Participant)
    requires i in s
    ensures |s - {i}| == |s| - 1
  {
    assert s == (s - {i}) + {i};
  }

  /** The error for a map which isn't of everyone included but us: of its size, or of the first who is or isn't in it
      wrongly. */
  ghost predicate WrongMap(keys: set<Participant>, included: seq<Participant>, i: Participant, e: FrostError) {
    if |keys| + 1 != |included| then e == FrostError.InvalidParticipantQuantity(|included|, |keys| + 1)
    else
      exists k: nat ::
        && FirstMisplaced(keys, included, i, k)
        && e == if included[k] == i then FrostError.DuplicatedParticipant(i)
                else FrostError.MissingParticipant(included[k])
  }

  function OfMap(e: DkgError): FrostError {
    match e
    case InvalidParticipantQuantity(expected, got) => FrostError.InvalidParticipantQuantity(expected, got)
    case MissingParticipant(l) => FrostError.MissingParticipant(l)
    case DuplicatedParticipant(l) => FrostError.DuplicatedParticipant(l)
    case _ => FrostError.InternalError
  }

  method ValidateOthers<T>(m: map<Participant, T>, included: seq<Participant>, i: Participant)
    returns (r: Result<(), FrostError>)
    requires Distinct(included) && i in included
    ensures r.Ok? <==> m.Keys == Members(included) - {i}
    ensures r.Err? ==> WrongMap(m.Keys, included, i, r.error)
  {
    OthersValidate(m, included, i);
    var valid := ValidateMap(m, included, i);
    r := if valid.Ok? then Ok(()) else Err(OfMap(valid.error));
  }

  // The second round

  /** The sum of everyone's shares. */
  method SumResponses(i: Participant, share: Scalar, shares: map<Participant, Scalar>)
    returns (responses: map<Participant, Scalar>, sum: Scalar)
    requires i !in shares
    ensures responses == shares[i := share] && sum == Residue(SumMap(responses))
  {
    responses := map[i := share];
    sum := share;
    var left := shares.Keys;
    assert map[i := share] - {i} == map[];
    SumMapRemove(map[i := share], i);
    while left != {}
      invariant left <= shares.Keys
      invariant responses.Keys == shares.Keys - left + {i}
      invariant forall l :: l in responses ==> responses[l] == shares[i := share][l]
      invariant Cong(sum, SumMap(responses))
    {
      var l :| l in left;
      ghost var before := responses;
      FAddCong(sum, shares[l]);
      responses := responses[l := shares[l]];
      SumMapRemove(responses, l);
      assert responses - {l} == before;
      CongAdd(sum, SumMap(before), shares[l], shares[l]);
      sum := FAdd(sum, shares[l]);
      left := left - {l};
    }
    ResidueReduced(sum);
  }

  ghost predicate Bad(verdicts: map<Participant, bool>, l: Participant) {
    l in verdicts && !verdicts[l]
  }

  ghost predicate OnlyBad(verdicts: map<Participant, bool>, l: Participant) {
    Bad(verdicts, l) && forall m :: m in verdicts && m != l ==> verdicts[m]
  }

  ghost predicate QueuedFor(queued: seq<(Participant, seq<Pair>)>, included: seq<Participant>,
                            verdicts: map<Participant, bool>) {
    && |queued| <= |included|
    && forall j :: 0 <= j < |queued| ==>
         && queued[j].0 == included[j] && included[j] in verdicts
         && (Sum(queued[j].1) == Identity <==> verdicts[included[j]])
  }

  /** What the batch says of the shares. */
  lemma BatchOutcome(batch: BatchVerifier<Participant>, included: seq<Participant>, verdicts: map<Participant, bool>,
                     r: Result<(), Participant>)
    requires Distinct(included) && Members(included) == verdicts.Keys
    requires QueuedFor(batch.queued, included, verdicts) && |batch.queued| == |included|
    requires batch.Verdict(r)
    ensures r.Err? ==> Bad(verdicts, r.error)
    ensures forall l: Participant :: OnlyBad(verdicts, l) ==> r == Err(l)
  {
    forall l: Participant | OnlyBad(verdicts, l) ensures r == Err(l) {
      assert l in Members(included);
      var j :| 0 <= j < |included| && included[j] == l;
      assert batch.Faulty(j);
      forall m | 0 <= m < |batch.queued| && m != j ensures !batch.Faulty(m) {
        assert batch.queued[m].0 == included[m] != l;
      }
    }
  }

  method VerifyBatch(batch: BatchVerifier<Participant>, ghost included: seq<Participant>,
                     ghost verdicts: map<Participant, bool>)
    returns (r: Result<(), Participant>)
    requires Distinct(included) && Members(included) == verdicts.Keys
    requires batch.Valid() && QueuedFor(batch.queued, included, verdicts) && |batch.queued| == |included|
    ensures r.Err? ==> Bad(verdicts, r.error)
    ensures forall l: Participant :: OnlyBad(verdicts, l) ==> r == Err(l)
  {
    r := batch.VerifyVartimeWithVartimeBlame(false);
    BatchOutcome(batch, included, verdicts, r);
  }

  method QueueShares(machine: SignatureMachine, responses: map<Participant, Scalar>, weights: seq<Scalar>)
    returns (batch: BatchVerifier<Participant>)
    requires machine.Valid() && machine.Shares(responses).Valid()
    requires |weights| >= |machine.view.included| && forall j :: 0 <= j < |weights| ==> weights[j] != 0
    ensures fresh(batch) && batch.Valid() && |batch.queued| == |machine.view.included|
    ensures QueuedFor(batch.queued, machine.view.included, machine.Shares(responses).Verdicts())
  {
    batch := new BatchVerifier();
    var included := machine.view.included;
    ghost var eqs := machine.Shares(responses);
    ghost var verdicts := eqs.Verdicts();
    for j := 0 to |included|
      invariant fresh(batch) && batch.Valid() && |batch.queued| == j
      invariant QueuedFor(batch.queued, included, verdicts)
    {
      var l := included[j];
      assert l in Members(included);
      var bound := BoundOf(machine.B[l]);
      var sig := Signature(bound[0][0], responses[l]);
      assert verdicts[l] == eqs.Holds(l);
      var statements := BatchStatements(sig, machine.view.verificationShares[l], machine.c);
      StatementsVerify(sig, machine.view.verificationShares[l], machine.c);
      batch.Queue(weights[j], l, statements);
    }
  }

  method Blame(machine: SignatureMachine, responses: map<Participant, Scalar>, weights: seq<Scalar>)
    returns (r: Result<(), Participant>)
    requires machine.Valid() && machine.Shares(responses).Valid()
    requires |weights| >= |machine.view.included| && forall j :: 0 <= j < |weights| ==> weights[j] != 0
    ensures r.Err? ==> Bad(machine.Shares(responses).Verdicts(), r.error)
    ensures forall l: Participant :: OnlyBad(machine.Shares(responses).Verdicts(), l) ==> r == Err(l)
  {
    ghost var verdicts := machine.Shares(responses).Verdicts();
    var batch := QueueShares(machine, responses, weights);
    r := VerifyBatch(batch, machine.view.included, verdicts);
  }

  /** What `complete` returns, by whether everyone's shares sum to a signature and whose are valid. */
  ghost predicate Outcome(completes: bool, sig: Signature, verdicts: map<Participant, bool>,
                          r: Result<Signature, FrostError>) {
    && (completes ==> r == Ok(sig))
    && (!completes ==> r.Err?)
    && (!completes ==> r.error == InternalError || (r.error.InvalidShare? && Bad(verdicts, r.error.participant)))
    && (!completes ==> forall l: Participant :: OnlyBad(verdicts, l) ==> r == Err(FrostError.InvalidShare(l)))
  }

  /** `complete`. `weights` are the non-zero scalars the blame's generator yields. */
  method Complete(machine: SignatureMachine, shares: map<Participant, Scalar>, weights: seq<Scalar>)
    returns (r: Result<Signature, FrostError>)
    requires machine.Valid()
    requires |weights| >= |machine.view.included| && forall j :: 0 <= j < |weights| ==> weights[j] != 0
    ensures shares.Keys != Members(machine.view.included) - {machine.keys.core.params.i} ==>
              r.Err? && WrongMap(shares.Keys, machine.view.included, machine.keys.core.params.i, r.error)
    ensures shares.Keys == Members(machine.view.included) - {machine.keys.core.params.i} ==>
              var eqs := machine.Shares(shares[machine.keys.core.params.i := machine.share]);
              && eqs.Valid()
              && Outcome(Verifies(eqs.Signed(), machine.view.groupKey, machine.c), eqs.Signed(), eqs.Verdicts(), r)
  {
    var i := machine.keys.core.params.i;
    var valid := ValidateOthers(shares, machine.view.included, i);
    if valid.Err? {
      return Err(valid.error);
    }
    var responses, sum := SumResponses(i, machine.share, shares);
    assert i in Members(machine.view.included);
    r := CompleteAll(machine, responses, sum, weights);
  }

  method CompleteAll(machine: SignatureMachine, responses: map<Participant, Scalar>, sum: Scalar, weights: seq<Scalar>)
    returns (r: Result<Signature, FrostError>)
    requires machine.Valid() && machine.Shares(responses).Valid() && sum == Residue(SumMap(responses))
    requires |weights| >= |machine.view.included| && forall j :: 0 <= j < |weights| ==> weights[j] != 0
    ensures var eqs := machine.Shares(responses);
            Outcome(Verifies(eqs.Signed(), machine.view.groupKey, machine.c), eqs.Signed(), eqs.Verdicts(), r)
  {
    var sig := Signature(machine.Rs[0][0], sum);
    var ok := Verify(sig, machine.view.groupKey, machine.c);
    if ok {
      return Ok(sig);
    }
    var verdict := Blame(machine, responses, weights);
    if verdict.Err? {
      return Err(FrostError.InvalidShare(verdict.error));
    }
    r := Err(InternalError);
  }

  /** When the verification shares sum to the group key, `complete` yields a signature if all shares are
      valid, names the one share that isn't, and fails without naming anyone only if two or more aren't. */
  lemma OutcomeOfKeys(eqs: Equations, r: Result<Signature, FrostError>)
    requires eqs.Valid() && Outcome(eqs.Completes(), eqs.Signed(), eqs.Verdicts(), r)
    ensures (forall l :: l in eqs.responses ==> eqs.Holds(l)) ==> r == Ok(eqs.Signed())
    ensures forall l: Participant :: OnlyBad(eqs.Verdicts(), l) ==> r == Err(FrostError.InvalidShare(l))
    ensures r == Err(InternalError) ==>
              exists a: Participant, b: Participant :: a != b && Bad(eqs.Verdicts(), a) && Bad(eqs.Verdicts(), b)
  {
    var verdicts := eqs.Verdicts();
    if forall l :: l in eqs.responses ==> eqs.Holds(l) { ValidSharesComplete(eqs); }
    forall l: Participant | OnlyBad(verdicts, l) ensures r == Err(FrostError.InvalidShare(l)) {
      forall m | m in eqs.responses && m != l ensures eqs.Holds(m) { assert verdicts[m]; }
      InvalidShareSpoils(eqs, l);
    }
    if r == Err(InternalError) {
      var a :| a in eqs.responses && !eqs.Holds(a);
      assert Bad(verdicts, a) && !OnlyBad(verdicts, a);
      var b :| b in verdicts && b != a && !verdicts[b];
      assert Bad(verdicts, b);
    }
  }

  // Whole sessions

  /** In a session of honest signers, `complete` returns, to every signer, a signature by the offset group
      key for the message. */
  lemma HonestComplete(keys: map<Participant, Keys>, shares: map<Participant, Point>, groupKey: Point, offset: Scalar,
                       nonces: map<Participant, NoncePair>, session: Session, machine: SignatureMachine, j: Participant,
                       r: Result<Signature, FrostError>)
    requires SigningKeys(keys, shares, groupKey, offset) && session.Valid() && j in keys
    requires keys.Keys == nonces.Keys == session.commitments.Keys
    requires forall i :: i in keys ==> session.commitments[i] == CommitNonces(nonces[i])
    requires machine.For(session) && machine.keys == keys[j] && machine.Valid()
    requires var eqs := machine.Shares(HonestShares(keys, nonces, session));
             && eqs.Valid()
             && Outcome(Verifies(eqs.Signed(), machine.view.groupKey, machine.c), eqs.Signed(), eqs.Verdicts(), r)
    ensures var key := Plus(groupKey, Scale(offset, Generator));
            r.Ok? && Verifies(r.value, key, Hram(r.value.R, key, session.msg))
    ensures r.value == Signature(SessionNonce(keys[j], session), Residue(SumMap(HonestShares(keys, nonces, session))))
  {
    MachineEquations(machine, session, HonestShares(keys, nonces, session));
    HonestSession(keys, shares, groupKey, offset, nonces, session, j);
  }

  /** The first round: commitments to both nonces. */
  method Preprocess(nonces: NoncePair) returns (commitments: Commitments)
    ensures commitments == CommitNonces(nonces)
  {
    var D := ScalePoint(nonces.d, Generator);
    var E := ScalePoint(nonces.e, Generator);
    commitments := [[GeneratorCommitments(D, E)]];
  }

  method PreprocessAll(nonces: map<Participant, NoncePair>) returns (commitments: map<Participant, Commitments>)
    ensures commitments.Keys == nonces.Keys
    ensures forall i :: i in nonces ==> commitments[i] == CommitNonces(nonces[i])
  {
    commitments := map[];
    var left := nonces.Keys;
    while left != {}
      invariant left <= nonces.Keys && commitments.Keys == nonces.Keys - left
      invariant forall i :: i in commitments ==> commitments[i] == CommitNonces(nonces[i])
    {
      var i :| i in left;
      var c := Preprocess(nonces[i]);
      commitments := commitments[i := c];
      left := left - {i};
    }
  }

  lemma DistinctMultiset(s: seq<Participant>)
    requires Distinct(s)
    ensures multiset(s) == multiset(Members(s))
  {
    forall x ensures multiset(s)[x] == multiset(Members(s))[x] {
      OnceIn(s, x);
      assert x in s <==> x in multiset(s);
    }
  }

  /** All signers order one signing set the same. */
  lemma OneOrder(a: seq<Participant>, b: seq<Participant>, s: set<Participant>)
    requires Sorted(a) && Sorted(b) && SigningList(a, s) && SigningList(b, s)
    ensures a == b
  {
    DistinctMultiset(a);
    DistinctMultiset(b);
    SortedUnique(a, b);
  }

  /** The keys of a signing set which is large enough. */
  ghost predicate Signers(keys: map<Participant, Keys>, shares: map<Participant, Point>, groupKey: Point,
                          offset: Scalar) {
    && SigningKeys(keys, shares, groupKey, offset)
    && forall i :: i in keys ==> KeysValid(keys[i]) && keys[i].core.params.t <= |keys|
  }

  /** The signer may sign with everyone else. */
  ghost predicate MaySign(keys: map<Participant, Keys>, i: Participant) {
    i in keys ==> keys[i].core.params.i == i && KeysValid(keys[i]) && Accepted(keys[i], keys.Keys - {i})
  }

  lemma SignersMay(keys: map<Participant, Keys>, shares: map<Participant, Point>, groupKey: Point, offset: Scalar,
                   i: Participant)
    requires Signers(keys, shares, groupKey, offset)
    ensures MaySign(keys, i)
  {
    if i in keys {
      assert HeldBy(keys[i], i, shares, groupKey, offset);
      OneLess(keys.Keys, i);
      forall l | l in keys ensures l <= keys[i].core.params.n { assert l in UpTo(keys[i].core.params.n); }
    }
  }

  /** Facts stated under one of these are used where it is mentioned, and nowhere else. */
  predicate Here(n: nat) { true }
  predicate There(n: nat) { true }

  /** A signer's machine for the session, which holds its share. */
  ghost predicate MachineOf(machine: SignatureMachine, k: Keys, nonces: NoncePair, session: Session) {
    forall n {:trigger Here(n)} :: Here(n) ==>
      machine.For(session) && machine.keys == k && machine.share == ShareOf(k, session, nonces)
  }

  /** Everyone in the session is honest: it holds commitments to their nonces. */
  ghost predicate Honest(keys: map<Participant, Keys>, nonces: map<Participant, NoncePair>, session: Session) {
    && session.Valid() && keys.Keys == nonces.Keys == session.commitments.Keys
    && forall i :: i in keys ==> session.commitments[i] == CommitNonces(nonces[i])
  }

  lemma Restored<T>(m: map<Participant, T>, i: Participant)
    requires i in m
    ensures (m - {i})[i := m[i]] == m && (m - {i}).Keys == m.Keys - {i}
  {}

  /** A signer's half of the second round. */
  method SignOne(k: Keys, nonces: NoncePair, commitments: map<Participant, Commitments>, context: seq<nat>,
                 msg: seq<nat>)
    returns (machine: SignatureMachine, ghost session: Session)
    requires KeysValid(k) && k.core.params.i in commitments && Accepted(k, commitments.Keys - {k.core.params.i})
    requires forall l :: l in commitments ==> Shaped(commitments[l], Planned())
    ensures Joins(session, context, msg, commitments) && MachineOf(machine, k, nonces, session)
  {
    var i := k.core.params.i;
    Restored(commitments, i);
    var signed;
    signed, session := Sign(k, nonces, commitments[i], commitments - {i}, context, msg);
    machine := signed.value.0;
  }

  lemma SignersShaped(nonces: map<Participant, NoncePair>, commitments: map<Participant, Commitments>)
    requires nonces.Keys == commitments.Keys && forall i :: i in nonces ==> commitments[i] == CommitNonces(nonces[i])
    ensures forall l :: l in commitments ==> Shaped(commitments[l], Planned())
  {}

  /** Everyone's machines for the session. */
  ghost predicate Machines(machines: map<Participant, SignatureMachine>, keys: map<Participant, Keys>,
                           nonces: map<Participant, NoncePair>, session: Session) {
    forall i: Participant :: MachineAt(machines, keys, nonces, session, i)
  }

  ghost predicate MachineAt(machines: map<Participant, SignatureMachine>, keys: map<Participant, Keys>,
                            nonces: map<Participant, NoncePair>, session: Session, i: Participant) {
    i in machines ==> i in keys && i in nonces && MachineOf(machines[i], keys[i], nonces[i], session)
  }

  /** Whose session it is: everyone orders it the same. */
  ghost predicate Joins(session: Session, context: seq<nat>, msg: seq<nat>,
                        commitments: map<Participant, Commitments>) {
    forall n {:trigger There(n)} :: There(n) ==>
      && session == Session(context, msg, session.included, commitments)
      && SigningList(session.included, commitments.Keys) && Sorted(session.included)
  }

  lemma JoinedIsHonest(keys: map<Participant, Keys>, nonces: map<Participant, NoncePair>, session: Session,
                       context: seq<nat>, msg: seq<nat>, commitments: map<Participant, Commitments>)
    requires Joins(session, context, msg, commitments) && keys.Keys == nonces.Keys == commitments.Keys
    requires forall i :: i in nonces ==> commitments[i] == CommitNonces(nonces[i])
    ensures Honest(keys, nonces, session) && session.msg == msg
  {
    assert There(0);
  }

  /** The next signer is in everyone's session. */
  lemma MachinesPush(machines: map<Participant, SignatureMachine>, keys: map<Participant, Keys>,
                     nonces: map<Participant, NoncePair>, a: Session, b: Session, i: Participant,
                     machine: SignatureMachine)
    requires machines != map[] ==> Joins(a, b.context, b.msg, b.commitments) && Machines(machines, keys, nonces, a)
    requires Joins(b, b.context, b.msg, b.commitments) && i in keys && i in nonces
    requires MachineOf(machine, keys[i], nonces[i], b)
    ensures Machines(machines[i := machine], keys, nonces, b)
  {
    assert There(0);
    if machines != map[] { OneOrder(a.included, b.included, a.commitments.Keys); }
    var more := machines[i := machine];
    forall j: Participant ensures MachineAt(more, keys, nonces, b, j) {
      assert machines != map[] ==> MachineAt(machines, keys, nonces, b, j);
    }
  }

  /** Everyone's: all signers end up in one session. */
  method SignAll(keys: map<Participant, Keys>, nonces: map<Participant, NoncePair>,
                 commitments: map<Participant, Commitments>, context: seq<nat>, msg: seq<nat>)
    returns (machines: map<Participant, SignatureMachine>, ghost session: Session)
    requires keys.Keys == nonces.Keys == commitments.Keys != {}
    requires forall i: Participant :: MaySign(keys, i)
    requires forall l :: l in commitments ==> Shaped(commitments[l], Planned())
    ensures Joins(session, context, msg, commitments)
    ensures machines.Keys == keys.Keys && Machines(machines, keys, nonces, session)
  {
    machines, session := map[], Session(context, msg, [], commitments);
    var left := keys.Keys;
    while left != {}
      invariant left <= keys.Keys && machines.Keys == keys.Keys - left
      invariant machines != map[] ==> Joins(session, context, msg, commitments)
      invariant Machines(machines, keys, nonces, session)
    {
      var i :| i in left;
      var machine;
      ghost var joined;
      assert MaySign(keys, i);
      machine, joined := SignOne(keys[i], nonces[i], commitments, context, msg);
      MachinesPush(machines, keys, nonces, session, joined, i, machine);
      session := joined;
      machines := machines[i := machine];
      left := left - {i};
    }
  }

  method SharesOf(machines: map<Participant, SignatureMachine>) returns (shares: map<Participant, Scalar>)
    ensures shares == map i | i in machines :: machines[i].share
  {
    shares := map i | i in machines :: machines[i].share;
  }

  lemma SharesHonest(machines: map<Participant, SignatureMachine>, keys: map<Participant, Keys>,
                     nonces: map<Participant, NoncePair>, session: Session, shares: map<Participant, Scalar>)
    requires Machines(machines, keys, nonces, session) && machines.Keys == keys.Keys <= nonces.Keys && session.Valid()
    requires shares == map i | i in machines :: machines[i].share
    ensures shares == HonestShares(keys, nonces, session)
  {
    assert Here(0);
    forall i | i in machines ensures shares[i] == HonestShares(keys, nonces, session)[i] {
      assert MachineAt(machines, keys, nonces, session, i);
    }
  }

  ghost function SignatureOf(keys: map<Participant, Keys>, nonces: map<Participant, NoncePair>, session: Session,
                             j: Participant): Signature
    requires session.Valid() && keys.Keys <= nonces.Keys && j in keys
  {
    Signature(SessionNonce(keys[j], session), Residue(SumMap(HonestShares(keys, nonces, session))))
  }

  lemma OneSignature(keys: map<Participant, Keys>, shares: map<Participant, Point>, groupKey: Point, offset: Scalar,
                     nonces: map<Participant, NoncePair>, session: Session, i: Participant, j: Participant)
    requires SigningKeys(keys, shares, groupKey, offset) && Honest(keys, nonces, session) && i in keys && j in keys
    ensures SignatureOf(keys, nonces, session, i) == SignatureOf(keys, nonces, session, j)
  {
    assert HeldBy(keys[i], i, shares, groupKey, offset) && HeldBy(keys[j], j, shares, groupKey, offset);
    SessionAgrees(keys[i], keys[j], session);
  }

  /** What a signer is given is everyone else's shares. */
  lemma OthersShares(machine: SignatureMachine, keys: map<Participant, Keys>, nonces: map<Participant, NoncePair>,
                     session: Session, i: Participant)
    requires session.Valid() && session.commitments.Keys == keys.Keys && i in keys && keys[i].core.params.i == i
    requires i in nonces && MachineOf(machine, keys[i], nonces[i], session)
    ensures machine.Valid() && |machine.view.included| == |keys| && Members(machine.view.included) == keys.Keys
    ensures machine.keys.core.params.i == i
  {
    assert Here(0);
    MachineEquations(machine, session, map[]);
    MembersSize(session.included);
  }

  ghost predicate SignedBy(signature: Signature, key: Point, msg: seq<nat>) {
    Verifies(signature, key, Hram(signature.R, key, msg))
  }

  /** A session of honest signers, in its second round, and the signature it ends with. */
  datatype Setting = Setting(
    keys: map<Participant, Keys>, points: map<Participant, Point>, groupKey: Point, offset: Scalar,
    nonces: map<Participant, NoncePair>, session: Session,
    machines: map<Participant, SignatureMachine>, shares: map<Participant, Scalar>, signature: Signature)
  {
    ghost predicate Valid() {
      && SigningKeys(keys, points, groupKey, offset) && Honest(keys, nonces, session)
      && machines.Keys == keys.Keys && Machines(machines, keys, nonces, session)
      && shares == HonestShares(keys, nonces, session)
      && exists j :: j in keys && signature == SignatureOf(keys, nonces, session, j)
    }

    ghost predicate Sealed() {
      && shares == (map i | i in machines :: machines[i].share)
      && forall n {:trigger There(n)} :: There(n) ==> Valid()
    }

    ghost function Key(): Point { Plus(groupKey, Scale(offset, Generator)) }
  }

  lemma SettingAt(setting: Setting, i: Participant)
    requires setting.Sealed() && i in setting.machines
    ensures var keys, nonces, session := setting.keys, setting.nonces, setting.session;
            && i in keys && keys[i].core.params.i == i && i in nonces
            && session.Valid() && session.commitments.Keys == keys.Keys == setting.machines.Keys
            && MachineOf(setting.machines[i], keys[i], nonces[i], session)
  {
    assert There(0);
    assert HeldBy(setting.keys[i], i, setting.points, setting.groupKey, setting.offset);
    assert MachineAt(setting.machines, setting.keys, setting.nonces, setting.session, i);
  }

  lemma BeforeComplete(setting: Setting, i: Participant)
    requires setting.Sealed() && i in setting.machines
    ensures var machine, shares := setting.machines[i], setting.shares;
            && machine.Valid() && |machine.view.included| == |setting.machines| && machine.keys.core.params.i == i
            && (shares - {i})[i := machine.share] == shares
            && (shares - {i}).Keys == Members(machine.view.included) - {i}
  {
    SettingAt(setting, i);
    OthersShares(setting.machines[i], setting.keys, setting.nonces, setting.session, i);
    Restored(setting.shares, i);
  }

  lemma MachineJoins(setting: Setting, i: Participant)
    requires setting.Sealed() && i in setting.machines
    ensures i in setting.keys && setting.machines[i].For(setting.session)
    ensures setting.machines[i].keys == setting.keys[i]
  {
    SettingAt(setting, i);
    assert Here(0);
  }

  lemma AfterComplete(setting: Setting, i: Participant, r: Result<Signature, FrostError>)
    requires setting.Sealed() && i in setting.machines && setting.machines[i].Valid()
    requires var machine, eqs := setting.machines[i], setting.machines[i].Shares(setting.shares);
             && eqs.Valid()
             && Outcome(Verifies(eqs.Signed(), machine.view.groupKey, machine.c), eqs.Signed(), eqs.Verdicts(), r)
    ensures r == Ok(setting.signature) && SignedBy(setting.signature, setting.Key(), setting.session.msg)
  {
    MachineJoins(setting, i);
    assert There(0);
    var keys, nonces, session := setting.keys, setting.nonces, setting.session;
    HonestComplete(keys, setting.points, setting.groupKey, setting.offset, nonces, session, setting.machines[i], i, r);
    var j :| j in keys && setting.signature == SignatureOf(keys, nonces, session, j);
    OneSignature(keys, setting.points, setting.groupKey, setting.offset, nonces, session, i, j);
  }

  /** A signer's completion with everyone else's shares. */
  method CompleteOne(ghost setting: Setting, machine: SignatureMachine, shares: map<Participant, Scalar>,
                     weights: seq<Scalar>, i: Participant)
    returns (signature: Signature)
    requires setting.Sealed() && i in setting.machines && machine == setting.machines[i] && shares == setting.shares
    requires |weights| >= |setting.machines| && forall j :: 0 <= j < |weights| ==> weights[j] != 0
    ensures signature == setting.signature && SignedBy(signature, setting.Key(), setting.session.msg)
  {
    BeforeComplete(setting, i);
    var r := Complete(machine, shares - {i}, weights);
    AfterComplete(setting, i, r);
    signature := r.value;
  }

  /** Everyone's, which is one signature. */
  method CompleteEach(ghost setting: Setting, machines: map<Participant, SignatureMachine>,
                      shares: map<Participant, Scalar>, weights: seq<Scalar>)
    returns (signatures: map<Participant, Signature>)
    requires setting.Sealed() && machines == setting.machines && shares == setting.shares
    requires |weights| >= |machines| && forall j :: 0 <= j < |weights| ==> weights[j] != 0
    ensures signatures.Keys == machines.Keys
    ensures forall i :: i in signatures ==> signatures[i] == setting.signature
    ensures forall i :: i in signatures ==> SignedBy(signatures[i], setting.Key(), setting.session.msg)
  {
    signatures := map[];
    var left := machines.Keys;
    while left != {}
      invariant left <= machines.Keys && signatures.Keys == machines.Keys - left
      invariant forall i :: i in signatures ==> signatures[i] == setting.signature
      invariant forall i :: i in signatures ==> SignedBy(signatures[i], setting.Key(), setting.session.msg)
    {
      var i :| i in left;
      var sig := CompleteOne(setting, machines[i], shares, weights, i);
      signatures := signatures[i := sig];
      left := left - {i};
    }
  }

  /** A session up to everyone's shares. */
  method Begin(keys: map<Participant, Keys>, nonces: map<Participant, NoncePair>, context: seq<nat>, msg: seq<nat>,
               ghost points: map<Participant, Point>, ghost groupKey: Point, ghost offset: Scalar)
    returns (machines: map<Participant, SignatureMachine>, shares: map<Participant, Scalar>, ghost setting: Setting)
    requires Signers(keys, points, groupKey, offset) && keys.Keys == nonces.Keys
    ensures setting.Sealed() && setting.machines == machines && setting.shares == shares && machines.Keys == keys.Keys
    ensures setting.groupKey == groupKey && setting.offset == offset && setting.session.msg == msg
  {
    var commitments := PreprocessAll(nonces);
    SignersShaped(nonces, commitments);
    forall i: Participant ensures MaySign(keys, i) { SignersMay(keys, points, groupKey, offset, i); }
    ghost var session;
    machines, session := SignAll(keys, nonces, commitments, context, msg);
    JoinedIsHonest(keys, nonces, session, context, msg, commitments);
    shares := SharesOf(machines);
    setting := SettingOf(keys, points, groupKey, offset, nonces, session, machines, shares);
  }

  /** A whole session, both rounds by every signer: all of them get one signature, which verifies by the offset
      group key, for any signing set, offset, nonces and binding factors. */
  method RunSession(keys: map<Participant, Keys>, nonces: map<Participant, NoncePair>, context: seq<nat>, msg: seq<nat>,
                    weights: seq<Scalar>, ghost points: map<Participant, Point>, ghost groupKey: Point,
                    ghost offset: Scalar)
    returns (signatures: map<Participant, Signature>)
    requires Signers(keys, points, groupKey, offset) && keys.Keys == nonces.Keys
    requires |weights| >= |keys| && forall j :: 0 <= j < |weights| ==> weights[j] != 0
    ensures signatures.Keys == keys.Keys && forall i, j :: i in keys && j in keys ==> signatures[i] == signatures[j]
    ensures forall i :: i in keys ==> SignedBy(signatures[i], Plus(groupKey, Scale(offset, Generator)), msg)
  {
    var machines, shares;
    ghost var setting;
    machines, shares, setting := Begin(keys, nonces, context, msg, points, groupKey, offset);
    assert |machines| == |machines.Keys| == |keys.Keys| == |keys|;
    signatures := CompleteEach(setting, machines, shares, weights);
  }

  lemma SettingOf(keys: map<Participant, Keys>, points: map<Participant, Point>, groupKey: Point, offset: Scalar,
                  nonces: map<Participant, NoncePair>, session: Session,
                  machines: map<Participant, SignatureMachine>, shares: map<Participant, Scalar>)
    returns (setting: Setting)
    requires SigningKeys(keys, points, groupKey, offset) && Honest(keys, nonces, session)
    requires machines.Keys == keys.Keys && Machines(machines, keys, nonces, session)
    requires shares == map i | i in machines :: machines[i].share
    ensures setting == Setting(keys, points, groupKey, offset, nonces, session, machines, shares, setting.signature)
    ensures setting.Sealed()
  {
    SharesHonest(machines, keys, nonces, session, shares);
    var some :| some in keys;
    var signature := SignatureOf(keys, nonces, session, some);
    setting := Setting(keys, points, groupKey, offset, nonces, session, machines, shares, signature);
  }

  /** Keys from one key generation, of at least t participants, are the keys of a signing set. */
  lemma DerivedSigningKeys(keys: map<Participant, Keys>, t: nat, n: nat, commitments: map<Participant, seq<Point>>,
                           offset: Scalar, first: Participant)
    requires 1 <= t <= n <= 65535 && (forall l :: l in commitments ==> |commitments[l]| == t)
    requires first in keys && keys.Keys <= UpTo(n) && |keys.Keys| >= t
    requires forall i :: i in keys ==>
              Derived(keys[i].core, ThresholdParams(t, n, i), commitments) && CurrentOffset(keys[i]) == offset
    ensures SigningKeys(keys, keys[first].core.verificationShares, Stripes(commitments, t)[0], offset)
  {
    forall i | i in keys
      ensures HeldBy(keys[i], i, keys[first].core.verificationShares, Stripes(commitments, t)[0], offset)
    {
      DerivedAgree(keys[i].core, keys[first].core, ThresholdParams(t, n, i), ThresholdParams(t, n, first), commitments);
    }
    DerivedInterpolate(keys[first].core, ThresholdParams(t, n, first), commitments, keys.Keys);
  }
}
