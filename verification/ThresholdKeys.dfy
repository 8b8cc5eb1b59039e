/** Threshold keys: parameters, the keys themselves, their encoding, and their view for a signing set. */
module ThresholdKeys {
  import opened Wrappers
  import opened Scalars
  import opened Points
  import opened Sums
  import opened Lagrange

  datatype DkgError =
    | ZeroParameter(t: nat, n: nat)
    | InvalidThreshold(t: nat, n: nat)
    | InvalidParticipant(n: nat, participant: Participant)
    | InvalidSigningSet
    | InvalidParticipantQuantity(expected: nat, got: nat)
    | DuplicatedParticipant(participant: Participant)
    | MissingParticipant(participant: Participant)
    | InvalidShare(participant: Participant, proof: bool)

  datatype ThresholdParams = ThresholdParams(t: nat, n: nat, i: Participant) {
    ghost predicate Valid() {
      1 <= t <= n <= 65535 && i <= n
    }
  }

  type U16 = x: nat | x < 65536

  function NewParams(t: U16, n: U16, i: Participant): (r: Result<ThresholdParams, DkgError>)
    ensures r.Ok? <==> ThresholdParams(t, n, i).Valid()
    ensures r.Ok? ==> r.value == ThresholdParams(t, n, i)
    ensures r == Err(ZeroParameter(t, n)) <==> t == 0 || n == 0
    ensures r == Err(InvalidThreshold(t, n)) <==> 0 < n < t
    ensures r == Err(InvalidParticipant(n, i)) <==> 0 < t <= n < i
  {
    if t == 0 || n == 0 then Err(ZeroParameter(t, n))
    else if t > n then Err(InvalidThreshold(t, n))
    else if i > n then Err(InvalidParticipant(n, i))
    else Ok(ThresholdParams(t, n, i))
  }

  /** The participants 1, ..., n. */
  ghost function UpTo(n: nat): (s: set<Participant>)
    requires n <= 65535
    ensures forall l: Participant :: l in s <==> l <= n
  {
    RangeCovers(n);
    Members(Range(n))
  }

  lemma RangeCovers(n: nat)
    requires n <= 65535
    ensures forall l: Participant :: l <= n ==> l in Range(n)
  {
    forall l: Participant | l <= n ensures l in Range(n) {
      var k: int := l;
      assert Range(n)[k - 1] == l;
    }
  }

  function Range(n: nat): (r: seq<Participant>)
    requires n <= 65535
    ensures |r| == n && forall k :: 0 <= k < n ==> r[k] == k + 1
  {
    seq(n, k requires 0 <= k < n => k + 1)
  }

  lemma RangeMembers(n: nat)
    requires n <= 65535
    ensures Distinct(Range(n)) && Members(Range(n)) == UpTo(n)
  {}

  lemma {:induction false} MembersSize(s: seq<Participant>)
    requires Distinct(s)
    ensures |Members(s)| == |s|
  {
    if s == [] {
      assert Members(s) == {};
    } else {
      LastMember(s);
      MembersSize(s[..|s| - 1]);
    }
  }

  lemma UpToSize(n: nat)
    requires n <= 65535
    ensures |UpTo(n)| == n
  {
    RangeMembers(n);
    MembersSize(Range(n));
  }

  /** A map is to have everyone included but us. */
  ghost predicate Placed(keys: set<Participant>, ours: Participant, l: Participant) { l in keys <==> l != ours }

  ghost predicate FirstMisplaced(keys: set<Participant>, included: seq<Participant>, ours: Participant, k: nat) {
    && k < |included| && !Placed(keys, ours, included[k])
    && forall j :: 0 <= j < k ==> Placed(keys, ours, included[j])
  }

  /** `validate_map`: the map's keys and ours are exactly the included participants. */
  method ValidateMap<T>(m: map<Participant, T>, included: seq<Participant>, ours: Participant)
    returns (r: Result<(), DkgError>)
    ensures r.Ok? ==> |m| + 1 == |included| && forall l :: l in included ==> (l in m <==> l != ours)
    ensures |m| + 1 == |included| && (forall l :: l in included ==> (l in m <==> l != ours)) ==> r.Ok?
    ensures r.Err? && |m| + 1 != |included| ==> r.error == InvalidParticipantQuantity(|included|, |m| + 1)
    ensures r.Err? && |m| + 1 == |included| ==>
              exists k: nat ::
                && FirstMisplaced(m.Keys, included, ours, k)
                && r.error == if included[k] == ours then DuplicatedParticipant(ours)
                              else MissingParticipant(included[k])
  {
    if |m| + 1 != |included| {
      return Err(InvalidParticipantQuantity(|included|, |m| + 1));
    }
    for k := 0 to |included|
      invariant forall j :: 0 <= j < k ==> (included[j] in m <==> included[j] != ours)
    {
      if included[k] == ours {
        if included[k] in m {
          assert FirstMisplaced(m.Keys, included, ours, k);
          return Err(DuplicatedParticipant(included[k]));
        }
      } else if included[k] !in m {
        assert FirstMisplaced(m.Keys, included, ours, k);
        return Err(MissingParticipant(included[k]));
      }
    }
    r := Ok(());
  }

  // Keys

  datatype ThresholdCore = ThresholdCore(
    params: ThresholdParams,
    secretShare: Scalar,
    groupKey: Point,
    verificationShares: map<Participant, Point>)

  ghost function Interpolated(s: set<Participant>, shares: map<Participant, Point>): map<Participant, Point>
    requires s <= shares.Keys
  {
    map i | i in s :: Scale(Lambda(i, s), shares[i])
  }

  /** `point * scalar` */
  method ScalePoint(k: Scalar, p: Point) returns (r: Point)
    ensures r == Scale(k, p)
  {
    ScaleNat(k, p);
    r := Identity;
    for i := 0 to k
      invariant r == Times(i, p)
    {
      r := Plus(p, r);
    }
  }

  /** `ThresholdCore::new`: the group key is interpolated from the first t verification shares. */
  method NewCore(params: ThresholdParams, secretShare: Scalar, verificationShares: map<Participant, Point>)
    returns (core: ThresholdCore)
    requires params.Valid() && UpTo(params.t) <= verificationShares.Keys
    ensures var groupKey := PointSum(Interpolated(UpTo(params.t), verificationShares));
            core == ThresholdCore(params, secretShare, groupKey, verificationShares)
  {
    var t := Range(params.t);
    RangeMembers(params.t);
    ghost var terms := Interpolated(UpTo(params.t), verificationShares);
    var sum := Identity;
    ghost var left := terms;
    PlusLaws(PointSum(terms), Identity, Identity);
    for k := 0 to |t|
      invariant left.Keys <= terms.Keys && (forall i :: i in left ==> left[i] == terms[i])
      invariant forall i :: i in terms ==> (i in left <==> i > k)
      invariant Plus(sum, PointSum(left)) == PointSum(terms)
    {
      var i := t[k];
      var coefficient := LagrangeCoefficient(i, t);
      CoefficientIsLambda(i, t);
      var term := ScalePoint(coefficient, verificationShares[i]);
      PointSumRemove(left, i);
      PlusLaws(sum, term, PointSum(left - {i}));
      sum := Plus(sum, term);
      left := left - {i};
    }
    assert left == map[];
    PlusLaws(sum, Identity, Identity);
    core := ThresholdCore(params, secretShare, sum, verificationShares);
  }

  // Encoding. Scalars and points are written with canonical encodings of their own, which are atoms
  // here; lengths, identifiers and parameters are bytes.

  datatype Atom = Byte(b: nat) | ScalarRepr(s: Scalar) | PointRepr(p: Point)

  /** The curve's identifier. */
  const CURVE_ID: seq<nat>

  function Bytes(s: seq<nat>): seq<Atom> {
    seq(|s|, k requires 0 <= k < |s| => Byte(s[k]))
  }

  function WriteU16(x: U16): seq<Atom> { [Byte(x % 256), Byte(x / 256)] }

  function WriteU32(x: nat): seq<Atom> {
    [Byte(x % 256), Byte(x / 256 % 256), Byte(x / 65536 % 256), Byte(x / 16777216 % 256)]
  }

  ghost function SharesTo(shares: map<Participant, Point>, n: nat): seq<Atom>
    requires n <= 65535 && UpTo(n) <= shares.Keys
  {
    if n == 0 then [] else SharesTo(shares, n - 1) + [PointRepr(shares[n])]
  }

  ghost function Header(params: ThresholdParams): seq<Atom>
    requires params.Valid()
  {
    WriteU32(|CURVE_ID|) + Bytes(CURVE_ID) + WriteU16(params.t) + WriteU16(params.n) + WriteU16(params.i)
  }

  /** What the encoding holds: everything but the group key. */
  datatype Stored = Stored(params: ThresholdParams, secretShare: Scalar, verificationShares: map<Participant, Point>) {
    ghost predicate Valid() {
      params.Valid() && verificationShares.Keys == UpTo(params.n)
    }
  }

  ghost function Encoded(stored: Stored): seq<Atom>
    requires stored.Valid()
  {
    Header(stored.params) + [ScalarRepr(stored.secretShare)] + SharesTo(stored.verificationShares, stored.params.n)
  }

  ghost function Store(core: ThresholdCore): Stored {
    Stored(core.params, core.secretShare, core.verificationShares)
  }

  /** Keys as read back, with the group key interpolated from the first t verification shares. */
  ghost function Recovered(stored: Stored): ThresholdCore
    requires stored.Valid()
  {
    ThresholdCore(stored.params, stored.secretShare,
                  PointSum(Interpolated(UpTo(stored.params.t), stored.verificationShares)), stored.verificationShares)
  }

  /** `ThresholdCore::write`. */
  method Write(core: ThresholdCore) returns (w: seq<Atom>)
    requires Store(core).Valid()
    ensures w == Encoded(Store(core))
  {
    w := WriteU32(|CURVE_ID|);
    w := w + Bytes(CURVE_ID);
    w := w + WriteU16(core.params.t);
    w := w + WriteU16(core.params.n);
    w := w + WriteU16(core.params.i);
    w := w + [ScalarRepr(core.secretShare)];
    ghost var head := w;
    for l := 1 to core.params.n + 1
      invariant w == head + SharesTo(core.verificationShares, l - 1)
    {
      w := w + [PointRepr(core.verificationShares[l])];
    }
  }

  datatype ReadError = UnexpectedEnd | DifferentCurve | InvalidParticipantIndex | InvalidEncoding | InvalidParameters

  function ReadU16(r: seq<Atom>): Option<U16> {
    if |r| >= 2 && r[0].Byte? && r[1].Byte? && r[0].b < 256 && r[1].b < 256 then Some(r[0].b + 256 * r[1].b) else None
  }

  /** The verification shares of participants l, ..., n. */
  ghost function ReadShares(r: seq<Atom>, l: nat, n: nat): Result<map<Participant, Point>, ReadError>
    requires 1 <= l <= n + 1 && n <= 65535
    decreases n - l
  {
    if l == n + 1 then Ok(map[])
    else if r == [] then Err(UnexpectedEnd)
    else if !r[0].PointRepr? then Err(InvalidEncoding)
    else match ReadShares(r[1..], l + 1, n)
      case Ok(shares) => Ok(shares[l := r[0].p])
      case Err(e) => Err(e)
  }

  function ReadHeader(r: seq<Atom>): Result<(U16, U16, Participant, Scalar), ReadError> {
    if |r| < 4 then Err(UnexpectedEnd)
    else if r[..4] != WriteU32(|CURVE_ID|) then Err(DifferentCurve)
    else if |r| < 4 + |CURVE_ID| then Err(UnexpectedEnd)
    else if r[4..4 + |CURVE_ID|] != Bytes(CURVE_ID) then Err(DifferentCurve)
    else
      var p := r[4 + |CURVE_ID|..];
      if ReadU16(p).None? || ReadU16(p[2..]).None? || ReadU16(p[4..]).None? then Err(UnexpectedEnd)
      else if ReadU16(p[4..]).value == 0 then Err(InvalidParticipantIndex)
      else if |p| < 7 then Err(UnexpectedEnd)
      else if !p[6].ScalarRepr? then Err(InvalidEncoding)
      else Ok((ReadU16(p).value, ReadU16(p[2..]).value, ReadU16(p[4..]).value, p[6].s))
  }

  ghost function Decoded(r: seq<Atom>): Result<Stored, ReadError> {
    match ReadHeader(r)
    case Err(e) => Err(e)
    case Ok((t, n, i, secretShare)) =>
      match ReadShares(r[4 + |CURVE_ID| + 7..], 1, n)
      case Err(e) => Err(e)
      case Ok(shares) =>
        match NewParams(t, n, i)
        case Err(_) => Err(InvalidParameters)
        case Ok(params) => Ok(Stored(params, secretShare, shares))
  }

  lemma {:induction false} ReadSharesKeys(r: seq<Atom>, l: nat, n: nat)
    requires 1 <= l <= n + 1 && n <= 65535 && ReadShares(r, l, n).Ok?
    ensures forall k: Participant :: k in ReadShares(r, l, n).value <==> l <= k <= n
    decreases n - l
  {
    if l <= n { ReadSharesKeys(r[1..], l + 1, n); }
  }

  /** The loop over the verification shares. */
  method ReadPoints(reader: seq<Atom>, n: nat) returns (res: Result<map<Participant, Point>, ReadError>)
    requires n <= 65535
    ensures res == ReadShares(reader, 1, n)
  {
    var r := reader;
    ghost var all := ReadShares(r, 1, n);
    var shares: map<Participant, Point> := map[];
    for l := 1 to n + 1
      invariant forall k :: k in shares ==> k < l
      invariant match ReadShares(r, l, n)
        case Ok(rest) => all.Ok? && all.value == shares + rest
        case Err(e) => all == Err(e)
    {
      if r == [] { return Err(UnexpectedEnd); }
      if !r[0].PointRepr? { return Err(InvalidEncoding); }
      if all.Ok? { ReadSharesKeys(r[1..], l + 1, n); }
      shares := shares[l := r[0].p];
      r := r[1..];
    }
    assert shares + map[] == shares;
    res := Ok(shares);
  }

  /** `ThresholdCore::read`. */
  method Read(reader: seq<Atom>) returns (res: Result<ThresholdCore, ReadError>)
    ensures match Decoded(reader)
      case Err(e) => res == Err(e)
      case Ok(stored) =>
        stored.Valid() && res == Ok(Recovered(stored))
  {
    var header := ReadHeader(reader);
    if header.Err? { return Err(header.error); }
    var (t, n, i, secretShare) := header.value;
    var r := reader[4 + |CURVE_ID| + 7..];
    var read := ReadPoints(r, n);
    if read.Err? { return Err(read.error); }
    ReadSharesKeys(r, 1, n);
    var shares := read.value;

    var params := NewParams(t, n, i);
    if params.Err? { return Err(InvalidParameters); }
    var core := NewCore(params.value, secretShare, shares);
    res := Ok(core);
  }

  lemma {:induction false} SharesToAt(shares: map<Participant, Point>, n: nat)
    requires n <= 65535 && UpTo(n) <= shares.Keys
    ensures |SharesTo(shares, n)| == n
    ensures forall k: Participant :: k <= n ==> SharesTo(shares, n)[k as int - 1] == PointRepr(shares[k])
  {
    if n > 0 { SharesToAt(shares, n - 1); }
  }

  ghost function From(shares: map<Participant, Point>, l: nat): map<Participant, Point> {
    map k | k in shares && k >= l :: shares[k]
  }

  lemma {:induction false} ReadWrittenShares(r: seq<Atom>, shares: map<Participant, Point>, l: nat, n: nat)
    requires 1 <= l <= n + 1 && n <= 65535 && shares.Keys == UpTo(n)
    requires |r| >= n + 1 - l && forall k: Participant :: l <= k <= n ==> r[k - l] == PointRepr(shares[k])
    ensures ReadShares(r, l, n) == Ok(From(shares, l))
    decreases n - l
  {
    if l == n + 1 {
      assert From(shares, l) == map[];
    } else {
      assert r[(l as Participant) - l] == PointRepr(shares[l]);
      ReadWrittenShares(r[1..], shares, l + 1, n);
      assert From(shares, l) == From(shares, l + 1)[l := shares[l]];
    }
  }

  lemma ReadU16Written(x: U16, rest: seq<Atom>)
    ensures ReadU16(WriteU16(x) + rest) == Some(x)
  {}

  lemma ReadHeaderWritten(params: ThresholdParams, secretShare: Scalar, rest: seq<Atom>)
    requires params.Valid()
    ensures ReadHeader(Header(params) + [ScalarRepr(secretShare)] + rest) ==
              Ok((params.t, params.n, params.i, secretShare))
    ensures (Header(params) + [ScalarRepr(secretShare)] + rest)[4 + |CURVE_ID| + 7..] == rest
  {
    var r := Header(params) + [ScalarRepr(secretShare)] + rest;
    var p := r[4 + |CURVE_ID|..];
    var tail := [ScalarRepr(secretShare)] + rest;
    assert r[..4] == WriteU32(|CURVE_ID|);
    assert r[4..4 + |CURVE_ID|] == Bytes(CURVE_ID);
    assert p == WriteU16(params.t) + (WriteU16(params.n) + (WriteU16(params.i) + tail));
    ReadU16Written(params.t, WriteU16(params.n) + (WriteU16(params.i) + tail));
    assert p[2..] == WriteU16(params.n) + (WriteU16(params.i) + tail);
    ReadU16Written(params.n, WriteU16(params.i) + tail);
    assert p[4..] == WriteU16(params.i) + tail;
    ReadU16Written(params.i, tail);
  }

  /** Two bytes are an integer's, the low one first. */
  ghost predicate IsU16(low: Atom, high: Atom, x: nat) {
    low.Byte? && high.Byte? && low.b < 256 && high.b < 256 && x == low.b + 256 * high.b
  }

  lemma LowBytes(x: nat)
    ensures IsU16(Byte(x % 256), Byte(x / 256 % 256), x % 65536)
  {
    var q, r := x / 65536, x % 65536;
    var high, low := r / 256, r % 256;
    assert x == 256 * (256 * q + high) + low;
    assert x / 256 == 256 * q + high;
  }

  lemma U32At(x: nat)
    ensures var w := WriteU32(x); IsU16(w[0], w[1], x % 65536) && IsU16(w[2], w[3], x / 65536 % 65536)
  {
    LowBytes(x);
    LowBytes(x / 65536);
    assert x / 65536 / 256 == x / 16777216;
  }

  /** The identifier's length and the identifier, then t, n and i, each with its low byte first. */
  ghost predicate IsHeader(h: seq<Atom>, params: ThresholdParams) {
    var at := 4 + |CURVE_ID|;
    && |h| == at + 6
    && IsU16(h[0], h[1], |CURVE_ID| % 65536) && IsU16(h[2], h[3], |CURVE_ID| / 65536 % 65536)
    && (forall k :: 0 <= k < |CURVE_ID| ==> h[4 + k] == Byte(CURVE_ID[k]))
    && IsU16(h[at], h[at + 1], params.t) && IsU16(h[at + 2], h[at + 3], params.n)
    && IsU16(h[at + 4], h[at + 5], params.i)
  }

  lemma HeaderIs(params: ThresholdParams)
    requires params.Valid()
    ensures IsHeader(Header(params), params)
  {
    var h, at := Header(params), 4 + |CURVE_ID|;
    U32At(|CURVE_ID|);
    assert h[..4] == WriteU32(|CURVE_ID|) && h[4..at] == Bytes(CURVE_ID);
    forall k | 0 <= k < |CURVE_ID| ensures h[4 + k] == Byte(CURVE_ID[k]) { assert h[4 + k] == h[4..at][k]; }
    assert h[at..] == WriteU16(params.t) + WriteU16(params.n) + WriteU16(params.i);
  }

  /** Where everything is in the encoding: the header, then the secret share, and then every verification share by its
      participant. */
  lemma EncodedAt(stored: Stored)
    requires stored.Valid()
    ensures var e, at, params := Encoded(stored), 10 + |CURVE_ID|, stored.params;
            && |e| == at + 1 + params.n && IsHeader(e[..at], params) && e[at] == ScalarRepr(stored.secretShare)
            && forall l: Participant :: l <= params.n ==> e[at + l as int] == PointRepr(stored.verificationShares[l])
  {
    HeaderIs(stored.params);
    SharesToAt(stored.verificationShares, stored.params.n);
    var e, at, rest := Encoded(stored), 10 + |CURVE_ID|, SharesTo(stored.verificationShares, stored.params.n);
    assert e[..at] == Header(stored.params) && e[at + 1..] == rest;
    forall l: Participant | l <= stored.params.n ensures e[at + l as int] == PointRepr(stored.verificationShares[l]) {
      assert e[at + l as int] == rest[l as int - 1];
    }
  }

  /** Whatever is written is read back. */
  lemma ReadWritten(stored: Stored)
    requires stored.Valid()
    ensures Decoded(Encoded(stored)) == Ok(stored)
  {
    var shares := stored.verificationShares;
    var rest := SharesTo(shares, stored.params.n);
    ReadHeaderWritten(stored.params, stored.secretShare, rest);
    SharesToAt(shares, stored.params.n);
    ReadWrittenShares(rest, shares, 1, stored.params.n);
    assert From(shares, 1) == shares;
  }

  lemma {:induction false} ReadSharesExact(r: seq<Atom>, l: nat, n: nat)
    requires 1 <= l <= n + 1 && n <= 65535 && ReadShares(r, l, n).Ok?
    ensures |r| >= n + 1 - l
    ensures forall k: Participant :: l <= k <= n ==>
              k in ReadShares(r, l, n).value && r[k - l] == PointRepr(ReadShares(r, l, n).value[k])
    decreases n - l
  {
    if l <= n {
      ReadSharesExact(r[1..], l + 1, n);
      forall k: Participant | l <= k <= n
        ensures k in ReadShares(r, l, n).value && r[k - l] == PointRepr(ReadShares(r, l, n).value[k])
      {
        if k > l { assert r[k - l] == r[1..][k - (l + 1)]; }
      }
    }
  }

  lemma ReadU16Exact(r: seq<Atom>)
    requires ReadU16(r).Some?
    ensures r[..2] == WriteU16(ReadU16(r).value)
  {
    assert r[..2] == [r[0], r[1]];
  }

  lemma ReadHeaderExact(r: seq<Atom>, params: ThresholdParams, secretShare: Scalar)
    requires params.Valid() && ReadHeader(r) == Ok((params.t, params.n, params.i, secretShare))
    ensures |r| >= 4 + |CURVE_ID| + 7
    ensures r[..4 + |CURVE_ID| + 7] == Header(params) + [ScalarRepr(secretShare)]
  {
    var from := 4 + |CURVE_ID|;
    var p := r[from..];
    ReadU16Exact(p);
    ReadU16Exact(p[2..]);
    ReadU16Exact(p[4..]);
    assert p[2..][..2] == p[2..4] && p[4..][..2] == p[4..6];
    assert p[..7] == p[..2] + p[2..4] + p[4..6] + [p[6]];
    assert r[..from + 7] == r[..4] + r[4..from] + p[..7];
  }

  /** And whatever is accepted begins with exactly what is written for it. */
  lemma ReadExact(r: seq<Atom>)
    requires Decoded(r).Ok?
    ensures Decoded(r).value.Valid() && Encoded(Decoded(r).value) <= r
  {
    var stored, head := Decoded(r).value, 4 + |CURVE_ID| + 7;
    var n, shares, rest := stored.params.n, stored.verificationShares, r[head..];
    ReadSharesKeys(rest, 1, n);
    ReadSharesExact(rest, 1, n);
    SharesToAt(shares, n);
    ReadHeaderExact(r, stored.params, stored.secretShare);
    forall k | 0 <= k < n ensures SharesTo(shares, n)[k] == rest[k] {
      var l: Participant := k + 1;
      assert SharesTo(shares, n)[l as int - 1] == PointRepr(shares[l]) == rest[l - 1];
    }
    assert r == r[..head] + rest;
  }
}
