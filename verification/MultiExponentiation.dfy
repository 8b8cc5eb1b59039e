/** Multi-exponentiation: Straus's and Pippenger's algorithms, in their constant-time and
    variable-time forms, all equal the plain sum of scalar times point. */
module MultiExponentiation {
  import opened Wrappers
  import opened Powers
  import opened Windowing
  import opened Scalars
  import opened Points

  type Pair = (Scalar, Point)

  lemma OrderFits()
    ensures Q <= Pow2(Q)
  { Pow2Exceeds(Q); }

  /** The number of bits `to_le_bits` yields for a scalar. */
  type BitLength = b: nat | Q <= Pow2(b) witness (OrderFits(); Q)

  const SCALAR_BITS: BitLength

  /** What every algorithm computes: the sum of scalar times point over the first `n` pairs. */
  ghost function SumTo(pairs: seq<Pair>, n: nat): Point
    requires n <= |pairs|
  {
    if n == 0 then Identity else Plus(SumTo(pairs, n - 1), Times(pairs[n - 1].0, pairs[n - 1].1))
  }

  predicate SumAt(pairs: seq<Pair>) { true }

  type SumType = f: seq<Pair> -> Point |
    forall pairs {:trigger SumAt(pairs)} :: SumAt(pairs) ==> f(pairs) == SumTo(pairs, |pairs|)
    ghost witness (pairs: seq<Pair>) => SumTo(pairs, |pairs|)

  /** The sum over all pairs, unfolded only by `SumIs`. */
  ghost const Sum: SumType

  lemma SumIs(pairs: seq<Pair>)
    ensures Sum(pairs) == SumTo(pairs, |pairs|)
  {
    assert SumAt(pairs);
  }

  // Windows of a scalar

  function Windows(w: nat): nat
    requires w > 0
  {
    (SCALAR_BITS + (w - 1)) / w
  }

  lemma WindowsCover(w: nat)
    requires w > 0
    ensures w * Windows(w) >= SCALAR_BITS
    ensures Windows(w) > 0 && w * (Windows(w) - 1) < SCALAR_BITS
  {
    var t := SCALAR_BITS + (w - 1);
    assert t == w * (t / w) + t % w;
    assert SCALAR_BITS > 0 by { assert Pow2(0) == 1; }
    assert w * (Windows(w) - 1) == w * Windows(w) - w;
  }

  lemma HighEnds(s: Scalar, w: nat)
    requires w > 0
    ensures High(s, w, 0) == s && High(s, w, Windows(w)) == 0
  {
    assert w * 0 == 0 && Pow2(0) == 1;
    WindowsCover(w);
    Pow2Monotone(SCALAR_BITS, w * Windows(w));
    DivSmall(s, Pow2(w * Windows(w)));
  }

  /** One scalar's windows: the body of the loop over `pairs`. */
  method PrepScalar(s: Scalar, window: nat) returns (grouping: seq<nat>)
    requires 1 <= window <= 8
    ensures |grouping| == Windows(window)
    ensures forall b :: 0 <= b < |grouping| ==> grouping[b] == Digit(s, window, b)
  {
    grouping := seq(Windows(window), _ => 0);
    WindowsNone(s, window, grouping);
    WindowsCover(window);
    for i := 0 to SCALAR_BITS
      invariant |grouping| == Windows(window)
      invariant WindowsUpTo(s, window, grouping, i)
    {
      WindowIndex(window, i);
      WindowsStep(s, window, grouping, i / window, i % window);
      grouping := grouping[i / window := OrBit(grouping[i / window], Bit(s, i), i % window)];
    }
    WindowsDone(s, window, grouping);
  }

  lemma WindowsDone(s: Scalar, window: nat, grouping: seq<nat>)
    requires 1 <= window <= 8 && |grouping| == Windows(window) && WindowsUpTo(s, window, grouping, SCALAR_BITS)
    ensures forall b :: 0 <= b < |grouping| ==> grouping[b] == Digit(s, window, b)
  {
    WindowsCover(window);
    forall b | 0 <= b < |grouping| ensures grouping[b] == Digit(s, window, b) {
      MulMono(window, b, Windows(window) - 1);
      LowWindow(s, window, b, SCALAR_BITS);
    }
  }

  lemma WindowIndex(w: nat, i: nat)
    requires w > 0 && i < SCALAR_BITS
    ensures i == w * (i / w) + i % w && 0 <= i / w < Windows(w)
  {
    WindowsCover(w);
    DivModFacts(i, w);
    MulLess(w, i / w, Windows(w));
  }

  /** Scalars as `window`-sized groups of bits. */
  method PrepBits(pairs: seq<Pair>, window: nat) returns (groupings: seq<seq<nat>>)
    requires 1 <= window <= 8
    ensures |groupings| == |pairs|
    ensures forall p :: 0 <= p < |pairs| ==> |groupings[p]| == Windows(window)
    ensures forall p, b :: 0 <= p < |pairs| && 0 <= b < Windows(window) ==>
              groupings[p][b] == Digit(pairs[p].0, window, b)
  {
    groupings := [];
    for p := 0 to |pairs|
      invariant |groupings| == p
      invariant forall q :: 0 <= q < p ==> |groupings[q]| == Windows(window)
      invariant forall q, b :: 0 <= q < p && 0 <= b < Windows(window) ==>
                groupings[q][b] == Digit(pairs[q].0, window, b)
    {
      var grouping := PrepScalar(pairs[p].0, window);
      groupings := groupings + [grouping];
    }
  }

  // Sums over windows

  ghost function HighSum(pairs: seq<Pair>, w: nat, b: nat, n: nat): Point
    requires n <= |pairs|
  {
    if n == 0 then Identity
    else Plus(HighSum(pairs, w, b, n - 1), Times(High(pairs[n - 1].0, w, b), pairs[n - 1].1))
  }

  ghost function DigitSum(pairs: seq<Pair>, w: nat, b: nat, n: nat): Point
    requires n <= |pairs|
  {
    if n == 0 then Identity
    else Plus(DigitSum(pairs, w, b, n - 1), Times(Digit(pairs[n - 1].0, w, b), pairs[n - 1].1))
  }

  lemma {:induction false} HighSumStep(pairs: seq<Pair>, w: nat, b: nat, n: nat)
    requires n <= |pairs|
    ensures HighSum(pairs, w, b, n)
         == Plus(Times(Pow2(w), HighSum(pairs, w, b + 1, n)), DigitSum(pairs, w, b, n))
  {
    if n == 0 {
      TimesIdentity(Pow2(w));
      PlusLaws(Identity, Identity, Identity);
    } else {
      HighSumStep(pairs, w, b, n - 1);
      var (s, p) := pairs[n - 1];
      var h, d := High(s, w, b + 1), Digit(s, w, b);
      HighStep(s, w, b);
      TimesAdd(Pow2(w) * h, d, p);
      TimesMul(Pow2(w), h, p);
      TimesPlus(Pow2(w), HighSum(pairs, w, b + 1, n - 1), Times(h, p));
      PlusSwap(Times(Pow2(w), HighSum(pairs, w, b + 1, n - 1)), DigitSum(pairs, w, b, n - 1),
               Times(Pow2(w), Times(h, p)), Times(d, p));
    }
  }

  lemma {:induction false} HighSumEnds(pairs: seq<Pair>, w: nat, n: nat)
    requires n <= |pairs| && w > 0
    ensures HighSum(pairs, w, Windows(w), n) == Identity
    ensures HighSum(pairs, w, 0, n) == SumTo(pairs, n)
  {
    if n > 0 {
      HighSumEnds(pairs, w, n - 1);
      HighEnds(pairs[n - 1].0, w);
      PlusLaws(Identity, Identity, Identity);
    }
  }

  // Straus

  /** `window` doublings. */
  method Doublings(point: Point, window: nat) returns (res: Point)
    ensures res == Times(Pow2(window), point)
  {
    res := point;
    assert Times(1, point) == point by { ScaleZeroOne(point); ScaleNat(1, point); }
    for k := 0 to window
      invariant res == Times(Pow2(k), point)
    {
      TimesAdd(Pow2(k), Pow2(k), point);
      res := Plus(res, res);
    }
  }

  /** Per point, its first 2^window multiples. */
  method PrepTables(pairs: seq<Pair>, window: nat) returns (tables: seq<seq<Point>>)
    ensures |tables| == |pairs|
    ensures forall p :: 0 <= p < |pairs| ==> |tables[p]| == Pow2(window)
    ensures forall p, i :: 0 <= p < |pairs| && 0 <= i < Pow2(window) ==> tables[p][i] == Times(i, pairs[p].1)
  {
    tables := [];
    for p := 0 to |pairs|
      invariant |tables| == p
      invariant forall q :: 0 <= q < p ==> |tables[q]| == Pow2(window)
      invariant forall q, i :: 0 <= q < p && 0 <= i < Pow2(window) ==> tables[q][i] == Times(i, pairs[q].1)
    {
      var table := seq(Pow2(window), _ => Identity);
      var accum := Identity;
      for i := 1 to Pow2(window)
        invariant |table| == Pow2(window)
        invariant accum == Times(i - 1, pairs[p].1)
        invariant forall j :: 0 <= j < i ==> table[j] == Times(j, pairs[p].1)
      {
        PlusLaws(accum, pairs[p].1, Identity);
        accum := Plus(accum, pairs[p].1);
        table := table[i := accum];
      }
      tables := tables + [table];
    }
  }

  method Straus(pairs: seq<Pair>, window: nat) returns (res: Point)
    requires |pairs| > 0 && 1 <= window <= 8
    ensures res == Sum(pairs)
  {
    var groupings := PrepBits(pairs, window);
    var tables := PrepTables(pairs, window);

    res := Identity;
    var b := |groupings[0]|;
    HighSumEnds(pairs, window, |pairs|);
    SumIs(pairs);
    TimesIdentity(Pow2(window));
    while b > 0
      invariant 0 <= b <= Windows(window)
      invariant res == HighSum(pairs, window, b, |pairs|)
    {
      b := b - 1;
      if b != |groupings[0]| - 1 {
        res := Doublings(res, window);
      }
      ghost var doubled := res;
      PlusLaws(doubled, Identity, Identity);
      for s := 0 to |tables|
        invariant res == Plus(doubled, DigitSum(pairs, window, b, s))
      {
        HighStep(pairs[s].0, window, b);
        PlusLaws(doubled, DigitSum(pairs, window, b, s), tables[s][groupings[s][b]]);
        res := Plus(res, tables[s][groupings[s][b]]);
      }
      HighSumStep(pairs, window, b, |pairs|);
    }
  }

  /** None stands for the identity in the variable-time forms. */
  ghost function Value(p: Option<Point>): Point {
    match p case Some(point) => point case None => Identity
  }

  function AddTo(p: Option<Point>, q: Point): (r: Option<Point>)
    ensures Value(r) == Plus(Value(p), q)
  {
    PlusLaws(q, q, q);
    match p case Some(point) => Some(Plus(point, q)) case None => Some(q)
  }

  method StrausVartime(pairs: seq<Pair>, window: nat) returns (r: Point)
    requires |pairs| > 0 && 1 <= window <= 8
    ensures r == Sum(pairs)
  {
    var groupings := PrepBits(pairs, window);
    var tables := PrepTables(pairs, window);

    var res: Option<Point> := None;
    var b := |groupings[0]|;
    HighSumEnds(pairs, window, |pairs|);
    SumIs(pairs);
    TimesIdentity(Pow2(window));
    while b > 0
      invariant 0 <= b <= Windows(window)
      invariant Value(res) == HighSum(pairs, window, b, |pairs|)
    {
      b := b - 1;
      if b != |groupings[0]| - 1 {
        if res.Some? {
          var doubled := Doublings(res.value, window);
          res := Some(doubled);
        }
      }
      ghost var doubled := Value(res);
      PlusLaws(doubled, Identity, Identity);
      for s := 0 to |tables|
        invariant Value(res) == Plus(doubled, DigitSum(pairs, window, b, s))
      {
        HighStep(pairs[s].0, window, b);
        PlusLaws(doubled, DigitSum(pairs, window, b, s), tables[s][groupings[s][b]]);
        if groupings[s][b] != 0 {
          res := AddTo(res, tables[s][groupings[s][b]]);
        } else {
          PlusLaws(DigitSum(pairs, window, b, s), Identity, Identity);
        }
      }
      HighSumStep(pairs, window, b, |pairs|);
    }
    r := if res.Some? then res.value else Identity;
  }

  // Pippenger

  /** Sum of j * buckets[j] over j >= b. */
  ghost function Weighted(buckets: seq<Point>, b: nat): Point
    decreases |buckets| - b
  {
    if b >= |buckets| then Identity else Plus(Weighted(buckets, b + 1), Times(b, buckets[b]))
  }

  /** Sum of buckets[j] over j >= b. */
  ghost function Tail(buckets: seq<Point>, b: nat): Point
    decreases |buckets| - b
  {
    if b >= |buckets| then Identity else Plus(Tail(buckets, b + 1), buckets[b])
  }

  /** Sum of Tail(buckets, j) over j >= b: what the running sum accumulates. */
  ghost function Running(buckets: seq<Point>, b: nat): Point
    decreases |buckets| - b
  {
    if b >= |buckets| then Identity else Plus(Running(buckets, b + 1), Tail(buckets, b))
  }

  lemma {:induction false} RunningIsWeighted(buckets: seq<Point>, b: nat)
    requires b >= 1
    ensures Weighted(buckets, b) == Plus(Running(buckets, b), Times(b - 1, Tail(buckets, b)))
    decreases |buckets| - b
  {
    PlusLaws(Identity, Identity, Identity);
    if b >= |buckets| {
      TimesIdentity(b - 1);
    } else {
      RunningIsWeighted(buckets, b + 1);
      var run, tail, x := Running(buckets, b + 1), Tail(buckets, b + 1), buckets[b];
      PlusLaws(run, Times(b, tail), Times(b, x));
      TimesPlus(b, tail, x);
      assert Times(b, Plus(tail, x)) == Plus(Plus(tail, x), Times(b - 1, Plus(tail, x)));
      PlusLaws(run, Plus(tail, x), Times(b - 1, Plus(tail, x)));
    }
  }

  lemma {:induction false} BucketAdd(buckets: seq<Point>, d: nat, p: Point, b: nat)
    requires d < |buckets|
    ensures Weighted(buckets[d := Plus(buckets[d], p)], b)
         == if b <= d then Plus(Weighted(buckets, b), Times(d, p)) else Weighted(buckets, b)
    decreases |buckets| - b
  {
    if b < |buckets| {
      BucketAdd(buckets, d, p, b + 1);
      if b == d {
        TimesPlus(d, buckets[d], p);
        PlusLaws(Weighted(buckets, b + 1), Times(d, buckets[d]), Times(d, p));
      } else if b < d {
        var rest, t := Weighted(buckets, b + 1), Times(b, buckets[b]);
        PlusLaws(rest, Times(d, p), t);
        PlusLaws(rest, t, Times(d, p));
        PlusLaws(Times(d, p), t, Identity);
      }
    }
  }

  lemma {:induction false} EmptyBuckets(buckets: seq<Point>, b: nat)
    requires forall j :: 0 <= j < |buckets| ==> buckets[j] == Identity
    ensures Weighted(buckets, b) == Identity
    decreases |buckets| - b
  {
    if b < |buckets| {
      EmptyBuckets(buckets, b + 1);
      TimesIdentity(b);
      PlusLaws(Identity, Identity, Identity);
    }
  }

  /** The running sum down to bucket 1 is the weighted sum of all buckets. */
  lemma RunningTotal(buckets: seq<Point>)
    requires |buckets| > 0
    ensures Running(buckets, 1) == Weighted(buckets, 0)
  {
    RunningIsWeighted(buckets, 1);
    PlusLaws(Running(buckets, 1), Identity, Identity);
    PlusLaws(Weighted(buckets, 1), Identity, Identity);
  }

  /** The bucket loop for window `n`. */
  method Buckets(pairs: seq<Pair>, bits: seq<seq<nat>>, window: nat, n: nat) returns (buckets: seq<Point>)
    requires |bits| == |pairs| && 1 <= window <= 8 && n < Windows(window)
    requires forall p :: 0 <= p < |pairs| ==> |bits[p]| == Windows(window) && bits[p][n] == Digit(pairs[p].0, window, n)
    ensures |buckets| == Pow2(window)
    ensures Weighted(buckets, 0) == DigitSum(pairs, window, n, |pairs|)
  {
    buckets := seq(Pow2(window), _ => Identity);
    EmptyBuckets(buckets, 0);
    for p := 0 to |bits|
      invariant |buckets| == Pow2(window)
      invariant Weighted(buckets, 0) == DigitSum(pairs, window, n, p)
    {
      HighStep(pairs[p].0, window, n);
      BucketAdd(buckets, bits[p][n], pairs[p].1, 0);
      buckets := buckets[bits[p][n] := Plus(buckets[bits[p][n]], pairs[p].1)];
    }
  }

  /** The running sum over the buckets, added to `start`. */
  method AddBuckets(start: Point, buckets: seq<Point>) returns (res: Point)
    requires |buckets| > 0
    ensures res == Plus(start, Weighted(buckets, 0))
  {
    res := start;
    var intermediateSum := Identity;
    var b := |buckets|;
    PlusLaws(start, Identity, Identity);
    while b > 1
      invariant 1 <= b <= |buckets|
      invariant intermediateSum == Tail(buckets, b)
      invariant res == Plus(start, Running(buckets, b))
    {
      b := b - 1;
      intermediateSum := Plus(intermediateSum, buckets[b]);
      PlusLaws(start, Running(buckets, b + 1), intermediateSum);
      res := Plus(res, intermediateSum);
    }
    RunningTotal(buckets);
  }

  method Pippenger(pairs: seq<Pair>, window: nat) returns (res: Point)
    requires |pairs| > 0 && 1 <= window <= 8
    ensures res == Sum(pairs)
  {
    var bits := PrepBits(pairs, window);

    res := Identity;
    var n := |bits[0]|;
    HighSumEnds(pairs, window, |pairs|);
    SumIs(pairs);
    TimesIdentity(Pow2(window));
    while n > 0
      invariant 0 <= n <= Windows(window)
      invariant res == HighSum(pairs, window, n, |pairs|)
    {
      n := n - 1;
      if n != |bits[0]| - 1 {
        res := Doublings(res, window);
      }
      var buckets := Buckets(pairs, bits, window, n);
      res := AddBuckets(res, buckets);
      HighSumStep(pairs, window, n, |pairs|);
    }
  }

  ghost function Values(buckets: seq<Option<Point>>): seq<Point> {
    seq(|buckets|, j requires 0 <= j < |buckets| => Value(buckets[j]))
  }

  /** The bucket loop of the variable-time form, where None stands for the identity. */
  method BucketsVartime(pairs: seq<Pair>, bits: seq<seq<nat>>, window: nat, n: nat)
    returns (buckets: seq<Option<Point>>)
    requires |bits| == |pairs| && 1 <= window <= 8 && n < Windows(window)
    requires forall p :: 0 <= p < |pairs| ==> |bits[p]| == Windows(window) && bits[p][n] == Digit(pairs[p].0, window, n)
    ensures |buckets| == Pow2(window)
    ensures Weighted(Values(buckets), 0) == DigitSum(pairs, window, n, |pairs|)
  {
    buckets := seq(Pow2(window), _ => None);
    EmptyBuckets(Values(buckets), 0);
    for p := 0 to |bits|
      invariant |buckets| == Pow2(window)
      invariant Weighted(Values(buckets), 0) == DigitSum(pairs, window, n, p)
    {
      var nibble := bits[p][n];
      HighStep(pairs[p].0, window, n);
      if nibble != 0 {
        BucketAdd(Values(buckets), nibble, pairs[p].1, 0);
        var updated := buckets[nibble := AddTo(buckets[nibble], pairs[p].1)];
        assert Values(updated) == Values(buckets)[nibble := Plus(Values(buckets)[nibble], pairs[p].1)];
        buckets := updated;
      } else {
        PlusLaws(DigitSum(pairs, window, n, p), Identity, Identity);
      }
    }
  }

  method AddBucketsVartime(start: Point, buckets: seq<Option<Point>>) returns (res: Point)
    requires |buckets| > 0
    ensures res == Plus(start, Weighted(Values(buckets), 0))
  {
    res := start;
    ghost var values := Values(buckets);
    var intermediateSum: Option<Point> := None;
    var b := |buckets|;
    PlusLaws(start, Identity, Identity);
    while b > 1
      invariant 1 <= b <= |buckets|
      invariant Value(intermediateSum) == Tail(values, b)
      invariant res == Plus(start, Running(values, b))
    {
      b := b - 1;
      if buckets[b].Some? {
        intermediateSum := AddTo(intermediateSum, buckets[b].value);
      } else {
        PlusLaws(Tail(values, b + 1), Identity, Identity);
      }
      PlusLaws(start, Running(values, b + 1), Tail(values, b));
      if intermediateSum.Some? {
        res := Plus(res, intermediateSum.value);
      } else {
        PlusLaws(Running(values, b + 1), Identity, Identity);
      }
    }
    RunningTotal(values);
  }

  method PippengerVartime(pairs: seq<Pair>, window: nat) returns (res: Point)
    requires |pairs| > 0 && 1 <= window <= 8
    ensures res == Sum(pairs)
  {
    var bits := PrepBits(pairs, window);

    res := Identity;
    var n := |bits[0]|;
    HighSumEnds(pairs, window, |pairs|);
    SumIs(pairs);
    TimesIdentity(Pow2(window));
    while n > 0
      invariant 0 <= n <= Windows(window)
      invariant res == HighSum(pairs, window, n, |pairs|)
    {
      n := n - 1;
      if n != |bits[0]| - 1 {
        res := Doublings(res, window);
      }
      var buckets := BucketsVartime(pairs, bits, window, n);
      res := AddBucketsVartime(res, buckets);
      HighSumStep(pairs, window, n, |pairs|);
    }
  }

  // Dispatch

  datatype Algorithm = Null | Single | StrausWith(window: nat) | PippengerWith(window: nat)

  function ReleaseAlgorithm(len: nat): Algorithm {
    if len == 0 then Null
    else if len == 1 then Single
    else if len < 10 then StrausWith(3)
    else if len < 20 then StrausWith(4)
    else if len < 50 then StrausWith(5)
    else if len < 100 then PippengerWith(4)
    else if len < 125 then PippengerWith(5)
    else if len < 275 then PippengerWith(6)
    else if len < 400 then PippengerWith(7)
    else PippengerWith(8)
  }

  function DebugAlgorithm(len: nat): Algorithm {
    if len == 0 then Null
    else if len == 1 then Single
    else if len < 10 then StrausWith(3)
    else if len < 80 then StrausWith(4)
    else if len < 100 then StrausWith(5)
    else if len < 125 then PippengerWith(4)
    else if len < 275 then PippengerWith(5)
    else if len < 475 then PippengerWith(6)
    else if len < 750 then PippengerWith(7)
    else PippengerWith(8)
  }

  function ChooseAlgorithm(len: nat, debugAssertions: bool): Algorithm {
    if debugAssertions then DebugAlgorithm(len) else ReleaseAlgorithm(len)
  }

  /** `point * scalar`, the group library's own multiplication. */
  method Multiply(pair: Pair) returns (r: Point)
    ensures r == Times(pair.0, pair.1)
  {
    r := Identity;
    for i := 0 to pair.0
      invariant r == Times(i, pair.1)
    {
      r := Plus(pair.1, r);
    }
  }

  lemma SumOfOne(pair: Pair)
    ensures Sum([pair]) == Times(pair.0, pair.1)
  {
    PlusLaws(Times(pair.0, pair.1), Identity, Identity);
    SumIs([pair]);
    assert SumTo([pair], 1) == Plus(SumTo([pair], 0), Times(pair.0, pair.1));
  }

  method Multiexp(pairs: seq<Pair>, debugAssertions: bool) returns (r: Point)
    ensures r == Sum(pairs)
  {
    match ChooseAlgorithm(|pairs|, debugAssertions) {
      case Null =>
        SumIs(pairs);
        r := Identity;
      case Single =>
        assert pairs == [pairs[0]];
        SumOfOne(pairs[0]);
        r := Multiply(pairs[0]);
      case StrausWith(window) => r := Straus(pairs, window);
      case PippengerWith(window) => r := Pippenger(pairs, window);
    }
  }

  method MultiexpVartime(pairs: seq<Pair>, debugAssertions: bool) returns (r: Point)
    ensures r == Sum(pairs)
  {
    match ChooseAlgorithm(|pairs|, debugAssertions) {
      case Null =>
        SumIs(pairs);
        r := Identity;
      case Single =>
        assert pairs == [pairs[0]];
        SumOfOne(pairs[0]);
        r := Multiply(pairs[0]);
      case StrausWith(window) => r := StrausVartime(pairs, window);
      case PippengerWith(window) => r := PippengerVartime(pairs, window);
    }
  }
}
