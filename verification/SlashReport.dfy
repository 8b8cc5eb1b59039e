/** The slash report a validator set agrees on: share-weighted medians, reduced by the points of the worst party
    within the best-performing threshold. */
module SlashReport {
  import opened Sequences
  import opened Wrappers

  const FATAL := 0xFFFF_FFFF

  // Sorting and counting

  function Self(x: nat): nat { x }

  function Sort(s: seq<nat>): (r: seq<nat>)
    ensures |r| == |s|
  {
    SortBy(Self, s)
  }

  ghost predicate Sorted(s: seq<nat>) {
    forall i, j :: 0 <= i < j < |s| ==> s[i] <= s[j]
  }

  /** How many are at most `x`. */
  ghost function AtMost(s: seq<nat>, x: int): nat {
    if s == [] then 0 else AtMost(s[1..], x) + if s[0] <= x then 1 else 0
  }

  lemma {:induction false} InsertCounts(y: nat, s: seq<nat>, x: int)
    ensures AtMost(InsertBy(Self, y, s), x) == AtMost(s, x) + if y <= x then 1 else 0
  {
    if s != [] && y > s[0] {
      InsertCounts(y, s[1..], x);
      assert InsertBy(Self, y, s)[1..] == InsertBy(Self, y, s[1..]);
    } else {
      assert InsertBy(Self, y, s)[1..] == s;
    }
  }

  lemma {:induction false} SortCounts(s: seq<nat>, x: int)
    ensures AtMost(Sort(s), x) == AtMost(s, x)
  {
    if s != [] {
      SortCounts(s[1..], x);
      InsertCounts(s[0], Sort(s[1..]), x);
      assert Sort(s) == InsertBy(Self, s[0], Sort(s[1..]));
    }
  }

  lemma SortIsSorted(s: seq<nat>)
    ensures Sorted(Sort(s))
  {
    SortSorted(Self, s);
    var r := Sort(s);
    forall i, j | 0 <= i < j < |r| ensures r[i] <= r[j] { assert Self(r[i]) <= Self(r[j]); }
  }

  /** What is at a position of a sorted list is told by how many are at most it. */
  lemma {:induction false} SortedAt(s: seq<nat>, x: int, k: nat)
    requires Sorted(s) && k < |s|
    ensures s[k] <= x <==> AtMost(s, x) > k
  {
    if s[0] > x {
      NoneAtMost(s, x);
    } else if k > 0 {
      SortedAt(s[1..], x, k - 1);
    }
  }

  lemma {:induction false} NoneAtMost(s: seq<nat>, x: int)
    requires forall i :: 0 <= i < |s| ==> s[i] > x
    ensures AtMost(s, x) == 0
  {
    if s != [] { NoneAtMost(s[1..], x); }
  }

  /** The `k`th in order, for any list. */
  lemma RankOf(s: seq<nat>, x: int, k: nat)
    requires k < |s|
    ensures Sort(s)[k] <= x <==> AtMost(s, x) > k
  {
    SortIsSorted(s);
    SortCounts(s, x);
    SortedAt(Sort(s), x, k);
  }

  // Medians

  ghost function Count(flags: seq<bool>): nat {
    if flags == [] then 0 else Count(flags[1..]) + if flags[0] then 1 else 0
  }

  /** At most the dishonest are outside of what bounds the honest. */
  lemma {:induction false} OutsideAreDishonest(values: seq<nat>, dishonest: seq<bool>, lo: int, hi: int)
    requires |values| == |dishonest|
    requires forall i :: 0 <= i < |values| && !dishonest[i] ==> lo <= values[i] <= hi
    ensures |values| - Count(dishonest) <= AtMost(values, hi) && AtMost(values, lo - 1) <= Count(dishonest)
  {
    if values != [] { OutsideAreDishonest(values[1..], dishonest[1..], lo, hi); }
  }

  /** The median lies between the lowest and the highest of the honest, whenever less than half are dishonest. */
  lemma MedianWithinHonest(values: seq<nat>, dishonest: seq<bool>, lo: int, hi: int)
    requires |values| == |dishonest| && 2 * Count(dishonest) < |values|
    requires forall i :: 0 <= i < |values| && !dishonest[i] ==> lo <= values[i] <= hi
    ensures lo <= Sort(values)[|values| / 2] <= hi
  {
    OutsideAreDishonest(values, dishonest, lo, hi);
    RankOf(values, hi, |values| / 2);
    RankOf(values, lo - 1, |values| / 2);
  }

  // The report

  /** Validators with their shares. */
  type Weights = seq<nat>

  ghost function Sum(weights: Weights): nat {
    if weights == [] then 0 else Sum(weights[..|weights| - 1]) + weights[|weights| - 1]
  }

  /** The least amount of shares above two thirds. */
  function Threshold(n: nat): (t: nat)
    ensures 3 * t > 2 * n && 3 * (t - 1) <= 2 * n
  {
    2 * n / 3 + 1
  }

  /** Reports are of the points of all others. */
  ghost predicate ReportsValid(reports: map<nat, seq<nat>>, validators: nat) {
    forall i :: i in reports ==> i < validators && |reports[i]| == validators - 1
  }

  /** A validator's report with no points for themselves. */
  function WithSelf(report: seq<nat>, i: nat): (r: seq<nat>)
    requires i <= |report|
    ensures |r| == |report| + 1 && r[i] == 0 && r[..i] == report[..i] && r[i + 1..] == report[i..]
  {
    report[..i] + [0] + report[i..]
  }

  /** The validator behind each of the reports, which are repeated for every share. */
  ghost function Reporters(reports: map<nat, seq<nat>>, weights: Weights, n: nat): seq<nat>
    requires n <= |weights|
  {
    if n == 0 then []
    else Reporters(reports, weights, n - 1) + if n - 1 in reports then seq(weights[n - 1], _ => n - 1) else []
  }

  /** The reports, once per share of who made them. */
  ghost function AllReports(reports: map<nat, seq<nat>>, weights: Weights, n: nat): (r: seq<seq<nat>>)
    requires n <= |weights| && ReportsValid(reports, |weights|)
    ensures |r| == |Reporters(reports, weights, n)| && forall k :: 0 <= k < |r| ==> |r[k]| == |weights|
  {
    if n == 0 then []
    else
      AllReports(reports, weights, n - 1) +
      if n - 1 in reports then seq(weights[n - 1], _ => WithSelf(reports[n - 1], n - 1)) else []
  }

  method ExpandReports(reports: map<nat, seq<nat>>, weights: Weights) returns (all: seq<seq<nat>>)
    requires ReportsValid(reports, |weights|)
    ensures all == AllReports(reports, weights, |weights|) && |all| == |Reporters(reports, weights, |weights|)|
    ensures forall k :: 0 <= k < |all| ==>
              var i := Reporters(reports, weights, |weights|)[k];
              i in reports && i <= |reports[i]| && all[k] == WithSelf(reports[i], i)
  {
    all := [];
    for i := 0 to |weights|
      invariant all == AllReports(reports, weights, i) && |all| == |Reporters(reports, weights, i)|
      invariant forall k :: 0 <= k < |all| ==>
                  var v := Reporters(reports, weights, i)[k];
                  v in reports && v <= |reports[v]| && all[k] == WithSelf(reports[v], v)
    {
      if i in reports {
        var report := WithSelf(reports[i], i);
        all := all + seq(weights[i], _ => report);
      }
    }
  }

  ghost function Column(all: seq<seq<nat>>, p: nat): seq<nat>
    requires forall k :: 0 <= k < |all| ==> p < |all[k]|
  {
    seq(|all|, k requires 0 <= k < |all| => all[k][p])
  }

  ghost predicate MediansOf(medians: seq<nat>, all: seq<seq<nat>>, validators: nat)
    requires all != [] && forall k :: 0 <= k < |all| ==> |all[k]| == validators
  {
    |medians| == validators && forall p :: 0 <= p < validators ==> medians[p] == Sort(Column(all, p))[|all| / 2]
  }

  /** For each participant, the median of what was reported of them. */
  method Medians(all: seq<seq<nat>>, validators: nat) returns (medians: seq<nat>)
    requires all != [] && forall k :: 0 <= k < |all| ==> |all[k]| == validators
    ensures MediansOf(medians, all, validators)
  {
    medians := [];
    for p := 0 to validators
      invariant |medians| == p && forall q :: 0 <= q < p ==> medians[q] == Sort(Column(all, q))[|all| / 2]
    {
      var values := [];
      for k := 0 to |all|
        invariant |values| == k && forall j :: 0 <= j < k ==> values[j] == all[j][p]
      {
        values := values + [all[k][p]];
      }
      assert values == Column(all, p);
      medians := medians + [Sort(values)[|values| / 2]];
    }
  }

  /** How many shares are of validators with at most so many points. */
  ghost function SharesAtMost(points: seq<nat>, weights: Weights, x: int): nat
    requires |points| == |weights|
  {
    if points == [] then 0
    else
      var n := |points| - 1;
      SharesAtMost(points[..n], weights[..n], x) + if points[n] <= x then weights[n] else 0
  }

  lemma {:induction false} ConcatCounts(a: seq<nat>, b: seq<nat>, x: int)
    ensures AtMost(a + b, x) == AtMost(a, x) + AtMost(b, x)
  {
    if a == [] {
      assert a + b == b;
    } else {
      ConcatCounts(a[1..], b, x);
      assert (a + b)[1..] == a[1..] + b;
    }
  }

  lemma {:induction false} CopyCounts(v: nat, n: nat, x: int)
    ensures AtMost(seq(n, _ => v), x) == if v <= x then n else 0
  {
    if n > 0 {
      CopyCounts(v, n - 1, x);
      assert seq(n, _ => v)[1..] == seq(n - 1, _ => v);
    }
  }

  ghost function Expanded(points: seq<nat>, weights: Weights): (r: seq<nat>)
    requires |points| == |weights|
    ensures |r| == Sum(weights)
  {
    if points == [] then []
    else
      var n := |points| - 1;
      Expanded(points[..n], weights[..n]) + seq(weights[n], _ => points[n])
  }

  lemma {:induction false} ExpandedCounts(points: seq<nat>, weights: Weights, x: int)
    requires |points| == |weights|
    ensures AtMost(Expanded(points, weights), x) == SharesAtMost(points, weights, x)
  {
    if points != [] {
      var n := |points| - 1;
      ExpandedCounts(points[..n], weights[..n], x);
      ConcatCounts(Expanded(points[..n], weights[..n]), seq(weights[n], _ => points[n]), x);
      CopyCounts(points[n], weights[n], x);
    }
  }

  /** `saturating_sub` */
  function Minus(a: nat, b: nat): (r: nat)
    ensures a <= b ==> r == 0
    ensures a > b ==> r + b == a
  {
    if a <= b then 0 else a - b
  }

  /** The points less `worst`, which is the least for validators with a threshold of the shares to have none. */
  ghost predicate ReducedBy(reduced: seq<nat>, medians: seq<nat>, weights: Weights, worst: nat) {
    && |reduced| == |medians| == |weights|
    && (forall i :: 0 <= i < |medians| ==> reduced[i] == Minus(medians[i], worst))
    && SharesAtMost(medians, weights, worst) >= Threshold(Sum(weights))
    && SharesAtMost(medians, weights, worst - 1) < Threshold(Sum(weights))
    && SharesAtMost(reduced, weights, 0) >= Threshold(Sum(weights))
  }

  /** Everyone's points, reduced: validators with at least a threshold of the shares have none. */
  method Reduce(medians: seq<nat>, weights: Weights) returns (reduced: seq<nat>, worst: nat)
    requires |medians| == |weights| && Sum(weights) > 0
    ensures ReducedBy(reduced, medians, weights, worst)
  {
    var expanded := ExpandPoints(medians, weights);
    var t := Threshold(|expanded|);
    worst := Sort(expanded)[t - 1];
    RankOf(expanded, worst, t - 1);
    RankOf(expanded, worst - 1, t - 1);
    ExpandedCounts(medians, weights, worst);
    ExpandedCounts(medians, weights, worst - 1);
    reduced := Subtract(medians, worst);
    ReducedShares(medians, reduced, weights, worst);
  }

  /** The points, once per share. */
  method ExpandPoints(medians: seq<nat>, weights: Weights) returns (expanded: seq<nat>)
    requires |medians| == |weights|
    ensures expanded == Expanded(medians, weights)
  {
    expanded := [];
    for i := 0 to |medians|
      invariant expanded == Expanded(medians[..i], weights[..i])
    {
      assert medians[..i + 1][..i] == medians[..i] && weights[..i + 1][..i] == weights[..i];
      expanded := expanded + seq(weights[i], _ => medians[i]);
    }
    assert medians[..|medians|] == medians && weights[..|medians|] == weights;
  }

  method Subtract(medians: seq<nat>, worst: nat) returns (reduced: seq<nat>)
    ensures |reduced| == |medians| && forall i :: 0 <= i < |medians| ==> reduced[i] == Minus(medians[i], worst)
  {
    reduced := medians;
    for i := 0 to |medians|
      invariant |reduced| == |medians|
      invariant forall j :: 0 <= j < i ==> reduced[j] == Minus(medians[j], worst)
      invariant forall j :: i <= j < |medians| ==> reduced[j] == medians[j]
    {
      reduced := reduced[i := Minus(reduced[i], worst)];
    }
  }

  lemma {:induction false} ReducedShares(medians: seq<nat>, reduced: seq<nat>, weights: Weights, worst: nat)
    requires |medians| == |reduced| == |weights|
    requires forall i :: 0 <= i < |medians| ==> reduced[i] == Minus(medians[i], worst)
    ensures SharesAtMost(reduced, weights, 0) == SharesAtMost(medians, weights, worst)
  {
    if medians != [] {
      var n := |medians| - 1;
      ReducedShares(medians[..n], reduced[..n], weights[..n], worst);
    }
  }

  /** A validator's points in the end. */
  ghost predicate FinalPoints(points: seq<nat>, fatal: set<nat>, v: nat, p: nat) {
    v < |points| && p == if v in fatal then FATAL else points[v]
  }

  /** The report is of everyone with points in the end, once each, in order. */
  ghost predicate ReportsExactly(report: seq<(nat, nat)>, points: seq<nat>, fatal: set<nat>, n: nat) {
    && (forall v: nat, p: nat :: (v, p) in report <==> v < n && p != 0 && FinalPoints(points, fatal, v, p))
    && (forall i, j :: 0 <= i < j < |report| ==> report[i].0 < report[j].0)
  }

  /** A report, with the medians it is of, those reduced, and by how much. */
  datatype Calculated = Calculated(report: seq<(nat, nat)>, medians: seq<nat>, reduced: seq<nat>, worst: nat)

  lemma {:induction false} ReportersHaveShares(reports: map<nat, seq<nat>>, weights: Weights, n: nat)
    requires n <= |weights|
    ensures |Reporters(reports, weights, n)| <= Sum(weights[..n])
  {
    if n > 0 {
      ReportersHaveShares(reports, weights, n - 1);
      assert weights[..n][..n - 1] == weights[..n - 1];
    }
  }

  /** The report, exactly if anyone with a share reported, as it panics otherwise: medians of what was reported, which
      are within what the honest reported, reduced by the least for a threshold to have no points, and with those
      fatally slashed at the maximum. */
  method Calculate(reports: map<nat, seq<nat>>, weights: Weights, fatal: set<nat>) returns (r: Option<Calculated>)
    requires ReportsValid(reports, |weights|)
    ensures r.Some? <==> Reporters(reports, weights, |weights|) != []
    ensures r.Some? ==> MediansOf(r.value.medians, AllReports(reports, weights, |weights|), |weights|)
    ensures r.Some? ==> WithinHonest(reports, weights, r.value.medians)
    ensures r.Some? ==> ReducedBy(r.value.reduced, r.value.medians, weights, r.value.worst)
    ensures r.Some? ==> ReportsExactly(r.value.report, r.value.reduced, fatal, |weights|)
  {
    var all := ExpandReports(reports, weights);
    if all == [] {
      return None;
    }
    var medians := Medians(all, |weights|);
    forall p, honest: set<nat>, lo, hi | 0 <= p < |weights| && HonestMajority(reports, weights, honest) &&
                                         Bounds(reports, honest, p, lo, hi)
      ensures lo <= medians[p] <= hi
    {
      ColumnWithinHonest(reports, weights, all, honest, p, lo, hi);
    }
    ReportersHaveShares(reports, weights, |weights|);
    assert weights[..|weights|] == weights;
    var reduced, worst := Reduce(medians, weights);
    var report := BuildReport(reduced, fatal);
    r := Some(Calculated(report, medians, reduced, worst));
  }

  method BuildReport(reduced: seq<nat>, fatal: set<nat>) returns (report: seq<(nat, nat)>)
    ensures ReportsExactly(report, reduced, fatal, |reduced|)
  {
    report := [];
    for i := 0 to |reduced|
      invariant ReportsExactly(report, reduced, fatal, i)
    {
      var final := if i in fatal then FATAL else reduced[i];
      ReportNext(report, reduced, fatal, i, final);
      if final != 0 {
        report := report + [(i, final)];
      }
    }
  }

  lemma ReportNext(report: seq<(nat, nat)>, points: seq<nat>, fatal: set<nat>, i: nat, final: nat)
    requires ReportsExactly(report, points, fatal, i) && FinalPoints(points, fatal, i, final)
    ensures ReportsExactly(if final != 0 then report + [(i, final)] else report, points, fatal, i + 1)
  {
    var next := if final != 0 then report + [(i, final)] else report;
    forall j | 0 <= j < |report| ensures report[j].0 < i { assert (report[j].0, report[j].1) in report; }
    forall v: nat, p: nat ensures (v, p) in next <==> v < i + 1 && p != 0 && FinalPoints(points, fatal, v, p) {
      assert (v, p) in next <==> (v, p) in report || (final != 0 && (v, p) == (i, final));
    }
  }

  /** Whoever the honest are, if a majority is, every median is within what they reported. */
  ghost predicate WithinHonest(reports: map<nat, seq<nat>>, weights: Weights, medians: seq<nat>) {
    && |medians| == |weights|
    && forall p, honest: set<nat>, lo, hi ::
         (0 <= p < |weights| && HonestMajority(reports, weights, honest) && Bounds(reports, honest, p, lo, hi)) ==>
           lo <= medians[p] <= hi
  }

  ghost function DishonestShares(reporters: seq<nat>, honest: set<nat>): seq<bool> {
    seq(|reporters|, k requires 0 <= k < |reporters| => reporters[k] !in honest)
  }

  /** Less than half of the shares reporting are dishonest. */
  ghost predicate HonestMajority(reports: map<nat, seq<nat>>, weights: Weights, honest: set<nat>) {
    var reporters := Reporters(reports, weights, |weights|);
    2 * Count(DishonestShares(reporters, honest)) < |reporters|
  }

  /** The honest reported from `lo` to `hi` points for `p`. */
  ghost predicate Bounds(reports: map<nat, seq<nat>>, honest: set<nat>, p: nat, lo: int, hi: int) {
    forall i :: i in reports && i in honest && i <= |reports[i]| && p <= |reports[i]| ==>
      lo <= WithSelf(reports[i], i)[p] <= hi
  }

  lemma ColumnWithinHonest(reports: map<nat, seq<nat>>, weights: Weights, all: seq<seq<nat>>, honest: set<nat>, p: nat,
                           lo: int, hi: int)
    requires ReportsValid(reports, |weights|) && p < |weights| && all != []
    requires |all| == |Reporters(reports, weights, |weights|)| && forall k :: 0 <= k < |all| ==> |all[k]| == |weights|
    requires forall k :: 0 <= k < |all| ==>
               var i := Reporters(reports, weights, |weights|)[k];
               i in reports && i <= |reports[i]| && all[k] == WithSelf(reports[i], i)
    requires HonestMajority(reports, weights, honest) && Bounds(reports, honest, p, lo, hi)
    ensures lo <= Sort(Column(all, p))[|all| / 2] <= hi
  {
    MedianWithinHonest(Column(all, p), DishonestShares(Reporters(reports, weights, |weights|), honest), lo, hi);
  }
}
