/** The routing of DKG shares: from who they are addressed to by the sender's processor, through the transaction's
    lists, to who the recipient's processor is told they are from. */
module ShareRouting {
  import opened Wrappers

  type Participant = nat
  type Share = nat

  /** A validator's indexes: from `start`, to `end` exclusive. */
  datatype Range = Range(start: Participant, end: Participant) {
    predicate Has(i: nat) { start <= i < end }
    function Len(): int { end - start }
  }

  // Validators' indexes

  ghost function Total(weights: seq<nat>): nat {
    if weights == [] then 0 else Total(weights[..|weights| - 1]) + weights[|weights| - 1]
  }

  /** A validator's indexes without anyone removed. */
  ghost function Original(weights: seq<nat>, k: nat): Range
    requires k < |weights|
  {
    var start := Total(weights[..k]) + 1;
    Range(start, start + weights[k])
  }

  ghost predicate Positive(weights: seq<nat>) {
    forall k :: 0 <= k < |weights| ==> weights[k] > 0
  }

  method Ranges(weights: seq<nat>) returns (ranges: seq<Range>)
    ensures |ranges| == |weights| && forall k :: 0 <= k < |weights| ==> ranges[k] == Original(weights, k)
  {
    ranges := [];
    var i := 1;
    for k := 0 to |weights|
      invariant |ranges| == k && i == Total(weights[..k]) + 1
      invariant forall j :: 0 <= j < k ==> ranges[j] == Original(weights, j)
    {
      ranges := ranges + [Range(i, i + weights[k])];
      i := i + weights[k];
      assert weights[..k + 1][..k] == weights[..k];
    }
  }

  lemma {:induction false} StartsIncrease(weights: seq<nat>, j: nat, k: nat)
    requires Positive(weights) && j < k < |weights|
    ensures Original(weights, j).end <= Original(weights, k).start
  {
    assert weights[..k][..k - 1] == weights[..k - 1];
    if j < k - 1 {
      StartsIncrease(weights, j, k - 1);
    }
  }

  /** The removed validators before a validator, in the order given. */
  ghost function RemovedBefore(removed: seq<nat>, k: nat): seq<nat> {
    if removed == [] then []
    else
      var last := removed[|removed| - 1];
      RemovedBefore(removed[..|removed| - 1], k) + if last < k then [last] else []
  }

  lemma {:induction false} RemovedBeforeIn(removed: seq<nat>, k: nat, n: nat)
    requires forall j :: 0 <= j < |removed| ==> removed[j] < n
    ensures forall j :: 0 <= j < |RemovedBefore(removed, k)| ==> RemovedBefore(removed, k)[j] < n
  {
    if removed != [] { RemovedBeforeIn(removed[..|removed| - 1], k, n); }
  }

  /** `i`, with validators by their position: None if removed, and otherwise shifted down for removed validators
      before, each shift from the original indexes. */
  method IndexesOf(weights: seq<nat>, removed: seq<nat>, k: nat) returns (r: Option<Range>)
    requires Positive(weights) && k < |weights| && forall j :: 0 <= j < |removed| ==> removed[j] < |weights|
    ensures r.None? <==> k in removed
    ensures r.Some? ==> r.value == ShiftedByLast(weights, removed, k)
  {
    var ranges := Ranges(weights);
    var original := ranges[k];
    r := Some(original);
    for j := 0 to |removed|
      invariant k !in removed[..j] && r == Some(ShiftedByLast(weights, removed[..j], k))
    {
      var other := ranges[removed[j]];
      if removed[j] < k { StartsIncrease(weights, removed[j], k); }
      if k < removed[j] { StartsIncrease(weights, k, removed[j]); }
      if original == other {
        return None;
      }
      assert removed[..j + 1][..j] == removed[..j];
      RemovedBeforeIn(removed[..j + 1], k, |weights|);
      if other.start < original.start {
        var shares := other.Len();
        r := Some(Range(original.start - shares, original.end - shares));
      }
    }
    assert removed[..|removed|] == removed;
  }

  /** The shift is by the weight of the last of the removed validators before. */
  ghost function ShiftedByLast(weights: seq<nat>, removed: seq<nat>, k: nat): Range
    requires Positive(weights) && k < |weights| && forall j :: 0 <= j < |removed| ==> removed[j] < |weights|
  {
    RemovedBeforeIn(removed, k, |weights|);
    LastFits(weights, removed, k);
    var before, original := RemovedBefore(removed, k), Original(weights, k);
    if before == [] then original
    else
      var shares := weights[before[|before| - 1]];
      Range(original.start - shares, original.end - shares)
  }

  lemma LastFits(weights: seq<nat>, removed: seq<nat>, k: nat)
    requires Positive(weights) && k < |weights| && forall j :: 0 <= j < |removed| ==> removed[j] < |weights|
    ensures var before := RemovedBefore(removed, k);
            before != [] ==>
              before[|before| - 1] < |weights| && weights[before[|before| - 1]] < Original(weights, k).start
  {
    RemovedBeforeIn(removed, k, |weights|);
    RemovedAreBefore(removed, k);
    var before := RemovedBefore(removed, k);
    if before != [] { StartsIncrease(weights, before[|before| - 1], k); }
  }

  lemma {:induction false} RemovedAreBefore(removed: seq<nat>, k: nat)
    ensures forall j :: 0 <= j < |RemovedBefore(removed, k)| ==> RemovedBefore(removed, k)[j] < k
  {
    if removed != [] { RemovedAreBefore(removed[..|removed| - 1], k); }
  }

  /** The weight of those of the first `k` validators who are in a list, or aren't. */
  ghost function Weight(weights: seq<nat>, some: seq<nat>, within: bool, k: nat): nat
    requires k <= |weights|
  {
    if k == 0 then 0
    else Weight(weights, some, within, k - 1) + if (k - 1 in some) == within then weights[k - 1] else 0
  }

  /** `n`: the amount of indexes once the removed validators' are gone. */
  method Amount(weights: seq<nat>, removed: seq<nat>) returns (n: nat)
    ensures n == Weight(weights, removed, false, |weights|)
  {
    n := 0;
    for k := 0 to |weights|
      invariant n == Weight(weights, removed, false, k)
    {
      n := n + if k in removed then 0 else weights[k];
    }
  }

  /** Where a validator's indexes start once the removed ones' are gone: after the others' before it. */
  ghost function RightStart(weights: seq<nat>, removed: seq<nat>, k: nat): nat
    requires k <= |weights|
  {
    Weight(weights, removed, false, k) + 1
  }

  /** All removed validators before are one. */
  ghost predicate OneBefore(removed: seq<nat>, k: nat) {
    forall i, j :: i in removed && j in removed && i < k && j < k ==> i == j
  }

  lemma {:induction false} WeightSplit(weights: seq<nat>, some: seq<nat>, k: nat)
    requires k <= |weights|
    ensures Total(weights[..k]) == Weight(weights, some, false, k) + Weight(weights, some, true, k)
  {
    if k > 0 {
      WeightSplit(weights, some, k - 1);
      assert weights[..k][..k - 1] == weights[..k - 1];
    }
  }

  lemma {:induction false} WeightNone(weights: seq<nat>, some: seq<nat>, k: nat)
    requires Positive(weights) && k <= |weights|
    ensures Weight(weights, some, true, k) == 0 <==> forall j :: 0 <= j < k ==> j !in some
  {
    if k > 0 { WeightNone(weights, some, k - 1); }
  }

  lemma {:induction false} WeightOne(weights: seq<nat>, some: seq<nat>, k: nat, x: nat)
    requires Positive(weights) && k <= |weights| && x in some && x < k
    ensures Weight(weights, some, true, k) == weights[x] <==> forall j :: 0 <= j < k && j in some ==> j == x
    ensures Weight(weights, some, true, k) >= weights[x]
  {
    if x == k - 1 {
      WeightNone(weights, some, k - 1);
    } else {
      WeightOne(weights, some, k - 1, x);
    }
  }

  lemma {:induction false} RemovedBeforeLast(removed: seq<nat>, k: nat)
    ensures RemovedBefore(removed, k) == [] <==> forall i :: 0 <= i < |removed| ==> removed[i] >= k
    ensures var before := RemovedBefore(removed, k);
            before != [] ==> before[|before| - 1] in removed && before[|before| - 1] < k
  {
    if removed != [] {
      var n := |removed| - 1;
      RemovedBeforeLast(removed[..n], k);
      assert removed == removed[..n] + [removed[n]];
      assert forall i :: 0 <= i < n ==> removed[i] == removed[..n][i];
    }
  }

  /** The indexes are right exactly if all removed validators before are one. */
  lemma ShiftIsRight(weights: seq<nat>, removed: seq<nat>, k: nat)
    requires Positive(weights) && k < |weights| && forall j :: 0 <= j < |removed| ==> removed[j] < |weights|
    ensures ShiftedByLast(weights, removed, k).start == RightStart(weights, removed, k) <==> OneBefore(removed, k)
  {
    RemovedBeforeIn(removed, k, |weights|);
    RemovedBeforeLast(removed, k);
    WeightSplit(weights, removed, k);
    var before := RemovedBefore(removed, k);
    if before == [] {
      WeightNone(weights, removed, k);
    } else {
      var x := before[|before| - 1];
      WeightOne(weights, removed, k, x);
    }
  }

  /** With two validators removed, the third's index isn't the first. */
  lemma ShiftIsWrong()
    ensures ShiftedByLast([1, 1, 1], [0, 1], 2) == Range(2, 3) && RightStart([1, 1, 1], [0, 1], 2) == 1
  {
    var weights, removed := [1, 1, 1], [0, 1];
    assert removed[..1] == [0] && removed[..1][..0] == [];
    assert RemovedBefore(removed[..1], 2) == [0];
    assert RemovedBefore(removed, 2) == [0, 1];
    assert weights[..2] == [1, 1] && weights[..2][..1] == [1] && [1][..0] == [];
    assert Total([1]) == 1;
    assert Weight(weights, removed, false, 1) == 0;
  }

  // Everyone's indexes

  /** The ranges of those of the first `k` validators who aren't removed. */
  ghost function RangesTo(weights: seq<nat>, removed: seq<nat>, k: nat): seq<Range>
    requires Positive(weights) && k <= |weights| && forall j :: 0 <= j < |removed| ==> removed[j] < |weights|
  {
    if k == 0 then []
    else RangesTo(weights, removed, k - 1) +
         if k - 1 in removed then [] else [ShiftedByLast(weights, removed, k - 1)]
  }

  method AllRanges(weights: seq<nat>, removed: seq<nat>) returns (ranges: seq<Range>)
    requires Positive(weights) && forall j :: 0 <= j < |removed| ==> removed[j] < |weights|
    ensures ranges == RangesTo(weights, removed, |weights|)
  {
    ranges := [];
    for k := 0 to |weights|
      invariant ranges == RangesTo(weights, removed, k)
    {
      var range := IndexesOf(weights, removed, k);
      if range.Some? {
        ranges := ranges + [range.value];
      }
    }
  }

  /** Consecutive ranges, from 1 to n. */
  ghost predicate Tiles(ranges: seq<Range>, n: nat) {
    && ranges != [] && ranges[0].start == 1 && ranges[|ranges| - 1].end == n + 1
    && (forall k :: 0 <= k < |ranges| ==> ranges[k].start < ranges[k].end)
    && (forall k :: 0 <= k < |ranges| - 1 ==> ranges[k].end == ranges[k + 1].start)
  }

  ghost predicate EndsAt(ranges: seq<Range>, n: nat) {
    if ranges == [] then n == 0 else Tiles(ranges, n)
  }

  lemma TilesPush(ranges: seq<Range>, last: Range, n: nat)
    requires last.start < last.end
    ensures Tiles(ranges + [last], n) <==> last.start >= 1 && last.end == n + 1 && EndsAt(ranges, last.start - 1)
  {
    var more := ranges + [last];
    assert forall k :: 0 <= k < |ranges| ==> more[k] == ranges[k];
    if Tiles(more, n) && ranges != [] { assert more[|ranges| - 1].end == more[|ranges|].start; }
    if ranges != [] && Tiles(more, n) { FirstIsLeast(more, n, |ranges|); }
  }

  lemma {:induction false} FirstIsLeast(ranges: seq<Range>, n: nat, k: nat)
    requires Tiles(ranges, n) && k < |ranges|
    ensures ranges[k].start >= 1
  {
    if k > 0 { FirstIsLeast(ranges, n, k - 1); }
  }

  /** For everyone remaining of the first `k` validators, all removed validators before are one. */
  ghost predicate AllOneBefore(removed: seq<nat>, k: nat) {
    forall j :: 0 <= j < k && j !in removed ==> OneBefore(removed, j)
  }

  lemma OneBeforePush(removed: seq<nat>, k: nat)
    ensures AllOneBefore(removed, k + 1) <==> AllOneBefore(removed, k) && (k in removed || OneBefore(removed, k))
  {}

  lemma {:induction false} TilesTo(weights: seq<nat>, removed: seq<nat>, k: nat)
    requires Positive(weights) && k <= |weights| && forall j :: 0 <= j < |removed| ==> removed[j] < |weights|
    ensures EndsAt(RangesTo(weights, removed, k), Weight(weights, removed, false, k)) <==> AllOneBefore(removed, k)
  {
    if k > 0 {
      TilesTo(weights, removed, k - 1);
      OneBeforePush(removed, k - 1);
      if k - 1 !in removed {
        TilesStep(weights, removed, k - 1);
      } else {
        assert RangesTo(weights, removed, k) == RangesTo(weights, removed, k - 1);
      }
    }
  }

  lemma TilesStep(weights: seq<nat>, removed: seq<nat>, k: nat)
    requires Positive(weights) && k < |weights| && forall j :: 0 <= j < |removed| ==> removed[j] < |weights|
    requires k !in removed
    ensures EndsAt(RangesTo(weights, removed, k + 1), Weight(weights, removed, false, k + 1)) <==>
              && EndsAt(RangesTo(weights, removed, k), Weight(weights, removed, false, k))
              && OneBefore(removed, k)
  {
    var before, last := RangesTo(weights, removed, k), ShiftedByLast(weights, removed, k);
    ShiftIsRight(weights, removed, k);
    TilesPush(before, last, Weight(weights, removed, false, k + 1));
    assert RangesTo(weights, removed, k + 1) == before + [last];
  }

  /** The indexes of all remaining validators tile those there are exactly if all removed validators before any of
      them are one. */
  lemma RangesTile(weights: seq<nat>, removed: seq<nat>)
    requires Positive(weights) && forall j :: 0 <= j < |removed| ==> removed[j] < |weights|
    requires RangesTo(weights, removed, |weights|) != []
    ensures Tiles(RangesTo(weights, removed, |weights|), Weight(weights, removed, false, |weights|)) <==>
              AllOneBefore(removed, |weights|)
  {
    TilesTo(weights, removed, |weights|);
  }

  // The shares of one sender

  /** Everyone's indexes but a range's. */
  ghost function Others(range: Range, n: nat): set<Participant> {
    set i | 1 <= i <= n && !range.Has(i)
  }

  /** The `to` of a position in a list which omits the sender's own indexes. */
  function Addressed(sender: Range, position: nat): Participant
    requires sender.start <= sender.end
  {
    if position + 1 >= sender.start then position + 1 + sender.Len() else position + 1
  }

  /** The position of an index which isn't the sender's. */
  function Position(sender: Range, i: Participant): int
    requires sender.start <= sender.end
  {
    if i > sender.start then i - 1 - sender.Len() else i - 1
  }

  lemma AddressedPosition(sender: Range, n: nat, i: Participant)
    requires 1 <= sender.start < sender.end <= n + 1 && i in Others(sender, n)
    ensures 0 <= Position(sender, i) < n - sender.Len() && Addressed(sender, Position(sender, i)) == i
  {}

  lemma PositionAddressed(sender: Range, n: nat, position: nat)
    requires 1 <= sender.start < sender.end <= n + 1 && position < n - sender.Len()
    ensures Addressed(sender, position) in Others(sender, n)
    ensures Position(sender, Addressed(sender, position)) == position
  {}

  /** A list holds the shares of everyone else, in order. */
  ghost predicate Listed(list: seq<Share>, shares: map<Participant, Share>, sender: Range, n: nat) {
    && 1 <= sender.start < sender.end <= n + 1 && shares.Keys == Others(sender, n) && |list| == n - sender.Len()
    && forall i :: i in shares ==> 0 <= Position(sender, i) < |list| && list[Position(sender, i)] == shares[i]
  }

  /** Flattening the shares a processor addressed to others, with a panic for its own or for one missing. */
  method ListShares(shares: map<Participant, Share>, sender: Range, n: nat) returns (list: seq<Share>)
    requires 1 <= sender.start < sender.end <= n + 1 && shares.Keys == Others(sender, n)
    ensures Listed(list, shares, sender, n)
  {
    list := [];
    for i := 1 to n + 1
      invariant |list| == if i <= sender.start then i - 1
                          else if i <= sender.end then sender.start - 1
                          else i - 1 - sender.Len()
      invariant forall j :: j in shares && j < i ==>
                0 <= Position(sender, j) < |list| && list[Position(sender, j)] == shares[j]
    {
      if sender.Has(i) {
        assert i !in shares;
        continue;
      }
      assert i in Others(sender, n);
      list := list + [shares[i]];
    }
  }

  /** What is stored for blame: every share under who it is from and who it is to. */
  method StoreShares(lists: seq<seq<Share>>, sender: Range, n: nat, ghost shares: seq<map<Participant, Share>>)
    returns (stored: map<(Participant, Participant), Share>)
    requires |lists| == |shares| && forall k :: 0 <= k < |lists| ==> Listed(lists[k], shares[k], sender, n)
    ensures forall from, to :: (from, to) in stored <==>
                                 sender.start <= from < sender.start + |shares| && to in shares[from - sender.start]
    ensures forall from, to :: (from, to) in stored ==> stored[(from, to)] == shares[from - sender.start][to]
  {
    stored := map[];
    for k := 0 to |lists|
      invariant forall from, to :: (from, to) in stored <==>
                sender.start <= from < sender.start + k && to in shares[from - sender.start]
      invariant forall from, to :: (from, to) in stored ==> stored[(from, to)] == shares[from - sender.start][to]
    {
      ghost var before := stored;
      for p := 0 to |lists[k]|
        invariant forall from, to :: (from, to) in stored <==>
                    || (from, to) in before
                    || (from == sender.start + k && to in shares[k] && Position(sender, to) < p)
        invariant forall from, to :: (from, to) in stored ==> stored[(from, to)] == shares[from - sender.start][to]
      {
        PositionAddressed(sender, n, p);
        ghost var to := Addressed(sender, p);
        assert shares[k][to] == lists[k][p];
        forall i | i in shares[k] ensures Position(sender, i) == p <==> i == to { AddressedPosition(sender, n, i); }
        stored := stored[(sender.start + k, Addressed(sender, p)) := lists[k][p]];
      }
      forall i | i in shares[k] ensures Position(sender, i) < |lists[k]| { AddressedPosition(sender, n, i); }
    }
  }

  /** The share of each of ours, drained from a list. */
  method DrainOurs(list: seq<Share>, sender: Range, ours: Range, n: nat, ghost shares: map<Participant, Share>)
    returns (row: seq<Share>)
    requires Listed(list, shares, sender, n) && 1 <= ours.start < ours.end <= n + 1
    requires ours.end <= sender.start || sender.end <= ours.start
    ensures |row| == ours.Len()
    ensures forall m :: 0 <= m < |row| ==> ours.start + m in shares && row[m] == shares[ours.start + m]
  {
    var position := ours.start - 1;
    if ours.start > sender.start {
      position := position - sender.Len();
    }
    forall i: nat | ours.Has(i) ensures i in shares && Position(sender, i) == position + (i - ours.start) {
      assert i in Others(sender, n);
    }
    assert ours.Has(ours.start) && ours.Has(ours.end - 1);
    AddressedPosition(sender, n, ours.end - 1);
    row := list[position..position + ours.Len()];
    forall m | 0 <= m < |row| ensures ours.start + m in shares && row[m] == shares[ours.start + m] {
      assert ours.Has(ours.start + m);
      assert row[m] == list[Position(sender, ours.start + m)];
    }
  }

  // All shares

  type Table = map<Participant, map<Participant, Share>>

  ghost predicate Covers(table: Table, ours: Range, covered: set<Participant>) {
    forall i :: i in covered ==> i in table && forall m: nat :: ours.Has(m) ==> m in table[i]
  }

  /** The shares for one of ours, of the participants covered. */
  ghost function Slot(table: Table, ours: Range, covered: set<Participant>, m: nat): map<Participant, Share>
    requires Covers(table, ours, covered) && ours.Has(ours.start + m)
  {
    map i | i in covered :: table[i][ours.start + m]
  }

  /** For each of ours, the shares of the participants covered. */
  ghost predicate Collected(expanded: seq<map<Participant, Share>>, table: Table, ours: Range,
                            covered: set<Participant>) {
    && Covers(table, ours, covered) && ours.start < ours.end
    && |expanded| == (if covered == {} then 0 else ours.Len())
    && forall m :: 0 <= m < |expanded| ==> ours.Has(ours.start + m) && expanded[m] == Slot(table, ours, covered, m)
  }

  /** Adding a participant's shares to `expanded_shares`. */
  method AddRow(expanded: seq<map<Participant, Share>>, from: Participant, row: seq<Share>, ghost table: Table,
                ghost ours: Range, ghost covered: set<Participant>)
    returns (r: seq<map<Participant, Share>>)
    requires Collected(expanded, table, ours, covered) && Covers(table, ours, covered + {from}) && from !in covered
    requires |row| == ours.Len()
    requires forall m :: 0 <= m < |row| ==> ours.start + m in table[from] && row[m] == table[from][ours.start + m]
    ensures Collected(r, table, ours, covered + {from})
  {
    r := expanded;
    ghost var more := covered + {from};
    for m := 0 to |row|
      invariant |r| == if covered == {} then m else |row|
      invariant forall k :: 0 <= k < m ==> ours.Has(ours.start + k) && r[k] == Slot(table, ours, more, k)
      invariant forall k :: m <= k < |r| ==> ours.Has(ours.start + k) && r[k] == Slot(table, ours, covered, k)
    {
      assert ours.Has(ours.start + m);
      if |r| <= m {
        r := r + [map[]];
      }
      assert r[m] == Slot(table, ours, covered, m);
      var shares: map<Participant, Share> := r[m][from := row[m]];
      assert shares == Slot(table, ours, more, m);
      r := r[m := shares];
    }
  }

  /** One sender's lists, drained of ours, with every list's shares added under the sender's own index. */
  method AddSender(expanded: seq<map<Participant, Share>>, lists: seq<seq<Share>>, sender: Range, ours: Range, n: nat,
                   ghost table: Table, ghost covered: set<Participant>)
    returns (r: seq<map<Participant, Share>>)
    requires 1 <= ours.start < ours.end <= n + 1 && (ours.end <= sender.start || sender.end <= ours.start)
    requires |lists| == sender.Len()
    requires forall k :: 0 <= k < |lists| ==>
              sender.start + k in table && Listed(lists[k], table[sender.start + k], sender, n)
    requires forall i :: sender.Has(i) ==> i !in covered
    requires Collected(expanded, table, ours, covered)
    ensures Collected(r, table, ours, covered + Indexes(sender))
  {
    r := expanded;
    ghost var now := covered;
    assert covered + Indexes(Range(sender.start, sender.start)) == covered;
    for k := 0 to |lists|
      invariant now == covered + Indexes(Range(sender.start, sender.start + k)) && Collected(r, table, ours, now)
    {
      var from := sender.start + k;
      assert sender.Has(from);
      var row := DrainOurs(lists[k], sender, ours, n, table[from]);
      forall m: nat | ours.Has(m) ensures m in table[from] {
        assert m == ours.start + (m - ours.start) && 0 <= m - ours.start < |row|;
      }
      r := AddRow(r, from, row, table, ours, now);
      now := now + {from};
      assert now == covered + Indexes(Range(sender.start, sender.start + (k + 1)));
    }
  }

  ghost function Indexes(range: Range): set<Participant> {
    set i | range.start <= i < range.end && range.Has(i)
  }

  lemma {:induction false} Ordered(ranges: seq<Range>, n: nat, j: nat, k: nat)
    requires Tiles(ranges, n) && j < k < |ranges|
    ensures ranges[j].end <= ranges[k].start
  {
    if j + 1 < k { Ordered(ranges, n, j, k - 1); }
  }

  lemma Within(ranges: seq<Range>, n: nat, k: nat)
    requires Tiles(ranges, n) && k < |ranges|
    ensures 1 <= ranges[k].start < ranges[k].end <= n + 1
  {
    if k > 0 { Ordered(ranges, n, 0, k); }
    if k < |ranges| - 1 { Ordered(ranges, n, k, |ranges| - 1); }
  }

  /** What the given ranges cover. */
  ghost function CoveredBy(ranges: seq<Range>, done: set<nat>): (r: set<Participant>)
    requires forall k :: k in done ==> k < |ranges|
    ensures forall i :: i in r <==> exists k :: k in done && ranges[k].Has(i)
  {
    set k, i | k in done && ranges[k].start <= i < ranges[k].end && ranges[k].Has(i) :: i
  }

  lemma {:induction false} InSome(ranges: seq<Range>, n: nat, i: nat, k: nat) returns (j: nat)
    requires Tiles(ranges, n) && k < |ranges| && 1 <= i < ranges[k].end
    ensures j <= k && ranges[j].Has(i)
  {
    if ranges[k].start <= i {
      j := k;
    } else {
      j := InSome(ranges, n, i, k - 1);
    }
  }

  /** Every participant's processor addressed a share to everyone who isn't its own. */
  ghost predicate TableValid(table: Table, ranges: seq<Range>, n: nat) {
    forall k, i :: 0 <= k < |ranges| && ranges[k].Has(i) ==> i in table && table[i].Keys == Others(ranges[k], n)
  }

  /** The lists of a validator's transaction. */
  method SenderLists(table: Table, sender: Range, n: nat) returns (lists: seq<seq<Share>>)
    requires 1 <= sender.start < sender.end <= n + 1
    requires forall i :: sender.Has(i) ==> i in table && table[i].Keys == Others(sender, n)
    ensures |lists| == sender.Len()
    ensures forall k :: 0 <= k < |lists| ==>
              sender.start + k in table && Listed(lists[k], table[sender.start + k], sender, n)
  {
    lists := [];
    for k := 0 to sender.Len()
      invariant |lists| == k
      invariant forall j :: 0 <= j < k ==>
                sender.start + j in table && Listed(lists[j], table[sender.start + j], sender, n)
    {
      assert sender.Has(sender.start + k);
      var list := ListShares(table[sender.start + k], sender, n);
      lists := lists + [list];
    }
  }

  function Below(n: nat): (r: set<nat>)
    ensures forall k: nat :: k in r <==> k < n
  {
    if n == 0 then {} else Below(n - 1) + {n - 1}
  }

  /** Another validator's transaction, handled by us. */
  method AddValidator(expanded: seq<map<Participant, Share>>, table: Table, ranges: seq<Range>, n: nat, us: nat, k: nat,
                      ghost done: set<nat>)
    returns (r: seq<map<Participant, Share>>)
    requires Tiles(ranges, n) && TableValid(table, ranges, n) && us < |ranges| && k < |ranges| && k != us
    requires k !in done && (forall j :: j in done ==> j < |ranges|)
    requires Collected(expanded, table, ranges[us], CoveredBy(ranges, done))
    ensures Collected(r, table, ranges[us], CoveredBy(ranges, done + {k}))
  {
    Within(ranges, n, us);
    Within(ranges, n, k);
    if k < us { Ordered(ranges, n, k, us); } else { Ordered(ranges, n, us, k); }
    NotCovered(ranges, n, done, k);
    var lists := SenderLists(table, ranges[k], n);
    r := AddSender(expanded, lists, ranges[k], ranges[us], n, table, CoveredBy(ranges, done));
    CoverMore(ranges, done, k);
  }

  lemma CoverMore(ranges: seq<Range>, done: set<nat>, k: nat)
    requires k < |ranges| && forall j :: j in done ==> j < |ranges|
    ensures CoveredBy(ranges, done + {k}) == CoveredBy(ranges, done) + Indexes(ranges[k])
  {
    forall i: nat ensures i in CoveredBy(ranges, done + {k}) <==> i in CoveredBy(ranges, done) + Indexes(ranges[k]) {
      if i in CoveredBy(ranges, done) {
        var j :| j in done && ranges[j].Has(i);
        assert j in done + {k};
      }
    }
  }

  /** The share anyone's processor addressed to one of ours reaches it, under the index of who it is from, and
      nothing else does. */
  method Route(table: Table, ranges: seq<Range>, n: nat, us: nat) returns (expanded: seq<map<Participant, Share>>)
    requires Tiles(ranges, n) && TableValid(table, ranges, n) && us < |ranges|
    ensures Collected(expanded, table, ranges[us], Others(ranges[us], n))
    ensures |ranges| > 1 ==> |expanded| == ranges[us].Len()
  {
    var ours := ranges[us];
    Within(ranges, n, us);
    expanded := [];
    var left := Below(|ranges|) - {us};
    ghost var senders, done := left, {};
    while left != {}
      invariant left <= senders && done == senders - left && Collected(expanded, table, ours, CoveredBy(ranges, done))
    {
      var k :| k in left;
      expanded := AddValidator(expanded, table, ranges, n, us, k, done);
      left := left - {k};
      done := done + {k};
    }
    assert done == senders;
    AllCovered(ranges, n, us, senders);
  }

  /** The same with the indexes computed for the validators remaining, for as long as those are right. */
  method RouteRemaining(weights: seq<nat>, removed: seq<nat>, table: Table, us: nat)
    returns (expanded: seq<map<Participant, Share>>)
    requires Positive(weights) && (forall j :: 0 <= j < |removed| ==> removed[j] < |weights|)
    requires us < |RangesTo(weights, removed, |weights|)| && AllOneBefore(removed, |weights|)
    requires TableValid(table, RangesTo(weights, removed, |weights|), Weight(weights, removed, false, |weights|))
    ensures var ours, n := RangesTo(weights, removed, |weights|)[us], Weight(weights, removed, false, |weights|);
            Collected(expanded, table, ours, Others(ours, n))
  {
    var ranges := AllRanges(weights, removed);
    var n := Amount(weights, removed);
    RangesTile(weights, removed);
    expanded := Route(table, ranges, n, us);
  }

  /** What being collected is: a share from everyone else, which is the one they addressed to us. */
  lemma RoutedShare(expanded: seq<map<Participant, Share>>, table: Table, ours: Range, n: nat, m: nat, i: Participant)
    requires Collected(expanded, table, ours, Others(ours, n)) && m < |expanded|
    ensures i in expanded[m] <==> 1 <= i <= n && !ours.Has(i)
    ensures i in expanded[m] ==> i in table && ours.start + m in table[i] && expanded[m][i] == table[i][ours.start + m]
  {
    assert expanded[m] == Slot(table, ours, Others(ours, n), m);
  }

  lemma AllCovered(ranges: seq<Range>, n: nat, us: nat, senders: set<nat>)
    requires Tiles(ranges, n) && us < |ranges| && senders == Below(|ranges|) - {us}
    ensures CoveredBy(ranges, senders) == Others(ranges[us], n)
    ensures |ranges| > 1 ==> Others(ranges[us], n) != {}
  {
    forall i: nat ensures i in CoveredBy(ranges, senders) <==> i in Others(ranges[us], n) {
      if i in CoveredBy(ranges, senders) {
        var k :| k in senders && ranges[k].Has(i);
        Within(ranges, n, k);
        if k < us { Ordered(ranges, n, k, us); } else { Ordered(ranges, n, us, k); }
      }
      if i in Others(ranges[us], n) {
        var j := InSome(ranges, n, i, |ranges| - 1);
        assert j in senders;
      }
    }
    if |ranges| > 1 {
      var other := if us == 0 then 1 else 0;
      Within(ranges, n, other);
      assert other in senders && ranges[other].Has(ranges[other].start);
      assert ranges[other].start in CoveredBy(ranges, senders);
    }
  }

  lemma NotCovered(ranges: seq<Range>, n: nat, done: set<nat>, k: nat)
    requires Tiles(ranges, n) && k < |ranges| && k !in done && forall j :: j in done ==> j < |ranges|
    ensures forall i :: ranges[k].Has(i) ==> i !in CoveredBy(ranges, done)
  {
    forall i, j | ranges[k].Has(i) && j in done ensures !ranges[j].Has(i) {
      if j < k { Ordered(ranges, n, j, k); } else { Ordered(ranges, n, k, j); }
    }
  }
}
