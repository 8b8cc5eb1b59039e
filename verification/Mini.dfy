/** Key activation between two threads: the processor publishes a batch per block, Serai includes them and
    activates a queued key. The steps are what each thread does between acquiring and releasing a lock. */
module Mini {
  import opened Wrappers

  /** The blocks to scan past an included batch before its inclusion is confirmed. */
  const BATCH_FTL := 3

  datatype Batch = Batch(block: nat, keys: seq<nat>)

  /** An activation block, and the key's ID. */
  type ActiveKey = (nat, nat)

  /** Where Serai's thread is: at the loop's condition, at the loop's body, or inside of it, holding the
      mempool's lock with a batch it removed. */
  datatype SeraiAt = Ticking | Body | Removed(batch: Batch) | Activated(batch: Batch) | Sent(batch: Batch) | Stopped

  /** Where the processor's thread is: at the loop over the blocks and its wait, or at receiving an event. */
  datatype ProcessorAt = Scanning | Receiving | Returned

  datatype State = State(
    serai: SeraiAt,
    ticks: nat,
    queuedKey: bool,
    activeKeys: seq<ActiveKey>,
    mempool: seq<Batch>,
    events: seq<Batch>,
    log: seq<Batch>,
    processor: ProcessorAt,
    block: nat,
    blocks: nat,
    lastFinalized: nat)

  ghost predicate Init(s: State) {
    && s.serai == Ticking && s.activeKeys == [(0, 0)] && s.mempool == [] && s.events == [] && s.log == []
    && s.processor == Scanning && s.block == 0 && s.lastFinalized == 0
  }

  /** The keys active at a block, by the list as it is. */
  function KeysAt(activeKeys: seq<ActiveKey>, block: nat): seq<nat> {
    if activeKeys == [] then []
    else
      var last := activeKeys[|activeKeys| - 1];
      KeysAt(activeKeys[..|activeKeys| - 1], block) + if block >= last.0 then [last.1] else []
  }

  /** Serai holds the mempool's lock. */
  predicate Locked(s: State) { s.serai.Removed? || s.serai.Activated? || s.serai.Sent? }

  // Serai's steps

  function Tick(s: State): State
    requires s.serai.Ticking?
  {
    if s.ticks == 0 then s.(serai := Stopped) else s.(serai := Body, ticks := s.ticks - 1)
  }

  function Remove(s: State): State
    requires s.serai.Body?
  {
    if s.mempool == [] then s.(serai := Ticking) else s.(serai := Removed(s.mempool[0]), mempool := s.mempool[1..])
  }

  function Activate(s: State): State
    requires s.serai.Removed?
  {
    s.(serai := Activated(s.serai.batch), queuedKey := false,
       activeKeys := if s.queuedKey
                     then s.activeKeys + [(s.serai.batch.block + BATCH_FTL, |s.activeKeys|)]
                     else s.activeKeys)
  }

  function Send(s: State): State
    requires s.serai.Activated?
  {
    s.(serai := Sent(s.serai.batch), events := s.events + [s.serai.batch])
  }

  function Log(s: State): State
    requires s.serai.Sent?
  {
    s.(serai := Ticking, log := s.log + [s.serai.batch])
  }

  // The processor's steps

  /** The loop's end, the wait's condition with its check for exhaustion, or publishing a batch, for which the
      mempool's lock is needed. */
  ghost predicate Scan(s: State, t: State) {
    && s.processor.Scanning?
    && if s.block >= s.blocks then t == s.(processor := Returned)
       else if s.block >= s.lastFinalized + BATCH_FTL then
         t == s.(processor := if s.ticks == 0 then Returned else Receiving)
       else
         && !Locked(s)
         && t == s.(mempool := s.mempool + [Batch(s.block, KeysAt(s.activeKeys, s.block))], block := s.block + 1)
  }

  /** Receiving blocks until there is an event, or until Serai's thread ended without leaving one. */
  ghost predicate Receive(s: State, t: State) {
    && s.processor.Receiving?
    && if s.events != []
       then t == s.(processor := Scanning, events := s.events[1..], lastFinalized := s.events[0].block)
       else s.serai.Stopped? && t == s.(processor := Returned)
  }

  ghost predicate Next(s: State, t: State) {
    || (s.serai.Ticking? && t == Tick(s))
    || (s.serai.Body? && t == Remove(s))
    || (s.serai.Removed? && t == Activate(s))
    || (s.serai.Activated? && t == Send(s))
    || (s.serai.Sent? && t == Log(s))
    || Scan(s, t)
    || Receive(s, t)
  }

  // What every step keeps

  /** The batches whose inclusion was or is being logged, in order. */
  ghost function Included(s: State): seq<Batch> {
    if s.serai.Sent? then s.log + [s.serai.batch] else s.log
  }

  /** The batch removed from the mempool, before its inclusion. */
  ghost function InHand(s: State): seq<Batch> {
    if s.serai.Removed? || s.serai.Activated? then [s.serai.batch] else []
  }

  /** Every batch published, in order. */
  ghost function Published(s: State): seq<Batch> {
    Included(s) + InHand(s) + s.mempool
  }

  /** How many events the processor received. */
  ghost function ReceivedCount(s: State): int { |Included(s)| - |s.events| }

  ghost predicate Invariant(s: State) {
    && |Published(s)| == s.block
    && (forall k :: 0 <= k < |Published(s)| ==> Published(s)[k] == Batch(k, KeysAt(s.activeKeys, k)))
    && ReceivedCount(s) >= 0 && s.events == Included(s)[ReceivedCount(s)..]
    && s.lastFinalized == (if ReceivedCount(s) == 0 then 0 else ReceivedCount(s) - 1)
    && s.block <= s.lastFinalized + BATCH_FTL
    && (s.processor.Receiving? ==> s.block == s.lastFinalized + BATCH_FTL)
    && (s.queuedKey ==> s.log == [] && !s.serai.Activated? && !s.serai.Sent?)
  }

  lemma KeysPush(activeKeys: seq<ActiveKey>, key: ActiveKey, block: nat)
    ensures KeysAt(activeKeys + [key], block) == KeysAt(activeKeys, block) + if block >= key.0 then [key.1] else []
  {
    assert (activeKeys + [key])[..|activeKeys|] == activeKeys;
  }

  lemma InitInvariant(s: State)
    requires Init(s)
    ensures Invariant(s)
  {}

  /** A key activates while no batch for its activation block, or later, was published. */
  lemma ActivateKeeps(s: State)
    requires Invariant(s) && s.serai.Removed?
    ensures Invariant(Activate(s))
  {
    var t := Activate(s);
    assert Published(t) == Published(s);
    forall k | 0 <= k < |Published(t)| ensures Published(t)[k] == Batch(k, KeysAt(t.activeKeys, k)) {
      if s.queuedKey {
        assert Published(s)[0] == s.serai.batch;
        KeysPush(s.activeKeys, (s.serai.batch.block + BATCH_FTL, |s.activeKeys|), k);
      }
    }
  }

  lemma TickKeeps(s: State)
    requires Invariant(s) && s.serai.Ticking?
    ensures Invariant(Tick(s))
  {
    assert Published(Tick(s)) == Published(s);
  }

  lemma RemoveKeeps(s: State)
    requires Invariant(s) && s.serai.Body?
    ensures Invariant(Remove(s))
  {
    if s.mempool != [] {
      var t := Remove(s);
      assert s.mempool == [s.mempool[0]] + s.mempool[1..];
      assert Included(t) == Included(s) && Published(t) == s.log + ([s.mempool[0]] + s.mempool[1..]);
    }
  }

  lemma SendKeeps(s: State)
    requires Invariant(s) && s.serai.Activated?
    ensures Invariant(Send(s))
  {
    var t, r := Send(s), ReceivedCount(s);
    assert Included(t) == s.log + [s.serai.batch] && InHand(t) == [];
    assert Published(t) == Published(s);
    assert t.events == Included(t)[r..];
  }

  lemma LogKeeps(s: State)
    requires Invariant(s) && s.serai.Sent?
    ensures Invariant(Log(s))
  {
    assert Included(Log(s)) == Included(s);
  }

  lemma PublishKeeps(s: State, t: State)
    requires Invariant(s) && !Locked(s) && s.processor.Scanning? && s.block < s.lastFinalized + BATCH_FTL
    requires t == s.(mempool := s.mempool + [Batch(s.block, KeysAt(s.activeKeys, s.block))], block := s.block + 1)
    ensures Invariant(t)
  {
    var batch := Batch(s.block, KeysAt(s.activeKeys, s.block));
    assert Published(t) == Published(s) + [batch];
    forall k | 0 <= k < |Published(t)| ensures Published(t)[k] == Batch(k, KeysAt(t.activeKeys, k)) {
      if k < |Published(s)| { assert Published(t)[k] == Published(s)[k]; }
    }
  }

  lemma ScanKeeps(s: State, t: State)
    requires Invariant(s) && Scan(s, t)
    ensures Invariant(t)
  {
    if s.block < s.blocks && s.block < s.lastFinalized + BATCH_FTL {
      PublishKeeps(s, t);
    } else {
      assert Published(t) == Published(s);
    }
  }

  lemma ReceiveKeeps(s: State, t: State)
    requires Invariant(s) && Receive(s, t)
    ensures Invariant(t)
  {
    if s.events != [] {
      var r := ReceivedCount(s);
      assert s.events[0] == Included(s)[r] == Published(s)[r];
      assert t.events == Included(s)[r + 1..];
    }
  }

  lemma NextKeeps(s: State, t: State)
    requires Invariant(s) && Next(s, t)
    ensures Invariant(t) && Included(s) <= Included(t)
  {
    if Scan(s, t) {
      ScanKeeps(s, t);
    } else if Receive(s, t) {
      ReceiveKeeps(s, t);
    } else {
      match s.serai {
        case Ticking => TickKeeps(s);
        case Body => RemoveKeeps(s);
        case Removed(_) => ActivateKeeps(s);
        case Activated(_) => SendKeeps(s);
        case Sent(_) => LogKeeps(s);
      }
    }
  }

  // Every interleaving

  ghost predicate Run(run: seq<State>) {
    && run != [] && Init(run[0])
    && forall i :: 0 <= i < |run| - 1 ==> Next(run[i], run[i + 1])
  }

  lemma {:induction false} Reachable(run: seq<State>, i: nat)
    requires Run(run) && i < |run|
    ensures Invariant(run[i])
  {
    if i == 0 {
      InitInvariant(run[0]);
    } else {
      Reachable(run, i - 1);
      NextKeeps(run[i - 1], run[i]);
    }
  }

  lemma {:induction false} IncludedGrows(run: seq<State>, i: nat, j: nat)
    requires Run(run) && i <= j < |run|
    ensures Included(run[i]) <= Included(run[j])
  {
    if i < j {
      IncludedGrows(run, i, j - 1);
      Reachable(run, j - 1);
      NextKeeps(run[j - 1], run[j]);
    }
  }

  /** The keys of every batch included are those of the list of active keys as it is then, and as it is at
      any later time, whose activation is at most the batch's block. */
  lemma IncludedKeys(run: seq<State>, i: nat, j: nat, k: nat)
    requires Run(run) && i <= j < |run| && k < |Included(run[i])|
    ensures var batch := Included(run[i])[k]; batch.block == k && batch.keys == KeysAt(run[j].activeKeys, batch.block)
  {
    IncludedGrows(run, i, j);
    Reachable(run, j);
    assert Included(run[i])[k] == Included(run[j])[k] == Published(run[j])[k];
  }

  // Which keys those are

  /** A batch was removed from the mempool, and a queued key activated. */
  ghost predicate FirstActivated(s: State) {
    s.log != [] || s.serai.Activated? || s.serai.Sent?
  }

  /** The list of active keys, which only depends on whether a key was queued to start with and whether the first
      batch was there to activate it. */
  ghost function ActiveKeysBy(queued: bool, activated: bool): seq<ActiveKey> {
    if queued && activated then [(0, 0), (BATCH_FTL, 1)] else [(0, 0)]
  }

  ghost predicate KeysKnown(s: State, queued: bool) {
    && s.activeKeys == ActiveKeysBy(queued, FirstActivated(s))
    && s.queuedKey == (queued && !FirstActivated(s))
  }

  lemma KnownKeeps(s: State, t: State, queued: bool)
    requires Invariant(s) && KeysKnown(s, queued) && Next(s, t)
    ensures KeysKnown(t, queued)
  {
    if s.serai.Removed? && s.queuedKey { assert Published(s)[0] == s.serai.batch; }
  }

  lemma {:induction false} KnownInRun(run: seq<State>, i: nat)
    requires Run(run) && i < |run|
    ensures KeysKnown(run[i], run[0].queuedKey)
  {
    if i > 0 {
      KnownInRun(run, i - 1);
      Reachable(run, i - 1);
      KnownKeeps(run[i - 1], run[i], run[0].queuedKey);
    }
  }

  /** The keys at a block, with a list of one or two. */
  lemma KeysOfList(block: nat)
    ensures KeysAt([(0, 0)], block) == [0]
    ensures KeysAt([(0, 0), (BATCH_FTL, 1)], block) == if block >= BATCH_FTL then [0, 1] else [0]
  {
    KeysPush([], (0, 0), block);
    assert [] + [(0, 0)] == [(0, 0)];
    KeysPush([(0, 0)], (BATCH_FTL, 1), block);
    assert [(0, 0)] + [(BATCH_FTL, 1)] == [(0, 0), (BATCH_FTL, 1)];
  }

  /** In every interleaving, every batch ever published, included or not, has both keys exactly if a key was queued and
      its block is at least BATCH_FTL, and only the first otherwise. */
  lemma PublishedKeys(run: seq<State>, i: nat, k: nat)
    requires Run(run) && i < |run| && k < |Published(run[i])|
    ensures Published(run[i])[k] == Batch(k, if run[0].queuedKey && k >= BATCH_FTL then [0, 1] else [0])
  {
    var s := run[i];
    Reachable(run, i);
    KnownInRun(run, i);
    KeysOfList(k);
    // Before the first batch was activated, no batch past BATCH_FTL was published
    assert FirstActivated(s) || Included(s) == [];
  }

  // That every interleaving ends

  /** What is left to do: ticks and what follows them, events to receive, and blocks to scan. */
  ghost function Left(s: State): nat {
    (match s.serai
     case Ticking => 8 * s.ticks + 1
     case Body => 8 * s.ticks + 8
     case Removed(_) => 8 * s.ticks + 7
     case Activated(_) => 8 * s.ticks + 6
     case Sent(_) => 8 * s.ticks + 3
     case Stopped => 0)
    + (match s.processor case Scanning => 2 case Receiving => 1 case Returned => 0)
    + 2 * |s.events| + if s.block < s.blocks then s.blocks - s.block else 0
  }

  lemma SeraiLeaves(s: State)
    ensures s.serai.Ticking? ==> Left(Tick(s)) < Left(s)
    ensures s.serai.Body? ==> Left(Remove(s)) < Left(s)
    ensures s.serai.Removed? ==> Left(Activate(s)) < Left(s)
    ensures s.serai.Activated? ==> Left(Send(s)) < Left(s)
    ensures s.serai.Sent? ==> Left(Log(s)) < Left(s)
  {}

  lemma ProcessorLeaves(s: State, t: State)
    requires Scan(s, t) || Receive(s, t)
    ensures Left(t) < Left(s)
  {}

  lemma NextLeaves(s: State, t: State)
    requires Next(s, t)
    ensures Left(t) < Left(s)
  {
    if Scan(s, t) || Receive(s, t) { ProcessorLeaves(s, t); } else { SeraiLeaves(s); }
  }

  /** A run only takes so many steps. */
  lemma {:induction false} RunEnds(run: seq<State>, i: nat)
    requires Run(run) && i < |run|
    ensures Left(run[i]) + i <= 8 * run[0].ticks + run[0].blocks + 3
  {
    if i > 0 {
      RunEnds(run, i - 1);
      NextLeaves(run[i - 1], run[i]);
    }
  }

  /** Neither thread ends early: Serai without ticks left, and the processor with its blocks scanned or without ticks
      left for what it waits on. */
  ghost predicate EndedRightly(s: State) {
    (s.serai.Stopped? ==> s.ticks == 0) && (s.processor.Returned? ==> s.block >= s.blocks || s.ticks == 0)
  }

  lemma {:induction false} EndsRightly(run: seq<State>, i: nat)
    requires Run(run) && i < |run|
    ensures EndedRightly(run[i])
  {
    if i > 0 { EndsRightly(run, i - 1); }
  }

  /** There is no deadlock: until both threads ended, one of them has a step to take. */
  lemma NoDeadlock(s: State) returns (t: State)
    requires !s.serai.Stopped? || !s.processor.Returned?
    ensures Next(s, t)
  {
    match s.serai {
      case Ticking => t := Tick(s);
      case Body => t := Remove(s);
      case Removed(_) => t := Activate(s);
      case Activated(_) => t := Send(s);
      case Sent(_) => t := Log(s);
      case Stopped =>
        if s.processor.Receiving? {
          t := if s.events != []
               then s.(processor := Scanning, events := s.events[1..], lastFinalized := s.events[0].block)
               else s.(processor := Returned);
          assert Receive(s, t);
        } else {
          t := if s.block >= s.blocks then s.(processor := Returned)
               else if s.block >= s.lastFinalized + BATCH_FTL then
                 s.(processor := if s.ticks == 0 then Returned else Receiving)
               else s.(mempool := s.mempool + [Batch(s.block, KeysAt(s.activeKeys, s.block))], block := s.block + 1);
          assert Scan(s, t);
        }
    }
  }

  /** At most BATCH_FTL batches published aren't included, and whenever the processor waits, it waits for the
      inclusion of a batch it already published. */
  lemma WaitsForPublished(run: seq<State>, i: nat)
    requires Run(run) && i < |run|
    ensures |Published(run[i])| - |Included(run[i])| <= BATCH_FTL
    ensures run[i].processor.Receiving? ==> ReceivedCount(run[i]) < |Published(run[i])| == run[i].block
  {
    Reachable(run, i);
  }
}
