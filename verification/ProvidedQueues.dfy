/** Provided transactions: those every validator is to provide, per order, in one sequence. */
module ProvidedQueues {
  import opened Wrappers
  import opened Transactions
  import opened Blocks

  datatype ProvidedError =
    | NotProvided
    | InvalidProvided(error: TransactionError)
    | AlreadyProvided
    | LocalMismatchesOnChain

  /** The queues, and what is in the database. */
  datatype Store = Store(
    transactions: Queues,
    saved: set<Digest>,
    localQuantity: map<Order, nat>,
    onChainQuantity: map<Order, nat>,
    onChainTx: map<(Order, nat), Digest>,
    blockQuantity: map<(Digest, Order), nat>,
    current: seq<Digest>)

  function Quantity(quantities: map<Order, nat>, order: Order): nat {
    if order in quantities then quantities[order] else 0
  }

  type Chained = map<Order, seq<Digest>>

  ghost function ChainedOf(chained: Chained, order: Order): seq<Digest> {
    if order in chained then chained[order] else []
  }

  /** For one order: everything provided locally, and everything on the chain. */
  ghost predicate OrderValid(s: Store, order: Order, local: seq<Transaction>, chained: seq<Digest>,
                             included: set<Digest>) {
    && Quantity(s.localQuantity, order) == |local| && Quantity(s.onChainQuantity, order) == |chained|
    && OnChain(s, order, chained, included)
    && QueueOf(s.transactions, order) == Drop(local, |chained|)
    && Agree(local, chained) && AllLocal(s, order, local) && DistinctHashes(local) && AllCurrent(s, local, |chained|)
  }

  ghost predicate OnChain(s: Store, order: Order, chained: seq<Digest>, included: set<Digest>) {
    forall j :: 0 <= j < |chained| ==>
      (order, j) in s.onChainTx && s.onChainTx[(order, j)] == chained[j] && chained[j] in included
  }

  ghost predicate Agree(local: seq<Transaction>, chained: seq<Digest>) {
    forall j :: 0 <= j < |local| && j < |chained| ==> local[j].Hash() == chained[j]
  }

  ghost predicate AllLocal(s: Store, order: Order, local: seq<Transaction>) {
    forall j :: 0 <= j < |local| ==> LocalValid(s, order, local[j])
  }

  ghost predicate DistinctHashes(local: seq<Transaction>) {
    forall i, j :: 0 <= i < j < |local| ==> local[i].Hash() != local[j].Hash()
  }

  ghost predicate AllCurrent(s: Store, local: seq<Transaction>, from: nat) {
    forall j :: from <= j < |local| ==> local[j].Hash() in s.current
  }

  ghost predicate LocalValid(s: Store, order: Order, tx: Transaction) {
    tx.Application? && tx.Kind() == Provided(order) && Fits(tx) && ContentValid(tx) && tx.Hash() in s.saved
  }

  /** What is included is a provided transaction in its order's sequence. */
  ghost predicate InSequence(chained: Chained, hash: Digest) {
    hash.ApplicationHash? && hash.kind.Provided? && hash in ChainedOf(chained, hash.kind.order)
  }

  ghost predicate StoreValid(s: Store, local: Queues, chained: Chained, included: set<Digest>) {
    && (forall o :: OrderValid(s, o, QueueOf(local, o), ChainedOf(chained, o), included))
    && (forall h :: h in included ==> InSequence(chained, h))
    && (forall i :: 0 <= i < |s.current| ==> s.current[i] in s.saved)
  }

  /** A queued transaction isn't on the chain. */
  lemma QueuedIsNew(s: Store, local: Queues, chained: Chained, included: set<Digest>, order: Order, k: nat)
    requires StoreValid(s, local, chained, included) && k < |QueueOf(s.transactions, order)|
    ensures var tx := QueueOf(s.transactions, order)[k]; LocalValid(s, order, tx) && tx.Hash() !in included
  {
    var mine, theirs := QueueOf(local, order), ChainedOf(chained, order);
    assert OrderValid(s, order, mine, theirs, included);
    var tx := QueueOf(s.transactions, order)[k];
    assert tx == mine[|theirs| + k];
    forall j | 0 <= j < |theirs| ensures theirs[j] != tx.Hash() {
      assert mine[j].Hash() != mine[|theirs| + k].Hash();
    }
    assert !InSequence(chained, tx.Hash());
  }

  // Providing

  ghost predicate Matches(s: Store, tx: Transaction)
    requires tx.IsProvided()
  {
    var id := Quantity(s.localQuantity, tx.Kind().order);
    id < Quantity(s.onChainQuantity, tx.Kind().order) ==>
      (tx.Kind().order, id) in s.onChainTx && s.onChainTx[(tx.Kind().order, id)] == tx.Hash()
  }

  ghost predicate Providable(s: Store, tx: Transaction) {
    tx.IsProvided() && Fits(tx) && ContentValid(tx) && tx.Hash() !in s.saved && Matches(s, tx)
  }

  function WithProvided(s: Store, tx: Transaction): Store
    requires tx.IsProvided()
  {
    var order := tx.Kind().order;
    var id := Quantity(s.localQuantity, order);
    var counted := s.(saved := s.saved + {tx.Hash()}, localQuantity := s.localQuantity[order := id + 1]);
    if id < Quantity(s.onChainQuantity, order) then counted
    else
      var queue := QueueOf(s.transactions, order) + [tx];
      counted.(current := s.current + [tx.Hash()], transactions := s.transactions[order := queue])
  }

  lemma ProvideOther(s: Store, tx: Transaction, local: seq<Transaction>, chained: seq<Digest>, included: set<Digest>,
                     o: Order)
    requires Providable(s, tx) && OrderValid(s, o, local, chained, included) && o != tx.Kind().order
    ensures OrderValid(WithProvided(s, tx), o, local, chained, included)
  {}

  lemma LocalPush(s: Store, tx: Transaction, local: seq<Transaction>)
    requires Providable(s, tx) && tx.Application? && AllLocal(s, tx.Kind().order, local)
    ensures AllLocal(WithProvided(s, tx), tx.Kind().order, local + [tx])
  {
    var t, o, more := WithProvided(s, tx), tx.Kind().order, local + [tx];
    forall j | 0 <= j < |more| ensures LocalValid(t, o, more[j]) {
      if j < |local| { assert LocalValid(s, o, local[j]); }
    }
  }

  lemma DistinctPush(s: Store, tx: Transaction, order: Order, local: seq<Transaction>)
    requires AllLocal(s, order, local) && DistinctHashes(local) && tx.Hash() !in s.saved
    ensures DistinctHashes(local + [tx])
  {
    var more := local + [tx];
    forall i, j | 0 <= i < j < |more| ensures more[i].Hash() != more[j].Hash() {
      assert LocalValid(s, order, local[i]);
    }
  }

  lemma CurrentPush(s: Store, tx: Transaction, local: seq<Transaction>, from: nat)
    requires Providable(s, tx) && AllCurrent(s, local, from) && Quantity(s.localQuantity, tx.Kind().order) == |local|
    requires Quantity(s.onChainQuantity, tx.Kind().order) == from
    ensures AllCurrent(WithProvided(s, tx), local + [tx], from)
  {
    var t, more := WithProvided(s, tx), local + [tx];
    forall j | from <= j < |more| ensures more[j].Hash() in t.current {
      if j < |local| { assert local[j].Hash() in s.current; } else { assert t.current[|s.current|] == tx.Hash(); }
    }
  }

  lemma ProvideSame(s: Store, tx: Transaction, local: seq<Transaction>, chained: seq<Digest>, included: set<Digest>)
    requires Providable(s, tx) && tx.Application? && OrderValid(s, tx.Kind().order, local, chained, included)
    ensures OrderValid(WithProvided(s, tx), tx.Kind().order, local + [tx], chained, included)
  {
    LocalPush(s, tx, local);
    DistinctPush(s, tx, tx.Kind().order, local);
    CurrentPush(s, tx, local, |chained|);
  }

  lemma ProvideOrder(s: Store, tx: Transaction, local: Queues, chained: Chained, included: set<Digest>, o: Order)
    requires Providable(s, tx) && tx.Application?
    requires OrderValid(s, o, QueueOf(local, o), ChainedOf(chained, o), included)
    ensures OrderValid(WithProvided(s, tx), o,
                       QueueOf(local[tx.Kind().order := QueueOf(local, tx.Kind().order) + [tx]], o),
                       ChainedOf(chained, o), included)
  {
    if o == tx.Kind().order {
      ProvideSame(s, tx, QueueOf(local, o), ChainedOf(chained, o), included);
    } else {
      ProvideOther(s, tx, QueueOf(local, o), ChainedOf(chained, o), included, o);
    }
  }

  lemma ProvideCurrent(s: Store, tx: Transaction)
    requires tx.IsProvided() && forall i :: 0 <= i < |s.current| ==> s.current[i] in s.saved
    ensures var t := WithProvided(s, tx); forall i :: 0 <= i < |t.current| ==> t.current[i] in t.saved
  {}

  lemma ProvideKeeps(s: Store, tx: Transaction, local: Queues, chained: Chained, included: set<Digest>)
    requires Providable(s, tx) && tx.Application? && StoreValid(s, local, chained, included)
    ensures StoreValid(WithProvided(s, tx), local[tx.Kind().order := QueueOf(local, tx.Kind().order) + [tx]],
                       chained, included)
  {
    var t, more := WithProvided(s, tx), local[tx.Kind().order := QueueOf(local, tx.Kind().order) + [tx]];
    forall o ensures OrderValid(t, o, QueueOf(more, o), ChainedOf(chained, o), included) {
      ProvideOrder(s, tx, local, chained, included, o);
    }
    ProvideCurrent(s, tx);
  }

  // Completing

  /** One less occurrence, if there is one. */
  function Without(s: seq<Digest>, x: Digest): seq<Digest> {
    if s == [] then [] else if s[0] == x then s[1..] else [s[0]] + Without(s[1..], x)
  }

  lemma {:induction false} StillIn(s: seq<Digest>, x: Digest, y: Digest)
    requires y in s && y != x
    ensures y in Without(s, x)
  {
    if s[0] != x && s[0] != y { StillIn(s[1..], x, y); }
  }

  lemma {:induction false} WasIn(s: seq<Digest>, x: Digest, y: Digest)
    requires y in Without(s, x)
    ensures y in s
  {
    if s[0] != x && s[0] != y { WasIn(s[1..], x, y); }
  }

  lemma {:induction false} WithoutAt(s: seq<Digest>, x: Digest, i: nat)
    requires i < |s| && s[i] == x && forall k :: 0 <= k < i ==> s[k] != x
    ensures Without(s, x) == s[..i] + s[i + 1..]
  {
    if i > 0 {
      WithoutAt(s[1..], x, i - 1);
      assert s[..i] + s[i + 1..] == [s[0]] + (s[1..][..i - 1] + s[1..][i..]);
    }
  }

  /** The transaction is next in its order's queue, if there is one. */
  ghost predicate Completable(s: Store, order: Order, hash: Digest) {
    var queue := QueueOf(s.transactions, order);
    queue != [] ==> queue[0].Hash() == hash && hash in s.current
  }

  /** `complete`, where the amount on the chain is read from `committed`, not from the transaction the block
      is added with. */
  function WithCompleted(s: Store, committed: map<Order, nat>, order: Order, block: Digest, hash: Digest): Store {
    var queue, id := QueueOf(s.transactions, order), Quantity(committed, order);
    var counted := s.(onChainTx := s.onChainTx[(order, id) := hash],
                      onChainQuantity := s.onChainQuantity[order := id + 1],
                      blockQuantity := s.blockQuantity[(block, order) := id + 1]);
    if queue == [] then counted
    else counted.(transactions := s.transactions[order := queue[1..]], current := Without(s.current, hash))
  }

  lemma CompleteOther(s: Store, committed: map<Order, nat>, order: Order, block: Digest, hash: Digest,
                      local: seq<Transaction>, chained: seq<Digest>, included: set<Digest>, o: Order)
    requires Completable(s, order, hash) && OrderValid(s, o, local, chained, included) && o != order
    requires hash.ApplicationHash? && hash.kind == Provided(order)
    ensures OrderValid(WithCompleted(s, committed, order, block, hash), o, local, chained, included + {hash})
  {
    var t := WithCompleted(s, committed, order, block, hash);
    forall j | 0 <= j < |local| ensures LocalValid(t, o, local[j]) { assert LocalValid(s, o, local[j]); }
    forall j | |chained| <= j < |local| ensures local[j].Hash() in t.current {
      assert LocalValid(s, o, local[j]) && local[j].Hash() in s.current;
      StillIn(s.current, hash, local[j].Hash());
    }
  }

  lemma CompleteSame(s: Store, committed: map<Order, nat>, order: Order, block: Digest, hash: Digest,
                     local: seq<Transaction>, chained: seq<Digest>, included: set<Digest>)
    requires Completable(s, order, hash) && OrderValid(s, order, local, chained, included)
    requires Quantity(committed, order) == |chained|
    ensures OrderValid(WithCompleted(s, committed, order, block, hash), order, local, chained + [hash],
                       included + {hash})
  {
    var t, more := WithCompleted(s, committed, order, block, hash), chained + [hash];
    forall j | 0 <= j < |local| ensures LocalValid(t, order, local[j]) { assert LocalValid(s, order, local[j]); }
    forall j | 0 <= j < |more|
      ensures (order, j) in t.onChainTx && t.onChainTx[(order, j)] == more[j] && more[j] in included + {hash}
    {
      if j < |chained| { assert chained[j] in included; }
    }
    if |chained| < |local| {
      assert QueueOf(s.transactions, order)[0] == local[|chained|];
      forall j | |more| <= j < |local| ensures local[j].Hash() in t.current {
        assert local[|chained|].Hash() != local[j].Hash() && local[j].Hash() in s.current;
        StillIn(s.current, hash, local[j].Hash());
      }
    }
  }

  lemma CompleteOrder(s: Store, committed: map<Order, nat>, order: Order, block: Digest, hash: Digest,
                      local: Queues, chained: Chained, included: set<Digest>, o: Order)
    requires OrderValid(s, o, QueueOf(local, o), ChainedOf(chained, o), included) && Completable(s, order, hash)
    requires hash.ApplicationHash? && hash.kind == Provided(order)
    requires Quantity(committed, order) == |ChainedOf(chained, order)|
    ensures OrderValid(WithCompleted(s, committed, order, block, hash), o, QueueOf(local, o),
                       ChainedOf(chained[order := ChainedOf(chained, order) + [hash]], o), included + {hash})
  {
    if o == order {
      CompleteSame(s, committed, order, block, hash, QueueOf(local, o), ChainedOf(chained, o), included);
    } else {
      CompleteOther(s, committed, order, block, hash, QueueOf(local, o), ChainedOf(chained, o), included, o);
    }
  }

  lemma CompleteSequence(chained: Chained, included: set<Digest>, order: Order, hash: Digest)
    requires forall h :: h in included ==> InSequence(chained, h)
    requires hash.ApplicationHash? && hash.kind == Provided(order)
    ensures forall h :: h in included + {hash} ==> InSequence(chained[order := ChainedOf(chained, order) + [hash]], h)
  {
    var more := chained[order := ChainedOf(chained, order) + [hash]];
    forall h | h in included + {hash} ensures InSequence(more, h) {
      if h in included { assert InSequence(chained, h); }
    }
  }

  lemma CompleteCurrent(s: Store, committed: map<Order, nat>, order: Order, block: Digest, hash: Digest)
    requires Completable(s, order, hash) && forall i :: 0 <= i < |s.current| ==> s.current[i] in s.saved
    ensures var t := WithCompleted(s, committed, order, block, hash);
            forall i :: 0 <= i < |t.current| ==> t.current[i] in t.saved
  {
    var t := WithCompleted(s, committed, order, block, hash);
    forall i | 0 <= i < |t.current| ensures t.current[i] in t.saved {
      if QueueOf(s.transactions, order) != [] { WasIn(s.current, hash, t.current[i]); }
      assert t.current[i] in s.current;
    }
  }

  /** Completing the first transaction of its order in a block keeps the sequences in step. */
  lemma CompleteKeeps(s: Store, committed: map<Order, nat>, order: Order, block: Digest, hash: Digest,
                      local: Queues, chained: Chained, included: set<Digest>)
    requires StoreValid(s, local, chained, included) && Completable(s, order, hash)
    requires hash.ApplicationHash? && hash.kind == Provided(order)
    requires Quantity(committed, order) == |ChainedOf(chained, order)|
    ensures var more := chained[order := ChainedOf(chained, order) + [hash]];
            StoreValid(WithCompleted(s, committed, order, block, hash), local, more, included + {hash})
  {
    var t := WithCompleted(s, committed, order, block, hash);
    var more := chained[order := ChainedOf(chained, order) + [hash]];
    forall o ensures OrderValid(t, o, QueueOf(local, o), ChainedOf(more, o), included + {hash}) {
      CompleteOrder(s, committed, order, block, hash, local, chained, included, o);
    }
    CompleteSequence(chained, included, order, hash);
    CompleteCurrent(s, committed, order, block, hash);
  }

  // Completing a block's transactions

  /** The store once the first `n` of a block's transactions are completed, with all amounts read from what was
      committed before the block. */
  ghost function CompletedAll(s: Store, committed: map<Order, nat>, block: Digest, txs: seq<Transaction>, n: nat): Store
    requires n <= |txs|
  {
    if n == 0 then s
    else
      var before, tx := CompletedAll(s, committed, block, txs, n - 1), txs[n - 1];
      if tx.IsProvided() then WithCompleted(before, committed, tx.Kind().order, block, tx.Hash()) else before
  }

  /** The sequences on the chain once the first `n` of a block's transactions are. */
  ghost function ChainedAll(chained: Chained, txs: seq<Transaction>, n: nat): Chained
    requires n <= |txs|
  {
    if n == 0 then chained
    else
      var before, tx := ChainedAll(chained, txs, n - 1), txs[n - 1];
      if tx.IsProvided()
      then before[tx.Kind().order := ChainedOf(before, tx.Kind().order) + [tx.Hash()]]
      else before
  }

  lemma CountNext(txs: seq<Transaction>, n: nat, order: Order)
    requires n < |txs|
    ensures CountOrder(txs[..n + 1], order) ==
              CountOrder(txs[..n], order) + if txs[n].Kind() == Provided(order) then 1 else 0
  {
    assert txs[..n + 1] == txs[..n] + [txs[n]];
    CountPush(txs[..n], txs[n], (0, []), order);
  }

  lemma {:induction false} ChainedGrows(chained: Chained, txs: seq<Transaction>, n: nat, order: Order)
    requires n <= |txs|
    ensures |ChainedOf(ChainedAll(chained, txs, n), order)| == |ChainedOf(chained, order)| + CountOrder(txs[..n], order)
  {
    if n > 0 {
      ChainedGrows(chained, txs, n - 1, order);
      CountNext(txs, n - 1, order);
    }
  }

  ghost predicate OnePerOrder(txs: seq<Transaction>) {
    forall o :: CountOrder(txs, o) <= 1
  }

  lemma QuantityStep(s: Store, committed: map<Order, nat>, order: Order, block: Digest, hash: Digest, o: Order)
    ensures Quantity(WithCompleted(s, committed, order, block, hash).onChainQuantity, o) ==
              if o == order then Quantity(committed, o) + 1 else Quantity(s.onChainQuantity, o)
  {}

  /** The amount on the chain grows by one with a block with any transaction of an order, however many it has. */
  lemma {:induction false} CompletedQuantity(s: Store, block: Digest, txs: seq<Transaction>, n: nat, order: Order)
    requires n <= |txs|
    ensures Quantity(CompletedAll(s, s.onChainQuantity, block, txs, n).onChainQuantity, order) ==
              Quantity(s.onChainQuantity, order) + if CountOrder(txs[..n], order) > 0 then 1 else 0
  {
    if n > 0 {
      var before, tx := CompletedAll(s, s.onChainQuantity, block, txs, n - 1), txs[n - 1];
      CompletedQuantity(s, block, txs, n - 1, order);
      CountNext(txs, n - 1, order);
      if tx.IsProvided() { QuantityStep(before, s.onChainQuantity, tx.Kind().order, block, tx.Hash(), order); }
    }
  }

  /** All amounts on the chain are right exactly for blocks with at most one transaction per order. */
  lemma QuantitiesExact(s: Store, block: Digest, txs: seq<Transaction>)
    ensures (forall o :: Quantity(CompletedAll(s, s.onChainQuantity, block, txs, |txs|).onChainQuantity, o) ==
                           Quantity(s.onChainQuantity, o) + CountOrder(txs, o)) <==> OnePerOrder(txs)
  {
    assert txs[..|txs|] == txs;
    forall o ensures Quantity(CompletedAll(s, s.onChainQuantity, block, txs, |txs|).onChainQuantity, o) ==
                       Quantity(s.onChainQuantity, o) + if CountOrder(txs, o) > 0 then 1 else 0
    {
      CompletedQuantity(s, block, txs, |txs|, o);
    }
  }

  /** The amount stored for a block and an order, or zero. */
  function BlockQuantity(quantities: map<(Digest, Order), nat>, block: Digest, order: Order): nat {
    if (block, order) in quantities then quantities[(block, order)] else 0
  }

  lemma BlockQuantityStep(s: Store, committed: map<Order, nat>, order: Order, block: Digest, hash: Digest, b: Digest,
                          o: Order)
    ensures BlockQuantity(WithCompleted(s, committed, order, block, hash).blockQuantity, b, o) ==
              if b == block && o == order then Quantity(committed, o) + 1 else BlockQuantity(s.blockQuantity, b, o)
  {}

  /** What is stored for the block is, for the orders it has any transaction of, one more than was on the chain, and
      nothing is stored for any other block. */
  lemma {:induction false} CompletedBlockQuantity(s: Store, block: Digest, txs: seq<Transaction>, n: nat, b: Digest,
                                                  order: Order)
    requires n <= |txs|
    ensures BlockQuantity(CompletedAll(s, s.onChainQuantity, block, txs, n).blockQuantity, b, order) ==
              if b == block && CountOrder(txs[..n], order) > 0 then Quantity(s.onChainQuantity, order) + 1
              else BlockQuantity(s.blockQuantity, b, order)
  {
    if n > 0 {
      var before, tx := CompletedAll(s, s.onChainQuantity, block, txs, n - 1), txs[n - 1];
      CompletedBlockQuantity(s, block, txs, n - 1, b, order);
      CountNext(txs, n - 1, order);
      if tx.IsProvided() {
        BlockQuantityStep(before, s.onChainQuantity, tx.Kind().order, block, tx.Hash(), b, order);
      }
    }
  }

  /** `locally_provided_txs_in_block` */
  predicate LocallyProvided(s: Store, block: Digest, order: Order) {
    Quantity(s.localQuantity, order) >= BlockQuantity(s.blockQuantity, block, order)
  }

  /** Once a block is added, with everything in step, its transactions of an order are said to be provided exactly if
      there are none or everything on the chain of the order is provided. */
  lemma LocallyProvidedExact(s: Store, block: Digest, txs: seq<Transaction>, order: Order, local: Queues,
                             chained: Chained, included: set<Digest>)
    requires var t := CompletedAll(s, s.onChainQuantity, block, txs, |txs|);
             StoreValid(t, local, chained, included)
    requires BlockQuantity(s.blockQuantity, block, order) == 0
    ensures var t := CompletedAll(s, s.onChainQuantity, block, txs, |txs|);
            LocallyProvided(t, block, order) <==>
              CountOrder(txs, order) == 0 ||
              (|QueueOf(local, order)| >= |ChainedOf(chained, order)| &&
               forall j :: 0 <= j < |ChainedOf(chained, order)| ==>
                 QueueOf(local, order)[j].Hash() == ChainedOf(chained, order)[j])
  {
    assert txs[..|txs|] == txs;
    CompletedBlockQuantity(s, block, txs, |txs|, block, order);
    CompletedQuantity(s, block, txs, |txs|, order);
    var t := CompletedAll(s, s.onChainQuantity, block, txs, |txs|);
    assert OrderValid(t, order, QueueOf(local, order), ChainedOf(chained, order), included);
  }

  /** A queue, with its order's transactions. */
  ghost predicate QueueValid(queue: seq<Transaction>, order: Order) {
    DistinctHashes(queue) && forall k :: 0 <= k < |queue| ==> queue[k].Kind() == Provided(order)
  }

  /** All but the first `n` are still queued. */
  ghost predicate RemainingOf(t: Store, queue: seq<Transaction>, order: Order, n: nat) {
    QueueOf(t.transactions, order) == Drop(queue, n) && AllCurrent(t, queue, n)
  }

  lemma RemainingStep(t: Store, queue: seq<Transaction>, order: Order, n: nat,
                      committed: map<Order, nat>, block: Digest, tx: Transaction)
    requires QueueValid(queue, order) && RemainingOf(t, queue, order, n) && tx.IsProvided()
    requires tx.Kind() == Provided(order) && n < |queue| ==> tx == queue[n]
    ensures RemainingOf(WithCompleted(t, committed, tx.Kind().order, block, tx.Hash()), queue, order,
                        if tx.Kind() == Provided(order) then n + 1 else n)
  {
    var u := WithCompleted(t, committed, tx.Kind().order, block, tx.Hash());
    var m := if tx.Kind() == Provided(order) then n + 1 else n;
    forall k | m <= k < |queue| ensures queue[k].Hash() in u.current {
      assert queue[k].Hash() in t.current && queue[k].Hash() != tx.Hash();
      StillIn(t.current, tx.Hash(), queue[k].Hash());
    }
  }

  lemma DropValid(s: Store, local: seq<Transaction>, from: nat, order: Order)
    requires DistinctHashes(local) && AllLocal(s, order, local) && AllCurrent(s, local, from)
    ensures QueueValid(Drop(local, from), order) && AllCurrent(s, Drop(local, from), 0)
  {
    var queue := Drop(local, from);
    forall k | 0 <= k < |queue| ensures queue[k].Kind() == Provided(order) && queue[k].Hash() in s.current {
      assert LocalValid(s, order, local[from + k]) && local[from + k].Hash() in s.current;
    }
  }

  lemma StoredQueues(s: Store, local: Queues, chained: Chained, included: set<Digest>, order: Order)
    requires StoreValid(s, local, chained, included)
    ensures QueueValid(QueueOf(s.transactions, order), order)
    ensures RemainingOf(s, QueueOf(s.transactions, order), order, 0)
  {
    assert OrderValid(s, order, QueueOf(local, order), ChainedOf(chained, order), included);
    DropValid(s, QueueOf(local, order), |ChainedOf(chained, order)|, order);
  }

  /** A transaction of the order is the next of its queue, if that has one left. */
  ghost predicate IsNext(queue: seq<Transaction>, order: Order, txs: seq<Transaction>, n: nat) {
    n < |txs| && txs[n].Kind() == Provided(order) && CountOrder(txs[..n], order) < |queue| ==>
      txs[n] == queue[CountOrder(txs[..n], order)]
  }

  lemma AcceptedIsNext(view: ChainView, queues: Queues, txs: seq<Transaction>, o: Order, n: nat)
    requires AllAccepted(view, queues, true, txs)
    ensures IsNext(QueueOf(queues, o), o, txs, n)
  {
    if n < |txs| { assert Accepted(view, queues, true, txs[..n], txs[n]); }
  }

  /** Whatever a block accepted holds, what is left queued is what it didn't have. */
  lemma {:induction false} CompletedRemaining(s: Store, committed: map<Order, nat>, block: Digest,
                                              queue: seq<Transaction>, txs: seq<Transaction>, n: nat, o: Order)
    requires QueueValid(queue, o) && RemainingOf(s, queue, o, 0)
    requires n <= |txs| && forall i: nat :: IsNext(queue, o, txs, i)
    ensures RemainingOf(CompletedAll(s, committed, block, txs, n), queue, o, CountOrder(txs[..n], o))
  {
    if n > 0 {
      CompletedRemaining(s, committed, block, queue, txs, n - 1, o);
      CountNext(txs, n - 1, o);
      assert IsNext(queue, o, txs, n - 1);
      if txs[n - 1].IsProvided() {
        RemainingStep(CompletedAll(s, committed, block, txs, n - 1), queue, o, CountOrder(txs[..n - 1], o), committed,
                      block, txs[n - 1]);
      }
    }
  }

  /** Neither the assert nor the search of `complete` panics, for any block accepted. */
  lemma NextCompletable(s: Store, local: Queues, chained: Chained, committed: map<Order, nat>, block: Digest,
                        view: ChainView, txs: seq<Transaction>, n: nat)
    requires StoreValid(s, local, chained, view.providedIncluded) && n < |txs| && txs[n].IsProvided()
    requires AllAccepted(view, s.transactions, true, txs)
    ensures Completable(CompletedAll(s, committed, block, txs, n), txs[n].Kind().order, txs[n].Hash())
  {
    var o := txs[n].Kind().order;
    var queue := QueueOf(s.transactions, o);
    StoredQueues(s, local, chained, view.providedIncluded, o);
    forall i: nat ensures IsNext(queue, o, txs, i) { AcceptedIsNext(view, s.transactions, txs, o, i); }
    CompletedRemaining(s, committed, block, queue, txs, n, o);
    assert IsNext(queue, o, txs, n);
    RemainingCompletable(CompletedAll(s, committed, block, txs, n), queue, o, CountOrder(txs[..n], o), txs[n]);
  }

  lemma RemainingCompletable(t: Store, queue: seq<Transaction>, order: Order, n: nat, tx: Transaction)
    requires RemainingOf(t, queue, order, n) && (n < |queue| ==> tx == queue[n])
    ensures Completable(t, order, tx.Hash())
  {}

  /** Sequences in step after a block mean it had at most one transaction per order. */
  lemma StepsMeanOne(s: Store, block: Digest, txs: seq<Transaction>, local: Queues, chained: Chained,
                     included: set<Digest>, later: set<Digest>)
    requires StoreValid(s, local, chained, included)
    requires StoreValid(CompletedAll(s, s.onChainQuantity, block, txs, |txs|), local, ChainedAll(chained, txs, |txs|),
                        later)
    ensures OnePerOrder(txs)
  {
    var t, more := CompletedAll(s, s.onChainQuantity, block, txs, |txs|), ChainedAll(chained, txs, |txs|);
    assert txs[..|txs|] == txs;
    forall o ensures CountOrder(txs, o) <= 1 {
      assert OrderValid(s, o, QueueOf(local, o), ChainedOf(chained, o), included);
      assert OrderValid(t, o, QueueOf(local, o), ChainedOf(more, o), later);
      CompletedQuantity(s, block, txs, |txs|, o);
      ChainedGrows(chained, txs, |txs|, o);
    }
  }

  class ProvidedTransactions {
    var transactions: Queues
    var saved: set<Digest>
    var localQuantity: map<Order, nat>
    var onChainQuantity: map<Order, nat>
    var onChainTx: map<(Order, nat), Digest>
    var blockQuantity: map<(Digest, Order), nat>
    var current: seq<Digest>

    ghost function State(): Store
      reads this
    {
      Store(transactions, saved, localQuantity, onChainQuantity, onChainTx, blockQuantity, current)
    }

    constructor ()
      ensures State() == Store(map[], {}, map[], map[], map[], map[], [])
    {
      transactions, saved, localQuantity, onChainQuantity := map[], {}, map[], map[];
      onChainTx, blockQuantity, current := map[], map[], [];
    }

    /** `provide`, which panics if the chain's transaction isn't found. */
    method Provide(tx: Transaction) returns (r: Result<(), ProvidedError>)
      requires forall o, j :: 0 <= j < Quantity(onChainQuantity, o) ==> (o, j) in onChainTx
      modifies this
      ensures r.Ok? <==> Providable(old(State()), tx)
      ensures r.Ok? ==> State() == WithProvided(old(State()), tx)
      ensures r.Err? ==> State() == old(State())
      ensures r == Err(NotProvided) <==> !tx.IsProvided()
      ensures r.Err? && r.error.InvalidProvided? <==> tx.IsProvided() && !(Fits(tx) && ContentValid(tx))
      ensures r == Err(AlreadyProvided) <==>
                tx.IsProvided() && Fits(tx) && ContentValid(tx) && tx.Hash() in old(State()).saved
    {
      if !tx.Kind().Provided? {
        return Err(NotProvided);
      }
      var order := tx.Kind().order;
      var verified := VerifyTransaction(tx, None);
      if verified.Err? {
        return Err(InvalidProvided(verified.error));
      }
      var hash := tx.Hash();
      if hash in saved {
        return Err(AlreadyProvided);
      }
      var id := Quantity(localQuantity, order);
      if id < Quantity(onChainQuantity, order) && hash != onChainTx[(order, id)] {
        return Err(LocalMismatchesOnChain);
      }
      Commit(tx);
      r := Ok(());
    }

    /** What is committed for a transaction which is provided: it is only queued if it isn't on the chain yet. */
    method Commit(tx: Transaction)
      requires tx.IsProvided()
      modifies this
      ensures State() == WithProvided(old(State()), tx)
    {
      var order, hash := tx.Kind().order, tx.Hash();
      var id := Quantity(localQuantity, order);
      saved, localQuantity := saved + {hash}, localQuantity[order := id + 1];
      if id >= Quantity(onChainQuantity, order) {
        current := current + [hash];
        Enqueue(tx);
      }
    }

    method Enqueue(tx: Transaction)
      requires tx.IsProvided()
      modifies `transactions
      ensures transactions == old(transactions)[tx.Kind().order := QueueOf(old(transactions), tx.Kind().order) + [tx]]
    {
      var order := tx.Kind().order;
      if order !in transactions {
        transactions := transactions[order := []];
      }
      transactions := transactions[order := transactions[order] + [tx]];
    }

    /** Finding the hash among those current, which panics if it isn't, to remove it. */
    method Forget(hash: Digest)
      requires hash in current
      modifies `current
      ensures current == Without(old(current), hash)
    {
      var i := 0;
      while current[i] != hash
        invariant i < |current| && hash in current[i..] && hash !in current[..i]
        decreases |current| - i
      {
        i := i + 1;
      }
      WithoutAt(current, hash, i);
      current := current[..i] + current[i + 1..];
    }

    method Complete(committed: map<Order, nat>, order: Order, block: Digest, hash: Digest)
      requires Completable(State(), order, hash)
      modifies this
      ensures State() == WithCompleted(old(State()), committed, order, block, hash)
    {
      if order in transactions && transactions[order] != [] {
        // The completed transaction is the next one queued
        assert transactions[order][0].Hash() == hash;
        transactions := transactions[order := transactions[order][1..]];
        Forget(hash);
      }
      var id := Quantity(committed, order);
      onChainTx := onChainTx[(order, id) := hash];
      onChainQuantity := onChainQuantity[order := id + 1];
      blockQuantity := blockQuantity[(block, order) := id + 1];
    }
  }
}
