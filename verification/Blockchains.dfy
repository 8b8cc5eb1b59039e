/** The Tributary's chain: building blocks, adding them, and what every chain keeps. */
module Blockchains {
  import opened Wrappers
  import opened Transactions
  import opened TributaryMerkle
  import opened Blocks
  import opened Mempools
  import opened ProvidedQueues

  // Built blocks are acceptable

  /** Every transaction is the next of its order's queue. */
  ghost predicate Flattened(list: seq<Transaction>, queues: Queues) {
    forall i :: 0 <= i < |list| ==> FlatAt(list[..i], list[i], queues)
  }

  ghost predicate FlatAt(before: seq<Transaction>, tx: Transaction, queues: Queues) {
    tx.IsProvided() && CountOrder(before, tx.Kind().order) < |QueueOf(queues, tx.Kind().order)| &&
    tx == QueueOf(queues, tx.Kind().order)[CountOrder(before, tx.Kind().order)]
  }

  ghost predicate OwnKinds(queues: Queues) {
    forall o, k :: 0 <= k < |QueueOf(queues, o)| ==> QueueOf(queues, o)[k].Kind() == Provided(o)
  }

  lemma FlattenedPush(list: seq<Transaction>, tx: Transaction, queues: Queues)
    requires Flattened(list, queues) && FlatAt(list, tx, queues)
    ensures Flattened(list + [tx], queues)
  {
    var more := list + [tx];
    forall i | 0 <= i < |more| ensures FlatAt(more[..i], more[i], queues) {
      if i < |list| { assert more[..i] == list[..i]; } else { assert more[..i] == list; }
    }
  }

  /** The values of the map of queues, in whichever order it yields them. */
  method Flatten(queues: Queues) returns (list: seq<Transaction>)
    requires OwnKinds(queues)
    ensures Flattened(list, queues)
    ensures forall o :: CountOrder(list, o) == |QueueOf(queues, o)|
  {
    list := [];
    var left := queues.Keys;
    while left != {}
      invariant left <= queues.Keys && Flattened(list, queues)
      invariant forall o :: CountOrder(list, o) == if o in left then 0 else |QueueOf(queues, o)|
    {
      var order :| order in left;
      ghost var start := list;
      for k := 0 to |queues[order]|
        invariant Flattened(list, queues)
        invariant forall o :: CountOrder(list, o) == if o == order then k else CountOrder(start, o)
      {
        var tx := queues[order][k];
        assert tx == QueueOf(queues, order)[k];
        FlattenedPush(list, tx, queues);
        forall o ensures CountOrder(list + [tx], o) == CountOrder(list, o) + if o == order then 1 else 0 {
          CountPush(list, tx, (0, []), o);
        }
        list := list + [tx];
      }
      left := left - {order};
    }
  }

  /** What goes into a block: the queues, and the pool's transactions by kind. */
  ghost predicate Contents(provided: seq<Transaction>, unsigned: seq<Transaction>, signed: seq<Transaction>,
                           queues: Queues, pool: Pool) {
    && Flattened(provided, queues)
    && Lists(unsigned, pool.txs, UnsignedIn(pool.txs, pool.txs.Keys))
    && Lists(signed, pool.txs, SignedIn(pool.txs, pool.txs.Keys)) && SortedByNonce(signed)
  }

  /** Everything there is for a block: all of every queue, and all of the pool. */
  ghost predicate Everything(provided: seq<Transaction>, unsigned: seq<Transaction>, signed: seq<Transaction>,
                             queues: Queues, pool: Pool) {
    && Contents(provided, unsigned, signed, queues, pool)
    && forall o :: CountOrder(provided, o) == |QueueOf(queues, o)|
  }

  /** The block holds as much as fits of everything there is. */
  ghost predicate Fills(txs: seq<Transaction>, queues: Queues, pool: Pool) {
    exists provided, unsigned, signed ::
      Everything(provided, unsigned, signed, queues, pool) && LongestFitting(txs, provided + unsigned + signed)
  }

  /** The transaction is queued, or pooled. */
  ghost predicate Available(tx: Transaction, queues: Queues, pool: Pool) {
    (tx.IsProvided() && tx in QueueOf(queues, tx.Kind().order)) || (exists h :: h in pool.txs && pool.txs[h] == tx)
  }

  lemma FlattenedPrefix(list: seq<Transaction>, queues: Queues, n: nat)
    requires Flattened(list, queues) && n <= |list|
    ensures Flattened(list[..n], queues)
  {
    forall i | 0 <= i < n ensures FlatAt(list[..n][..i], list[..n][i], queues) {
      assert FlatAt(list[..i], list[i], queues) && list[..n][..i] == list[..i];
    }
  }

  /** The first transactions of an order's queue, as many as there are of the order, are in the list. */
  lemma {:induction false} FlattenedHas(list: seq<Transaction>, queues: Queues, o: Order, k: nat)
    requires Flattened(list, queues) && k < CountOrder(list, o)
    ensures k < |QueueOf(queues, o)| && QueueOf(queues, o)[k] in list
  {
    var n := |list| - 1;
    FlattenedPrefix(list, queues, n);
    if k < CountOrder(list[..n], o) {
      FlattenedHas(list[..n], queues, o, k);
    } else {
      assert FlatAt(list[..n], list[n], queues);
    }
  }

  /** Everything there is is listed, and nothing else. */
  lemma EverythingListed(provided: seq<Transaction>, unsigned: seq<Transaction>, signed: seq<Transaction>,
                         queues: Queues, pool: Pool, tx: Transaction)
    requires Everything(provided, unsigned, signed, queues, pool) && OwnKinds(queues)
    ensures tx in provided + unsigned + signed <==> Available(tx, queues, pool)
  {
    var all := provided + unsigned + signed;
    if tx in provided {
      var i :| 0 <= i < |provided| && provided[i] == tx;
      assert FlatAt(provided[..i], tx, queues);
    }
    if tx.IsProvided() && tx in QueueOf(queues, tx.Kind().order) {
      var k :| 0 <= k < |QueueOf(queues, tx.Kind().order)| && QueueOf(queues, tx.Kind().order)[k] == tx;
      FlattenedHas(provided, queues, tx.Kind().order, k);
    }
    if exists h :: h in pool.txs && pool.txs[h] == tx {
      var h :| h in pool.txs && pool.txs[h] == tx;
      assert h in if tx.IsSigned() then SignedIn(pool.txs, pool.txs.Keys) else UnsignedIn(pool.txs, pool.txs.Keys);
    }
  }

  /** The list holds exactly what is available. */
  ghost predicate ListsAvailable(all: seq<Transaction>, queues: Queues, pool: Pool) {
    forall tx :: tx in all <==> Available(tx, queues, pool)
  }

  /** Unless adding some transaction available would make it too large, the block holds every transaction queued and
      every transaction pooled; and it holds nothing else in any case. */
  ghost predicate HoldsAvailable(txs: seq<Transaction>, queues: Queues, pool: Pool) {
    && (forall tx :: tx in txs ==> Available(tx, queues, pool))
    && ((forall tx :: Available(tx, queues, pool) ==> tx in txs) ||
        (exists tx :: Available(tx, queues, pool) && BlockSize(txs + [tx]) > BLOCK_SIZE_LIMIT))
  }

  lemma LongestHolds(txs: seq<Transaction>, all: seq<Transaction>, queues: Queues, pool: Pool)
    requires LongestFitting(txs, all) && ListsAvailable(all, queues, pool)
    ensures HoldsAvailable(txs, queues, pool)
  {
    forall tx | tx in txs ensures tx in all { assert txs == all[..|txs|]; }
    if |txs| < |all| {
      var next := all[|txs|];
      assert all[..|txs| + 1] == txs + [next];
      assert next in all && BlockSize(all[..|txs| + 1]) > BLOCK_SIZE_LIMIT;
    } else {
      assert txs == all;
    }
  }

  lemma FilledHolds(txs: seq<Transaction>, queues: Queues, pool: Pool)
    requires Fills(txs, queues, pool) && OwnKinds(queues)
    ensures HoldsAvailable(txs, queues, pool)
  {
    var provided, unsigned, signed :|
      Everything(provided, unsigned, signed, queues, pool) && LongestFitting(txs, provided + unsigned + signed);
    forall tx ensures tx in provided + unsigned + signed <==> Available(tx, queues, pool) {
      EverythingListed(provided, unsigned, signed, queues, pool, tx);
    }
    LongestHolds(txs, provided + unsigned + signed, queues, pool);
  }

  lemma ProvidedAccepted(provided: seq<Transaction>, i: nat, view: ChainView, store: Store, local: Queues,
                         chained: Chained)
    requires Flattened(provided, store.transactions) && i < |provided|
    requires StoreValid(store, local, chained, view.providedIncluded)
    requires forall h :: h in view.unsignedIncluded ==> !(h.ApplicationHash? && h.kind.Provided?)
    ensures Accepted(view, store.transactions, false, provided[..i], provided[i])
  {
    var tx := provided[i];
    assert FlatAt(provided[..i], tx, store.transactions);
    var order := tx.Kind().order;
    QueuedIsNew(store, local, chained, view.providedIncluded, order, CountOrder(provided[..i], order));
    if i > 0 { assert FlatAt(provided[..i - 1], provided[i - 1], store.transactions); }
  }

  lemma UnsignedAccepted(front: seq<Transaction>, unsigned: seq<Transaction>, k: nat, view: ChainView, queues: Queues,
                         pool: Pool)
    requires forall i :: 0 <= i < |front| ==> front[i].IsProvided()
    requires k < |unsigned| && Lists(unsigned, pool.txs, UnsignedIn(pool.txs, pool.txs.Keys)) && PoolValid(pool, view)
    ensures Accepted(view, queues, false, front + unsigned[..k], unsigned[k])
  {
    var before, tx := front + unsigned[..k], unsigned[k];
    forall i | 0 <= i < k ensures unsigned[i].IsUnsigned() { assert Entry(view, unsigned[i].Hash(), unsigned[i]); }
    assert Entry(view, tx.Hash(), tx);
    forall j | 0 <= j < |before| && before[j].IsUnsigned() ensures before[j].Hash() != tx.Hash() {
      assert before[j] == unsigned[j - |front|];
    }
  }

  /** The first `k` have the key's nonce. */
  ghost predicate Among(signed: seq<Transaction>, k: nat, key: Key, nonce: nat)
    requires k <= |signed|
  {
    exists j :: 0 <= j < k && Uses(signed[j], key, nonce)
  }

  /** The first `k` hold a run of the key's nonces. */
  ghost predicate Run(signed: seq<Transaction>, k: nat, key: Key, base: nat)
    requires k <= |signed|
  {
    forall n :: 0 <= n ==> (Among(signed, k, key, n) <==> base <= n < base + CountKey(signed[..k], key))
  }

  ghost predicate SortedPool(signed: seq<Transaction>, pool: Pool, view: ChainView) {
    PoolValid(pool, view) && Lists(signed, pool.txs, SignedIn(pool.txs, pool.txs.Keys)) && SortedByNonce(signed)
  }

  lemma SignedEntry(signed: seq<Transaction>, pool: Pool, view: ChainView, k: nat)
    requires SortedPool(signed, pool, view) && k < |signed|
    ensures signed[k].IsSigned() && Entry(view, signed[k].Hash(), signed[k]) && InRange(pool, view, signed[k])
  {
    assert signed[k].Hash() in pool.txs;
  }

  /** A transaction's nonce isn't among those before it. */
  lemma NotAmong(signed: seq<Transaction>, pool: Pool, view: ChainView, k: nat)
    requires SortedPool(signed, pool, view) && k < |signed| && signed[k].IsSigned()
    ensures !Among(signed, k, signed[k].Key(), signed[k].Nonce())
  {
    assert Unopposed(pool.txs, signed[k]);
    forall j | 0 <= j < k ensures !Uses(signed[j], signed[k].Key(), signed[k].Nonce()) {
      assert signed[j].Hash() in pool.txs;
    }
  }

  /** The next transaction of the key is the next of its run. */
  lemma RunNext(signed: seq<Transaction>, pool: Pool, view: ChainView, k: nat, key: Key)
    requires SortedPool(signed, pool, view) && k < |signed| && signed[k].IsSigned() && signed[k].Key() == key
    requires Run(signed, k, key, Next(view.nextNonce, key))
    ensures signed[k].Nonce() == Next(view.nextNonce, key) + CountKey(signed[..k], key)
  {
    SignedEntry(signed, pool, view, k);
    NotAmong(signed, pool, view, k);
    var n, m := signed[k].Nonce(), Next(view.nextNonce, key) + CountKey(signed[..k], key);
    if n > m {
      assert HasNonce(pool.txs, key, m);
      MissingNonce(signed, pool, view, k, key, m);
    }
  }

  /** A nonce in the pool but not among the first `k` is of a later transaction. */
  lemma MissingNonce(signed: seq<Transaction>, pool: Pool, view: ChainView, k: nat, key: Key, m: nat)
    requires SortedPool(signed, pool, view) && k < |signed|
    requires HasNonce(pool.txs, key, m) && !Among(signed, k, key, m)
    ensures NonceOf(signed[k]) <= m
  {
    var h :| h in pool.txs && Uses(pool.txs[h], key, m);
    assert Entry(view, h, pool.txs[h]);
    assert h in SignedIn(pool.txs, pool.txs.Keys);
    var j :| 0 <= j < |signed| && signed[j] == pool.txs[h];
    assert NonceOf(signed[j]) == m;
    assert j >= k;
  }

  lemma {:induction false} Runs(signed: seq<Transaction>, pool: Pool, view: ChainView, k: nat, key: Key)
    requires SortedPool(signed, pool, view) && k <= |signed|
    ensures Run(signed, k, key, Next(view.nextNonce, key))
  {
    if k > 0 {
      Runs(signed, pool, view, k - 1, key);
      SignedEntry(signed, pool, view, k - 1);
      if signed[k - 1].Key() == key { RunNext(signed, pool, view, k - 1, key); }
      RunPush(signed, k - 1, key, Next(view.nextNonce, key));
    }
  }

  lemma RunPush(signed: seq<Transaction>, k: nat, key: Key, base: nat)
    requires k < |signed| && signed[k].IsSigned() && Run(signed, k, key, base)
    requires signed[k].Key() == key ==> signed[k].Nonce() == base + CountKey(signed[..k], key)
    ensures Run(signed, k + 1, key, base)
  {
    var tx := signed[k];
    assert signed[..k + 1] == signed[..k] + [tx];
    CountPush(signed[..k], tx, key, "");
    var count, next := CountKey(signed[..k], key), k + 1;
    forall n | 0 <= n ensures Among(signed, next, key, n) <==> base <= n < base + CountKey(signed[..next], key) {
      AmongPush(signed, k, key, n);
      assert Among(signed, k, key, n) <==> base <= n < base + count;
    }
  }

  lemma AmongPush(signed: seq<Transaction>, k: nat, key: Key, n: nat)
    requires k < |signed|
    ensures Among(signed, k + 1, key, n) <==> Among(signed, k, key, n) || Uses(signed[k], key, n)
  {}

  lemma RunNonce(signed: seq<Transaction>, pool: Pool, view: ChainView, k: nat)
    requires SortedPool(signed, pool, view) && k < |signed| && signed[k].IsSigned()
    ensures signed[k].Nonce() == Next(view.nextNonce, signed[k].Key()) + CountKey(signed[..k], signed[k].Key())
  {
    Runs(signed, pool, view, k, signed[k].Key());
    RunNext(signed, pool, view, k, signed[k].Key());
  }

  lemma OnlySigned(front: seq<Transaction>, signed: seq<Transaction>, key: Key)
    requires forall i :: 0 <= i < |front| ==> !front[i].IsSigned()
    ensures CountKey(front + signed, key) == CountKey(signed, key)
  {
    CountConcat(front, signed, key);
    NoneCounted(front, key, "");
  }

  /** The nonce expected is the one the transaction has. */
  lemma SignedExpected(front: seq<Transaction>, signed: seq<Transaction>, k: nat, view: ChainView, pool: Pool)
    requires forall i :: 0 <= i < |front| ==> !front[i].IsSigned()
    requires SortedPool(signed, pool, view) && k < |signed|
    ensures signed[k].IsSigned() && Expected(view, front + signed[..k], signed[k]) == Some(signed[k].Nonce())
  {
    SignedEntry(signed, pool, view, k);
    RunNonce(signed, pool, view, k);
    OnlySigned(front, signed[..k], signed[k].Key());
  }

  lemma SignedAccepted(front: seq<Transaction>, signed: seq<Transaction>, k: nat, view: ChainView, queues: Queues,
                       pool: Pool)
    requires forall i :: 0 <= i < |front| ==> !front[i].IsSigned()
    requires SortedPool(signed, pool, view) && k < |signed|
    ensures Accepted(view, queues, false, front + signed[..k], signed[k])
  {
    SignedExpected(front, signed, k, view, pool);
    SignedEntry(signed, pool, view, k);
  }

  lemma ContentsKinds(provided: seq<Transaction>, unsigned: seq<Transaction>, signed: seq<Transaction>, queues: Queues,
                      pool: Pool)
    requires Contents(provided, unsigned, signed, queues, pool)
    ensures forall i :: 0 <= i < |provided| ==> provided[i].IsProvided()
    ensures forall i :: 0 <= i < |unsigned| ==> !unsigned[i].IsSigned()
  {
    forall i | 0 <= i < |provided| ensures provided[i].IsProvided() {
      assert FlatAt(provided[..i], provided[i], queues);
    }
    forall i | 0 <= i < |unsigned| ensures !unsigned[i].IsSigned() {
      assert unsigned[i].Hash() in UnsignedIn(pool.txs, pool.txs.Keys);
    }
  }

  /** Where a position of the contents is. */
  lemma ContentsAt(provided: seq<Transaction>, unsigned: seq<Transaction>, signed: seq<Transaction>,
                   txs: seq<Transaction>, i: nat)
    requires txs <= provided + unsigned + signed && i < |txs|
    ensures i < |provided| ==> txs[..i] == provided[..i] && txs[i] == provided[i]
    ensures var k := i - |provided|; 0 <= k < |unsigned| ==>
              txs[..i] == provided + unsigned[..k] && txs[i] == unsigned[k]
    ensures var k := i - |provided| - |unsigned|; 0 <= k < |signed| ==>
              txs[..i] == provided + unsigned + signed[..k] && txs[i] == signed[k]
    ensures i < |provided| + |unsigned| + |signed|
  {
    assert txs[..i] == (provided + unsigned + signed)[..i];
  }

  lemma ProvidedContent(provided: seq<Transaction>, unsigned: seq<Transaction>, signed: seq<Transaction>,
                        txs: seq<Transaction>, i: nat,
                        view: ChainView, store: Store, local: Queues, chained: Chained)
    requires Flattened(provided, store.transactions) && txs <= provided + unsigned + signed && i < |txs|
    requires i < |provided|
    requires StoreValid(store, local, chained, view.providedIncluded)
    requires forall h :: h in view.unsignedIncluded ==> !(h.ApplicationHash? && h.kind.Provided?)
    ensures Accepted(view, store.transactions, false, txs[..i], txs[i])
  {
    ContentsAt(provided, unsigned, signed, txs, i);
    ProvidedAccepted(provided, i, view, store, local, chained);
  }

  lemma UnsignedContent(provided: seq<Transaction>, unsigned: seq<Transaction>, signed: seq<Transaction>,
                        txs: seq<Transaction>, i: nat,
                        view: ChainView, queues: Queues, pool: Pool)
    requires Contents(provided, unsigned, signed, queues, pool) && PoolValid(pool, view)
    requires txs <= provided + unsigned + signed && i < |txs| && |provided| <= i < |provided| + |unsigned|
    ensures Accepted(view, queues, false, txs[..i], txs[i])
  {
    ContentsKinds(provided, unsigned, signed, queues, pool);
    ContentsAt(provided, unsigned, signed, txs, i);
    UnsignedAccepted(provided, unsigned, i - |provided|, view, queues, pool);
  }

  lemma SignedContent(provided: seq<Transaction>, unsigned: seq<Transaction>, signed: seq<Transaction>,
                      txs: seq<Transaction>, i: nat,
                      view: ChainView, queues: Queues, pool: Pool)
    requires Contents(provided, unsigned, signed, queues, pool) && PoolValid(pool, view)
    requires txs <= provided + unsigned + signed && |provided| + |unsigned| <= i < |txs|
    ensures Accepted(view, queues, false, txs[..i], txs[i])
  {
    ContentsKinds(provided, unsigned, signed, queues, pool);
    ContentsAt(provided, unsigned, signed, txs, i);
    SignedAccepted(provided + unsigned, signed, i - |provided| - |unsigned|, view, queues, pool);
  }

  /** Any prefix of the contents is accepted, whatever the order of the queues and of the pool. */
  lemma ContentsAccepted(provided: seq<Transaction>, unsigned: seq<Transaction>, signed: seq<Transaction>,
                         txs: seq<Transaction>,
                         view: ChainView, pool: Pool, store: Store, local: Queues, chained: Chained)
    requires Contents(provided, unsigned, signed, store.transactions, pool) && txs <= provided + unsigned + signed
    requires PoolValid(pool, view) && StoreValid(store, local, chained, view.providedIncluded)
    requires forall h :: h in view.unsignedIncluded ==> !(h.ApplicationHash? && h.kind.Provided?)
    ensures AllAccepted(view, store.transactions, false, txs)
  {
    forall i | 0 <= i < |txs| ensures Accepted(view, store.transactions, false, txs[..i], txs[i]) {
      if i < |provided| {
        ProvidedContent(provided, unsigned, signed, txs, i, view, store, local, chained);
      } else if i < |provided| + |unsigned| {
        UnsignedContent(provided, unsigned, signed, txs, i, view, store.transactions, pool);
      } else {
        SignedContent(provided, unsigned, signed, txs, i, view, store.transactions, pool);
      }
    }
  }

  // Adding a block's transactions

  function ApplyView(view: ChainView, tx: Transaction): ChainView {
    match tx.Kind()
    case Provided(_) => view.(providedIncluded := view.providedIncluded + {tx.Hash()})
    case Unsigned => view.(unsignedIncluded := view.unsignedIncluded + {tx.Hash()})
    case Signed(_, _, nonce) => view.(nextNonce := view.nextNonce[tx.Key() := nonce + 1])
  }

  ghost function Apply(view: ChainView, txs: seq<Transaction>): ChainView {
    if txs == [] then view else ApplyView(Apply(view, txs[..|txs| - 1]), txs[|txs| - 1])
  }

  lemma ApplyPush(view: ChainView, txs: seq<Transaction>, i: nat)
    requires i < |txs|
    ensures Apply(view, txs[..i + 1]) == ApplyView(Apply(view, txs[..i]), txs[i])
  {
    assert txs[..i + 1][..i] == txs[..i];
  }

  /** What accepted transactions make of the chain's nonces. */
  lemma {:induction false} AppliedNonces(view: ChainView, queues: Queues, nonLocal: bool, txs: seq<Transaction>, n: nat,
                                         key: Key)
    requires AllAccepted(view, queues, nonLocal, txs) && n <= |txs|
    ensures Next(Apply(view, txs[..n]).nextNonce, key) == Next(view.nextNonce, key) + CountKey(txs[..n], key)
  {
    if n > 0 {
      AppliedNonces(view, queues, nonLocal, txs, n - 1, key);
      AcceptedNonce(view, queues, nonLocal, txs, n - 1);
      NonceStep(view, txs, n - 1, key);
    }
  }

  lemma NonceStep(view: ChainView, txs: seq<Transaction>, i: nat, key: Key)
    requires i < |txs|
    ensures var ours := txs[i].IsSigned() && txs[i].Key() == key;
            && Next(Apply(view, txs[..i + 1]).nextNonce, key) ==
                 (if ours then txs[i].Nonce() + 1 else Next(Apply(view, txs[..i]).nextNonce, key))
            && CountKey(txs[..i + 1], key) == CountKey(txs[..i], key) + if ours then 1 else 0
  {
    ApplyPush(view, txs, i);
    NextApplied(Apply(view, txs[..i]), txs[i], key);
    assert txs[..i + 1] == txs[..i] + [txs[i]];
    CountPush(txs[..i], txs[i], key, "");
  }

  lemma AcceptedNonce(view: ChainView, queues: Queues, nonLocal: bool, txs: seq<Transaction>, i: nat)
    requires AllAccepted(view, queues, nonLocal, txs) && i < |txs|
    ensures txs[i].IsSigned() ==>
              txs[i].Nonce() == Next(view.nextNonce, txs[i].Key()) + CountKey(txs[..i], txs[i].Key())
  {
    assert Accepted(view, queues, nonLocal, txs[..i], txs[i]);
  }

  lemma NextApplied(view: ChainView, tx: Transaction, key: Key)
    ensures Next(ApplyView(view, tx).nextNonce, key) ==
              if tx.IsSigned() && tx.Key() == key then tx.Nonce() + 1 else Next(view.nextNonce, key)
  {}

  /** What transactions make of the chain's unsigned transactions. */
  lemma {:induction false} AppliedUnsigned(view: ChainView, txs: seq<Transaction>, n: nat)
    requires n <= |txs|
    ensures Apply(view, txs[..n]).unsignedIncluded == view.unsignedIncluded + UnsignedHashes(txs[..n])
  {
    if n > 0 {
      AppliedUnsigned(view, txs, n - 1);
      ApplyPush(view, txs, n - 1);
      assert txs[..n] == txs[..n - 1] + [txs[n - 1]];
      UnsignedPush(txs[..n - 1], txs[n - 1]);
    }
  }

  ghost predicate InStep(pool: Pool, store: Store, view: ChainView, local: Queues, chained: Chained) {
    PoolValid(pool, view) && StoreValid(store, local, chained, view.providedIncluded)
  }

  lemma {:induction false} CountMonotone(txs: seq<Transaction>, n: nat, order: Order)
    requires n <= |txs|
    ensures CountOrder(txs[..n], order) <= CountOrder(txs, order)
  {
    if n < |txs| {
      CountMonotone(txs[..|txs| - 1], n, order);
      assert txs[..|txs| - 1][..n] == txs[..n];
    } else {
      assert txs[..n] == txs;
    }
  }

  lemma FirstOfOrder(txs: seq<Transaction>, i: nat)
    requires OnePerOrder(txs) && i < |txs| && txs[i].IsProvided()
    ensures CountOrder(txs[..i], txs[i].Kind().order) == 0
  {
    var order := txs[i].Kind().order;
    CountMonotone(txs, i + 1, order);
    assert txs[..i + 1] == txs[..i] + [txs[i]];
    CountPush(txs[..i], txs[i], (0, []), order);
  }

  /** A provided transaction joining the chain doesn't concern the pool. */
  lemma ProvidedKeepsPool(pool: Pool, view: ChainView, tx: Transaction)
    requires PoolValid(pool, view) && tx.IsProvided()
    ensures PoolValid(pool, ApplyView(view, tx))
  {
    forall h | h in pool.txs ensures Entry(ApplyView(view, tx), h, pool.txs[h]) { assert Entry(view, h, pool.txs[h]); }
    forall h | h in pool.txs && pool.txs[h].IsSigned() ensures InRange(pool, ApplyView(view, tx), pool.txs[h]) {
      assert InRange(pool, view, pool.txs[h]);
    }
  }

  // What a block leaves in step

  /** No transaction of the block conflicts with one in the pool. */
  ghost predicate NoConflict(pool: Pool, txs: seq<Transaction>) {
    forall i :: 0 <= i < |txs| ==> Unopposed(pool.txs, txs[i])
  }

  lemma StaysUnopposed(pool: Pool, txs: seq<Transaction>, tx: Transaction)
    requires Counted(pool) && Unopposed(pool.txs, tx)
    ensures Unopposed(RemovedAll(pool, txs).txs, tx)
  {
    forall h | h in RemovedAll(pool, txs).txs ensures h in pool.txs && RemovedAll(pool, txs).txs[h] == pool.txs[h] {
      RemovedStays(pool, txs, h);
    }
  }

  lemma PoolStep(pool: Pool, view: ChainView, tx: Transaction)
    requires PoolValid(pool, view) && Unopposed(pool.txs, tx)
    requires tx.IsSigned() ==> tx.Nonce() == Next(view.nextNonce, tx.Key())
    requires tx.Hash() in pool.txs && pool.txs[tx.Hash()].IsSigned() ==>
               Amount(pool, pool.txs[tx.Hash()].Kind().signer) > 0
    ensures PoolValid(if tx.IsProvided() then pool else Removed(pool, tx.Hash()), ApplyView(view, tx))
  {
    match tx.Kind() {
      case Provided(_) => ProvidedKeepsPool(pool, view, tx);
      case Unsigned => RemovedUnsigned(pool, view, tx);
      case Signed(_, _, _) => RemovedSigned(pool, view, tx);
    }
  }

  ghost predicate PoolAt(pool: Pool, view: ChainView, txs: seq<Transaction>) {
    Counted(pool) && PoolValid(RemovedAll(pool, txs), Apply(view, txs))
  }

  /** An accepted transaction has the key's next nonce. */
  lemma NextAccepted(view: ChainView, queues: Queues, txs: seq<Transaction>, n: nat)
    requires AllAccepted(view, queues, true, txs) && n < |txs| && txs[n].IsSigned()
    ensures txs[n].Nonce() == Next(Apply(view, txs[..n]).nextNonce, txs[n].Key())
  {
    AcceptedNonce(view, queues, true, txs, n);
    AppliedNonces(view, queues, true, txs, n, txs[n].Key());
  }

  lemma PoolNext(pool: Pool, view: ChainView, txs: seq<Transaction>, n: nat)
    requires n < |txs| && PoolAt(pool, view, txs[..n]) && Unopposed(RemovedAll(pool, txs[..n]).txs, txs[n])
    requires txs[n].IsSigned() ==> txs[n].Nonce() == Next(Apply(view, txs[..n]).nextNonce, txs[n].Key())
    ensures PoolAt(pool, view, txs[..n + 1])
  {
    RemovedPush(pool, txs, n);
    ApplyPush(view, txs, n);
    PoolStep(RemovedAll(pool, txs[..n]), Apply(view, txs[..n]), txs[n]);
  }

  lemma PoolStart(pool: Pool, view: ChainView)
    requires PoolValid(pool, view)
    ensures PoolAt(pool, view, [])
  {}

  lemma AcceptedNext(pool: Pool, view: ChainView, queues: Queues, txs: seq<Transaction>, n: nat)
    requires AllAccepted(view, queues, true, txs) && NoConflict(pool, txs)
    requires n < |txs| && PoolAt(pool, view, txs[..n])
    ensures PoolAt(pool, view, txs[..n + 1])
  {
    StaysUnopposed(pool, txs[..n], txs[n]);
    if txs[n].IsSigned() { NextAccepted(view, queues, txs, n); }
    PoolNext(pool, view, txs, n);
  }

  lemma {:induction false} BlockKeepsPool(pool: Pool, view: ChainView, queues: Queues, txs: seq<Transaction>, n: nat)
    requires PoolValid(pool, view) && AllAccepted(view, queues, true, txs) && NoConflict(pool, txs) && n <= |txs|
    ensures PoolAt(pool, view, txs[..n])
  {
    if n == 0 {
      PoolStart(pool, view);
      assert txs[..n] == [];
    } else {
      BlockKeepsPool(pool, view, queues, txs, n - 1);
      AcceptedNext(pool, view, queues, txs, n - 1);
    }
  }

  lemma {:induction false} KeyMonotone(txs: seq<Transaction>, i: nat, j: nat, key: Key)
    requires i <= j <= |txs|
    ensures CountKey(txs[..i], key) <= CountKey(txs[..j], key)
  {
    if i < j {
      KeyMonotone(txs, i, j - 1, key);
      assert txs[..j] == txs[..j - 1] + [txs[j - 1]];
      CountPush(txs[..j - 1], txs[j - 1], key, "");
    }
  }

  lemma KeyPassed(txs: seq<Transaction>, i: nat, j: nat)
    requires i < j <= |txs| && txs[i].IsSigned()
    ensures CountKey(txs[..i], txs[i].Key()) < CountKey(txs[..j], txs[i].Key())
  {
    assert txs[..i + 1] == txs[..i] + [txs[i]];
    CountPush(txs[..i], txs[i], txs[i].Key(), "");
    KeyMonotone(txs, i + 1, j, txs[i].Key());
  }

  /** An accepted transaction's nonce is before whatever the key's next is after it. */
  lemma NoncePassed(view: ChainView, queues: Queues, txs: seq<Transaction>, i: nat, j: nat)
    requires AllAccepted(view, queues, true, txs) && i < j <= |txs| && txs[i].IsSigned()
    ensures txs[i].Nonce() < Next(view.nextNonce, txs[i].Key()) + CountKey(txs[..j], txs[i].Key())
  {
    AcceptedNonce(view, queues, true, txs, i);
    KeyPassed(txs, i, j);
  }

  /** No two transactions of an accepted block have one key and nonce. */
  lemma NoncesDiffer(view: ChainView, queues: Queues, txs: seq<Transaction>, i: nat, j: nat)
    requires AllAccepted(view, queues, true, txs) && i < |txs| && j < |txs| && i != j && txs[i].IsSigned()
    ensures !Uses(txs[j], txs[i].Key(), txs[i].Nonce())
  {
    if txs[j].IsSigned() && txs[j].Key() == txs[i].Key() {
      AcceptedNonce(view, queues, true, txs, i);
      AcceptedNonce(view, queues, true, txs, j);
      if i < j { NoncePassed(view, queues, txs, i, j); } else { NoncePassed(view, queues, txs, j, i); }
    }
  }

  /** Were a conflicting transaction chained, the one in the pool would stay there although its nonce is used, and
      no block built upon may have it: `build_block` would panic. */
  lemma ConflictSpoils(pool: Pool, view: ChainView, queues: Queues, txs: seq<Transaction>, i: nat, h: Digest,
                       later: Queues, nonLocal: bool, before: seq<Transaction>)
    requires PoolValid(pool, view) && AllAccepted(view, queues, true, txs)
    requires i < |txs| && txs[i].IsSigned() && h in pool.txs && h != txs[i].Hash()
    requires Uses(pool.txs[h], txs[i].Key(), txs[i].Nonce())
    ensures h in RemovedAll(pool, txs).txs && RemovedAll(pool, txs).txs[h] == pool.txs[h]
    ensures pool.txs[h].Nonce() < Next(Apply(view, txs).nextNonce, pool.txs[h].Key())
    ensures !Accepted(Apply(view, txs), later, nonLocal, before, pool.txs[h])
  {
    forall j | 0 <= j < |txs| ensures txs[j].Hash() != h {
      assert Entry(view, h, pool.txs[h]);
      if j != i { NoncesDiffer(view, queues, txs, i, j); }
    }
    RemovedStays(pool, txs, h);
    assert txs[..|txs|] == txs;
    NoncePassed(view, queues, txs, i, |txs|);
    AppliedNonces(view, queues, true, txs, |txs|, txs[i].Key());
  }

  /** The pool is in step after a block exactly if the block doesn't conflict with it. */
  lemma PoolInStep(pool: Pool, view: ChainView, queues: Queues, txs: seq<Transaction>)
    requires PoolValid(pool, view) && AllAccepted(view, queues, true, txs)
    ensures PoolAt(pool, view, txs) <==> NoConflict(pool, txs)
  {
    assert txs[..|txs|] == txs;
    if NoConflict(pool, txs) {
      BlockKeepsPool(pool, view, queues, txs, |txs|);
    } else {
      var i :| 0 <= i < |txs| && !Unopposed(pool.txs, txs[i]);
      var h :| h in pool.txs && Uses(pool.txs[h], txs[i].Key(), txs[i].Nonce()) && h != txs[i].Hash();
      ConflictSpoils(pool, view, queues, txs, i, h, queues, true, []);
      assert !InRange(RemovedAll(pool, txs), Apply(view, txs), pool.txs[h]);
    }
  }

  ghost predicate StoreAt(store: Store, view: ChainView, local: Queues, chained: Chained, block: Digest,
                          txs: seq<Transaction>, n: nat)
    requires n <= |txs|
  {
    StoreValid(CompletedAll(store, store.onChainQuantity, block, txs, n), local, ChainedAll(chained, txs, n),
               Apply(view, txs[..n]).providedIncluded)
  }

  /** The amount committed of an order is the length of its sequence until the block has one of it. */
  lemma CommittedAmount(store: Store, view: ChainView, local: Queues, chained: Chained, txs: seq<Transaction>, n: nat)
    requires StoreValid(store, local, chained, view.providedIncluded) && OnePerOrder(txs)
    requires n < |txs| && txs[n].IsProvided()
    ensures var o := txs[n].Kind().order;
            Quantity(store.onChainQuantity, o) == |ChainedOf(ChainedAll(chained, txs, n), o)|
  {
    var o := txs[n].Kind().order;
    FirstOfOrder(txs, n);
    ChainedGrows(chained, txs, n, o);
    assert OrderValid(store, o, QueueOf(local, o), ChainedOf(chained, o), view.providedIncluded);
  }

  /** Completing the next transaction of a block with at most one per order. */
  lemma StoreStep(store: Store, view: ChainView, local: Queues, chained: Chained, block: Digest,
                  txs: seq<Transaction>, n: nat)
    requires StoreValid(store, local, chained, view.providedIncluded) && OnePerOrder(txs)
    requires AllAccepted(view, store.transactions, true, txs) && n < |txs| && txs[n].IsProvided()
    requires StoreAt(store, view, local, chained, block, txs, n)
    ensures StoreAt(store, view, local, chained, block, txs, n + 1)
  {
    var committed := store.onChainQuantity;
    NextCompletable(store, local, chained, committed, block, view, txs, n);
    CommittedAmount(store, view, local, chained, txs, n);
    ApplyPush(view, txs, n);
    CompleteKeeps(CompletedAll(store, committed, block, txs, n), committed, txs[n].Kind().order, block, txs[n].Hash(),
                  local, ChainedAll(chained, txs, n), Apply(view, txs[..n]).providedIncluded);
  }

  lemma StoreSkip(store: Store, view: ChainView, local: Queues, chained: Chained, block: Digest,
                  txs: seq<Transaction>, n: nat)
    requires n < |txs| && !txs[n].IsProvided() && StoreAt(store, view, local, chained, block, txs, n)
    ensures StoreAt(store, view, local, chained, block, txs, n + 1)
  {
    ApplyPush(view, txs, n);
  }

  lemma {:induction false} BlockKeepsStore(store: Store, view: ChainView, local: Queues, chained: Chained,
                                           block: Digest, txs: seq<Transaction>, n: nat)
    requires StoreValid(store, local, chained, view.providedIncluded) && OnePerOrder(txs)
    requires AllAccepted(view, store.transactions, true, txs) && n <= |txs|
    ensures StoreAt(store, view, local, chained, block, txs, n)
  {
    if n > 0 {
      BlockKeepsStore(store, view, local, chained, block, txs, n - 1);
      if txs[n - 1].IsProvided() {
        StoreStep(store, view, local, chained, block, txs, n - 1);
      } else {
        StoreSkip(store, view, local, chained, block, txs, n - 1);
      }
    }
  }

  /** What is provided is in step with the chain after a block exactly if it has at most one transaction per order. */
  lemma StoreInStep(store: Store, view: ChainView, local: Queues, chained: Chained, block: Digest,
                    txs: seq<Transaction>)
    requires StoreValid(store, local, chained, view.providedIncluded)
    requires AllAccepted(view, store.transactions, true, txs)
    ensures StoreAt(store, view, local, chained, block, txs, |txs|) <==> OnePerOrder(txs)
  {
    assert txs[..|txs|] == txs;
    if OnePerOrder(txs) {
      BlockKeepsStore(store, view, local, chained, block, txs, |txs|);
    } else if StoreAt(store, view, local, chained, block, txs, |txs|) {
      StepsMeanOne(store, block, txs, local, chained, view.providedIncluded, Apply(view, txs).providedIncluded);
    }
  }

  // What every chain keeps

  /** The hash of the block with the given number, or the genesis. */
  ghost function HashAt(chain: seq<Block>, k: nat): Digest
    requires k <= |chain|
  {
    if k == 0 then Genesis else chain[k - 1].Hash()
  }

  ghost function AllTxs(chain: seq<Block>): seq<Transaction> {
    if chain == [] then [] else AllTxs(chain[..|chain| - 1]) + chain[|chain| - 1].txs
  }

  /** Every signer's nonces, under every order, are 0, 1, 2, ... */
  ghost predicate NoncesInOrder(txs: seq<Transaction>) {
    forall i :: 0 <= i < |txs| && txs[i].IsSigned() ==> txs[i].Nonce() == CountKey(txs[..i], txs[i].Key())
  }

  ghost predicate UnsignedOnce(txs: seq<Transaction>) {
    forall i, j :: 0 <= i < j < |txs| && txs[i].IsUnsigned() && txs[j].IsUnsigned() ==> txs[i].Hash() != txs[j].Hash()
  }

  ghost function ProvidedHashes(txs: seq<Transaction>): set<Digest> {
    set i | 0 <= i < |txs| && txs[i].IsProvided() :: txs[i].Hash()
  }

  /** No provided transaction is in two blocks. */
  ghost predicate ProvidedApart(chain: seq<Block>) {
    forall i, j :: 0 <= i < j < |chain| ==> ProvidedHashes(chain[i].txs) !! ProvidedHashes(chain[j].txs)
  }

  lemma ProvidedConcat(a: seq<Transaction>, b: seq<Transaction>)
    ensures ProvidedHashes(a + b) == ProvidedHashes(a) + ProvidedHashes(b)
  {
    var c := a + b;
    forall h ensures h in ProvidedHashes(c) <==> h in ProvidedHashes(a) + ProvidedHashes(b) {
      if h in ProvidedHashes(a) {
        var i :| 0 <= i < |a| && a[i].IsProvided() && a[i].Hash() == h;
        assert c[i] == a[i];
      }
      if h in ProvidedHashes(b) {
        var i :| 0 <= i < |b| && b[i].IsProvided() && b[i].Hash() == h;
        assert c[|a| + i] == b[i];
      }
      if h in ProvidedHashes(c) {
        var i :| 0 <= i < |c| && c[i].IsProvided() && c[i].Hash() == h;
        if i < |a| { assert a[i] == c[i]; } else { assert b[i - |a|] == c[i]; }
      }
    }
  }

  lemma {:induction false} ProvidedOfBlock(chain: seq<Block>, i: nat)
    requires i < |chain|
    ensures ProvidedHashes(chain[i].txs) <= ProvidedHashes(AllTxs(chain))
  {
    var n := |chain| - 1;
    ProvidedConcat(AllTxs(chain[..n]), chain[n].txs);
    if i < n { ProvidedOfBlock(chain[..n], i); }
  }

  /** What transactions make of the chain's provided transactions. */
  lemma {:induction false} AppliedProvided(view: ChainView, txs: seq<Transaction>, n: nat)
    requires n <= |txs|
    ensures Apply(view, txs[..n]).providedIncluded == view.providedIncluded + ProvidedHashes(txs[..n])
  {
    if n > 0 {
      AppliedProvided(view, txs, n - 1);
      ApplyPush(view, txs, n - 1);
      assert txs[..n] == txs[..n - 1] + [txs[n - 1]];
      ProvidedConcat(txs[..n - 1], [txs[n - 1]]);
      assert [txs[n - 1]][0] == txs[n - 1];
    }
  }

  /** A block's provided transactions are none of those before. */
  lemma ProvidedExtend(chain: seq<Block>, view: ChainView, queues: Queues, nonLocal: bool, block: Block)
    requires ProvidedApart(chain) && view.providedIncluded == ProvidedHashes(AllTxs(chain))
    requires AllAccepted(view, queues, nonLocal, block.txs)
    ensures ProvidedApart(chain + [block])
  {
    var longer := chain + [block];
    forall h | h in ProvidedHashes(block.txs) ensures h !in view.providedIncluded {
      var k :| 0 <= k < |block.txs| && block.txs[k].IsProvided() && block.txs[k].Hash() == h;
      assert Accepted(view, queues, nonLocal, block.txs[..k], block.txs[k]);
    }
    forall i, j | 0 <= i < j < |longer| ensures ProvidedHashes(longer[i].txs) !! ProvidedHashes(longer[j].txs) {
      if j == |chain| { ProvidedOfBlock(chain, i); }
    }
  }

  ghost predicate Linked(chain: seq<Block>) {
    forall k :: 0 <= k < |chain| ==> LinkedAt(chain, k)
  }

  ghost predicate LinkedAt(chain: seq<Block>, k: nat)
    requires k < |chain|
  {
    chain[k].parent == HashAt(chain, k)
  }

  /** The chain's transactions, and what its view says of them. */
  ghost predicate ChainValid(chain: seq<Block>, view: ChainView) {
    var all := AllTxs(chain);
    && Linked(chain) && view.tip == HashAt(chain, |chain|)
    && NoncesInOrder(all) && (forall key :: Next(view.nextNonce, key) == CountKey(all, key))
    && UnsignedOnce(all) && view.unsignedIncluded == UnsignedHashes(all)
    && ProvidedApart(chain) && view.providedIncluded == ProvidedHashes(all)
  }

  lemma UnsignedConcat(a: seq<Transaction>, b: seq<Transaction>)
    ensures UnsignedHashes(a + b) == UnsignedHashes(a) + UnsignedHashes(b)
  {
    var c := a + b;
    forall h ensures h in UnsignedHashes(c) <==> h in UnsignedHashes(a) + UnsignedHashes(b) {
      if h in UnsignedHashes(a) {
        var i :| 0 <= i < |a| && a[i].IsUnsigned() && a[i].Hash() == h;
        assert c[i] == a[i];
      }
      if h in UnsignedHashes(b) {
        var i :| 0 <= i < |b| && b[i].IsUnsigned() && b[i].Hash() == h;
        assert c[|a| + i] == b[i];
      }
      if h in UnsignedHashes(c) {
        var i :| 0 <= i < |c| && c[i].IsUnsigned() && c[i].Hash() == h;
        if i < |a| { assert a[i] == c[i]; } else { assert b[i - |a|] == c[i]; }
      }
    }
  }

  /** A block's nonces follow on from the chain's. */
  lemma NoncesExtend(all: seq<Transaction>, txs: seq<Transaction>, view: ChainView, queues: Queues, nonLocal: bool)
    requires NoncesInOrder(all) && (forall key :: Next(view.nextNonce, key) == CountKey(all, key))
    requires AllAccepted(view, queues, nonLocal, txs)
    ensures NoncesInOrder(all + txs)
  {
    var c := all + txs;
    forall i | 0 <= i < |c| && c[i].IsSigned() ensures c[i].Nonce() == CountKey(c[..i], c[i].Key()) {
      if i < |all| {
        assert c[..i] == all[..i] && c[i] == all[i];
      } else {
        var k := i - |all|;
        assert c[..i] == all + txs[..k] && c[i] == txs[k];
        assert Accepted(view, queues, nonLocal, txs[..k], txs[k]);
        CountConcat(all, txs[..k], c[i].Key());
      }
    }
  }

  lemma UnsignedExtend(all: seq<Transaction>, txs: seq<Transaction>, view: ChainView, queues: Queues, nonLocal: bool)
    requires UnsignedOnce(all) && view.unsignedIncluded == UnsignedHashes(all)
    requires AllAccepted(view, queues, nonLocal, txs)
    ensures UnsignedOnce(all + txs)
  {
    var c := all + txs;
    forall i, j | 0 <= i < j < |c| && c[i].IsUnsigned() && c[j].IsUnsigned() ensures c[i].Hash() != c[j].Hash() {
      if j < |all| {
        assert c[i] == all[i] && c[j] == all[j];
      } else {
        var k := j - |all|;
        assert c[j] == txs[k];
        assert Accepted(view, queues, nonLocal, txs[..k], txs[k]);
        if i < |all| {
          assert all[i] == c[i] && all[i].Hash() in UnsignedHashes(all);
        } else {
          assert c[i] == txs[..k][i - |all|] && c[i].Hash() in UnsignedHashes(txs[..k]);
        }
      }
    }
  }

  /** An accepted block extends a valid chain to a valid chain. */
  lemma ChainExtends(chain: seq<Block>, view: ChainView, queues: Queues, nonLocal: bool, block: Block)
    requires ChainValid(chain, view) && Acceptable(view, queues, nonLocal, block)
    ensures ChainValid(chain + [block], Apply(view, block.txs).(tip := block.Hash()))
  {
    var longer, all, after := chain + [block], AllTxs(chain), Apply(view, block.txs);
    assert longer[..|chain|] == chain;
    assert AllTxs(longer) == all + block.txs;
    assert block.txs[..|block.txs|] == block.txs;
    NoncesExtend(all, block.txs, view, queues, nonLocal);
    UnsignedExtend(all, block.txs, view, queues, nonLocal);
    AppliedUnsigned(view, block.txs, |block.txs|);
    UnsignedConcat(all, block.txs);
    ProvidedExtend(chain, view, queues, nonLocal, block);
    AppliedProvided(view, block.txs, |block.txs|);
    ProvidedConcat(all, block.txs);
    forall key ensures Next(after.nextNonce, key) == CountKey(all + block.txs, key) {
      AppliedNonces(view, queues, nonLocal, block.txs, |block.txs|, key);
      CountConcat(all, block.txs, key);
    }
    forall k | 0 <= k < |longer| ensures LinkedAt(longer, k) {
      if k < |chain| { assert LinkedAt(chain, k); }
    }
  }

  /** Blocks above the genesis. */
  ghost function Height(hash: Digest): nat {
    if hash.BlockHash? then 1 + Height(hash.parent) else 0
  }

  lemma {:induction false} HashHeight(chain: seq<Block>, k: nat)
    requires Linked(chain) && k <= |chain|
    ensures Height(HashAt(chain, k)) == k
  {
    if k > 0 {
      HashHeight(chain, k - 1);
      assert LinkedAt(chain, k - 1);
    }
  }

  /** `block_after`, from every block to the one after it and from no other. */
  ghost predicate AfterValid(after: map<Digest, Digest>, chain: seq<Block>) {
    && (forall k :: 0 <= k < |chain| ==> AfterAt(after, chain, k))
    && (forall h :: h in after ==> Height(h) < |chain|)
  }

  ghost predicate AfterAt(after: map<Digest, Digest>, chain: seq<Block>, k: nat)
    requires k < |chain|
  {
    HashAt(chain, k) in after && after[HashAt(chain, k)] == HashAt(chain, k + 1)
  }

  ghost function Walk(after: map<Digest, Digest>, from: Digest, steps: nat): Option<Digest>
    decreases steps
  {
    if steps == 0 then Some(from)
    else if from in after then Walk(after, after[from], steps - 1)
    else None
  }

  lemma {:induction false} WalkFrom(after: map<Digest, Digest>, chain: seq<Block>, from: nat, steps: nat)
    requires Linked(chain) && AfterValid(after, chain) && from <= |chain|
    ensures Walk(after, HashAt(chain, from), steps) ==
              if from + steps <= |chain| then Some(HashAt(chain, from + steps)) else None
    decreases steps
  {
    HashHeight(chain, from);
    if steps > 0 && from < |chain| {
      assert AfterAt(after, chain, from);
      WalkFrom(after, chain, from + 1, steps - 1);
    }
  }

  /** From the genesis, `block_after` walks every block in order, once each, and ends at the tip. */
  lemma WalkVisits(after: map<Digest, Digest>, chain: seq<Block>, view: ChainView)
    requires ChainValid(chain, view) && AfterValid(after, chain)
    ensures forall k :: 0 <= k <= |chain| ==> Walk(after, Genesis, k) == Some(HashAt(chain, k))
    ensures forall i, j :: 0 <= i < j <= |chain| ==> HashAt(chain, i) != HashAt(chain, j)
    ensures Walk(after, Genesis, |chain|) == Some(view.tip) && view.tip !in after
  {
    forall k | 0 <= k <= |chain| ensures Walk(after, Genesis, k) == Some(HashAt(chain, k)) {
      WalkFrom(after, chain, 0, k);
    }
    forall i, j | 0 <= i < j <= |chain| ensures HashAt(chain, i) != HashAt(chain, j) {
      HashHeight(chain, i);
      HashHeight(chain, j);
    }
    HashHeight(chain, |chain|);
  }

  lemma AfterExtends(after: map<Digest, Digest>, chain: seq<Block>, block: Block)
    requires Linked(chain) && AfterValid(after, chain) && block.parent == HashAt(chain, |chain|)
    ensures AfterValid(after[block.parent := block.Hash()], chain + [block])
  {
    HashHeight(chain, |chain|);
    var longer, more := chain + [block], after[block.parent := block.Hash()];
    forall k | 0 <= k < |longer| ensures AfterAt(more, longer, k) {
      if k < |chain| {
        HashHeight(chain, k);
        assert AfterAt(after, chain, k);
      }
    }
  }

  lemma TipMoves(pool: Pool, view: ChainView, tip: Digest)
    requires PoolValid(pool, view)
    ensures PoolValid(pool, view.(tip := tip))
  {
    var other := view.(tip := tip);
    forall h | h in pool.txs ensures Entry(other, h, pool.txs[h]) { assert Entry(view, h, pool.txs[h]); }
    forall h | h in pool.txs && pool.txs[h].IsSigned() ensures InRange(pool, other, pool.txs[h]) {
      assert InRange(pool, view, pool.txs[h]);
    }
  }

  lemma TipIsFree(pool: Pool, view: ChainView, tip: Digest)
    ensures PoolValid(pool, view) <==> PoolValid(pool, view.(tip := tip))
  {
    if PoolValid(pool, view) { TipMoves(pool, view, tip); }
    if PoolValid(pool, view.(tip := tip)) { TipMoves(pool, view.(tip := tip), view.tip); }
  }

  /** What is provided, and the sequences on the chain, once a block is. */
  ghost function Completed(store: Store, block: Block): Store {
    CompletedAll(store, store.onChainQuantity, block.Hash(), block.txs, |block.txs|)
  }

  ghost function ChainedBy(chained: Chained, block: Block): Chained {
    ChainedAll(chained, block.txs, |block.txs|)
  }

  /** After a block, everything is in step exactly if nothing in it conflicts with the pool and it has at most one
      provided transaction per order. */
  lemma BlockInStep(pool: Pool, store: Store, view: ChainView, local: Queues, chained: Chained, block: Block)
    requires InStep(pool, store, view, local, chained) && AllAccepted(view, store.transactions, true, block.txs)
    ensures InStep(RemovedAll(pool, block.txs), Completed(store, block), Apply(view, block.txs).(tip := block.Hash()),
                   local, ChainedBy(chained, block))
            <==> NoConflict(pool, block.txs) && OnePerOrder(block.txs)
  {
    var after := Apply(view, block.txs);
    PoolInStep(pool, view, store.transactions, block.txs);
    StoreInStep(store, view, local, chained, block.Hash(), block.txs);
    TipIsFree(RemovedAll(pool, block.txs), after, block.Hash());
    assert block.txs[..|block.txs|] == block.txs;
  }

  lemma UnsignedAreUnsigned(txs: seq<Transaction>)
    ensures forall h :: h in UnsignedHashes(txs) ==> !(h.ApplicationHash? && h.kind.Provided?)
  {}

  lemma OrdersOwnKinds(store: Store, local: Queues, chained: Chained, included: set<Digest>)
    requires StoreValid(store, local, chained, included)
    ensures OwnKinds(store.transactions)
  {
    forall o, k | 0 <= k < |QueueOf(store.transactions, o)|
      ensures QueueOf(store.transactions, o)[k].Kind() == Provided(o)
    {
      QueuedIsNew(store, local, chained, included, o, k);
    }
  }

  lemma StoredOnChain(store: Store, local: Queues, chained: Chained, included: set<Digest>)
    requires StoreValid(store, local, chained, included)
    ensures forall o, j :: 0 <= j < Quantity(store.onChainQuantity, o) ==> (o, j) in store.onChainTx
  {
    forall o, j | 0 <= j < Quantity(store.onChainQuantity, o) ensures (o, j) in store.onChainTx {
      assert OrderValid(store, o, QueueOf(local, o), ChainedOf(chained, o), included);
    }
  }

  /** The database's indexes of the chain. */
  ghost predicate IndexValid(chain: seq<Block>, number: nat, blockHash: map<nat, Digest>, blocks: map<Digest, Block>,
                             after: map<Digest, Digest>) {
    && number == |chain| && AfterValid(after, chain)
    && (forall k :: 0 <= k < |chain| ==> StoredAt(chain, k, blockHash, blocks))
  }

  ghost predicate StoredAt(chain: seq<Block>, k: nat, blockHash: map<nat, Digest>, blocks: map<Digest, Block>)
    requires k < |chain|
  {
    && k + 1 in blockHash && blockHash[k + 1] == chain[k].Hash()
    && chain[k].Hash() in blocks && blocks[chain[k].Hash()] == chain[k]
  }

  lemma IndexExtends(chain: seq<Block>, number: nat, blockHash: map<nat, Digest>, blocks: map<Digest, Block>,
                     after: map<Digest, Digest>, block: Block)
    requires IndexValid(chain, number, blockHash, blocks, after) && Linked(chain)
    requires block.parent == HashAt(chain, |chain|)
    ensures IndexValid(chain + [block], number + 1, blockHash[number + 1 := block.Hash()],
                       blocks[block.Hash() := block], after[block.parent := block.Hash()])
  {
    AfterExtends(after, chain, block);
    BlockIsNew(chain, block);
    var longer, hashes, stored := chain + [block], blockHash[number + 1 := block.Hash()], blocks[block.Hash() := block];
    forall k | 0 <= k < |longer| ensures StoredAt(longer, k, hashes, stored) {
      if k < |chain| { assert StoredAt(chain, k, blockHash, blocks); }
    }
  }

  class Blockchain {
    const participants: set<Signer>
    const provided: ProvidedTransactions
    const mempool: Mempool

    var blockNumber: nat
    var tip: Digest

    // The database
    var nextNonce: map<Key, nat>
    var unsignedIncluded: set<Digest>
    var providedIncluded: set<Digest>
    var blockHash: map<nat, Digest>
    var blocks: map<Digest, Block>
    var blockAfter: map<Digest, Digest>

    /** The blocks added, everything provided locally, and the provided transactions added. */
    ghost var chain: seq<Block>
    ghost var local: Queues
    ghost var chained: Chained

    function View(): ChainView
      reads this
    {
      ChainView(tip, participants, nextNonce, unsignedIncluded, providedIncluded)
    }

    ghost predicate Valid()
      reads this, provided, mempool
    {
      && InStep(mempool.State(), provided.State(), View(), local, chained)
      && ChainValid(chain, View()) && IndexValid(chain, blockNumber, blockHash, blocks, blockAfter)
    }

    constructor (participants: set<Signer>)
      ensures Valid() && chain == [] && View() == Initial(participants) && blockAfter == map[]
    {
      this.participants := participants;
      provided := new ProvidedTransactions();
      mempool := new Mempool();
      blockNumber, tip := 0, Genesis;
      nextNonce, unsignedIncluded, providedIncluded := map[], {}, {};
      blockHash, blocks, blockAfter := map[], map[], map[];
      chain, local, chained := [], map[], map[];
    }

    /** `add_transaction`: everything stays in step unless an oversized unsigned transaction is added. */
    method AddTransaction(internal: bool, tx: Transaction) returns (r: Result<bool, TransactionError>)
      requires Valid()
      modifies mempool
      ensures Valid() <==> (r == Ok(true) ==> tx.Tendermint? || Fits(tx))
      ensures r == Ok(true) <==> Admissible(old(mempool.State()), View(), internal, tx)
      ensures mempool.State() == if r == Ok(true) then Added(old(mempool.State()), tx) else old(mempool.State())
    {
      ghost var pool := mempool.State();
      r := mempool.Add(View(), internal, tx);
      if r == Ok(true) {
        assert forall h :: h in providedIncluded ==> InSequence(chained, h);
        AddedKeeps(pool, View(), internal, tx);
      }
    }

    /** `next_nonce`: the nonce a transaction needs to be added. */
    method NextNonce(signer: Signer, topic: seq<nat>) returns (r: Option<nat>)
      requires Valid()
      ensures r.Some? ==> r.value == NextInPool(mempool.State(), View(), (signer, topic))
      ensures r.Some? <==> signer in participants
    {
      var key := (signer, topic);
      PoolParticipants(mempool.State(), View(), key);
      if key in mempool.lastNonce {
        return Some(mempool.lastNonce[key] + 1);
      }
      if signer in participants {
        return Some(Next(nextNonce, key));
      }
      r := None;
    }

    method ProvideTransaction(tx: Transaction) returns (r: Result<(), ProvidedError>)
      requires Valid() && tx.Application?
      modifies provided, this`local
      ensures Valid()
      ensures r.Ok? <==> Providable(old(provided.State()), tx)
      ensures r.Ok? ==> local == old(local)[tx.Kind().order := QueueOf(old(local), tx.Kind().order) + [tx]]
      ensures r.Err? ==> local == old(local) && provided.State() == old(provided.State())
    {
      ghost var store := provided.State();
      StoredOnChain(store, local, chained, providedIncluded);
      r := provided.Provide(tx);
      if r.Ok? {
        ProvideKeeps(store, tx, local, chained, providedIncluded);
        local := local[tx.Kind().order := QueueOf(local, tx.Kind().order) + [tx]];
      }
    }

    method VerifyBlock(block: Block, nonLocal: bool) returns (r: Result<(), BlockError>)
      ensures r.Ok? <==> Acceptable(View(), provided.transactions, nonLocal, block)
      ensures r.Err? ==> BlockRefused(View(), provided.transactions, nonLocal, block, r.error)
    {
      r := Verify(block, View(), provided.transactions, nonLocal);
    }

    /** The queues, flattened, and what the mempool returns. */
    method Gather() returns (queued: seq<Transaction>, pending: seq<Transaction>)
      requires Valid()
      ensures Everything(queued, UnsignedOf(pending), SignedOf(pending), provided.transactions, mempool.State())
      ensures pending == UnsignedOf(pending) + SignedOf(pending)
    {
      OrdersOwnKinds(provided.State(), local, chained, providedIncluded);
      queued := Flatten(provided.transactions);
      EntriesKeyed(mempool.State(), View());
      pending := mempool.Block();
    }

    /** `build_block`: the block built passes verification by itself, so the unwrap doesn't panic, and it holds as much
        as fits of everything queued and pooled. */
    method BuildBlock() returns (block: Block)
      requires Valid()
      ensures Acceptable(View(), provided.transactions, false, block)
      ensures Fills(block.txs, provided.transactions, mempool.State()) && OwnKinds(provided.transactions)
    {
      var queued, pending := Gather();
      OrdersOwnKinds(provided.State(), local, chained, providedIncluded);
      FlattenedKinds(queued, provided.transactions);
      PendingKinds(pending);
      block := NewBlock(tip, queued, pending);
      UnsignedAreUnsigned(AllTxs(chain));
      ContentsAccepted(queued, UnsignedOf(pending), SignedOf(pending), block.txs, View(), mempool.State(),
                       provided.State(), local, chained);
      var verified := VerifyBlock(block, false);
      assert verified.Ok?;
    }

    /** `add_block`: nothing panics, and the chain and its indexes stay valid, for every acceptable block. The pool
        and the queues stay in step exactly if nothing in the block conflicts with the pool and it has at most one
        provided transaction per order. */
    method AddBlock(block: Block) returns (r: Result<(), BlockError>)
      requires Valid()
      modifies this, mempool, provided
      ensures r.Ok? <==> Acceptable(old(View()), old(provided.transactions), true, block)
      ensures r.Err? ==> BlockRefused(old(View()), old(provided.transactions), true, block, r.error)
      ensures r.Err? ==> View() == old(View()) && chain == old(chain)
      ensures r.Err? ==> mempool.State() == old(mempool.State()) && provided.State() == old(provided.State())
      ensures r.Ok? ==> chain == old(chain) + [block]
      ensures r.Ok? ==> ChainStep(block, Recorded(old(View()), old(blockAfter)), old(provided.transactions),
                                  Recorded(View(), blockAfter))
      ensures r.Ok? ==> mempool.State() == RemovedAll(old(mempool.State()), block.txs)
      ensures r.Ok? ==> provided.State() == Completed(old(provided.State()), block)
      ensures ChainValid(chain, View()) && IndexValid(chain, blockNumber, blockHash, blocks, blockAfter)
      ensures Valid() <==> (r.Ok? ==> NoConflict(old(mempool.State()), block.txs) && OnePerOrder(block.txs))
      ensures local == old(local)
    {
      r := VerifyBlock(block, true);
      if r.Err? {
        return;
      }
      Adopt(block);
    }

    /** What adding an acceptable block leaves of everything the chain promises. */
    method Adopt(block: Block)
      requires Valid() && Acceptable(View(), provided.transactions, true, block)
      modifies this`tip, this`blockNumber, this`blockHash, this`blocks, this`blockAfter, this`chain
      modifies this`nextNonce, this`unsignedIncluded, this`providedIncluded, this`chained, mempool, provided
      ensures ChainStep(block, Recorded(old(View()), old(blockAfter)), old(provided.transactions),
                        Recorded(View(), blockAfter))
      ensures chain == old(chain) + [block]
      ensures mempool.State() == RemovedAll(old(mempool.State()), block.txs)
      ensures provided.State() == Completed(old(provided.State()), block)
      ensures ChainValid(chain, View()) && IndexValid(chain, blockNumber, blockHash, blocks, blockAfter)
      ensures Valid() <==> NoConflict(old(mempool.State()), block.txs) && OnePerOrder(block.txs)
    {
      ChainExtends(chain, View(), provided.transactions, true, block);
      IndexExtends(chain, blockNumber, blockHash, blocks, blockAfter, block);
      BlockInStep(mempool.State(), provided.State(), View(), local, chained, block);
      Extend(block);
    }

    /** Everything an acceptable block changes. */
    method Extend(block: Block)
      requires Valid() && Acceptable(View(), provided.transactions, true, block)
      modifies this`tip, this`blockNumber, this`blockHash, this`blocks, this`blockAfter, this`chain
      modifies this`nextNonce, this`unsignedIncluded, this`providedIncluded, this`chained, mempool, provided
      ensures ChainStep(block, Recorded(old(View()), old(blockAfter)), old(provided.transactions),
                        Recorded(View(), blockAfter))
      ensures View() == Apply(old(View()), block.txs).(tip := block.Hash()) && chain == old(chain) + [block]
      ensures blockNumber == old(blockNumber) + 1 && blockHash == old(blockHash)[blockNumber := block.Hash()]
      ensures blocks == old(blocks)[block.Hash() := block]
      ensures blockAfter == old(blockAfter)[block.parent := block.Hash()]
      ensures mempool.State() == RemovedAll(old(mempool.State()), block.txs)
      ensures provided.State() == Completed(old(provided.State()), block)
      ensures chained == ChainedBy(old(chained), block)
    {
      IncludeAll(block);
      Append(block);
    }

    /** The chain's tip moves to the block. */
    method Append(block: Block)
      modifies this`tip, this`blockNumber, this`blockHash, this`blocks, this`blockAfter, this`chain
      ensures View() == old(View()).(tip := block.Hash()) && chain == old(chain) + [block]
      ensures blockNumber == old(blockNumber) + 1 && blockHash == old(blockHash)[blockNumber := block.Hash()]
      ensures blocks == old(blocks)[block.Hash() := block]
      ensures blockAfter == old(blockAfter)[block.parent := block.Hash()]
    {
      tip := block.Hash();
      blockNumber := blockNumber + 1;
      blockHash := blockHash[blockNumber := tip];
      blocks := blocks[tip := block];
      blockAfter := blockAfter[block.parent := tip];
      chain := chain + [block];
    }

    /** What including a transaction of the block being added does. */
    method Include(block: Digest, tx: Transaction, committed: map<Order, nat>)
      requires tx.IsProvided() ==> Completable(provided.State(), tx.Kind().order, tx.Hash())
      requires tx.Hash() in mempool.txs && mempool.txs[tx.Hash()].IsSigned() ==>
                 Amount(mempool.State(), mempool.txs[tx.Hash()].Kind().signer) > 0
      modifies this`nextNonce, this`unsignedIncluded, this`providedIncluded, mempool, provided
      ensures View() == ApplyView(old(View()), tx)
      ensures mempool.State() ==
                if tx.IsProvided() then old(mempool.State()) else Removed(old(mempool.State()), tx.Hash())
      ensures provided.State() ==
                if tx.IsProvided()
                then WithCompleted(old(provided.State()), committed, tx.Kind().order, block, tx.Hash())
                else old(provided.State())
    {
      match tx.Kind() {
        case Provided(order) =>
          provided.Complete(committed, order, block, tx.Hash());
          providedIncluded := providedIncluded + {tx.Hash()};
        case Unsigned =>
          unsignedIncluded := unsignedIncluded + {tx.Hash()};
          mempool.Remove(tx.Hash());
        case Signed(_, _, nonce) =>
          nextNonce := nextNonce[tx.Key() := nonce + 1];
          mempool.Remove(tx.Hash());
      }
    }

    /** The transactions of the block being added. */
    method IncludeAll(block: Block)
      requires Valid() && AllAccepted(View(), provided.transactions, true, block.txs)
      modifies this`nextNonce, this`unsignedIncluded, this`providedIncluded, this`chained, mempool, provided
      ensures View() == Apply(old(View()), block.txs)
      ensures mempool.State() == RemovedAll(old(mempool.State()), block.txs)
      ensures provided.State() == Completed(old(provided.State()), block)
      ensures chained == ChainedBy(old(chained), block)
    {
      forall i: nat ensures CompletableAt(provided.State(), block, i) {
        if i < |block.txs| && block.txs[i].IsProvided() {
          NextCompletable(provided.State(), local, chained, provided.onChainQuantity, block.Hash(), View(),
                          block.txs, i);
        }
      }
      IncludeEach(block);
      chained := ChainedBy(chained, block);
    }

    method IncludeEach(block: Block)
      requires Counted(mempool.State()) && forall i: nat :: CompletableAt(provided.State(), block, i)
      modifies this`nextNonce, this`unsignedIncluded, this`providedIncluded, mempool, provided
      ensures View() == Apply(old(View()), block.txs)
      ensures mempool.State() == RemovedAll(old(mempool.State()), block.txs)
      ensures provided.State() == Completed(old(provided.State()), block)
    {
      ghost var view, pool, store := View(), mempool.State(), provided.State();
      var committed, txs := provided.onChainQuantity, block.txs;
      for i := 0 to |txs|
        invariant View() == Apply(view, txs[..i])
        invariant mempool.State() == RemovedAll(pool, txs[..i])
        invariant provided.State() == CompletedAll(store, committed, block.Hash(), txs, i)
      {
        ApplyPush(view, txs, i);
        RemovedPush(pool, txs, i);
        assert CompletableAt(store, block, i);
        Include(block.Hash(), txs[i], committed);
      }
      assert txs[..|txs|] == txs;
    }
  }

  /** A provided transaction of the block can be completed once those before it are. */
  ghost predicate CompletableAt(store: Store, block: Block, i: nat) {
    i < |block.txs| && block.txs[i].IsProvided() ==>
      Completable(CompletedAll(store, store.onChainQuantity, block.Hash(), block.txs, i), block.txs[i].Kind().order,
                  block.txs[i].Hash())
  }

  lemma FlattenedKinds(list: seq<Transaction>, queues: Queues)
    requires Flattened(list, queues)
    ensures forall i :: 0 <= i < |list| ==> list[i].IsProvided()
  {
    forall i | 0 <= i < |list| ensures list[i].IsProvided() { assert FlatAt(list[..i], list[i], queues); }
  }

  lemma EntriesKeyed(pool: Pool, view: ChainView)
    requires PoolValid(pool, view)
    ensures forall h :: h in pool.txs ==> pool.txs[h].Hash() == h && !pool.txs[h].IsProvided()
  {
    forall h | h in pool.txs ensures pool.txs[h].Hash() == h && !pool.txs[h].IsProvided() {
      assert Entry(view, h, pool.txs[h]);
    }
  }

  lemma PoolParticipants(pool: Pool, view: ChainView, key: Key)
    requires PoolValid(pool, view)
    ensures key in pool.lastNonce ==> key.0 in view.participants
  {
    if key in pool.lastNonce {
      assert HasNonce(pool.txs, key, pool.lastNonce[key]);
      var h :| h in pool.txs && Uses(pool.txs[h], key, pool.lastNonce[key]);
      assert Entry(view, h, pool.txs[h]);
    }
  }

  lemma PendingKinds(pending: seq<Transaction>)
    requires pending == UnsignedOf(pending) + SignedOf(pending)
    ensures forall i :: 0 <= i < |pending| ==> !pending[i].IsProvided()
  {
    SplitKinds(pending);
    var u, s := UnsignedOf(pending), SignedOf(pending);
    forall i | 0 <= i < |pending| ensures !pending[i].IsProvided() {
      if i < |u| { assert pending[i] == u[i]; } else { assert pending[i] == s[i - |u|]; }
    }
  }

  lemma BlockIsNew(chain: seq<Block>, block: Block)
    requires Linked(chain) && block.parent == HashAt(chain, |chain|)
    ensures forall k :: 0 <= k < |chain| ==> chain[k].Hash() != block.Hash()
  {
    HashHeight(chain, |chain|);
    forall k | 0 <= k < |chain| ensures chain[k].Hash() != block.Hash() { HashHeight(chain, k + 1); }
  }

  // Every run, and what spoils it

  ghost function Initial(participants: set<Signer>): ChainView {
    ChainView(Genesis, participants, map[], {}, {})
  }

  /** What the database has of a chain: its view, and `block_after`. */
  datatype Recorded = Recorded(view: ChainView, after: map<Digest, Digest>)

  /** A run of blocks, each accepted with whatever was provided locally, from the genesis. */
  ghost predicate ChainRun(blocks: seq<Block>, states: seq<Recorded>, queues: seq<Queues>, participants: set<Signer>) {
    && |states| == |blocks| + 1 && |queues| == |blocks|
    && states[0] == Recorded(Initial(participants), map[])
    && forall k :: 0 <= k < |blocks| ==> ChainStep(blocks[k], states[k], queues[k], states[k + 1])
  }

  ghost predicate ChainStep(block: Block, before: Recorded, queues: Queues, after: Recorded) {
    && Acceptable(before.view, queues, true, block)
    && after.view == Apply(before.view, block.txs).(tip := block.Hash())
    && after.after == before.after[block.parent := block.Hash()]
  }

  lemma StepExtends(chain: seq<Block>, before: Recorded, queues: Queues, block: Block, after: Recorded)
    requires ChainValid(chain, before.view) && AfterValid(before.after, chain)
    requires ChainStep(block, before, queues, after)
    ensures ChainValid(chain + [block], after.view) && AfterValid(after.after, chain + [block])
  {
    ChainExtends(chain, before.view, queues, true, block);
    AfterExtends(before.after, chain, block);
  }

  lemma GenesisValid(participants: set<Signer>)
    ensures ChainValid([], Initial(participants)) && AfterValid(map[], [])
  {
    assert AllTxs([]) == [];
  }

  /** In every run, without any hypothesis, every chain is valid: every signer's nonces are 0, 1, 2, ... under
      every order, the next nonce stored is their count, no unsigned transaction is there twice, no provided one is in
      two blocks, and every block is stored as after its parent. */
  lemma {:induction false} EveryChain(blocks: seq<Block>, states: seq<Recorded>, queues: seq<Queues>,
                                      participants: set<Signer>, k: nat)
    requires ChainRun(blocks, states, queues, participants) && k <= |blocks|
    ensures ChainValid(blocks[..k], states[k].view) && AfterValid(states[k].after, blocks[..k])
  {
    if k == 0 {
      assert blocks[..k] == [];
      GenesisValid(participants);
    } else {
      assert blocks[..k] == blocks[..k - 1] + [blocks[k - 1]];
      EveryChain(blocks, states, queues, participants, k - 1);
      StepExtends(blocks[..k - 1], states[k - 1], queues[k - 1], blocks[k - 1], states[k]);
    }
  }

  /** A provided transaction which isn't provided locally is accepted twice in one block, and in no block after it. */
  lemma ProvidedTwice(view: ChainView, queues: Queues, tx: Transaction)
    requires tx.IsProvided() && !InChain(view, tx.Hash()) && Fits(tx) && ContentValid(tx)
    requires QueueOf(queues, tx.Kind().order) == []
    ensures AllAccepted(view, queues, true, [tx, tx])
    ensures forall other, nonLocal, before :: !Accepted(Apply(view, [tx, tx]), other, nonLocal, before, tx)
  {
    assert [tx, tx][..0] == [] && [tx, tx][..1] == [tx];
    assert Accepted(view, queues, true, [], tx) && Accepted(view, queues, true, [tx], tx);
    assert [tx, tx][..2] == [tx, tx];
    AppliedProvided(view, [tx, tx], 2);
    assert [tx, tx][0].Hash() in ProvidedHashes([tx, tx]);
  }

  /** No provided transaction is there twice. */
  ghost predicate ProvidedOnce(txs: seq<Transaction>) {
    forall i, j :: 0 <= i < j < |txs| && txs[i].IsProvided() && txs[j].IsProvided() ==> txs[i].Hash() != txs[j].Hash()
  }

  lemma LocalOnce(view: ChainView, store: Store, local: Queues, chained: Chained, txs: seq<Transaction>, i: nat, j: nat)
    requires StoreValid(store, local, chained, view.providedIncluded)
    requires AllAccepted(view, store.transactions, false, txs) && i < j < |txs|
    requires txs[i].IsProvided() && txs[j].IsProvided()
    ensures txs[i].Hash() != txs[j].Hash()
  {
    var o := txs[i].Kind().order;
    if txs[j].Kind().order == o {
      assert OrderValid(store, o, QueueOf(local, o), ChainedOf(chained, o), view.providedIncluded);
      assert Accepted(view, store.transactions, false, txs[..i], txs[i]);
      assert Accepted(view, store.transactions, false, txs[..j], txs[j]);
      CountNext(txs, i, o);
      CountMonotone(txs[..j], i + 1, o);
      assert txs[..j][..i + 1] == txs[..i + 1];
    }
  }

  /** No block has a provided transaction twice exactly if only those provided locally are let through, as when a block
      is voted on; any other lets through every transaction which isn't, twice. */
  lemma OnceExactly(view: ChainView, store: Store, local: Queues, chained: Chained, nonLocal: bool, tx: Transaction)
    requires StoreValid(store, local, chained, view.providedIncluded)
    requires tx.IsProvided() && !InChain(view, tx.Hash()) && Fits(tx) && ContentValid(tx)
    requires QueueOf(store.transactions, tx.Kind().order) == []
    ensures (forall txs :: AllAccepted(view, store.transactions, nonLocal, txs) ==> ProvidedOnce(txs)) <==> !nonLocal
  {
    if nonLocal {
      ProvidedTwice(view, store.transactions, tx);
      assert [tx, tx][0] == [tx, tx][1] == tx;
      assert !ProvidedOnce([tx, tx]);
    } else {
      forall txs: seq<Transaction> | AllAccepted(view, store.transactions, false, txs) ensures ProvidedOnce(txs) {
        forall i, j | 0 <= i < j < |txs| && txs[i].IsProvided() && txs[j].IsProvided()
          ensures txs[i].Hash() != txs[j].Hash()
        {
          LocalOnce(view, store, local, chained, txs, i, j);
        }
      }
    }
  }

  /** In every run, `block_after` walks from the genesis over every block in order, once each, to the tip. */
  lemma EveryWalk(blocks: seq<Block>, states: seq<Recorded>, queues: seq<Queues>, participants: set<Signer>, k: nat)
    requires ChainRun(blocks, states, queues, participants) && k <= |blocks|
    ensures forall j :: 0 <= j <= k ==> Walk(states[k].after, Genesis, j) == Some(HashAt(blocks[..k], j))
    ensures forall i, j :: 0 <= i < j <= k ==> HashAt(blocks[..k], i) != HashAt(blocks[..k], j)
    ensures Walk(states[k].after, Genesis, k) == Some(states[k].view.tip)
    ensures Walk(states[k].after, Genesis, k + 1) == None
  {
    EveryChain(blocks, states, queues, participants, k);
    WalkVisits(states[k].after, blocks[..k], states[k].view);
    WalkFrom(states[k].after, blocks[..k], 0, k + 1);
  }

  lemma EmptyPool(view: ChainView)
    ensures PoolValid(Pool(map[], map[], map[]), view)
  {
    forall s ensures SignedBy(map[], s) == {} {}
  }

  /** With one of two conflicting first transactions of a signer in the pool, and the other in the first block, the pool
      is out of step. */
  lemma ConflictInput(participants: set<Signer>, mine: Transaction, theirs: Transaction)
    requires mine.Application? && mine.IsSigned() && mine.Kind() == theirs.Kind() && mine.Hash() != theirs.Hash()
    requires mine.Nonce() == 0 && mine.Kind().signer in participants
    requires Fits(mine) && ContentValid(mine) && SignatureValid(mine)
    requires Fits(theirs) && ContentValid(theirs) && SignatureValid(theirs)
    ensures var view, pool := Initial(participants), Added(Pool(map[], map[], map[]), mine);
            && Admissible(Pool(map[], map[], map[]), view, false, mine) && PoolValid(pool, view)
            && AllAccepted(view, map[], true, [theirs]) && !PoolAt(pool, view, [theirs])
  {
    var view, empty := Initial(participants), Pool(map[], map[], map[]);
    var pool := Added(empty, mine);
    EmptyPool(view);
    AddedKeeps(empty, view, false, mine);
    assert [theirs][..0] == [];
    assert Accepted(view, map[], true, [], theirs);
    PoolInStep(pool, view, map[], [theirs]);
    assert mine.Hash() in pool.txs && Uses(pool.txs[mine.Hash()], theirs.Key(), theirs.Nonce());
    assert !Unopposed(pool.txs, [theirs][0]);
  }

  /** An unsigned transaction is added to the pool whatever its size, and accepted in a block exactly if it fits. */
  lemma OversizedSpoils(pool: Pool, view: ChainView, internal: bool, tx: Transaction, queues: Queues, nonLocal: bool)
    requires tx.Application? && tx.IsUnsigned() && ContentValid(tx)
    requires !Exists(pool, view, tx) && !InChain(view, tx.Hash())
    ensures Admissible(pool, view, internal, tx)
    ensures Accepted(view, queues, nonLocal, [], tx) <==> Fits(tx)
    ensures !Fits(tx) ==> forall before :: !Accepted(view, queues, nonLocal, before, tx)
  {}

  /** Were two transactions of an order completed in one block, the second would take the first's place on the
      chain: once the second is provided, the first is queued although it is on the chain, and the block
      built with it isn't acceptable. */
  lemma TwoPerOrderSpoil(order: Order, block: Digest, first: Transaction, second: Transaction, view: ChainView)
    requires first.Application? && second.Application? && first.Kind() == second.Kind() == Provided(order)
    requires first.Hash() != second.Hash() && Fits(first) && Fits(second) && ContentValid(first) && ContentValid(second)
    requires first.Hash() in view.providedIncluded
    ensures var empty := Store(map[], {}, map[], map[], map[], map[], []);
            var once := WithCompleted(empty, map[], order, block, first.Hash());
            var added := WithCompleted(once, map[], order, block, second.Hash());
            && Quantity(added.onChainQuantity, order) == 1 && !Matches(added, first) && Providable(added, second)
            && var later := WithProvided(added, second);
               Providable(later, first) && QueueOf(WithProvided(later, first).transactions, order) == [first]
    ensures !Accepted(view, map[order := [first]], false, [], first)
  {
    var empty := Store(map[], {}, map[], map[], map[], map[], []);
    var once := WithCompleted(empty, map[], order, block, first.Hash());
    var added := WithCompleted(once, map[], order, block, second.Hash());
    assert added.onChainTx[(order, 0)] == second.Hash();
    var later := WithProvided(added, second);
    assert Quantity(later.localQuantity, order) == 1;
  }
}
