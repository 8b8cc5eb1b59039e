/** The mempool: transactions not yet on the chain, with each signer's nonces in a row. */
module Mempools {
  import opened Wrappers
  import opened Transactions
  import opened Blocks
  import opened Sequences

  datatype Pool = Pool(txs: map<Digest, Transaction>, lastNonce: map<Key, nat>, txsPerSigner: map<Signer, nat>)

  function Amount(pool: Pool, signer: Signer): nat {
    if signer in pool.txsPerSigner then pool.txsPerSigner[signer] else 0
  }

  // What the pool keeps

  ghost predicate EntryValid(tx: Transaction) {
    if tx.Tendermint? then EvidenceValid(tx) else Fits(tx) && ContentValid(tx) && (tx.IsSigned() ==> SignatureValid(tx))
  }

  ghost predicate Entry(view: ChainView, hash: Digest, tx: Transaction) {
    && tx.Hash() == hash && !tx.IsProvided() && EntryValid(tx)
    && (tx.IsSigned() ==> tx.Kind().signer in view.participants)
    && (tx.IsUnsigned() ==> !InChain(view, hash))
  }

  /** A signed transaction's nonce is from the chain's next to the last in the pool. */
  ghost predicate InRange(pool: Pool, view: ChainView, tx: Transaction)
    requires tx.IsSigned()
  {
    tx.Key() in pool.lastNonce && Next(view.nextNonce, tx.Key()) <= tx.Nonce() <= pool.lastNonce[tx.Key()]
  }

  ghost function SignedBy(txs: map<Digest, Transaction>, signer: Signer): set<Digest> {
    set h | h in txs && txs[h].IsSigned() && txs[h].Kind().signer == signer
  }

  ghost predicate Entries(pool: Pool, view: ChainView) {
    && (forall h :: h in pool.txs ==> Entry(view, h, pool.txs[h]))
    && (forall h :: h in pool.txs && pool.txs[h].IsSigned() ==> InRange(pool, view, pool.txs[h]))
  }

  /** The transaction is signed under the key, with the nonce. */
  ghost predicate Uses(tx: Transaction, key: Key, nonce: nat) {
    tx.IsSigned() && tx.Key() == key && tx.Nonce() == nonce
  }

  ghost predicate HasNonce(txs: map<Digest, Transaction>, key: Key, nonce: nat) {
    exists h :: h in txs && Uses(txs[h], key, nonce)
  }

  /** Every nonce from the chain's next to the last is in the pool. */
  ghost predicate Contiguous(pool: Pool, view: ChainView) {
    && (forall key :: key in pool.lastNonce ==> Next(view.nextNonce, key) <= pool.lastNonce[key])
    && (forall key, n :: key in pool.lastNonce && Next(view.nextNonce, key) <= n <= pool.lastNonce[key] ==>
          HasNonce(pool.txs, key, n))
  }

  /** No other transaction in the pool has this one's key and nonce. */
  ghost predicate Unopposed(txs: map<Digest, Transaction>, tx: Transaction) {
    tx.IsSigned() ==> forall h :: h in txs && Uses(txs[h], tx.Key(), tx.Nonce()) ==> h == tx.Hash()
  }

  /** No two transactions in the pool conflict. */
  ghost predicate Single(txs: map<Digest, Transaction>) {
    forall h :: h in txs ==> Unopposed(txs, txs[h])
  }

  ghost predicate Counted(pool: Pool) {
    forall s :: Amount(pool, s) == |SignedBy(pool.txs, s)|
  }

  ghost predicate PoolValid(pool: Pool, view: ChainView) {
    Entries(pool, view) && Contiguous(pool, view) && Single(pool.txs) && Counted(pool)
  }

  // Adding

  function NextInPool(pool: Pool, view: ChainView, key: Key): nat {
    if key in pool.lastNonce then pool.lastNonce[key] + 1 else Next(view.nextNonce, key)
  }

  ghost predicate Exists(pool: Pool, view: ChainView, tx: Transaction) {
    tx.Hash() in view.unsignedIncluded || tx.Hash() in pool.txs
  }

  /** The transactions which are added. */
  ghost predicate Admissible(pool: Pool, view: ChainView, internal: bool, tx: Transaction) {
    match tx.Kind()
    case Provided(_) => false
    case Unsigned => !Exists(pool, view, tx) && if tx.Tendermint? then EvidenceValid(tx) else ContentValid(tx)
    case Signed(_, signer, _) =>
      && signer in view.participants && (internal || Amount(pool, signer) < ACCOUNT_MEMPOOL_LIMIT)
      && VerifyTransaction(tx, Some(NextInPool(pool, view, tx.Key()))).Ok?
  }

  /** The error for a transaction which isn't added, by the first check it doesn't pass. */
  ghost predicate AddError(pool: Pool, view: ChainView, tx: Transaction, e: TransactionError) {
    match tx.Kind()
    case Provided(_) => e == ProvidedAddedToMempool
    case Unsigned => e == InvalidContent
    case Signed(_, signer, _) =>
      if signer !in view.participants then e == InvalidSigner
      else if e == TooManyInMempool then Amount(pool, signer) >= ACCOUNT_MEMPOOL_LIMIT
      else VerifyTransaction(tx, Some(NextInPool(pool, view, tx.Key()))) == Err(e)
  }

  function Added(pool: Pool, tx: Transaction): Pool {
    var txs := pool.txs[tx.Hash() := tx];
    if tx.IsSigned()
    then Pool(txs, pool.lastNonce[tx.Key() := tx.Nonce()],
              pool.txsPerSigner[tx.Kind().signer := Amount(pool, tx.Kind().signer) + 1])
    else pool.(txs := txs)
  }

  lemma SignedByAdded(txs: map<Digest, Transaction>, tx: Transaction, s: Signer)
    requires tx.Hash() !in txs
    ensures SignedBy(txs[tx.Hash() := tx], s) ==
              SignedBy(txs, s) + if tx.IsSigned() && tx.Kind().signer == s then {tx.Hash()} else {}
  {}

  lemma AddedCounted(pool: Pool, tx: Transaction)
    requires Counted(pool) && tx.Hash() !in pool.txs
    ensures Counted(Added(pool, tx))
  {
    var next := Added(pool, tx);
    forall s ensures Amount(next, s) == |SignedBy(next.txs, s)| {
      SignedByAdded(pool.txs, tx, s);
      assert Amount(pool, s) == |SignedBy(pool.txs, s)|;
    }
  }

  /** A transaction that is added isn't there yet. */
  lemma AdmissibleIsNew(pool: Pool, view: ChainView, internal: bool, tx: Transaction)
    requires PoolValid(pool, view) && Admissible(pool, view, internal, tx)
    ensures tx.Hash() !in pool.txs
  {
    assert tx.Hash() in pool.txs ==> pool.txs[tx.Hash()].Kind() == tx.Kind();
  }

  /** The nonce after the pool's last isn't in the pool. */
  lemma AdmissibleIsUnopposed(pool: Pool, view: ChainView, internal: bool, tx: Transaction)
    requires Entries(pool, view) && Admissible(pool, view, internal, tx)
    ensures Unopposed(pool.txs, tx)
  {
    forall h | h in pool.txs && pool.txs[h].IsSigned() && tx.IsSigned()
      ensures !Uses(pool.txs[h], tx.Key(), tx.Nonce())
    {
      assert InRange(pool, view, pool.txs[h]);
    }
  }

  lemma AddedSingle(txs: map<Digest, Transaction>, tx: Transaction)
    requires Single(txs) && Unopposed(txs, tx) && tx.Hash() !in txs
    requires forall h :: h in txs ==> txs[h].Hash() == h
    ensures Single(txs[tx.Hash() := tx])
  {
    var more := txs[tx.Hash() := tx];
    forall h, g | h in more && g in more && more[h].IsSigned() && Uses(more[g], more[h].Key(), more[h].Nonce())
      ensures g == more[h].Hash()
    {
      if h in txs { assert Unopposed(txs, txs[h]); }
      if g in txs && h !in txs { assert Uses(txs[g], tx.Key(), tx.Nonce()); }
      if h in txs && g !in txs { assert Uses(txs[h], tx.Key(), tx.Nonce()); }
    }
  }

  lemma AddedContiguous(pool: Pool, view: ChainView, internal: bool, tx: Transaction)
    requires Contiguous(pool, view) && Admissible(pool, view, internal, tx) && tx.Hash() !in pool.txs
    ensures Contiguous(Added(pool, tx), view)
  {
    var next := Added(pool, tx);
    forall key, n | key in next.lastNonce && Next(view.nextNonce, key) <= n <= next.lastNonce[key]
      ensures HasNonce(next.txs, key, n)
    {
      if tx.IsSigned() && key == tx.Key() && n == tx.Nonce() {
        assert tx.Hash() in next.txs && Uses(next.txs[tx.Hash()], key, n);
      } else {
        assert HasNonce(pool.txs, key, n);
        var h :| h in pool.txs && Uses(pool.txs[h], key, n);
        assert h in next.txs && Uses(next.txs[h], key, n);
      }
    }
  }

  lemma AddedEntries(pool: Pool, view: ChainView, internal: bool, tx: Transaction)
    requires Entries(pool, view) && Contiguous(pool, view) && Admissible(pool, view, internal, tx)
    requires (!tx.Tendermint? ==> Fits(tx)) && tx.Hash() !in pool.txs
    requires forall h :: h in view.providedIncluded ==> h.ApplicationHash? && h.kind.Provided?
    ensures Entries(Added(pool, tx), view)
  {
    var next := Added(pool, tx);
    assert Entry(view, tx.Hash(), tx);
    forall h | h in next.txs && next.txs[h].IsSigned() ensures InRange(next, view, next.txs[h]) {
      if h != tx.Hash() { assert InRange(pool, view, pool.txs[h]); }
    }
  }

  /** What is added keeps the pool in step exactly if it isn't an oversized unsigned transaction, the one thing
      the mempool doesn't check. */
  lemma AddedKeeps(pool: Pool, view: ChainView, internal: bool, tx: Transaction)
    requires PoolValid(pool, view) && Admissible(pool, view, internal, tx)
    requires forall h :: h in view.providedIncluded ==> h.ApplicationHash? && h.kind.Provided?
    ensures PoolValid(Added(pool, tx), view) <==> tx.Tendermint? || Fits(tx)
  {
    AdmissibleIsNew(pool, view, internal, tx);
    if tx.Tendermint? || Fits(tx) {
      AddedCounted(pool, tx);
      AddedEntries(pool, view, internal, tx);
      AddedContiguous(pool, view, internal, tx);
      AdmissibleIsUnopposed(pool, view, internal, tx);
      AddedSingle(pool.txs, tx);
    } else {
      assert !Entry(view, tx.Hash(), Added(pool, tx).txs[tx.Hash()]);
    }
  }

  // Removing

  function Removed(pool: Pool, hash: Digest): Pool
    requires hash in pool.txs && pool.txs[hash].IsSigned() ==> Amount(pool, pool.txs[hash].Kind().signer) > 0
  {
    if hash !in pool.txs then pool
    else
      var tx, txs := pool.txs[hash], pool.txs - {hash};
      if !tx.IsSigned() then pool.(txs := txs)
      else
        var signer := tx.Kind().signer;
        Pool(txs,
             if tx.Key() in pool.lastNonce && pool.lastNonce[tx.Key()] == tx.Nonce()
             then pool.lastNonce - {tx.Key()} else pool.lastNonce,
             pool.txsPerSigner[signer := Amount(pool, signer) - 1])
  }

  lemma AmountPositive(pool: Pool, hash: Digest)
    requires Counted(pool) && hash in pool.txs && pool.txs[hash].IsSigned()
    ensures Amount(pool, pool.txs[hash].Kind().signer) > 0
  {
    var s := pool.txs[hash].Kind().signer;
    assert hash in SignedBy(pool.txs, s);
    assert Amount(pool, s) == |SignedBy(pool.txs, s)|;
  }

  lemma RemovedCounted(pool: Pool, hash: Digest)
    requires Counted(pool)
    ensures hash in pool.txs && pool.txs[hash].IsSigned() ==> Amount(pool, pool.txs[hash].Kind().signer) > 0
    ensures Counted(Removed(pool, hash))
  {
    if hash in pool.txs {
      if pool.txs[hash].IsSigned() { AmountPositive(pool, hash); }
      var next := Removed(pool, hash);
      forall s ensures Amount(next, s) == |SignedBy(next.txs, s)| {
        assert Amount(pool, s) == |SignedBy(pool.txs, s)|;
        assert SignedBy(next.txs, s) == SignedBy(pool.txs, s) - {hash};
      }
    }
  }

  lemma RemovedSingle(txs: map<Digest, Transaction>, hash: Digest)
    requires Single(txs)
    ensures Single(txs - {hash})
  {
    var less := txs - {hash};
    forall h | h in less ensures Unopposed(less, less[h]) { assert Unopposed(txs, txs[h]); }
  }

  lemma RemovedHasNonce(txs: map<Digest, Transaction>, hash: Digest, key: Key, n: nat)
    requires HasNonce(txs, key, n) && (hash in txs ==> !Uses(txs[hash], key, n))
    ensures HasNonce(txs - {hash}, key, n)
  {
    var h :| h in txs && Uses(txs[h], key, n);
    assert h in txs - {hash};
  }

  /** The chain's next nonce of a key is either in the pool, or nothing of the key is. */
  lemma NextInChain(pool: Pool, view: ChainView, tx: Transaction)
    requires PoolValid(pool, view) && tx.IsSigned() && tx.Nonce() == Next(view.nextNonce, tx.Key())
    requires Unopposed(pool.txs, tx)
    ensures tx.Hash() in pool.txs ==> pool.txs[tx.Hash()].Kind() == tx.Kind()
    ensures tx.Hash() !in pool.txs ==> tx.Key() !in pool.lastNonce
  {
    if tx.Hash() in pool.txs {
      assert Entry(view, tx.Hash(), pool.txs[tx.Hash()]);
    } else {
      assert tx.Key() in pool.lastNonce ==> HasNonce(pool.txs, tx.Key(), tx.Nonce());
    }
  }

  lemma RemovedContiguous(pool: Pool, view: ChainView, tx: Transaction)
    requires PoolValid(pool, view) && tx.IsSigned() && tx.Nonce() == Next(view.nextNonce, tx.Key())
    requires Unopposed(pool.txs, tx)
    requires tx.Hash() in pool.txs ==> Amount(pool, tx.Kind().signer) > 0 && pool.txs[tx.Hash()].Kind() == tx.Kind()
    ensures Contiguous(Removed(pool, tx.Hash()), view.(nextNonce := view.nextNonce[tx.Key() := tx.Nonce() + 1]))
  {
    NextInChain(pool, view, tx);
    var next, after := Removed(pool, tx.Hash()), view.nextNonce[tx.Key() := tx.Nonce() + 1];
    forall key, n | key in next.lastNonce && Next(after, key) <= n <= next.lastNonce[key]
      ensures HasNonce(next.txs, key, n)
    {
      assert HasNonce(pool.txs, key, n);
      if tx.Hash() in pool.txs { RemovedHasNonce(pool.txs, tx.Hash(), key, n); }
    }
  }

  /** A signed transaction with the chain's next nonce joins the chain. */
  lemma RemovedSigned(pool: Pool, view: ChainView, tx: Transaction)
    requires PoolValid(pool, view) && tx.IsSigned() && tx.Nonce() == Next(view.nextNonce, tx.Key())
    requires Unopposed(pool.txs, tx)
    ensures tx.Hash() in pool.txs && pool.txs[tx.Hash()].IsSigned() ==>
              Amount(pool, pool.txs[tx.Hash()].Kind().signer) > 0
    ensures PoolValid(Removed(pool, tx.Hash()), view.(nextNonce := view.nextNonce[tx.Key() := tx.Nonce() + 1]))
  {
    var hash, after := tx.Hash(), view.(nextNonce := view.nextNonce[tx.Key() := tx.Nonce() + 1]);
    NextInChain(pool, view, tx);
    RemovedCounted(pool, hash);
    RemovedSingle(pool.txs, hash);
    RemovedContiguous(pool, view, tx);
    var next := Removed(pool, hash);
    forall h | h in next.txs ensures Entry(after, h, next.txs[h]) { assert Entry(view, h, pool.txs[h]); }
    forall h | h in next.txs && next.txs[h].IsSigned() ensures InRange(next, after, next.txs[h]) {
      assert InRange(pool, view, pool.txs[h]);
      assert Uses(pool.txs[h], tx.Key(), tx.Nonce()) ==> h == hash;
    }
  }

  /** An unsigned transaction joins the chain. */
  lemma RemovedUnsigned(pool: Pool, view: ChainView, tx: Transaction)
    requires PoolValid(pool, view) && tx.IsUnsigned()
    ensures tx.Hash() in pool.txs ==> !pool.txs[tx.Hash()].IsSigned()
    ensures PoolValid(Removed(pool, tx.Hash()), view.(unsignedIncluded := view.unsignedIncluded + {tx.Hash()}))
  {
    var hash, after := tx.Hash(), view.(unsignedIncluded := view.unsignedIncluded + {tx.Hash()});
    if hash in pool.txs { assert Entry(view, hash, pool.txs[hash]); }
    RemovedCounted(pool, hash);
    RemovedSingle(pool.txs, hash);
    var next := Removed(pool, hash);
    forall h | h in next.txs ensures Entry(after, h, next.txs[h]) { assert Entry(view, h, pool.txs[h]); }
    forall h | h in next.txs && next.txs[h].IsSigned() ensures InRange(next, after, next.txs[h]) {
      assert InRange(pool, view, pool.txs[h]);
    }
    forall key, n | key in next.lastNonce && Next(after.nextNonce, key) <= n <= next.lastNonce[key]
      ensures HasNonce(next.txs, key, n)
    {
      assert HasNonce(pool.txs, key, n);
      RemovedHasNonce(pool.txs, hash, key, n);
    }
  }

  /** What a block leaves of the pool: its unsigned and signed transactions are removed one by one. */
  ghost function RemovedAll(pool: Pool, txs: seq<Transaction>): (r: Pool)
    requires Counted(pool)
    ensures Counted(r)
  {
    if txs == [] then pool
    else
      var before, tx := RemovedAll(pool, txs[..|txs| - 1]), txs[|txs| - 1];
      if tx.IsProvided() then before else RemovedCounted(before, tx.Hash()); Removed(before, tx.Hash())
  }

  lemma RemovedPush(pool: Pool, txs: seq<Transaction>, i: nat)
    requires Counted(pool) && i < |txs|
    ensures var before, hash := RemovedAll(pool, txs[..i]), txs[i].Hash();
            && (hash in before.txs && before.txs[hash].IsSigned() ==>
                  Amount(before, before.txs[hash].Kind().signer) > 0)
            && RemovedAll(pool, txs[..i + 1]) == if txs[i].IsProvided() then before else Removed(before, hash)
  {
    assert txs[..i + 1][..i] == txs[..i];
    RemovedCounted(RemovedAll(pool, txs[..i]), txs[i].Hash());
  }

  /** What stays is what isn't in the block. */
  lemma {:induction false} RemovedStays(pool: Pool, txs: seq<Transaction>, hash: Digest)
    requires Counted(pool)
    ensures var r := RemovedAll(pool, txs); hash in r.txs ==> hash in pool.txs && r.txs[hash] == pool.txs[hash]
    ensures hash in pool.txs && (forall i :: 0 <= i < |txs| ==> txs[i].Hash() != hash) ==>
              hash in RemovedAll(pool, txs).txs
  {
    if txs != [] {
      var n := |txs| - 1;
      assert txs[..n + 1] == txs;
      RemovedPush(pool, txs, n);
      RemovedStays(pool, txs[..n], hash);
    }
  }

  // Collecting a block's transactions

  /** Lists holding every transaction of the pool of a kind, each once. */
  ghost predicate Lists(list: seq<Transaction>, txs: map<Digest, Transaction>, kept: set<Digest>) {
    && (forall i :: 0 <= i < |list| ==>
          list[i].Hash() in kept && list[i].Hash() in txs && txs[list[i].Hash()] == list[i])
    && (forall i, j :: 0 <= i < j < |list| ==> list[i].Hash() != list[j].Hash())
    && (forall h :: h in kept && h in txs ==> txs[h] in list)
  }

  ghost function SignedIn(txs: map<Digest, Transaction>, hashes: set<Digest>): set<Digest> {
    set h | h in hashes && h in txs && txs[h].IsSigned()
  }

  ghost function UnsignedIn(txs: map<Digest, Transaction>, hashes: set<Digest>): set<Digest> {
    set h | h in hashes && h in txs && !txs[h].IsSigned()
  }

  lemma ListKinds(unsigned: seq<Transaction>, signed: seq<Transaction>, txs: map<Digest, Transaction>)
    requires forall h :: h in txs ==> !txs[h].IsProvided()
    requires Lists(unsigned, txs, UnsignedIn(txs, txs.Keys)) && Lists(signed, txs, SignedIn(txs, txs.Keys))
    ensures forall i :: 0 <= i < |unsigned| ==> unsigned[i].IsUnsigned()
    ensures forall i :: 0 <= i < |signed| ==> signed[i].IsSigned()
  {
    forall i | 0 <= i < |unsigned| ensures unsigned[i].IsUnsigned() {
      assert unsigned[i].Hash() in UnsignedIn(txs, txs.Keys);
    }
    forall i | 0 <= i < |signed| ensures signed[i].IsSigned() { assert signed[i].Hash() in SignedIn(txs, txs.Keys); }
  }

  lemma ListsPush(list: seq<Transaction>, txs: map<Digest, Transaction>, kept: set<Digest>, h: Digest)
    requires Lists(list, txs, kept) && h in txs && txs[h].Hash() == h && h !in kept
    ensures Lists(list + [txs[h]], txs, kept + {h})
  {}

  /** Two equal hashes aren't at two positions of a list sorted from one without any. */
  lemma ListsSorted(list: seq<Transaction>, sorted: seq<Transaction>, txs: map<Digest, Transaction>, kept: set<Digest>)
    requires Lists(list, txs, kept) && multiset(sorted) == multiset(list)
    ensures Lists(sorted, txs, kept)
  {
    forall i | 0 <= i < |sorted| ensures sorted[i] in list { assert sorted[i] in multiset(sorted); }
    forall h | h in kept && h in txs ensures txs[h] in sorted { assert txs[h] in multiset(list); }
    forall i, j | 0 <= i < j < |sorted| ensures sorted[i].Hash() != sorted[j].Hash() {
      if sorted[i].Hash() == sorted[j].Hash() {
        TwiceIn(sorted, i, j);
        OnceIn(list, sorted[i]);
      }
    }
  }

  class Mempool {
    var txs: map<Digest, Transaction>
    var lastNonce: map<Key, nat>
    var txsPerSigner: map<Signer, nat>

    ghost function State(): Pool
      reads this
    {
      Pool(txs, lastNonce, txsPerSigner)
    }

    constructor ()
      ensures State() == Pool(map[], map[], map[])
    {
      txs, lastNonce, txsPerSigner := map[], map[], map[];
    }

    /** `add`: Ok(true) if the transaction was added, Ok(false) if it is an unsigned one already known. */
    method Add(view: ChainView, internal: bool, tx: Transaction) returns (r: Result<bool, TransactionError>)
      requires PoolValid(State(), view)
      modifies this
      ensures r == Ok(true) <==> Admissible(old(State()), view, internal, tx)
      ensures r == Ok(false) <==> tx.IsUnsigned() && Exists(old(State()), view, tx)
      ensures r.Err? ==> AddError(old(State()), view, tx, r.error)
      ensures State() == if r == Ok(true) then Added(old(State()), tx) else old(State())
    {
      match tx {
        case Tendermint(_, _) =>
          if tx.Hash() in view.unsignedIncluded || tx.Hash() in txs {
            return Ok(false);
          }
          if !EvidenceValid(tx) {
            return Err(InvalidContent);
          }
        case Application(_, _, _, _) =>
          match tx.Kind() {
            case Signed(_, signer, _) =>
              if signer !in view.participants {
                return Err(InvalidSigner);
              }
              var next := Next(view.nextNonce, tx.Key());
              if tx.Key() in lastNonce {
                // The mempool never falls behind the chain
                assert lastNonce[tx.Key()] >= next;
                next := lastNonce[tx.Key()] + 1;
              }
              var amount := (if signer in txsPerSigner then txsPerSigner[signer] else 0) + 1;
              if !internal && amount > ACCOUNT_MEMPOOL_LIMIT {
                return Err(TooManyInMempool);
              }
              var verified := VerifyTransaction(tx, Some(next));
              if verified.Err? {
                return Err(verified.error);
              }
              lastNonce := lastNonce[tx.Key() := next];
              txsPerSigner := txsPerSigner[signer := amount];
            case Unsigned =>
              if tx.Hash() in view.unsignedIncluded || tx.Hash() in txs {
                return Ok(false);
              }
              if !ContentValid(tx) {
                return Err(InvalidContent);
              }
            case Provided(_) =>
              return Err(ProvidedAddedToMempool);
          }
      }
      txs := txs[tx.Hash() := tx];
      r := Ok(true);
    }

    /** `block`: every transaction, in whichever order the map yields them, unsigned ones first and then the
        signed ones by nonce. */
    method Block() returns (all: seq<Transaction>)
      requires forall h :: h in txs ==> txs[h].Hash() == h && !txs[h].IsProvided()
      ensures all == UnsignedOf(all) + SignedOf(all)
      ensures Lists(UnsignedOf(all), txs, UnsignedIn(txs, txs.Keys))
      ensures Lists(SignedOf(all), txs, SignedIn(txs, txs.Keys))
      ensures SortedByNonce(SignedOf(all))
    {
      var unsigned: seq<Transaction>, signed: seq<Transaction> := [], [];
      var left := txs.Keys;
      while left != {}
        invariant left <= txs.Keys
        invariant Lists(unsigned, txs, UnsignedIn(txs, txs.Keys - left))
        invariant Lists(signed, txs, SignedIn(txs, txs.Keys - left))
      {
        var h :| h in left;
        var tx := txs[h];
        ghost var seen := txs.Keys - left;
        assert txs.Keys - (left - {h}) == seen + {h};
        if tx.IsSigned() {
          ListsPush(signed, txs, SignedIn(txs, seen), h);
          assert SignedIn(txs, seen + {h}) == SignedIn(txs, seen) + {h};
          assert UnsignedIn(txs, seen + {h}) == UnsignedIn(txs, seen);
          signed := signed + [tx];
        } else {
          ListsPush(unsigned, txs, UnsignedIn(txs, seen), h);
          assert UnsignedIn(txs, seen + {h}) == UnsignedIn(txs, seen) + {h};
          assert SignedIn(txs, seen + {h}) == SignedIn(txs, seen);
          unsigned := unsigned + [tx];
        }
        left := left - {h};
      }
      assert txs.Keys - left == txs.Keys;
      SortSorted(NonceOf, signed);
      ListsSorted(signed, SortBy(NonceOf, signed), txs, SignedIn(txs, txs.Keys));
      signed := SortBy(NonceOf, signed);
      ListKinds(unsigned, signed, txs);
      SplitParts(unsigned, signed);
      all := unsigned + signed;
    }

    method Remove(hash: Digest)
      requires hash in txs && txs[hash].IsSigned() ==> Amount(State(), txs[hash].Kind().signer) > 0
      modifies this
      ensures State() == Removed(old(State()), hash)
    {
      if hash in txs {
        var tx := txs[hash];
        txs := txs - {hash};
        if tx.IsSigned() {
          var signer := tx.Kind().signer;
          txsPerSigner := txsPerSigner[signer := txsPerSigner[signer] - 1];
          if tx.Key() in lastNonce && lastNonce[tx.Key()] == tx.Nonce() {
            lastNonce := lastNonce - {tx.Key()};
          }
        }
      }
    }
  }
}
