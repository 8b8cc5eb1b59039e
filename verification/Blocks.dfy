/** Tributary blocks: how one is built, and how one is verified. */
module Blocks {
  import opened Wrappers
  import opened Transactions
  import opened TributaryMerkle

  datatype BlockError =
    | TooLargeBlock
    | InvalidParent
    | InvalidTransactions
    | UnsignedAlreadyIncluded
    | ProvidedAlreadyIncluded
    | WrongTransactionOrder
    | NonLocalProvided(hash: Digest)
    | DistinctProvided
    | TransactionError(error: TransactionError)

  datatype Block = Block(parent: Digest, root: Digest, txs: seq<Transaction>) {
    function Hash(): Digest { BlockHash(parent, root) }
  }

  function SizeOf(txs: seq<Transaction>): nat {
    if txs == [] then 0 else SizeOf(txs[..|txs| - 1]) + 1 + txs[|txs| - 1].size
  }

  /** The length of the block's encoding: its header, the amount of transactions, and the transactions. */
  function BlockSize(txs: seq<Transaction>): nat { 64 + 4 + SizeOf(txs) }

  /** The header and every transaction, each with the byte for its type, make for the block's size. */
  lemma {:induction false} SizeConcat(a: seq<Transaction>, b: seq<Transaction>)
    ensures BlockSize(a + b) == BlockSize(a) + BlockSize(b) - 68
    ensures BlockSize([]) == 68 && (|a| == 1 ==> BlockSize(a) == 69 + a[0].size)
    decreases |b|
  {
    if b == [] {
      assert a + b == a;
    } else {
      var c, rest := a + b, b[..|b| - 1];
      assert c[..|c| - 1] == a + rest;
      SizeConcat(a, rest);
    }
  }

  function Hashes(txs: seq<Transaction>): (r: seq<Digest>)
    ensures |r| == |txs|
  {
    seq(|txs|, i requires 0 <= i < |txs| => txs[i].Hash())
  }

  /** What the chain says to a block. */
  datatype ChainView = ChainView(
    tip: Digest,
    participants: set<Signer>,
    nextNonce: map<Key, nat>,
    unsignedIncluded: set<Digest>,
    providedIncluded: set<Digest>)

  type Queues = map<Order, seq<Transaction>>

  function Next(nonces: map<Key, nat>, key: Key): nat { if key in nonces then nonces[key] else 0 }

  function QueueOf(queues: Queues, order: Order): seq<Transaction> { if order in queues then queues[order] else [] }

  predicate InChain(view: ChainView, hash: Digest) { hash in view.unsignedIncluded || hash in view.providedIncluded }

  // What makes a block acceptable

  /** Provided transactions come first, then unsigned, then signed ones. */
  function Rank(tx: Transaction): nat {
    match tx.Kind()
    case Provided(_) => 0
    case Unsigned => 1
    case Signed(_, _, _) => 2
  }

  ghost function UnsignedHashes(txs: seq<Transaction>): set<Digest> {
    set i | 0 <= i < |txs| && txs[i].IsUnsigned() :: txs[i].Hash()
  }

  /** The nonce a signer is at, `before` included. */
  ghost function Expected(view: ChainView, before: seq<Transaction>, tx: Transaction): Option<nat> {
    if tx.IsSigned() && tx.Kind().signer in view.participants
    then Some(Next(view.nextNonce, tx.Key()) + CountKey(before, tx.Key()))
    else None
  }

  ghost predicate MatchesLocal(queues: Queues, nonLocal: bool, before: seq<Transaction>, tx: Transaction)
    requires tx.IsProvided()
  {
    var queue, k := QueueOf(queues, tx.Kind().order), CountOrder(before, tx.Kind().order);
    if k < |queue| then tx == queue[k] else nonLocal
  }

  ghost predicate Verified(view: ChainView, before: seq<Transaction>, tx: Transaction) {
    if tx.Tendermint? then EvidenceValid(tx) else VerifyTransaction(tx, Expected(view, before, tx)).Ok?
  }

  /** The transaction may follow the ones before it. */
  ghost predicate Accepted(view: ChainView, queues: Queues, nonLocal: bool, before: seq<Transaction>, tx: Transaction) {
    && (before != [] ==> Rank(before[|before| - 1]) <= Rank(tx))
    && KindAccepted(view, queues, nonLocal, before, tx)
    && Verified(view, before, tx)
  }

  /** It isn't on the chain already, nor distinct from what was provided locally, nor there twice. */
  ghost predicate KindAccepted(view: ChainView, queues: Queues, nonLocal: bool, before: seq<Transaction>,
                               tx: Transaction) {
    && (tx.IsProvided() ==> !InChain(view, tx.Hash()) && MatchesLocal(queues, nonLocal, before, tx))
    && (tx.IsUnsigned() ==> !InChain(view, tx.Hash()) && tx.Hash() !in UnsignedHashes(before))
  }

  ghost predicate AllAccepted(view: ChainView, queues: Queues, nonLocal: bool, txs: seq<Transaction>) {
    forall i :: 0 <= i < |txs| ==> Accepted(view, queues, nonLocal, txs[..i], txs[i])
  }

  ghost predicate Acceptable(view: ChainView, queues: Queues, nonLocal: bool, block: Block) {
    && BlockSize(block.txs) <= BLOCK_SIZE_LIMIT
    && block.parent == view.tip
    && block.root == Root(Leaves(Hashes(block.txs)))
    && AllAccepted(view, queues, nonLocal, block.txs)
  }

  /** In an accepted block all provided transactions come first, and all signed ones last. */
  lemma {:induction false} AcceptedOrder(view: ChainView, queues: Queues, nonLocal: bool, txs: seq<Transaction>, i: nat,
                                         j: nat)
    requires AllAccepted(view, queues, nonLocal, txs) && i <= j < |txs|
    ensures txs[j].IsProvided() ==> txs[i].IsProvided()
    ensures txs[i].IsSigned() ==> txs[j].IsSigned()
  {
    if i < j {
      AcceptedOrder(view, queues, nonLocal, txs, i, j - 1);
      assert Accepted(view, queues, nonLocal, txs[..j], txs[j]) && txs[..j][|txs[..j]| - 1] == txs[j - 1];
    }
  }

  /** The same transaction, but for its signature and the length of its encoding. */
  ghost predicate SameBut(a: Transaction, b: Transaction) {
    a.Tendermint? == b.Tendermint? && a.body == b.body && (a.Application? ==> a.tag == b.tag)
  }

  /** A block's hash commits to its parent and to its transactions but for their signatures, in order. */
  lemma BlockBinds(a: Block, b: Block)
    requires a.root == Root(Leaves(Hashes(a.txs))) && b.root == Root(Leaves(Hashes(b.txs)))
    requires a.Hash() == b.Hash()
    ensures a.parent == b.parent && |a.txs| == |b.txs|
    ensures forall i :: 0 <= i < |a.txs| ==> SameBut(a.txs[i], b.txs[i])
  {
    MerkleInjective(Hashes(a.txs), Hashes(b.txs));
    forall i | 0 <= i < |a.txs| ensures SameBut(a.txs[i], b.txs[i]) {
      assert Hashes(a.txs)[i] == Hashes(b.txs)[i];
    }
  }

  // Why a block is refused

  /** For its kind: on the chain already, not what was provided locally, not provided locally, or there twice. */
  ghost predicate KindRefused(view: ChainView, queues: Queues, nonLocal: bool, before: seq<Transaction>,
                              tx: Transaction, e: BlockError) {
    match tx.Kind()
    case Provided(order) =>
      var queue, k := QueueOf(queues, order), CountOrder(before, order);
      if InChain(view, tx.Hash()) then e == ProvidedAlreadyIncluded
      else if k < |queue| then tx != queue[k] && e == DistinctProvided
      else !nonLocal && e == NonLocalProvided(tx.Hash())
    case Unsigned => (InChain(view, tx.Hash()) || tx.Hash() in UnsignedHashes(before)) && e == UnsignedAlreadyIncluded
    case Signed(_, _, _) => false
  }

  ghost predicate SelfRefused(view: ChainView, before: seq<Transaction>, tx: Transaction, e: BlockError) {
    if tx.Tendermint? then !EvidenceValid(tx) && e == TransactionError(InvalidContent)
    else
      var verified := VerifyTransaction(tx, Expected(view, before, tx));
      verified.Err? && e == TransactionError(verified.error)
  }

  /** By the first check the transaction doesn't pass. */
  ghost predicate TxRefused(view: ChainView, queues: Queues, nonLocal: bool, before: seq<Transaction>, tx: Transaction,
                            e: BlockError) {
    if !KindAccepted(view, queues, nonLocal, before, tx) then KindRefused(view, queues, nonLocal, before, tx, e)
    else if before != [] && Rank(tx) < Rank(before[|before| - 1]) then e == WrongTransactionOrder
    else SelfRefused(view, before, tx, e)
  }

  /** By the first transaction which isn't accepted. */
  ghost predicate TxsRefused(view: ChainView, queues: Queues, nonLocal: bool, txs: seq<Transaction>, e: BlockError) {
    exists i :: 0 <= i < |txs| && AllAccepted(view, queues, nonLocal, txs[..i]) &&
                TxRefused(view, queues, nonLocal, txs[..i], txs[i], e)
  }

  ghost predicate BlockRefused(view: ChainView, queues: Queues, nonLocal: bool, block: Block, e: BlockError) {
    if BlockSize(block.txs) > BLOCK_SIZE_LIMIT then e == TooLargeBlock
    else if block.parent != view.tip then e == InvalidParent
    else if !AllAccepted(view, queues, nonLocal, block.txs) then TxsRefused(view, queues, nonLocal, block.txs, e)
    else block.root != Root(Leaves(Hashes(block.txs))) && e == InvalidTransactions
  }

  /** The one error which is temporary is only for a provided transaction which isn't on the chain, with everything
      provided locally of its order already in the block; and never when transactions needn't be provided locally, for
      which adding a block would otherwise be retried forever. */
  lemma OnlyMissing(view: ChainView, queues: Queues, nonLocal: bool, block: Block, h: Digest)
    requires BlockRefused(view, queues, nonLocal, block, NonLocalProvided(h))
    ensures !nonLocal
    ensures exists i :: 0 <= i < |block.txs| && AllAccepted(view, queues, nonLocal, block.txs[..i]) &&
                        Missing(view, queues, block.txs[..i], block.txs[i], h)
  {}

  ghost predicate Missing(view: ChainView, queues: Queues, before: seq<Transaction>, tx: Transaction, h: Digest) {
    && tx.IsProvided() && tx.Hash() == h && !InChain(view, h)
    && CountOrder(before, tx.Kind().order) >= |QueueOf(queues, tx.Kind().order)|
  }

  // Verifying

  /** What verifying keeps track of: the local transactions not yet seen, the nonces with those seen, and the
      unsigned transactions and order seen. */
  datatype Progress = Progress(local: Queues, nonces: map<Key, nat>, included: set<Digest>, last: nat)

  function Drop(queue: seq<Transaction>, n: nat): seq<Transaction> { if n <= |queue| then queue[n..] else [] }

  ghost predicate ProgressAt(p: Progress, view: ChainView, queues: Queues, before: seq<Transaction>) {
    && (forall o :: QueueOf(p.local, o) == Drop(QueueOf(queues, o), CountOrder(before, o)))
    && (forall key :: Next(p.nonces, key) == Next(view.nextNonce, key) + CountKey(before, key))
    && p.included == UnsignedHashes(before)
    && p.last == if before == [] then 0 else Rank(before[|before| - 1])
  }

  lemma ProgressStart(view: ChainView, queues: Queues)
    ensures ProgressAt(Progress(queues, view.nextNonce, {}, 0), view, queues, [])
  {}

  lemma ProgressStep(p: Progress, q: Progress, view: ChainView, queues: Queues, before: seq<Transaction>,
                     tx: Transaction)
    requires ProgressAt(p, view, queues, before)
    requires Popped(q.local, p.local, tx) && Incremented(q.nonces, p.nonces, tx)
    requires q.included == if tx.IsUnsigned() then p.included + {tx.Hash()} else p.included
    requires q.last == Rank(tx)
    ensures ProgressAt(q, view, queues, before + [tx])
  {
    var after := before + [tx];
    forall o ensures QueueOf(q.local, o) == Drop(QueueOf(queues, o), CountOrder(after, o)) {
      CountPush(before, tx, (0, []), o);
    }
    forall key ensures Next(q.nonces, key) == Next(view.nextNonce, key) + CountKey(after, key) {
      CountPush(before, tx, key, "");
    }
    UnsignedPush(before, tx);
  }

  lemma UnsignedPush(before: seq<Transaction>, tx: Transaction)
    ensures UnsignedHashes(before + [tx]) == UnsignedHashes(before) + if tx.IsUnsigned() then {tx.Hash()} else {}
  {
    var after := before + [tx];
    forall h
      ensures h in UnsignedHashes(after) <==> h in UnsignedHashes(before) + if tx.IsUnsigned() then {tx.Hash()} else {}
    {
      if h in UnsignedHashes(before) {
        var i :| 0 <= i < |before| && before[i].IsUnsigned() && before[i].Hash() == h;
        assert after[i] == before[i];
      }
      if h in UnsignedHashes(after) {
        var i :| 0 <= i < |after| && after[i].IsUnsigned() && after[i].Hash() == h;
        if i < |before| { assert before[i] == after[i]; }
      }
      assert after[|before|] == tx;
    }
  }

  ghost predicate Popped(q: Queues, p: Queues, tx: Transaction) {
    forall o :: QueueOf(q, o) == if tx.Kind() == Provided(o) then Drop(QueueOf(p, o), 1) else QueueOf(p, o)
  }

  ghost predicate Incremented(q: map<Key, nat>, p: map<Key, nat>, tx: Transaction) {
    forall key :: Next(q, key) == Next(p, key) + if tx.IsSigned() && tx.Key() == key then 1 else 0
  }

  /** The checks by kind. */
  method VerifyKind(p: Progress, tx: Transaction, view: ChainView, nonLocal: bool, ghost queues: Queues,
                    ghost before: seq<Transaction>)
    returns (r: Result<(Queues, set<Digest>), BlockError>)
    requires ProgressAt(p, view, queues, before)
    ensures r.Ok? <==> KindAccepted(view, queues, nonLocal, before, tx)
    ensures r.Err? ==> KindRefused(view, queues, nonLocal, before, tx, r.error)
    ensures r.Ok? ==> Popped(r.value.0, p.local, tx)
    ensures r.Ok? ==> r.value.1 == if tx.IsUnsigned() then p.included + {tx.Hash()} else p.included
  {
    var local, included := p.local, p.included;
    match tx.Kind() {
      case Provided(order) =>
        if InChain(view, tx.Hash()) {
          return Err(ProvidedAlreadyIncluded);
        }
        if order in local && local[order] != [] {
          if tx != local[order][0] {
            return Err(DistinctProvided);
          }
          local := local[order := local[order][1..]];
        } else if !nonLocal {
          return Err(NonLocalProvided(tx.Hash()));
        }
      case Unsigned =>
        if InChain(view, tx.Hash()) || tx.Hash() in included {
          return Err(UnsignedAlreadyIncluded);
        }
        included := included + {tx.Hash()};
      case Signed(_, _, _) =>
    }
    r := Ok((local, included));
  }

  /** The transaction itself, where getting a signer's nonce increments it. */
  method VerifySelf(p: Progress, tx: Transaction, view: ChainView, ghost queues: Queues, ghost before: seq<Transaction>)
    returns (r: Result<map<Key, nat>, BlockError>)
    requires ProgressAt(p, view, queues, before)
    ensures r.Ok? <==> Verified(view, before, tx)
    ensures r.Err? ==> SelfRefused(view, before, tx, r.error)
    ensures r.Ok? ==> Incremented(r.value, p.nonces, tx)
  {
    var nonces := p.nonces;
    if tx.Tendermint? {
      if !EvidenceValid(tx) {
        return Err(TransactionError(InvalidContent));
      }
    } else {
      var expected := None;
      if tx.IsSigned() && tx.Kind().signer in view.participants {
        expected := Some(Next(nonces, tx.Key()));
        nonces := nonces[tx.Key() := Next(nonces, tx.Key()) + 1];
      }
      var verified := VerifyTransaction(tx, expected);
      if verified.Err? {
        return Err(TransactionError(verified.error));
      }
    }
    r := Ok(nonces);
  }

  /** One iteration of the loop over the transactions. */
  method VerifyOne(p: Progress, tx: Transaction, view: ChainView, nonLocal: bool, ghost queues: Queues,
                   ghost before: seq<Transaction>)
    returns (r: Result<Progress, BlockError>)
    requires ProgressAt(p, view, queues, before)
    ensures r.Ok? <==> Accepted(view, queues, nonLocal, before, tx)
    ensures r.Err? ==> TxRefused(view, queues, nonLocal, before, tx, r.error)
    ensures r.Ok? ==> ProgressAt(r.value, view, queues, before + [tx])
  {
    var kind := VerifyKind(p, tx, view, nonLocal, queues, before);
    if kind.Err? {
      return Err(kind.error);
    }
    if Rank(tx) < p.last {
      return Err(WrongTransactionOrder);
    }
    var nonces := VerifySelf(p, tx, view, queues, before);
    if nonces.Err? {
      return Err(nonces.error);
    }
    var q := Progress(kind.value.0, nonces.value, kind.value.1, Rank(tx));
    ProgressStep(p, q, view, queues, before, tx);
    r := Ok(q);
  }

  /** `verify`: a block passes exactly if it is acceptable. */
  method Verify(block: Block, view: ChainView, queues: Queues, nonLocal: bool) returns (r: Result<(), BlockError>)
    ensures r.Ok? <==> Acceptable(view, queues, nonLocal, block)
    ensures r.Err? ==> BlockRefused(view, queues, nonLocal, block, r.error)
  {
    if BlockSize(block.txs) > BLOCK_SIZE_LIMIT {
      return Err(TooLargeBlock);
    }
    if block.parent != view.tip {
      return Err(InvalidParent);
    }
    var hashes := VerifyAll(block.txs, view, queues, nonLocal);
    if hashes.Err? {
      return Err(hashes.error);
    }
    var root := Merkle(hashes.value);
    r := if root == block.root then Ok(()) else Err(InvalidTransactions);
  }

  /** The loop over the transactions, which yields their hashes. */
  method VerifyAll(txs: seq<Transaction>, view: ChainView, queues: Queues, nonLocal: bool)
    returns (r: Result<seq<Digest>, BlockError>)
    ensures r.Ok? <==> AllAccepted(view, queues, nonLocal, txs)
    ensures r.Err? ==> TxsRefused(view, queues, nonLocal, txs, r.error)
    ensures r.Ok? ==> r.value == Hashes(txs)
  {
    var p := Progress(queues, view.nextNonce, {}, 0);
    var hashes := [];
    ProgressStart(view, queues);
    for i := 0 to |txs|
      invariant ProgressAt(p, view, queues, txs[..i])
      invariant AllAccepted(view, queues, nonLocal, txs[..i])
      invariant hashes == Hashes(txs[..i])
    {
      hashes := hashes + [txs[i].Hash()];
      AcceptedMore(view, queues, nonLocal, txs, i);
      var step := VerifyOne(p, txs[i], view, nonLocal, queues, txs[..i]);
      if step.Err? {
        return Err(step.error);
      }
      p := step.value;
    }
    assert txs[..|txs|] == txs;
    r := Ok(hashes);
  }

  lemma AcceptedMore(view: ChainView, queues: Queues, nonLocal: bool, txs: seq<Transaction>, i: nat)
    requires i < |txs| && AllAccepted(view, queues, nonLocal, txs[..i])
    ensures txs[..i + 1] == txs[..i] + [txs[i]]
    ensures AllAccepted(view, queues, nonLocal, txs[..i + 1]) <==> Accepted(view, queues, nonLocal, txs[..i], txs[i])
    ensures !Accepted(view, queues, nonLocal, txs[..i], txs[i]) ==> !AllAccepted(view, queues, nonLocal, txs)
  {
    var next := txs[..i + 1];
    forall j | 0 <= j < i ensures Accepted(view, queues, nonLocal, next[..j], next[j]) {
      assert next[..j] == txs[..i][..j] && next[j] == txs[..i][j];
    }
    assert next[..i] == txs[..i];
  }

  // Building

  ghost predicate SortedByNonce(txs: seq<Transaction>) {
    forall i, j :: 0 <= i < j < |txs| ==> NonceOf(txs[i]) <= NonceOf(txs[j])
  }

  function NonceOf(tx: Transaction): nat { if tx.IsSigned() then tx.Nonce() else 0 }

  /** Splitting what the mempool returned by kind. */
  method Split(mempool: seq<Transaction>) returns (unsigned: seq<Transaction>, signed: seq<Transaction>)
    requires forall i :: 0 <= i < |mempool| ==> !mempool[i].IsProvided()
    ensures unsigned == UnsignedOf(mempool) && signed == SignedOf(mempool)
  {
    unsigned, signed := [], [];
    for i := 0 to |mempool|
      invariant unsigned == UnsignedOf(mempool[..i]) && signed == SignedOf(mempool[..i])
    {
      assert mempool[..i + 1][..i] == mempool[..i];
      if mempool[i].IsSigned() {
        signed := signed + [mempool[i]];
      } else {
        unsigned := unsigned + [mempool[i]];
      }
    }
    assert mempool[..|mempool|] == mempool;
  }

  ghost function UnsignedOf(txs: seq<Transaction>): seq<Transaction> {
    if txs == [] then []
    else UnsignedOf(txs[..|txs| - 1]) + if txs[|txs| - 1].IsUnsigned() then [txs[|txs| - 1]] else []
  }

  ghost function SignedOf(txs: seq<Transaction>): seq<Transaction> {
    if txs == [] then []
    else SignedOf(txs[..|txs| - 1]) + if txs[|txs| - 1].IsSigned() then [txs[|txs| - 1]] else []
  }

  /** The longest prefix which fits in a block. */
  ghost predicate LongestFitting(kept: seq<Transaction>, txs: seq<Transaction>) {
    && kept <= txs && BlockSize(kept) <= BLOCK_SIZE_LIMIT
    && forall n :: |kept| < n <= |txs| ==> BlockSize(txs[..n]) > BLOCK_SIZE_LIMIT
  }

  /** Popping transactions off the end until the block fits. */
  method PopUntilFits(txs: seq<Transaction>) returns (r: seq<Transaction>)
    ensures LongestFitting(r, txs)
  {
    r := txs;
    assert txs[..|txs|] == txs;
    while BlockSize(r) > BLOCK_SIZE_LIMIT
      invariant r <= txs
      invariant forall n :: |r| < n <= |txs| ==> BlockSize(txs[..n]) > BLOCK_SIZE_LIMIT
      decreases |r|
    {
      assert r == txs[..|r|];
      assert r != [];
      r := r[..|r| - 1];
    }
  }

  /** `Block::new`, which panics unless the mempool's transactions are sorted by nonce. */
  method NewBlock(parent: Digest, provided: seq<Transaction>, mempool: seq<Transaction>) returns (block: Block)
    requires forall i :: 0 <= i < |provided| ==> provided[i].IsProvided()
    requires forall i :: 0 <= i < |mempool| ==> !mempool[i].IsProvided()
    requires SortedByNonce(SignedOf(mempool))
    ensures block.parent == parent && block.root == Root(Leaves(Hashes(block.txs)))
    ensures LongestFitting(block.txs, provided + UnsignedOf(mempool) + SignedOf(mempool))
  {
    var unsigned, signed := Split(mempool);
    var txs := provided + unsigned + signed;
    NoncesSorted(provided, mempool);
    var last := 0;
    for i := 0 to |txs|
      invariant last == if i == 0 then 0 else NonceOf(txs[i - 1])
    {
      // The panic for transactions not ordered by nonce
      assert NonceOf(txs[i]) >= last;
      last := NonceOf(txs[i]);
    }
    var kept := PopUntilFits(txs);
    var root := Merkle(Hashes(kept));
    block := Block(parent, root, kept);
  }

  lemma {:induction false} SplitKinds(txs: seq<Transaction>)
    ensures forall i :: 0 <= i < |UnsignedOf(txs)| ==> UnsignedOf(txs)[i].IsUnsigned() && UnsignedOf(txs)[i] in txs
    ensures forall i :: 0 <= i < |SignedOf(txs)| ==> SignedOf(txs)[i].IsSigned() && SignedOf(txs)[i] in txs
  {
    if txs != [] { SplitKinds(txs[..|txs| - 1]); }
  }

  lemma {:induction false} SplitUnsigned(unsigned: seq<Transaction>)
    requires forall i :: 0 <= i < |unsigned| ==> unsigned[i].IsUnsigned()
    ensures UnsignedOf(unsigned) == unsigned && SignedOf(unsigned) == []
  {
    if unsigned != [] {
      var n := |unsigned| - 1;
      SplitUnsigned(unsigned[..n]);
      assert unsigned[..n] + [unsigned[n]] == unsigned;
    }
  }

  lemma {:induction false} SplitParts(unsigned: seq<Transaction>, signed: seq<Transaction>)
    requires forall i :: 0 <= i < |unsigned| ==> unsigned[i].IsUnsigned()
    requires forall i :: 0 <= i < |signed| ==> signed[i].IsSigned()
    ensures UnsignedOf(unsigned + signed) == unsigned && SignedOf(unsigned + signed) == signed
    decreases |signed|
  {
    var all := unsigned + signed;
    if signed == [] {
      SplitUnsigned(unsigned);
      assert all == unsigned;
    } else {
      var n := |signed| - 1;
      SplitParts(unsigned, signed[..n]);
      assert all[..|all| - 1] == unsigned + signed[..n] && signed[..n] + [signed[n]] == signed;
    }
  }

  lemma NoncesSorted(provided: seq<Transaction>, mempool: seq<Transaction>)
    requires forall i :: 0 <= i < |provided| ==> provided[i].IsProvided()
    requires SortedByNonce(SignedOf(mempool))
    ensures SortedByNonce(provided + UnsignedOf(mempool) + SignedOf(mempool))
  {
    SplitKinds(mempool);
    var front := provided + UnsignedOf(mempool);
    assert forall i :: 0 <= i < |front| ==> NonceOf(front[i]) == 0;
  }
}
