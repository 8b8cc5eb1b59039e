/** The Tributary's transactions, with digests that don't collide. */
module Transactions {
  import opened Wrappers

  const TRANSACTION_SIZE_LIMIT := 3_000_000
  const ACCOUNT_MEMPOOL_LIMIT := 50
  const BLOCK_SIZE_LIMIT := 3_001_000

  type Signer = nat
  type Order = string

  datatype Kind =
    | Provided(order: Order)
    | Unsigned
    | Signed(topic: seq<nat>, signer: Signer, nonce: nat)

  /** Every 32-byte value of the system, by what was hashed to it. */
  datatype Digest =
    | Zero
    | Genesis
    | EvidenceHash(body: nat)
    | ApplicationHash(kind: Kind, body: nat)
    | Leaf(hash: Digest)
    | Branch(left: Digest, right: Digest)
    | BlockHash(parent: Digest, transactions: Digest)

  /** Transactions, with the length of their encoding. A signature isn't part of what is hashed. */
  datatype Transaction =
    | Tendermint(body: nat, size: nat)
    | Application(tag: Kind, body: nat, signature: nat, size: nat)
  {
    function Kind(): Kind {
      match this
      case Tendermint(_, _) => Unsigned
      case Application(tag, _, _, _) => tag
    }

    function Hash(): Digest {
      match this
      case Tendermint(body, _) => EvidenceHash(body)
      case Application(tag, body, _, _) => ApplicationHash(tag, body)
    }

    predicate IsSigned() { Kind().Signed? }
    predicate IsUnsigned() { Kind().Unsigned? }
    predicate IsProvided() { Kind().Provided? }

    function Key(): Key
      requires IsSigned()
    {
      (Kind().signer, Kind().topic)
    }

    function Nonce(): nat
      requires IsSigned()
    {
      Kind().nonce
    }
  }

  /** Nonces are tracked per signer and order. */
  type Key = (Signer, seq<nat>)

  datatype TransactionError =
    | TooLargeTransaction
    | InvalidSigner
    | InvalidNonce
    | InvalidSignature
    | InvalidContent
    | TooManyInMempool
    | ProvidedAddedToMempool

  /** Application-defined verification, the signature's validity, and the validity of evidence. */
  const ContentValid: Transaction -> bool
  const SignatureValid: Transaction -> bool
  const EvidenceValid: Transaction -> bool

  predicate Fits(tx: Transaction) { tx.size <= TRANSACTION_SIZE_LIMIT }

  /** `verify_transaction`, for the nonce expected of the signer, None if they don't participate. */
  function VerifyTransaction(tx: Transaction, expected: Option<nat>): (r: Result<(), TransactionError>)
    ensures r.Ok? <==>
              && Fits(tx) && ContentValid(tx)
              && (tx.IsSigned() ==> expected == Some(tx.Nonce()) && SignatureValid(tx))
    ensures r == Err(TooLargeTransaction) <==> !Fits(tx)
    ensures r == Err(InvalidContent) <==> Fits(tx) && !ContentValid(tx)
    ensures r == Err(InvalidSigner) <==> Fits(tx) && ContentValid(tx) && tx.IsSigned() && expected.None?
    ensures r == Err(InvalidNonce) <==>
              Fits(tx) && ContentValid(tx) && tx.IsSigned() && expected.Some? && expected.value != tx.Nonce()
  {
    if tx.size > TRANSACTION_SIZE_LIMIT then Err(TooLargeTransaction)
    else if !ContentValid(tx) then Err(InvalidContent)
    else if !tx.IsSigned() then Ok(())
    else if expected.None? then Err(InvalidSigner)
    else if tx.Nonce() != expected.value then Err(InvalidNonce)
    else if !SignatureValid(tx) then Err(InvalidSignature)
    else Ok(())
  }

  // Counting

  /** How many transactions are signed under the key. */
  ghost function CountKey(txs: seq<Transaction>, key: Key): nat {
    if txs == [] then 0
    else
      var last := txs[|txs| - 1];
      CountKey(txs[..|txs| - 1], key) + if last.IsSigned() && last.Key() == key then 1 else 0
  }

  /** How many transactions are provided under the order. */
  ghost function CountOrder(txs: seq<Transaction>, order: Order): nat {
    if txs == [] then 0
    else
      var last := txs[|txs| - 1];
      CountOrder(txs[..|txs| - 1], order) + if last.Kind() == Provided(order) then 1 else 0
  }

  lemma CountPush(txs: seq<Transaction>, tx: Transaction, key: Key, order: Order)
    ensures CountKey(txs + [tx], key) == CountKey(txs, key) + if tx.IsSigned() && tx.Key() == key then 1 else 0
    ensures CountOrder(txs + [tx], order) == CountOrder(txs, order) + if tx.Kind() == Provided(order) then 1 else 0
  {
    assert (txs + [tx])[..|txs|] == txs;
  }

  /** A transaction counts for its signer and topic, and for no others. */
  lemma CountOne(tx: Transaction, signer: Signer, topic: seq<nat>)
    ensures CountKey([tx], (signer, topic)) ==
              match tx.Kind() case Signed(t, s, _) => (if s == signer && t == topic then 1 else 0) case _ => 0
  {
    assert [tx] == [] + [tx];
    CountPush([], tx, (signer, topic), "");
  }

  lemma {:induction false} CountConcat(a: seq<Transaction>, b: seq<Transaction>, key: Key)
    ensures CountKey(a + b, key) == CountKey(a, key) + CountKey(b, key)
    decreases |b|
  {
    if b == [] {
      assert a + b == a;
    } else {
      var c, rest := a + b, b[..|b| - 1];
      assert c[..|c| - 1] == a + rest;
      CountConcat(a, rest, key);
    }
  }

  lemma {:induction false} NoneCounted(txs: seq<Transaction>, key: Key, order: Order)
    ensures (forall i :: 0 <= i < |txs| ==> !txs[i].IsSigned()) ==> CountKey(txs, key) == 0
    ensures (forall i :: 0 <= i < |txs| ==> txs[i].Kind() != Provided(order)) ==> CountOrder(txs, order) == 0
  {
    if txs != [] { NoneCounted(txs[..|txs| - 1], key, order); }
  }
}
