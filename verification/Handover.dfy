/** The coordinator's handover of a network between validator sets: when each set's `Batch` transactions are
    provided to its Tributary. */
module Handover {
  import opened Wrappers

  type Session = nat
  type InstructionsHash = nat

  /** The transaction for a `Batch`. */
  datatype BatchTx = BatchTx(block: nat, batch: nat)

  type Lists = map<Session, seq<BatchTx>>

  function ListOf(lists: Lists, session: Session): seq<BatchTx> {
    if session in lists then lists[session] else []
  }

  // What may have been provided

  /** The last verified batch's ID, and -1 for none. */
  function Last(verified: Option<nat>): int {
    match verified case Some(id) => id case None => -1
  }

  /** How many of a set's transactions may be provided once the batches up to `verified` are: none before
      the batch prior to the handover batch, only the handover batch with it, all with the handover batch. */
  ghost function Released(verified: int, handover: nat, amount: nat): nat {
    if verified < handover - 1 then 0 else if verified == handover - 1 && amount > 0 then 1 else amount
  }

  ghost predicate Increasing(txs: seq<BatchTx>) {
    forall i, j :: 0 <= i < j < |txs| ==> txs[i].batch < txs[j].batch
  }

  ghost function OfSession(txs: seq<(Session, BatchTx)>, session: Session): seq<BatchTx> {
    if txs == [] then []
    else OfSession(txs[..|txs| - 1], session) + if txs[|txs| - 1].0 == session then [txs[|txs| - 1].1] else []
  }

  lemma OfSessionPush(txs: seq<(Session, BatchTx)>, tx: (Session, BatchTx), session: Session)
    ensures OfSession(txs + [tx], session) == OfSession(txs, session) + if tx.0 == session then [tx.1] else []
  {
    assert (txs + [tx])[..|txs|] == txs;
  }

  lemma {:induction false} OfSessionConcat(a: seq<(Session, BatchTx)>, b: seq<(Session, BatchTx)>, session: Session)
    ensures OfSession(a + b, session) == OfSession(a, session) + OfSession(b, session)
    decreases |b|
  {
    if b == [] {
      assert a + b == a;
    } else {
      var c, rest := a + b, b[..|b| - 1];
      assert c[..|c| - 1] == a + rest;
      OfSessionConcat(a, rest, session);
    }
  }

  // The database

  datatype Db = Db(
    lastReceived: Option<nat>,
    expected: map<nat, InstructionsHash>,
    lastVerified: Option<nat>,
    handover: map<Session, nat>,
    lookup: map<nat, Session>,
    queued: Lists)

  /** A set's handover batch is its first transaction; those not released are queued. */
  ghost predicate SetValid(db: Db, queued: Lists, issued: Lists, verified: int, session: Session) {
    var issued, queue := ListOf(issued, session), ListOf(queued, session);
    if session in db.handover then
      && issued != [] && issued[0].batch == db.handover[session] && Increasing(issued)
      && (forall k :: 0 <= k < |issued| ==> issued[k].batch <= Last(db.lastReceived))
      && queue == issued[Released(verified, db.handover[session], |issued|)..]
    else
      issued == [] && queue == []
  }

  ghost predicate SetsValid(db: Db, queued: Lists, issued: Lists, verified: int) {
    forall s :: SetValid(db, queued, issued, verified, s)
  }

  ghost predicate LookupValid(db: Db) {
    && (forall s :: s in db.handover ==> db.handover[s] in db.lookup && db.lookup[db.handover[s]] == s)
    && (forall n :: n in db.lookup ==> db.lookup[n] in db.handover && db.handover[db.lookup[n]] == n)
  }

  ghost predicate DbValid(db: Db, issued: Lists, verified: int) {
    && LookupValid(db) && SetsValid(db, db.queued, issued, verified)
    && (forall id: nat :: id in db.expected <==> id <= Last(db.lastReceived))
  }

  // The pass over the published batches

  function Tagged(session: Session, txs: seq<BatchTx>): (r: seq<(Session, BatchTx)>)
    ensures |r| == |txs| && forall i :: 0 <= i < |r| ==> r[i] == (session, txs[i])
  {
    seq(|txs|, i requires 0 <= i < |txs| => (session, txs[i]))
  }

  lemma {:induction false} OfTagged(session: Session, txs: seq<BatchTx>, s: Session)
    ensures OfSession(Tagged(session, txs), s) == if s == session then txs else []
  {
    if txs != [] {
      var rest := txs[..|txs| - 1];
      OfTagged(session, rest, s);
      assert Tagged(session, txs)[..|txs| - 1] == Tagged(session, rest);
      assert rest + [txs[|txs| - 1]] == txs;
    }
  }

  /** What the pass has collected to publish, having verified up to `verified`. */
  ghost predicate Collected(db: Db, issued: Lists, from: int, verified: int, publish: seq<(Session, BatchTx)>) {
    forall s :: CollectedFor(db, issued, from, verified, publish, s)
  }

  ghost predicate CollectedFor(db: Db, issued: Lists, from: int, verified: int, publish: seq<(Session, BatchTx)>,
                               s: Session) {
    s in db.handover ==>
      var issued := ListOf(issued, s);
      var a, b := Released(from, db.handover[s], |issued|), Released(verified, db.handover[s], |issued|);
      a <= b <= |issued| && OfSession(publish, s) == issued[a..b]
  }

  /** The next batch releases transactions of the set whose handover batch follows it, and of the set whose
      handover batch it is. */
  lemma ReleasedNext(handover: nat, amount: nat, batch: nat)
    ensures amount > 0 && handover == batch + 1 ==>
              Released(batch - 1, handover, amount) == 0 && Released(batch, handover, amount) == 1
    ensures amount > 0 && handover == batch ==>
              Released(batch - 1, handover, amount) == 1 && Released(batch, handover, amount) == amount
    ensures handover != batch && handover != batch + 1 ==>
              Released(batch - 1, handover, amount) == Released(batch, handover, amount)
  {}

  ghost predicate OnlyPublished(publish: seq<(Session, BatchTx)>, db: Db) {
    forall i :: 0 <= i < |publish| ==> publish[i].0 in db.handover
  }

  /** A set's queue and what is to be published for it, after the pass came to `batch`. */
  ghost predicate Stepped(db: Db, queued: Lists, next: Lists, publish: seq<(Session, BatchTx)>,
                          more: seq<(Session, BatchTx)>, batch: nat, s: Session)
  {
    if s in db.handover && db.handover[s] == batch + 1 then
      && ListOf(queued, s) != [] && ListOf(next, s) == ListOf(queued, s)[1..]
      && OfSession(more, s) == OfSession(publish, s) + [ListOf(queued, s)[0]]
    else if s in db.handover && db.handover[s] == batch then
      ListOf(next, s) == [] && OfSession(more, s) == OfSession(publish, s) + ListOf(queued, s)
    else
      ListOf(next, s) == ListOf(queued, s) && OfSession(more, s) == OfSession(publish, s)
  }

  lemma StepSet(db: Db, queued: Lists, next: Lists, publish: seq<(Session, BatchTx)>, more: seq<(Session, BatchTx)>,
                issued: Lists, from: int, batch: nat, s: Session)
    requires SetValid(db, queued, issued, batch - 1, s) && from <= batch - 1
    requires CollectedFor(db, issued, from, batch - 1, publish, s)
    requires Stepped(db, queued, next, publish, more, batch, s)
    ensures SetValid(db, next, issued, batch, s) && CollectedFor(db, issued, from, batch, more, s)
  {
    if s in db.handover { ReleasedNext(db.handover[s], |ListOf(issued, s)|, batch); }
  }

  /** A handover batch which isn't verified up to is queued: the panic for one that isn't can't happen. */
  lemma HandoverIsQueued(db: Db, queued: Lists, issued: Lists, batch: nat, s: Session)
    requires SetValid(db, queued, issued, batch - 1, s) && AtHandover(db, s, batch + 1)
    ensures ListOf(queued, s) == ListOf(issued, s) != []
  {
    ReleasedNext(db.handover[s], |ListOf(issued, s)|, batch);
  }

  /** Re-queueing what remains, one by one. */
  method Requeue(queued: Lists, session: Session, remaining: seq<BatchTx>) returns (r: Lists)
    requires ListOf(queued, session) == []
    ensures ListOf(r, session) == remaining && forall s :: s != session ==> ListOf(r, s) == ListOf(queued, s)
  {
    r := queued;
    for i := 0 to |remaining|
      invariant ListOf(r, session) == remaining[..i] && forall s :: s != session ==> ListOf(r, s) == ListOf(queued, s)
    {
      r := r[session := ListOf(r, session) + [remaining[i]]];
    }
    assert remaining[..|remaining|] == remaining;
  }

  ghost predicate AtHandover(db: Db, s: Session, batch: nat) { s in db.handover && db.handover[s] == batch }

  ghost predicate HandoverTaken(db: Db, queued: Lists, next: Lists, publish: seq<(Session, BatchTx)>,
                                more: seq<(Session, BatchTx)>, batch: nat, s: Session) {
    if AtHandover(db, s, batch + 1) then
      && ListOf(queued, s) != [] && ListOf(next, s) == ListOf(queued, s)[1..]
      && OfSession(more, s) == OfSession(publish, s) + [ListOf(queued, s)[0]]
    else ListOf(next, s) == ListOf(queued, s) && OfSession(more, s) == OfSession(publish, s)
  }

  ghost predicate QueueTaken(db: Db, queued: Lists, next: Lists, publish: seq<(Session, BatchTx)>,
                             more: seq<(Session, BatchTx)>, batch: nat, s: Session) {
    if AtHandover(db, s, batch)
    then ListOf(next, s) == [] && OfSession(more, s) == OfSession(publish, s) + ListOf(queued, s)
    else ListOf(next, s) == ListOf(queued, s) && OfSession(more, s) == OfSession(publish, s)
  }

  /** If the next batch is a set's handover batch, it is taken off the queue, and only it. */
  method ReleaseHandover(db: Db, queued: Lists, publish: seq<(Session, BatchTx)>, batch: nat, ghost issued: Lists)
    returns (next: Lists, more: seq<(Session, BatchTx)>)
    requires LookupValid(db) && SetsValid(db, queued, issued, batch - 1) && OnlyPublished(publish, db)
    ensures forall s :: HandoverTaken(db, queued, next, publish, more, batch, s)
    ensures OnlyPublished(more, db) && publish <= more
  {
    next, more := queued, publish;
    if batch + 1 in db.lookup {
      var session := db.lookup[batch + 1];
      HandoverIsQueued(db, queued, issued, batch, session);
      var taken := ListOf(queued, session);
      more := publish + [(session, taken[0])];
      next := Requeue(queued - {session}, session, taken[1..]);
      forall s ensures HandoverTaken(db, queued, next, publish, more, batch, s) {
        OfSessionPush(publish, (session, taken[0]), s);
      }
    }
  }

  /** If this is a set's handover batch, everything queued is taken. */
  method ReleaseQueued(db: Db, queued: Lists, publish: seq<(Session, BatchTx)>, batch: nat)
    returns (next: Lists, more: seq<(Session, BatchTx)>)
    requires LookupValid(db) && OnlyPublished(publish, db)
    ensures forall s :: QueueTaken(db, queued, next, publish, more, batch, s)
    ensures OnlyPublished(more, db) && publish <= more
  {
    next, more := queued, publish;
    if batch in db.lookup {
      var session := db.lookup[batch];
      var taken := ListOf(queued, session);
      next := queued - {session};
      more := publish + Tagged(session, taken);
      forall s ensures QueueTaken(db, queued, next, publish, more, batch, s) {
        OfSessionConcat(publish, Tagged(session, taken), s);
        OfTagged(session, taken, s);
      }
    }
  }

  lemma StepBoth(db: Db, queued: Lists, first: Lists, next: Lists, publish: seq<(Session, BatchTx)>,
                 some: seq<(Session, BatchTx)>,
                 more: seq<(Session, BatchTx)>, batch: nat, s: Session)
    requires HandoverTaken(db, queued, first, publish, some, batch, s)
    requires QueueTaken(db, first, next, some, more, batch, s)
    ensures Stepped(db, queued, next, publish, more, batch, s)
  {}

  /** The loop's body for one batch newly verified. */
  method ReleaseFor(db: Db, queued: Lists, publish: seq<(Session, BatchTx)>, batch: nat, ghost issued: Lists,
                    ghost from: int)
    returns (next: Lists, more: seq<(Session, BatchTx)>)
    requires LookupValid(db) && SetsValid(db, queued, issued, batch - 1) && OnlyPublished(publish, db)
    requires from <= batch - 1 && Collected(db, issued, from, batch - 1, publish)
    ensures SetsValid(db, next, issued, batch) && OnlyPublished(more, db) && Collected(db, issued, from, batch, more)
    ensures publish <= more
  {
    var first, some := ReleaseHandover(db, queued, publish, batch, issued);
    next, more := ReleaseQueued(db, first, some, batch);
    forall s ensures SetValid(db, next, issued, batch, s) && CollectedFor(db, issued, from, batch, more, s) {
      StepBoth(db, queued, first, next, publish, some, more, batch, s);
      StepSet(db, queued, next, publish, more, issued, from, batch, s);
    }
  }

  lemma CollectNone(db: Db, issued: Lists, verified: int)
    requires SetsValid(db, db.queued, issued, verified)
    ensures Collected(db, issued, verified, verified, [])
  {
    forall s ensures CollectedFor(db, issued, verified, verified, [], s) {
      assert SetValid(db, db.queued, issued, verified, s);
    }
  }

  /** What the batches up to `verified` release comes first. */
  ghost predicate FirstCollected(db: Db, issued: Lists, from: int, verified: int, publish: seq<(Session, BatchTx)>) {
    exists n :: 0 <= n <= |publish| && Collected(db, issued, from, verified, publish[..n])
  }

  ghost predicate EachFirst(db: Db, issued: Lists, from: int, verified: int, publish: seq<(Session, BatchTx)>) {
    forall p :: from <= p <= verified ==> FirstCollected(db, issued, from, p, publish)
  }

  lemma FirstStays(db: Db, issued: Lists, from: int, verified: int, publish: seq<(Session, BatchTx)>,
                   more: seq<(Session, BatchTx)>)
    requires FirstCollected(db, issued, from, verified, publish) && publish <= more
    ensures FirstCollected(db, issued, from, verified, more)
  {
    var n :| 0 <= n <= |publish| && Collected(db, issued, from, verified, publish[..n]);
    assert more[..n] == publish[..n];
  }

  lemma EachFirstNext(db: Db, issued: Lists, from: int, batch: int, publish: seq<(Session, BatchTx)>,
                      more: seq<(Session, BatchTx)>)
    requires from < batch ==> EachFirst(db, issued, from, batch - 1, publish) && publish <= more
    requires Collected(db, issued, from, batch, more) && from <= batch
    ensures EachFirst(db, issued, from, batch, more)
  {
    forall p | from <= p <= batch ensures FirstCollected(db, issued, from, p, more) {
      if p < batch {
        FirstStays(db, issued, from, p, publish, more);
      } else {
        assert more[..|more|] == more;
      }
    }
  }

  /** The queues after the batches from `start` to `last` were verified, and what to publish, batch after batch. */
  method ReleaseAll(db: Db, start: nat, last: int, ghost issued: Lists)
    returns (queued: Lists, publish: seq<(Session, BatchTx)>)
    requires start - 1 <= last && LookupValid(db) && SetsValid(db, db.queued, issued, start - 1)
    ensures SetsValid(db, queued, issued, last)
    ensures Collected(db, issued, start - 1, last, publish) && OnlyPublished(publish, db)
    ensures EachFirst(db, issued, start - 1, last, publish)
  {
    queued, publish := db.queued, [];
    CollectNone(db, issued, start - 1);
    EachFirstNext(db, issued, start - 1, start - 1, publish, publish);
    for batch := start to last + 1
      invariant SetsValid(db, queued, issued, batch - 1)
      invariant Collected(db, issued, start - 1, batch - 1, publish) && OnlyPublished(publish, db)
      invariant EachFirst(db, issued, start - 1, batch - 1, publish)
    {
      ghost var before := publish;
      queued, publish := ReleaseFor(db, queued, publish, batch, issued, start - 1);
      EachFirstNext(db, issued, start - 1, batch, before, publish);
    }
  }

  // Whose Tributaries are needed

  /** Verifying up to `to` releases transactions of the set. */
  ghost predicate Releases(db: Db, issued: Lists, from: int, to: int, s: Session) {
    && s in db.handover
    && Released(from, db.handover[s], |ListOf(issued, s)|) < Released(to, db.handover[s], |ListOf(issued, s)|)
  }

  /** The Tributaries of all sets with anything released are known. */
  ghost predicate AllKnown(db: Db, issued: Lists, from: int, to: int, known: set<Session>) {
    forall s :: Releases(db, issued, from, to, s) ==> s in known
  }

  ghost predicate KnownTo(publish: seq<(Session, BatchTx)>, known: set<Session>, n: nat) {
    forall j :: 0 <= j < n && j < |publish| ==> publish[j].0 in known
  }

  lemma {:induction false} OfSessionHas(txs: seq<(Session, BatchTx)>, j: nat)
    requires j < |txs|
    ensures OfSession(txs, txs[j].0) != []
  {
    if j < |txs| - 1 { OfSessionHas(txs[..|txs| - 1], j); }
  }

  lemma {:induction false} OfSessionNone(txs: seq<(Session, BatchTx)>, s: Session)
    requires forall j :: 0 <= j < |txs| ==> txs[j].0 != s
    ensures OfSession(txs, s) == []
  {
    if txs != [] { OfSessionNone(txs[..|txs| - 1], s); }
  }

  /** The Tributaries needed for the first of what is to be published are those of the sets it is released for. */
  lemma KnownIffReleased(db: Db, issued: Lists, from: int, to: int, publish: seq<(Session, BatchTx)>, n: nat,
                         known: set<Session>)
    requires n <= |publish| && OnlyPublished(publish, db) && Collected(db, issued, from, to, publish[..n])
    ensures KnownTo(publish, known, n) <==> AllKnown(db, issued, from, to, known)
  {
    var first := publish[..n];
    if AllKnown(db, issued, from, to, known) {
      forall j | 0 <= j < n ensures publish[j].0 in known {
        OfSessionHas(first, j);
        assert CollectedFor(db, issued, from, to, first, first[j].0);
        assert Releases(db, issued, from, to, first[j].0);
      }
    }
    if KnownTo(publish, known, n) {
      forall s | Releases(db, issued, from, to, s) ensures s in known {
        assert CollectedFor(db, issued, from, to, first, s);
        if s !in known { OfSessionNone(first, s); }
      }
    }
  }

  // Providing to the Tributaries

  /** A Tributary accepts a transaction once. */
  function Provide(provided: Lists, session: Session, tx: BatchTx): Lists {
    if tx in ListOf(provided, session) then provided else provided[session := ListOf(provided, session) + [tx]]
  }

  /** Nothing provided is taken back. */
  ghost predicate Grown(before: Lists, after: Lists) {
    forall s :: ListOf(before, s) <= ListOf(after, s)
  }

  /** Everything released by the batches up to `verified` is provided. */
  ghost predicate AllReleased(db: Db, provided: Lists, issued: Lists, verified: int) {
    forall s :: s in db.handover ==>
      Released(verified, db.handover[s], |ListOf(issued, s)|) <= |ListOf(provided, s)|
  }

  lemma ProvideGrows(provided: Lists, session: Session, tx: BatchTx)
    ensures Grown(provided, Provide(provided, session, tx))
  {}

  lemma ReleasedMonotone(v: int, w: int, handover: nat, amount: nat)
    requires v <= w
    ensures Released(v, handover, amount) <= Released(w, handover, amount) <= amount
  {}

  lemma {:induction false} OfSessionPrefix(txs: seq<(Session, BatchTx)>, j: nat, s: Session)
    requires j <= |txs|
    ensures OfSession(txs[..j], s) <= OfSession(txs, s)
  {
    if j < |txs| {
      OfSessionPrefix(txs[..|txs| - 1], j, s);
      assert txs[..|txs| - 1][..j] == txs[..j];
    } else {
      assert txs[..j] == txs;
    }
  }

  /** How far providing what is to be published has come for a set. */
  ghost predicate Publishing(db: Db, provided: Lists, issued: Lists, from: int, reached: int,
                             published: seq<(Session, BatchTx)>, s: Session) {
    var list := ListOf(issued, s);
    && ListOf(provided, s) <= list
    && (s in db.handover ==>
          Released(from, db.handover[s], |list|) + |OfSession(published, s)| <= |ListOf(provided, s)|
            <= Released(reached, db.handover[s], |list|))
  }

  /** Providing the `k`th of a set's transactions, when at least those before it are. */
  lemma ProvideNext(list: seq<BatchTx>, had: seq<BatchTx>, k: nat)
    requires Increasing(list) && had <= list && k < |list| && k <= |had|
    ensures var now := if list[k] in had then had else had + [list[k]];
            now <= list && k + 1 <= |now| && |now| <= (if k < |had| then |had| else k + 1)
  {
    if k < |had| {
      assert had[k] == list[k];
    } else {
      forall i | 0 <= i < |had| ensures had[i] != list[k] { assert had[i] == list[i]; }
      assert had + [list[k]] == list[..k + 1];
    }
  }

  lemma PublishOther(db: Db, provided: Lists, issued: Lists, from: int, reached: int, publish: seq<(Session, BatchTx)>,
                     j: nat, s: Session)
    requires j < |publish| && Publishing(db, provided, issued, from, reached, publish[..j], s) && s != publish[j].0
    ensures Publishing(db, Provide(provided, publish[j].0, publish[j].1), issued, from, reached, publish[..j + 1], s)
  {
    assert publish[..j + 1] == publish[..j] + [publish[j]];
    OfSessionPush(publish[..j], publish[j], s);
  }

  /** What is published next for a set is the next of its transactions. */
  lemma NextOfSession(issued: seq<BatchTx>, a: nat, b: nat, publish: seq<(Session, BatchTx)>, j: nat)
    requires j < |publish| && a <= b <= |issued| && OfSession(publish, publish[j].0) == issued[a..b]
    ensures var done := OfSession(publish[..j], publish[j].0);
            && OfSession(publish[..j + 1], publish[j].0) == done + [publish[j].1]
            && a + |done| < b && publish[j].1 == issued[a + |done|]
  {
    assert publish[..j + 1] == publish[..j] + [publish[j]];
    OfSessionPush(publish[..j], publish[j], publish[j].0);
    OfSessionPrefix(publish, j + 1, publish[j].0);
    assert OfSession(publish[..j + 1], publish[j].0)[|OfSession(publish[..j], publish[j].0)|] == publish[j].1;
  }

  lemma PublishOne(db: Db, provided: Lists, issued: Lists, from: int, to: int, reached: int,
                   publish: seq<(Session, BatchTx)>, j: nat, s: Session)
    requires j < |publish| && Publishing(db, provided, issued, from, reached, publish[..j], s)
    requires CollectedFor(db, issued, from, to, publish, s) && to <= reached
    requires SetValid(db, db.queued, issued, from, s) && publish[j].0 in db.handover
    ensures Publishing(db, Provide(provided, publish[j].0, publish[j].1), issued, from, reached, publish[..j + 1], s)
  {
    if s != publish[j].0 {
      PublishOther(db, provided, issued, from, reached, publish, j, s);
    } else {
      var list := ListOf(issued, s);
      var a, b := Released(from, db.handover[s], |list|), Released(to, db.handover[s], |list|);
      NextOfSession(list, a, b, publish, j);
      ReleasedMonotone(to, reached, db.handover[s], |list|);
      ProvideNext(list, ListOf(provided, s), a + |OfSession(publish[..j], s)|);
    }
  }

  // Forming a batch's transaction

  /** The handover batch waits for the batch prior to be verified, and later ones for the handover batch. */
  ghost predicate Waits(db: Db, session: Session, id: nat) {
    Last(db.lastVerified) < if session in db.handover then db.handover[session] else id - 1
  }

  ghost function AfterForming(db: Db, session: Session, tx: BatchTx): Db {
    var known := if session in db.handover then db
                 else db.(handover := db.handover[session := tx.batch], lookup := db.lookup[tx.batch := session]);
    known.(queued := if Waits(db, session, tx.batch)
                     then db.queued[session := ListOf(db.queued, session) + [tx]]
                     else db.queued - {session})
  }

  ghost function ProvidedForming(db: Db, provided: Lists, session: Session, tx: BatchTx): Lists {
    if Waits(db, session, tx.batch) then provided else Provide(provided, session, tx)
  }

  ghost predicate Before(txs: seq<BatchTx>, id: int) {
    forall k :: 0 <= k < |txs| ==> txs[k].batch < id
  }

  lemma FormOther(db: Db, provided: Lists, issued: Lists, more: Lists, reached: int, session: Session, tx: BatchTx,
                  s: Session)
    requires s != session && ListOf(more, s) == ListOf(issued, s)
    requires SetValid(db, db.queued, issued, Last(db.lastVerified), s)
    requires Publishing(db, provided, issued, Last(db.lastVerified), reached, [], s)
    ensures var after := AfterForming(db, session, tx); SetValid(after, after.queued, more, Last(after.lastVerified), s)
    ensures Publishing(AfterForming(db, session, tx), ProvidedForming(db, provided, session, tx), more,
                       Last(db.lastVerified), reached, [], s)
  {}

  /** What is queued once a transaction is formed, and that nothing is when it is provided right away. */
  lemma FormSet(db: Db, issued: Lists, more: Lists, session: Session, tx: BatchTx)
    requires ListOf(more, session) == ListOf(issued, session) + [tx]
    requires db.lastReceived == Some(tx.batch) && Before(ListOf(issued, session), tx.batch)
    requires SetValid(db, db.queued, issued, Last(db.lastVerified), session)
    ensures var after := AfterForming(db, session, tx);
            SetValid(after, after.queued, more, Last(after.lastVerified), session)
    ensures !Waits(db, session, tx.batch) ==> ListOf(db.queued, session) == []
  {}

  lemma FormProvided(db: Db, provided: Lists, issued: Lists, more: Lists, reached: int, session: Session, tx: BatchTx)
    requires ListOf(more, session) == ListOf(issued, session) + [tx] && Last(db.lastVerified) <= reached
    requires Before(ListOf(issued, session), tx.batch)
    requires SetValid(db, db.queued, issued, Last(db.lastVerified), session)
    requires Publishing(db, provided, issued, Last(db.lastVerified), reached, [], session)
    ensures Publishing(AfterForming(db, session, tx), ProvidedForming(db, provided, session, tx), more,
                       Last(db.lastVerified), reached, [], session)
  {
    var had := ListOf(provided, session);
    assert tx !in had;
    if !Waits(db, session, tx.batch) {
      assert had == ListOf(issued, session);
    }
  }

  lemma FormLookup(db: Db, issued: Lists, session: Session, tx: BatchTx)
    requires LookupValid(db) && SetsValid(db, db.queued, issued, Last(db.lastVerified))
    requires forall s :: Before(ListOf(issued, s), tx.batch)
    ensures LookupValid(AfterForming(db, session, tx))
  {
    forall n | n in db.lookup ensures n < tx.batch {
      var s := db.lookup[n];
      assert SetValid(db, db.queued, issued, Last(db.lastVerified), s) && Before(ListOf(issued, s), tx.batch);
    }
  }

  ghost predicate AllPublishing(db: Db, provided: Lists, issued: Lists, from: int, reached: int,
                                published: seq<(Session, BatchTx)>) {
    forall s :: Publishing(db, provided, issued, from, reached, published, s)
  }

  ghost predicate AllProvided(db: Db, provided: Lists, issued: Lists, reached: int) {
    AllPublishing(db, provided, issued, Last(db.lastVerified), reached, [])
  }

  lemma AllPublishOne(db: Db, provided: Lists, issued: Lists, from: int, to: int, reached: int,
                      publish: seq<(Session, BatchTx)>, j: nat)
    requires j < |publish| && AllPublishing(db, provided, issued, from, reached, publish[..j])
    requires Collected(db, issued, from, to, publish) && to <= reached && SetsValid(db, db.queued, issued, from)
    requires publish[j].0 in db.handover
    ensures AllPublishing(db, Provide(provided, publish[j].0, publish[j].1), issued, from, reached, publish[..j + 1])
  {
    var now, after := Provide(provided, publish[j].0, publish[j].1), publish[..j + 1];
    forall s ensures Publishing(db, now, issued, from, reached, after, s) {
      assert Publishing(db, provided, issued, from, reached, publish[..j], s);
      assert CollectedFor(db, issued, from, to, publish, s) && SetValid(db, db.queued, issued, from, s);
      PublishOne(db, provided, issued, from, to, reached, publish, j, s);
    }
  }

  lemma FormAny(db: Db, provided: Lists, issued: Lists, reached: int, session: Session, tx: BatchTx, s: Session)
    requires SetValid(db, db.queued, issued, Last(db.lastVerified), s) && Last(db.lastVerified) <= reached
    requires Publishing(db, provided, issued, Last(db.lastVerified), reached, [], s)
    requires db.lastReceived == Some(tx.batch) && Before(ListOf(issued, session), tx.batch)
    ensures var after, more := AfterForming(db, session, tx), issued[session := ListOf(issued, session) + [tx]];
            && SetValid(after, after.queued, more, Last(after.lastVerified), s)
            && Publishing(after, ProvidedForming(db, provided, session, tx), more, Last(db.lastVerified), reached, [],
                          s)
  {
    var more := issued[session := ListOf(issued, session) + [tx]];
    if s == session {
      FormSet(db, issued, more, session, tx);
      FormProvided(db, provided, issued, more, reached, session, tx);
    } else {
      FormOther(db, provided, issued, more, reached, session, tx, s);
    }
  }

  lemma FormKeeps(db: Db, provided: Lists, issued: Lists, reached: int, session: Session, tx: BatchTx)
    requires DbValid(db, issued, Last(db.lastVerified)) && AllProvided(db, provided, issued, reached)
    requires Last(db.lastVerified) <= reached
    requires db.lastReceived == Some(tx.batch) && forall s :: Before(ListOf(issued, s), tx.batch)
    ensures var after, more := AfterForming(db, session, tx), issued[session := ListOf(issued, session) + [tx]];
            && DbValid(after, more, Last(after.lastVerified))
            && AllProvided(after, ProvidedForming(db, provided, session, tx), more, reached)
    ensures !Waits(db, session, tx.batch) ==> ListOf(db.queued, session) == []
  {
    var after, more := AfterForming(db, session, tx), issued[session := ListOf(issued, session) + [tx]];
    var now := ProvidedForming(db, provided, session, tx);
    FormLookup(db, issued, session, tx);
    assert SetValid(db, db.queued, issued, Last(db.lastVerified), session);
    FormSet(db, issued, more, session, tx);
    forall s
      ensures SetValid(after, after.queued, more, Last(after.lastVerified), s)
      ensures Publishing(after, now, more, Last(after.lastVerified), reached, [], s)
    {
      assert SetValid(db, db.queued, issued, Last(db.lastVerified), s);
      assert Publishing(db, provided, issued, Last(db.lastVerified), reached, [], s);
      assert Before(ListOf(issued, session), tx.batch);
      FormAny(db, provided, issued, reached, session, tx, s);
    }
  }

  /** Whether the transaction is queued, and the database with the set's handover batch. */
  method Withhold(db: Db, session: Session, lastReceived: nat) returns (queue: bool, txn: Db)
    requires session in db.handover ==> lastReceived > db.handover[session]
    ensures queue == Waits(db, session, lastReceived)
    ensures txn == if session in db.handover then db
                   else db.(handover := db.handover[session := lastReceived],
                            lookup := db.lookup[lastReceived := session])
  {
    queue, txn := false, db;
    if session in db.handover {
      var handover := db.handover[session];
      if lastReceived > handover {
        if db.lastVerified.Some? {
          if db.lastVerified.value < handover {
            queue := true;
          }
        } else {
          queue := true;
        }
      }
    } else {
      txn := db.(handover := db.handover[session := lastReceived], lookup := db.lookup[lastReceived := session]);
      if lastReceived != 0 && (db.lastVerified.None? || db.lastVerified.value < lastReceived - 1) {
        queue := true;
      }
    }
  }

  lemma HandoverIsPast(db: Db, issued: Lists, session: Session, id: nat)
    requires SetsValid(db, db.queued, issued, Last(db.lastVerified)) && Before(ListOf(issued, session), id)
    requires session in db.handover
    ensures id > db.handover[session]
  {
    assert SetValid(db, db.queued, issued, Last(db.lastVerified), session);
  }

  /** The last batch verified, and whether that is it, the next one published is distinct from the one expected,
      for which operations halt, or the next one wasn't reported by our processor yet, for which looking up what is
      expected panics. */
  datatype Verification =
    | Verified(last: Option<nat>)
    | Halted(last: Option<nat>)
    | Panicked(last: Option<nat>)

  /** The batches after `from`, to the last, are published as expected. */
  ghost predicate InARow(onChain: map<nat, InstructionsHash>, expected: map<nat, InstructionsHash>, from: int,
                         last: int) {
    && from <= last
    && forall id: nat :: from < id <= last ==> id in onChain && id in expected && onChain[id] == expected[id]
  }

  /** The row of batches published as expected ends with `m`, as nothing is published after it. */
  ghost predicate RowEnds(onChain: map<nat, InstructionsHash>, db: Db, m: int) {
    InARow(onChain, db.expected, Last(db.lastVerified), m) && m + 1 !in onChain
  }

  lemma OneRowEnd(onChain: map<nat, InstructionsHash>, db: Db, m: int, n: int)
    requires RowEnds(onChain, db, m) && RowEnds(onChain, db, n)
    ensures m == n
  {
    assert m < n ==> m + 1 in onChain;
    assert n < m ==> n + 1 in onChain;
  }

  /** The row doesn't end if it is followed by a batch which isn't expected. */
  lemma NoRowEnd(onChain: map<nat, InstructionsHash>, db: Db, last: int, m: int)
    requires InARow(onChain, db.expected, Last(db.lastVerified), last) && last >= -1 && last + 1 in onChain
    requires last + 1 in db.expected ==> onChain[last + 1] != db.expected[last + 1]
    ensures !RowEnds(onChain, db, m)
  {
    var next: nat := last + 1;
    assert m < last && m >= Last(db.lastVerified) ==> m + 1 in onChain;
    assert m > last && InARow(onChain, db.expected, Last(db.lastVerified), m) ==> next in db.expected;
  }

  /** The pass is committed exactly if all Tributaries needed for it are known. */
  ghost predicate Committed(before: Db, after: Db, issued: Lists, verified: Option<nat>, known: set<Session>) {
    after == if AllKnown(before, issued, Last(before.lastVerified), Last(verified), known)
             then before.(queued := after.queued, lastVerified := verified)
             else before
  }

  /** Whether or not the pass is committed, everything is provided which is released by the batches before the first
      one for which a Tributary isn't known. */
  ghost predicate ProvidedFor(before: Db, provided: Lists, issued: Lists, last: int, known: set<Session>) {
    forall p :: Last(before.lastVerified) <= p <= last && AllKnown(before, issued, Last(before.lastVerified), p, known)
      ==> AllReleased(before, provided, issued, p)
  }

  ghost predicate Passed(before: Db, after: Db, provided: Lists, issued: Lists, m: int, known: set<Session>) {
    && Committed(before, after, issued, if m < 0 then None else Some(m), known)
    && ProvidedFor(before, provided, issued, m, known)
  }

  class Coordinator {
    var db: Db

    /** What was provided to each set's Tributary. */
    var provided: Lists

    /** Every transaction formed for each set, whether the last batch received had one formed, the last batch
        verified at any time, and the batches seen published. */
    ghost var issued: Lists
    ghost var formed: bool
    ghost var reached: int
    ghost var published: map<nat, InstructionsHash>

    ghost predicate Reached()
      reads this
    {
      && Last(db.lastVerified) <= reached <= Last(db.lastReceived)
      && InARow(published, db.expected, -1, reached)
    }

    ghost predicate Valid()
      reads this
    {
      && DbValid(db, issued, Last(db.lastVerified)) && Reached()
      && AllProvided(db, provided, issued, reached)
      && (!formed ==> forall s :: Before(ListOf(issued, s), Last(db.lastReceived)))
    }

    constructor ()
      ensures Valid() && provided == map[]
    {
      db := Db(None, map[], None, map[], map[], map[]);
      provided, issued, formed, reached, published := map[], map[], true, -1, map[];
    }

    /** The processor reports the next batch. */
    method ReceiveBatch(id: nat, hash: InstructionsHash)
      requires Valid() && id == Last(db.lastReceived) + 1
      modifies `db, `formed
      ensures Valid() && !formed && db == old(db).(lastReceived := Some(id), expected := old(db).expected[id := hash])
    {
      ghost var before := db;
      db := db.(lastReceived := Some(id), expected := db.expected[id := hash]);
      formed := false;
      forall s
        ensures SetValid(db, db.queued, issued, Last(db.lastVerified), s)
        ensures Publishing(db, provided, issued, Last(db.lastVerified), reached, [], s)
                       && Before(ListOf(issued, s), id) {
        assert SetValid(before, before.queued, issued, Last(before.lastVerified), s);
        assert Publishing(before, provided, issued, Last(before.lastVerified), reached, [], s);
      }
    }

    /** The first preprocess for a batch, which immediately follows the batch: its transaction is provided, or
        queued until the batches it has to wait for are verified. */
    method ReceivePreprocess(session: Session, block: nat, id: nat)
      requires Valid() && db.lastReceived == Some(id) && !formed
      modifies this
      ensures Valid() && formed && reached == old(reached) && db.lastReceived == old(db).lastReceived
      ensures db.lastVerified == old(db).lastVerified && db.expected == old(db).expected
      ensures Grown(old(provided), provided)
      ensures issued == old(issued)[session := ListOf(old(issued), session) + [BatchTx(block, id)]]
    {
      var intended := BatchTx(block, id);
      assert Before(ListOf(issued, session), id);
      if session in db.handover { HandoverIsPast(db, issued, session, id); }
      FormKeeps(db, provided, issued, reached, session, intended);
      if !Waits(db, session, id) { ProvideGrows(provided, session, intended); }
      Form(session, intended);
      issued, formed := issued[session := ListOf(issued, session) + [intended]], true;
    }

    /** Queueing or providing the transaction for the last batch received. */
    method Form(session: Session, intended: BatchTx)
      requires db.lastReceived == Some(intended.batch)
      requires session in db.handover ==> intended.batch > db.handover[session]
      requires !Waits(db, session, intended.batch) ==> ListOf(db.queued, session) == []
      modifies `db, `provided
      ensures db == AfterForming(old(db), session, intended)
      ensures provided == ProvidedForming(old(db), old(provided), session, intended)
    {
      var queue, txn := Withhold(db, session, db.lastReceived.value);
      var queued := ListOf(txn.queued, session);
      if queue {
        txn := txn.(queued := txn.queued[session := queued + [intended]]);
      } else {
        // The queue taken before this transaction is empty
        assert queued == [];
        txn := txn.(queued := txn.queued - {session});
        provided := Provide(provided, session, intended);
      }
      db := txn;
    }

    /** `verify_published_batches`: the batches published in a row as expected, and what ends the row. */
    method VerifyPublished(onChain: map<nat, InstructionsHash>) returns (r: Verification)
      requires Valid()
      ensures InARow(onChain, db.expected, Last(db.lastVerified), Last(r.last))
      ensures r.Verified? <==> Last(r.last) + 1 !in onChain
      ensures r.Halted? ==>
                Last(r.last) + 1 in db.expected && onChain[Last(r.last) + 1] != db.expected[Last(r.last) + 1]
      ensures r.Panicked? ==> Last(r.last) + 1 !in db.expected
      ensures Last(r.last) <= Last(db.lastReceived)
    {
      var verified := db.lastVerified;
      var id: nat := if verified.Some? then verified.value + 1 else 0;
      while id in onChain
        invariant id == Last(verified) + 1 && Last(verified) <= Last(db.lastReceived)
        invariant InARow(onChain, db.expected, Last(db.lastVerified), Last(verified))
        decreases Last(db.lastReceived) - id
      {
        if id !in db.expected {
          return Panicked(verified);
        }
        if onChain[id] != db.expected[id] {
          return Halted(verified);
        }
        verified := Some(id);
        id := id + 1;
      }
      r := Verified(verified);
    }

    /** Providing what is to be published, until a set's Tributary isn't known. */
    method Publish(publish: seq<(Session, BatchTx)>, known: set<Session>, ghost to: int) returns (all: bool)
      requires DbValid(db, issued, Last(db.lastVerified)) && AllProvided(db, provided, issued, reached)
      requires Collected(db, issued, Last(db.lastVerified), to, publish) && to <= reached && OnlyPublished(publish, db)
      modifies `provided
      ensures AllProvided(db, provided, issued, reached) && Grown(old(provided), provided)
      ensures all <==> KnownTo(publish, known, |publish|)
      ensures forall n :: 0 <= n <= |publish| && KnownTo(publish, known, n) ==>
                AllPublishing(db, provided, issued, Last(db.lastVerified), reached, publish[..n])
    {
      ghost var from := Last(db.lastVerified);
      for j := 0 to |publish|
        invariant AllPublishing(db, provided, issued, from, reached, publish[..j])
        invariant KnownTo(publish, known, j) && Grown(old(provided), provided)
      {
        var (session, tx) := publish[j];
        if session !in known {
          FewerPublished(db, provided, issued, from, reached, publish, j);
          return false;
        }
        AllPublishOne(db, provided, issued, from, to, reached, publish, j);
        provided := Provide(provided, session, tx);
      }
      FewerPublished(db, provided, issued, from, reached, publish, |publish|);
      all := true;
    }

    /** Publishing what the batches newly verified release, and committing to it if all of it was. */
    method Advance(start: nat, verified: Option<nat>, known: set<Session>)
      requires DbValid(db, issued, Last(db.lastVerified)) && AllProvided(db, provided, issued, reached)
      requires start - 1 == Last(db.lastVerified) <= Last(verified) <= reached
      modifies `db, `provided
      ensures DbValid(db, issued, Last(db.lastVerified)) && AllProvided(db, provided, issued, reached)
      ensures Committed(old(db), db, issued, verified, known) && Grown(old(provided), provided)
      ensures ProvidedFor(old(db), provided, issued, Last(verified), known)
    {
      var queued, publish := ReleaseAll(db, start, Last(verified), issued);
      assert publish[..|publish|] == publish;
      KnownIffReleased(db, issued, start - 1, Last(verified), publish, |publish|, known);
      var all := Publish(publish, known, Last(verified));
      EachReleased(db, provided, issued, reached, publish, Last(verified), known);
      if all {
        CommitKeeps(db, queued, verified, provided, issued, reached, publish);
        db := db.(queued := queued, lastVerified := verified);
      }
    }

    /** The pass verifying published batches, whatever is published. If it halts or panics, nothing changes. If a
        set's Tributary isn't known yet, nothing it verified is committed, although what it provided until then stays
        provided. */
    method VerifyPass(onChain: map<nat, InstructionsHash>, known: set<Session>)
      requires Valid()
      requires forall id :: id in published ==> id in onChain && onChain[id] == published[id]
      modifies this
      ensures Valid() && reached >= old(reached) && issued == old(issued) && formed == old(formed)
      ensures Grown(old(provided), provided)
      ensures forall m :: RowEnds(onChain, old(db), m) ==> Passed(old(db), db, provided, issued, m, known)
      ensures (forall m :: !RowEnds(onChain, old(db), m)) ==> db == old(db) && provided == old(provided)
    {
      var start := if db.lastVerified.Some? then db.lastVerified.value + 1 else 0;
      var verified := VerifyPublished(onChain);
      if !verified.Verified? {
        forall m ensures !RowEnds(onChain, db, m) { NoRowEnd(onChain, db, Last(verified.last), m); }
        return;
      }
      assert RowEnds(onChain, db, Last(verified.last));
      forall m | RowEnds(onChain, db, m) ensures m == Last(verified.last) {
        OneRowEnd(onChain, db, m, Last(verified.last));
      }
      Proceed(onChain, start, verified.last, known);
    }

    /** The pass, once the batches are verified. */
    method Proceed(onChain: map<nat, InstructionsHash>, start: nat, verified: Option<nat>, known: set<Session>)
      requires Valid() && start - 1 == Last(db.lastVerified) && Last(verified) <= Last(db.lastReceived)
      requires InARow(onChain, db.expected, Last(db.lastVerified), Last(verified))
      requires forall id :: id in published ==> id in onChain && onChain[id] == published[id]
      modifies this
      ensures Valid() && reached >= old(reached) && issued == old(issued) && formed == old(formed)
      ensures Grown(old(provided), provided) && Passed(old(db), db, provided, issued, Last(verified), known)
    {
      Reach(onChain, Last(verified));
      Advance(start, verified, known);
    }

    /** The batches seen published, and the last of them verified. */
    ghost method Reach(onChain: map<nat, InstructionsHash>, last: int)
      requires Valid() && InARow(onChain, db.expected, Last(db.lastVerified), last) && last <= Last(db.lastReceived)
      requires forall id :: id in published ==> id in onChain && onChain[id] == published[id]
      modifies `reached, `published
      ensures Valid() && reached >= last && reached >= old(reached)
    {
      RaiseReached(db, provided, issued, reached, last);
      published := onChain;
      reached := if last > reached then last else reached;
    }
  }

  /** With the first `j` provided, so are fewer; and it is at most those if the next Tributary isn't known. */
  lemma FewerPublished(db: Db, provided: Lists, issued: Lists, from: int, reached: int,
                       publish: seq<(Session, BatchTx)>, j: nat)
    requires j <= |publish| && AllPublishing(db, provided, issued, from, reached, publish[..j])
    ensures forall n :: 0 <= n <= j ==> AllPublishing(db, provided, issued, from, reached, publish[..n])
    ensures AllPublishing(db, provided, issued, from, reached, [])
  {
    forall n, s | 0 <= n <= j ensures Publishing(db, provided, issued, from, reached, publish[..n], s) {
      assert Publishing(db, provided, issued, from, reached, publish[..j], s);
      OfSessionPrefix(publish[..j], n, s);
      assert publish[..j][..n] == publish[..n];
    }
    assert publish[..0] == [];
  }

  /** Once the first of what is to be published is provided, so is everything it is released with. */
  lemma FirstReleased(db: Db, provided: Lists, issued: Lists, reached: int, publish: seq<(Session, BatchTx)>, p: int,
                      known: set<Session>)
    requires FirstCollected(db, issued, Last(db.lastVerified), p, publish) && OnlyPublished(publish, db)
    requires AllKnown(db, issued, Last(db.lastVerified), p, known)
    requires forall n :: 0 <= n <= |publish| && KnownTo(publish, known, n) ==>
               AllPublishing(db, provided, issued, Last(db.lastVerified), reached, publish[..n])
    ensures AllReleased(db, provided, issued, p)
  {
    var from := Last(db.lastVerified);
    var n :| 0 <= n <= |publish| && Collected(db, issued, from, p, publish[..n]);
    KnownIffReleased(db, issued, from, p, publish, n, known);
    forall s | s in db.handover
      ensures Released(p, db.handover[s], |ListOf(issued, s)|) <= |ListOf(provided, s)|
    {
      assert CollectedFor(db, issued, from, p, publish[..n], s);
      assert Publishing(db, provided, issued, from, reached, publish[..n], s);
    }
  }

  lemma EachReleased(db: Db, provided: Lists, issued: Lists, reached: int, publish: seq<(Session, BatchTx)>, last: int,
                     known: set<Session>)
    requires EachFirst(db, issued, Last(db.lastVerified), last, publish) && OnlyPublished(publish, db)
    requires forall n :: 0 <= n <= |publish| && KnownTo(publish, known, n) ==>
               AllPublishing(db, provided, issued, Last(db.lastVerified), reached, publish[..n])
    ensures ProvidedFor(db, provided, issued, last, known)
  {
    forall p | Last(db.lastVerified) <= p <= last && AllKnown(db, issued, Last(db.lastVerified), p, known)
      ensures AllReleased(db, provided, issued, p)
    {
      FirstReleased(db, provided, issued, reached, publish, p, known);
    }
  }

  lemma RaiseReached(db: Db, provided: Lists, issued: Lists, reached: int, last: int)
    requires AllProvided(db, provided, issued, reached)
    ensures AllProvided(db, provided, issued, if last > reached then last else reached)
  {
    var more := if last > reached then last else reached;
    forall s ensures Publishing(db, provided, issued, Last(db.lastVerified), more, [], s) {
      assert Publishing(db, provided, issued, Last(db.lastVerified), reached, [], s);
      if s in db.handover { ReleasedMonotone(reached, more, db.handover[s], |ListOf(issued, s)|); }
    }
  }

  /** With everything to publish provided, the database may say so. */
  lemma CommitKeeps(db: Db, queued: Lists, verified: Option<nat>, provided: Lists, issued: Lists, reached: int,
                    publish: seq<(Session, BatchTx)>)
    requires DbValid(db, issued, Last(db.lastVerified)) && SetsValid(db, queued, issued, Last(verified))
    requires Collected(db, issued, Last(db.lastVerified), Last(verified), publish)
    requires AllPublishing(db, provided, issued, Last(db.lastVerified), reached, publish)
    ensures var after := db.(queued := queued, lastVerified := verified);
            DbValid(after, issued, Last(verified)) && AllProvided(after, provided, issued, reached)
  {
    var after := db.(queued := queued, lastVerified := verified);
    forall s
      ensures SetValid(after, queued, issued, Last(verified), s)
      ensures Publishing(after, provided, issued, Last(verified), reached, [], s)
    {
      assert SetValid(db, queued, issued, Last(verified), s);
      assert CollectedFor(db, issued, Last(db.lastVerified), Last(verified), publish, s);
      assert Publishing(db, provided, issued, Last(db.lastVerified), reached, publish, s);
    }
  }

  // What is provided, in every state

  /** A set's transactions are provided once each, in increasing order, starting with its handover batch; that
      only with every prior batch published as expected, and later ones only with the handover batch too. */
  lemma ProvidedInOrder(c: Coordinator, s: Session)
    requires c.Valid()
    ensures var list := ListOf(c.provided, s);
            && Increasing(list) && list <= ListOf(c.issued, s)
            && (list != [] ==> s in c.db.handover && list[0].batch == c.db.handover[s])
            && (list != [] ==> forall id :: 0 <= id < list[0].batch ==> Published(c, id))
            && (|list| > 1 ==> Published(c, list[0].batch))
  {
    assert SetValid(c.db, c.db.queued, c.issued, Last(c.db.lastVerified), s);
    assert Publishing(c.db, c.provided, c.issued, Last(c.db.lastVerified), c.reached, [], s);
  }

  /** The batch was seen published, and it is the one expected. */
  ghost predicate Published(c: Coordinator, id: nat)
    reads c
  {
    id in c.published && id in c.db.expected && c.published[id] == c.db.expected[id]
  }
}
