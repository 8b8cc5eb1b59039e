/** The processor's signing of batches: attempts, the nonces preprocessed for them, and their use. */
module BatchSigning {
  import opened Wrappers
  import opened Sequences

  type BatchId = nat
  type Index = nat

  datatype Batch = Batch(id: BatchId, block: nat)

  /** A nonce drawn from the OS, no two of which are the same. */
  type Nonce = nat

  datatype Message =
    | BatchPreprocess(id: BatchId, attempt: nat, block: nat, preprocesses: seq<Nonce>)
    | SubstrateShare(id: BatchId, attempt: nat, shares: seq<Nonce>)
    | InvalidParticipant(id: BatchId, attempt: nat, participant: Index)
    | SignedBatch(batch: Batch)

  /** What handling a message yields, if it doesn't panic. */
  datatype Outcome = Nothing | Sends(message: Message) | Panics

  /** What is kept of an attempt once our shares are sent: those, and the other participants signing. */
  datatype Signing = Signing(shares: seq<Nonce>, others: set<Index>)

  /** What completing a signature yields, besides errors for the wrong participants. */
  datatype Completion = Completes | Names(participant: Index) | Fails

  // What signing keeps

  ghost predicate Unused(machines: seq<Nonce>, drawn: nat, consumed: multiset<Nonce>) {
    && (forall k :: 0 <= k < |machines| ==> machines[k] < drawn && machines[k] !in consumed)
    && (forall j, k :: 0 <= j < k < |machines| ==> machines[j] != machines[k])
  }

  ghost predicate Apart(a: seq<Nonce>, b: seq<Nonce>) {
    forall j, k :: 0 <= j < |a| && 0 <= k < |b| ==> a[j] != b[k]
  }

  /** The preprocesses emitted, each with its batch and attempt. */
  ghost predicate EmittedOnce(emitted: seq<(BatchId, nat)>, attempted: set<(BatchId, nat)>) {
    && (forall i :: 0 <= i < |emitted| ==> emitted[i] in attempted)
    && (forall i, j :: 0 <= i < j < |emitted| ==> emitted[i] != emitted[j])
  }

  lemma EmitOnce(emitted: seq<(BatchId, nat)>, attempted: set<(BatchId, nat)>, now: (BatchId, nat))
    requires EmittedOnce(emitted, attempted) && now !in attempted
    ensures EmittedOnce(emitted + [now], attempted + {now})
  {}

  /** The machines' nonces weren't consumed yet, and those consumed were once. */
  ghost predicate MachinesValid(preprocessing: map<BatchId, seq<Nonce>>, keys: nat, drawn: nat,
                                consumed: multiset<Nonce>) {
    && (forall id :: id in preprocessing ==> Unused(preprocessing[id], drawn, consumed) && |preprocessing[id]| == keys)
    && (forall i, j :: i in preprocessing && j in preprocessing && i != j ==> Apart(preprocessing[i], preprocessing[j]))
    && (forall n :: n in consumed ==> n < drawn && consumed[n] == 1)
  }

  /** Consuming the nonces of machines which aren't any of those left. */
  lemma ConsumeKeeps(preprocessing: map<BatchId, seq<Nonce>>, keys: nat, drawn: nat, consumed: multiset<Nonce>,
                     machines: seq<Nonce>, m: nat)
    requires MachinesValid(preprocessing, keys, drawn, consumed) && Unused(machines, drawn, consumed) && m <= |machines|
    requires forall id :: id in preprocessing ==> Apart(preprocessing[id], machines)
    ensures MachinesValid(preprocessing, keys, drawn, consumed + multiset(machines[..m]))
  {
    var after := consumed + multiset(machines[..m]);
    forall n | n in after ensures n < drawn && after[n] == 1 {
      OnceIn(machines[..m], n);
      if n in multiset(machines[..m]) { assert n in machines[..m]; }
    }
    forall id | id in preprocessing ensures Unused(preprocessing[id], drawn, after) {
      forall k | 0 <= k < |preprocessing[id]| ensures preprocessing[id][k] !in after {
        assert preprocessing[id][k] !in machines[..m];
      }
    }
  }

  lemma InsertKeeps(preprocessing: map<BatchId, seq<Nonce>>, keys: nat, drawn: nat, consumed: multiset<Nonce>,
                    id: BatchId, machines: seq<Nonce>)
    requires MachinesValid(preprocessing, keys, drawn, consumed) && Unused(machines, drawn, consumed)
    requires |machines| == keys
    requires forall other :: other in preprocessing ==> Apart(preprocessing[other], machines)
    ensures MachinesValid(preprocessing[id := machines], keys, drawn, consumed)
  {
    var more := preprocessing[id := machines];
    forall i, j | i in more && j in more && i != j ensures Apart(more[i], more[j]) {
      if i == id { assert Apart(preprocessing[j], machines); }
    }
  }

  lemma DropKeeps(preprocessing: map<BatchId, seq<Nonce>>, keys: nat, drawn: nat, consumed: multiset<Nonce>,
                  id: BatchId)
    requires MachinesValid(preprocessing, keys, drawn, consumed)
    ensures MachinesValid(preprocessing - {id}, keys, drawn, consumed)
    ensures id in preprocessing ==>
              && Unused(preprocessing[id], drawn, consumed) && |preprocessing[id]| == keys
              && forall other :: other in preprocessing - {id} ==> Apart(preprocessing[other], preprocessing[id])
  {}

  /** The participants a list of indexes is of. */
  ghost function Members(indexes: seq<Index>): set<Index> {
    set i | 0 <= i < |indexes| :: indexes[i]
  }

  ghost predicate Distinct(indexes: seq<Index>) {
    forall i, j :: 0 <= i < j < |indexes| ==> indexes[i] != indexes[j]
  }

  lemma {:induction false} MembersSize(indexes: seq<Index>)
    requires Distinct(indexes)
    ensures |Members(indexes)| == |indexes|
  {
    if indexes != [] {
      var n := |indexes| - 1;
      MembersSize(indexes[..n]);
      assert forall i :: 0 <= i < n ==> indexes[..n][i] == indexes[i];
      assert Members(indexes) == Members(indexes[..n]) + {indexes[n]};
    }
  }

  /** Our indexes, the threshold and the amount of participants. */
  datatype Holder = Holder(indexes: seq<Index>, t: nat, n: nat) {
    ghost predicate Valid() {
      indexes != [] && Distinct(indexes) && forall i :: 0 <= i < |indexes| ==> indexes[i] <= n
    }

    /** The others a session can be with: none of ours, enough with ours, and all in bounds. */
    ghost predicate MaySignWith(others: set<Index>) {
      && others !! Members(indexes) && |others| + |indexes| >= t
      && forall l :: l in others ==> l <= n
    }

    /** Adding what is ours but a machine's own to what was received, with an assert for each that it isn't there. */
    method Join(received: set<Index>, m: nat) returns (r: Option<set<Index>>)
      requires Valid() && m < |indexes|
      ensures r.None? <==> received * (Members(indexes) - {indexes[m]}) != {}
      ensures r.Some? ==> r.value == received + (Members(indexes) - {indexes[m]})
    {
      var joined := received;
      for i := 0 to |indexes|
        invariant joined == received + (Members(indexes[..i]) - {indexes[m]})
        invariant received !! Members(indexes[..i]) - {indexes[m]}
      {
        assert Members(indexes[..i + 1]) == Members(indexes[..i]) + {indexes[i]} by {
          assert indexes[..i + 1] == indexes[..i] + [indexes[i]];
        }
        if i != m {
          if indexes[i] in joined {
            assert indexes[i] in received && indexes[i] in Members(indexes) - {indexes[m]};
            return None;
          }
          joined := joined + {indexes[i]};
        }
      }
      assert indexes[..|indexes|] == indexes;
      r := Some(joined);
    }

    /** Whether a machine's signing set is refused, with an error the code marks as unreachable. */
    method Refuses(others: set<Index>, m: nat) returns (r: bool)
      requires m < |indexes|
      ensures r <==> |others| + 1 < t || (exists l :: l in others && l > n) || indexes[m] in others
    {
      r := |others| + 1 < t || (exists l :: l in others && l > n) || indexes[m] in others;
    }

    /** Every machine may sign with what was received exactly if any may. */
    method Panics(received: set<Index>, m: nat) returns (r: bool)
      requires Valid() && m < |indexes|
      ensures r <==> !MaySignWith(received)
    {
      var joined := Join(received, m);
      if joined.None? {
        return true;
      }
      JoinedSize(received, m);
      assert forall l :: l in Members(indexes) ==> l <= n;
      r := Refuses(joined.value, m);
    }

    lemma JoinedSize(received: set<Index>, m: nat)
      requires Valid() && m < |indexes| && received !! Members(indexes) - {indexes[m]}
      ensures |received + (Members(indexes) - {indexes[m]})| == |received| + |indexes| - 1
    {
      MembersSize(indexes);
      var ours := Members(indexes);
      assert indexes[m] in ours && |ours - {indexes[m]}| == |ours| - 1;
    }
  }

  /** The loop over the machines: whether one panics, how many signed, and whether the last of them failed. */
  method SignUntil(holder: Holder, machines: seq<Nonce>, received: set<Index>, faulty: Option<(nat, Index)>)
    returns (panics: bool, used: nat, failed: bool)
    requires holder.Valid() && |machines| == |holder.indexes|
    ensures panics <==> !holder.MaySignWith(received)
    ensures panics ==> used == 0
    ensures !panics ==> (failed <==> faulty.Some? && faulty.value.0 < |machines|)
    ensures !panics ==> used == if failed then faulty.value.0 + 1 else |machines|
  {
    used := 0;
    while used < |machines|
      invariant used <= |machines| && (faulty.Some? ==> used <= faulty.value.0)
      invariant used > 0 ==> holder.MaySignWith(received)
    {
      panics := holder.Panics(received, used);
      if panics {
        return true, used, false;
      }
      used := used + 1;
      if faulty.Some? && faulty.value.0 == used - 1 {
        return false, used, true;
      }
    }
    panics, failed := false, false;
  }

  ghost predicate IsPreprocess(o: Outcome) { o.Sends? && o.message.BatchPreprocess? }

  /** The batch and attempt a preprocess is for. */
  ghost function AttemptOf(o: Outcome): (BatchId, nat)
    requires IsPreprocess(o)
  {
    (o.message.id, o.message.attempt)
  }

  ghost predicate IsShare(o: Outcome) { o.Sends? && o.message.SubstrateShare? }

  ghost predicate IsSigned(o: Outcome) { o.Sends? && o.message.SignedBatch? }

  /** The nonces behind the shares sent were consumed, besides those already. */
  ghost predicate ConsumedBy(o: Outcome, before: multiset<Nonce>, after: multiset<Nonce>) {
    before + (if IsShare(o) then multiset(o.message.shares) else multiset{}) <= after
  }

  class BatchSigner {
    /** The keys held, with as many machines for every attempt. */
    const holder: Holder
    const keys: nat

    var signable: map<BatchId, Batch>
    var attempt: map<BatchId, nat>
    var preprocessing: map<BatchId, seq<Nonce>>
    var signing: map<BatchId, Signing>

    // The database, to which every step is committed at once
    var completed: set<BatchId>
    var attempted: set<(BatchId, nat)>
    var signed: map<nat, Batch>

    /** The OS's source of nonces, which doesn't repeat any. */
    var drawn: nat

    /** The nonces a share was produced with, and the preprocesses sent. */
    ghost var consumed: multiset<Nonce>
    ghost var emitted: seq<(BatchId, nat)>

    ghost predicate Valid()
      reads this
    {
      && holder.Valid() && keys == |holder.indexes| && MachinesValid(preprocessing, keys, drawn, consumed)
      && preprocessing.Keys !! signing.Keys && preprocessing.Keys + signing.Keys <= attempt.Keys <= signable.Keys
      && signable.Keys !! completed && (forall id :: id in signable ==> signable[id].id == id)
      && (forall id :: id in signing ==> signing[id].others !! Members(holder.indexes))
      && EmittedOnce(emitted, attempted)
    }

    constructor (holder: Holder)
      requires holder.Valid()
      ensures Valid() && emitted == [] && consumed == multiset{} && this.holder == holder
    {
      this.holder, keys := holder, |holder.indexes|;
      signable, attempt, preprocessing, signing := map[], map[], map[], map[];
      completed, attempted, signed := {}, {}, map[];
      drawn, consumed, emitted := 0, multiset{}, [];
    }

    /** A reboot: only the database remains. */
    method Reboot()
      requires Valid()
      modifies `signable, `attempt, `preprocessing, `signing
      ensures Valid() && signable == map[] && attempt == map[] && preprocessing == map[] && signing == map[]
    {
      signable, attempt, preprocessing, signing := map[], map[], map[], map[];
    }

    /** It is the attempt the batch is at. */
    ghost predicate Ongoing(id: BatchId, number: nat)
      reads this
    {
      id in attempt && attempt[id] == number
    }

    /** `verify_id` */
    method VerifyId(id: BatchId, number: nat) returns (r: bool)
      ensures r == Ongoing(id, number)
    {
      if id !in attempt {
        return false;
      }
      r := attempt[id] == number;
    }

    /** `preprocess` of a machine per key, for which nonces are drawn. */
    method Draw() returns (machines: seq<Nonce>)
      requires Valid()
      modifies `drawn
      ensures Valid() && |machines| == keys && Unused(machines, drawn, consumed)
      ensures forall id :: id in preprocessing ==> Apart(preprocessing[id], machines)
      ensures drawn == old(drawn) + keys
    {
      var start := drawn;
      machines := seq(keys, k requires 0 <= k < keys => start + k);
      drawn := drawn + keys;
    }

    /** Whether the attempt is started, and whether a preprocess is sent for it. */
    ghost predicate Startable(id: BatchId, number: nat)
      reads this
    {
      id !in completed && id in signable && (id in attempt ==> attempt[id] < number)
    }

    ghost predicate Attemptable(id: BatchId, number: nat)
      reads this
    {
      Startable(id, number) && (id, number) !in attempted
    }

    /** `attempt`: a preprocess is sent at most once for every batch and attempt. */
    method Attempt(id: BatchId, number: nat) returns (r: Outcome)
      requires Valid()
      modifies this
      ensures Valid() && signable == old(signable) && completed == old(completed) && consumed == old(consumed)
      ensures signed == old(signed)
      ensures r.Sends? <==> old(Attemptable(id, number))
      ensures r.Sends? ==>
                && id in preprocessing
                && r.message == BatchPreprocess(id, number, signable[id].block, preprocessing[id])
                && emitted == old(emitted) + [(id, number)]
                && attempted == old(attempted) + {(id, number)}
      ensures !r.Sends? ==> r.Nothing? && emitted == old(emitted) && attempted == old(attempted)
      ensures attempt == if old(Startable(id, number)) then old(attempt)[id := number] else old(attempt)
      ensures signing == if old(Startable(id, number)) then old(signing) - {id} else old(signing)
      ensures preprocessing == if r.Sends? then old(preprocessing)[id := r.message.preprocesses]
                               else if old(Startable(id, number)) then old(preprocessing) - {id}
                               else old(preprocessing)
    {
      if id in completed {
        return Nothing;
      }
      if id in attempt && attempt[id] >= number {
        return Nothing;
      }
      if id !in signable {
        return Nothing;
      }
      r := Start(id, number);
    }

    /** Starting an attempt, for which a preprocess is sent unless it already was. */
    method Start(id: BatchId, number: nat) returns (r: Outcome)
      requires Valid() && id in signable
      modifies `preprocessing, `signing, `attempt, `attempted, `drawn, `emitted
      ensures Valid() && attempt == old(attempt)[id := number] && signing == old(signing) - {id}
      ensures r.Nothing? || r.Sends?
      ensures r.Nothing? <==> (id, number) in old(attempted)
      ensures r.Nothing? ==> emitted == old(emitted) && attempted == old(attempted)
      ensures r.Nothing? ==> preprocessing == old(preprocessing) - {id}
      ensures r.Sends? ==> emitted == old(emitted) + [(id, number)] && attempted == old(attempted) + {(id, number)}
      ensures r.Sends? ==> r.message.BatchPreprocess?
      ensures r.Sends? ==> preprocessing == old(preprocessing)[id := r.message.preprocesses]
      ensures r.Sends? ==> r.message == BatchPreprocess(id, number, signable[id].block, preprocessing[id])
    {
      ghost var before := preprocessing;
      Restart(id, number);
      if (id, number) in attempted {
        return Nothing;
      }
      var machines := Preprocess(id, number);
      assert (before - {id})[id := machines] == before[id := machines];
      r := Sends(BatchPreprocess(id, number, signable[id].block, machines));
    }

    /** Any existing machines are deleted, and the attempt's number updated. */
    method Restart(id: BatchId, number: nat)
      requires Valid() && id in signable
      modifies `preprocessing, `signing, `attempt
      ensures Valid() && attempt == old(attempt)[id := number]
      ensures preprocessing == old(preprocessing) - {id} && signing == old(signing) - {id}
    {
      preprocessing, signing := preprocessing - {id}, signing - {id};
      attempt := attempt[id := number];
    }

    /** New machines, for an attempt not made before. */
    method Preprocess(id: BatchId, number: nat) returns (machines: seq<Nonce>)
      requires Valid() && Ongoing(id, number) && id !in preprocessing && id !in signing && (id, number) !in attempted
      modifies `attempted, `drawn, `preprocessing, `emitted
      ensures Valid() && attempted == old(attempted) + {(id, number)} && emitted == old(emitted) + [(id, number)]
      ensures preprocessing == old(preprocessing)[id := machines]
    {
      EmitOnce(emitted, attempted, (id, number));
      attempted, emitted := attempted + {(id, number)}, emitted + [(id, number)];
      machines := Draw();
      InsertKeeps(preprocessing, keys, drawn, consumed, id, machines);
      preprocessing := preprocessing[id := machines];
    }

    /** `sign`: a batch to sign, which is attempted for the first time. */
    method Sign(batch: Batch) returns (r: Outcome)
      requires Valid()
      modifies this
      ensures Valid() && consumed == old(consumed)
      ensures batch.id in old(completed) ==> r.Nothing? && signable == old(signable) && emitted == old(emitted)
      ensures batch.id !in old(completed) ==> signable == old(signable)[batch.id := batch]
      ensures r.Sends? <==> batch.id !in old(completed) && batch.id !in old(attempt) && (batch.id, 0) !in old(attempted)
      ensures r.Sends? ==> r.message.BatchPreprocess? && r.message.id == batch.id && r.message.attempt == 0
      ensures emitted == if r.Sends? then old(emitted) + [(batch.id, 0)] else old(emitted)
      ensures completed == old(completed) && signed == old(signed) && signing == old(signing)
      ensures attempted == if r.Sends? then old(attempted) + {(batch.id, 0)} else old(attempted)
      ensures attempt == if batch.id in old(completed) || batch.id in old(attempt) then old(attempt)
                         else old(attempt)[batch.id := 0]
      ensures preprocessing == if r.Sends? then old(preprocessing)[batch.id := r.message.preprocesses]
                               else old(preprocessing)
    {
      if batch.id in completed {
        return Nothing;
      }
      signable := signable[batch.id := batch];
      r := Attempt(batch.id, 0);
    }

    /** Signing with every machine: each one's nonce is consumed, until one names a faulty participant. */
    method SignAll(id: BatchId, number: nat, machines: seq<Nonce>, received: set<Index>, faulty: Option<(nat, Index)>)
      returns (r: Option<Result<seq<Nonce>, Message>>)
      requires Valid() && |machines| == keys && Unused(machines, drawn, consumed)
      requires forall other :: other in preprocessing ==> Apart(preprocessing[other], machines)
      modifies `consumed
      ensures Valid() && old(consumed) <= consumed
      ensures r.None? <==> !holder.MaySignWith(received)
      ensures r.None? ==> consumed == old(consumed)
      ensures r.Some? ==> (r.value.Ok? <==> faulty.None? || faulty.value.0 >= keys)
      ensures r.Some? && r.value.Ok? ==> r.value.value == machines && consumed == old(consumed) + multiset(machines)
      ensures r.Some? && r.value.Err? ==> r.value.error == InvalidParticipant(id, number, faulty.value.1)
    {
      var panics, used, failed := SignUntil(holder, machines, received, faulty);
      if panics {
        return None;
      }
      ConsumeKeeps(preprocessing, keys, drawn, consumed, machines, used);
      consumed := consumed + multiset(machines[..used]);
      assert machines[..|machines|] == machines;
      r := Some(if failed then Err(InvalidParticipant(id, number, faulty.value.1)) else Ok(machines));
    }

    /** The attempt is current and its machines weren't used yet. */
    ghost predicate Awaiting(id: BatchId, number: nat)
      reads this
    {
      Ongoing(id, number) && id in preprocessing
    }

    /** Handling the preprocesses received from other participants. `unreadable` is the first whose preprocess can't
        be read, and `faulty` the first machine signing fails with, with whom it names. It panics exactly for
        participants the coordinator is trusted not to send. */
    method HandlePreprocesses(id: BatchId, number: nat, received: set<Index>, unreadable: Option<Index>,
                              faulty: Option<(nat, Index)>)
      returns (r: Outcome)
      requires Valid()
      modifies `preprocessing, `signing, `consumed
      ensures Valid() && ConsumedBy(r, old(consumed), consumed)
      ensures r.Nothing? <==> !old(Awaiting(id, number))
      ensures r.Nothing? ==> preprocessing == old(preprocessing) && signing == old(signing) && consumed == old(consumed)
      ensures r.Panics? <==> old(Awaiting(id, number)) && unreadable.None? && !holder.MaySignWith(received)
      ensures !r.Nothing? ==> preprocessing == old(preprocessing) - {id}
      ensures !IsShare(r) ==> signing == old(signing)
      ensures IsShare(r) <==>
                && old(Awaiting(id, number)) && unreadable.None? && holder.MaySignWith(received)
                && (faulty.None? || faulty.value.0 >= keys)
      ensures IsShare(r) ==>
                && r.message == SubstrateShare(id, number, old(preprocessing)[id])
                && signing == old(signing)[id := Signing(old(preprocessing)[id], received)]
      ensures r.Sends? && !IsShare(r) ==>
                var named := if unreadable.Some? then unreadable.value else faulty.value.1;
                r.message == InvalidParticipant(id, number, named)
    {
      var current := VerifyId(id, number);
      if !current {
        return Nothing;
      }
      if id !in preprocessing {
        return Nothing;
      }
      var machines := preprocessing[id];
      DropKeeps(preprocessing, keys, drawn, consumed, id);
      preprocessing := preprocessing - {id};
      if unreadable.Some? {
        return Sends(InvalidParticipant(id, number, unreadable.value));
      }
      r := Produce(id, number, machines, received, faulty);
    }

    /** A share from every machine, if none of them fails. */
    method Produce(id: BatchId, number: nat, machines: seq<Nonce>, received: set<Index>, faulty: Option<(nat, Index)>)
      returns (r: Outcome)
      requires Valid() && id in attempt && id !in preprocessing && |machines| == keys
      requires Unused(machines, drawn, consumed)
      requires forall other :: other in preprocessing ==> Apart(preprocessing[other], machines)
      modifies `signing, `consumed
      ensures Valid() && ConsumedBy(r, old(consumed), consumed)
      ensures !r.Nothing? && (r.Panics? <==> !holder.MaySignWith(received))
      ensures IsShare(r) <==> holder.MaySignWith(received) && (faulty.None? || faulty.value.0 >= keys)
      ensures IsShare(r) ==>
                && r.message == SubstrateShare(id, number, machines)
                && signing == old(signing)[id := Signing(machines, received)]
      ensures r.Sends? && !IsShare(r) ==>
                r.message == InvalidParticipant(id, number, faulty.value.1)
      ensures !IsShare(r) ==> signing == old(signing)
    {
      // The message signed is the batch's
      assert id in signable;
      var shares := SignAll(id, number, machines, received, faulty);
      if shares.None? {
        return Panics;
      }
      if shares.value.Err? {
        return Sends(shares.value.error);
      }
      signing := signing[id := Signing(machines, received)];
      r := Sends(SubstrateShare(id, number, machines));
    }

    /** Handling the shares received from other participants. It panics exactly for an attempt whose preprocesses
        weren't handled, for participants who aren't those signing, and for a signature which isn't valid without
        anyone to name. */
    method HandleShares(id: BatchId, number: nat, received: set<Index>, unreadable: Option<Index>,
                        completion: Completion)
      returns (r: Outcome)
      requires Valid()
      modifies `signable, `attempt, `signing, `completed, `signed
      ensures Valid()
      ensures r.Nothing? <==> !old(Ongoing(id, number)) || (id !in old(signing) && id !in old(preprocessing))
      ensures r.Panics? <==>
                && old(Ongoing(id, number))
                && (id in old(preprocessing) ||
                    (id in old(signing) && unreadable.None? &&
                     (received != old(signing)[id].others || completion.Fails?)))
      ensures r.Sends? ==>
                r.message == if unreadable.Some? then InvalidParticipant(id, number, unreadable.value)
                             else if completion.Names? then InvalidParticipant(id, number, completion.participant)
                             else SignedBatch(old(signable)[id])
      ensures signing == if old(Ongoing(id, number)) then old(signing) - {id} else old(signing)
      ensures IsSigned(r) ==> signable == old(signable) - {id} && attempt == old(attempt) - {id}
      ensures IsSigned(r) ==> completed == old(completed) + {id}
      ensures IsSigned(r) ==> signed == old(signed)[old(signable)[id].block := old(signable)[id]]
      ensures !IsSigned(r) ==> signable == old(signable) && attempt == old(attempt)
      ensures !IsSigned(r) ==> completed == old(completed) && signed == old(signed)
    {
      var current := VerifyId(id, number);
      if !current {
        return Nothing;
      }
      if id !in signing {
        if id in preprocessing {
          return Panics;
        }
        return Nothing;
      }
      var others := signing[id].others;
      signing := signing - {id};
      if unreadable.Some? {
        return Sends(InvalidParticipant(id, number, unreadable.value));
      }
      var matches := Matches(received, others);
      if !matches || completion.Fails? {
        return Panics;
      }
      if completion.Names? {
        return Sends(InvalidParticipant(id, number, completion.participant));
      }
      var batch := Finish(id);
      r := Sends(SignedBatch(batch));
    }

    /** Joining our other shares to those received, for the first machine to complete with: exactly the shares of those
        signing besides it are accepted. */
    method Matches(received: set<Index>, others: set<Index>) returns (r: bool)
      requires holder.Valid() && others !! Members(holder.indexes)
      ensures r <==> received == others
    {
      var joined := holder.Join(received, 0);
      if joined.None? {
        return false;
      }
      var included := others;
      for i := 1 to |holder.indexes|
        invariant included == others + (Members(holder.indexes[..i]) - {holder.indexes[0]})
      {
        assert Members(holder.indexes[..i + 1]) == Members(holder.indexes[..i]) + {holder.indexes[i]} by {
          assert holder.indexes[..i + 1] == holder.indexes[..i] + [holder.indexes[i]];
        }
        included := included + {holder.indexes[i]};
      }
      assert holder.indexes[..|holder.indexes|] == holder.indexes;
      ghost var tail := Members(holder.indexes) - {holder.indexes[0]};
      assert holder.indexes[0] in Members(holder.indexes);
      r := joined.value == included;
      if r {
        forall l ensures l in received <==> l in others {
          assert l in received + tail <==> l in others + tail;
        }
      }
    }

    /** The batch is signed. */
    method Finish(id: BatchId) returns (batch: Batch)
      requires Valid() && id in attempt && id !in signing && id !in preprocessing
      modifies `signable, `signed, `completed, `attempt
      ensures Valid() && id in old(signable) && batch == old(signable)[id] && signable == old(signable) - {id}
      ensures attempt == old(attempt) - {id}
      ensures completed == old(completed) + {id} && signed == old(signed)[batch.block := batch]
    {
      batch := signable[id];
      signable := signable - {id};
      signed := signed[batch.block := batch];
      completed := completed + {id};
      // The asserts on completion
      assert id in attempt;
      attempt := attempt - {id};
      assert id !in preprocessing;
      assert id !in signing;
    }

    /** `batch_signed`: Substrate acknowledged the batch. */
    method BatchSigned(id: BatchId)
      requires Valid()
      modifies `signable, `attempt, `preprocessing, `signing, `completed
      ensures Valid() && completed == old(completed) + {id}
      ensures signable == old(signable) - {id} && attempt == old(attempt) - {id}
      ensures preprocessing == old(preprocessing) - {id} && signing == old(signing) - {id}
    {
      completed := completed + {id};
      signable, attempt := signable - {id}, attempt - {id};
      preprocessing, signing := preprocessing - {id}, signing - {id};
    }
  }

  // Every sequence of messages and reboots

  datatype Event =
    | ToSign(batch: Batch)
    | Reattempt(id: BatchId, attempt: nat)
    | Preprocesses(id: BatchId, attempt: nat, from: set<Index>, unreadable: Option<Index>, faulty: Option<(nat, Index)>)
    | Shares(id: BatchId, attempt: nat, from: set<Index>, unreadable: Option<Index>, completion: Completion)
    | Acknowledged(id: BatchId)
    | Rebooted

  /** The batches and attempts a preprocess was sent for. */
  ghost function PreprocessesOf(outcomes: seq<Outcome>): seq<(BatchId, nat)> {
    if outcomes == [] then []
    else
      var last := outcomes[|outcomes| - 1];
      PreprocessesOf(outcomes[..|outcomes| - 1]) + if IsPreprocess(last) then [AttemptOf(last)] else []
  }

  /** The nonces shares were sent for. */
  ghost function NoncesOf(outcomes: seq<Outcome>): multiset<Nonce> {
    if outcomes == [] then multiset{}
    else
      var last := outcomes[|outcomes| - 1];
      NoncesOf(outcomes[..|outcomes| - 1]) + if IsShare(last) then multiset(last.message.shares) else multiset{}
  }

  lemma OutcomesPush(outcomes: seq<Outcome>, o: Outcome)
    ensures PreprocessesOf(outcomes + [o]) == PreprocessesOf(outcomes) + if IsPreprocess(o) then [AttemptOf(o)] else []
    ensures NoncesOf(outcomes + [o]) ==
              NoncesOf(outcomes) + if IsShare(o) then multiset(o.message.shares) else multiset{}
  {
    assert (outcomes + [o])[..|outcomes|] == outcomes;
  }

  lemma {:induction false} PreprocessIn(outcomes: seq<Outcome>, i: nat)
    requires i < |outcomes| && IsPreprocess(outcomes[i])
    ensures AttemptOf(outcomes[i]) in PreprocessesOf(outcomes)
  {
    if i < |outcomes| - 1 { PreprocessIn(outcomes[..|outcomes| - 1], i); }
  }

  /** No two preprocesses are sent for one batch and attempt. */
  lemma {:induction false} PreprocessesOnce(outcomes: seq<Outcome>, i: nat, j: nat)
    requires forall a, b :: 0 <= a < b < |PreprocessesOf(outcomes)| ==>
              PreprocessesOf(outcomes)[a] != PreprocessesOf(outcomes)[b]
    requires i < j < |outcomes| && IsPreprocess(outcomes[i]) && IsPreprocess(outcomes[j])
    ensures AttemptOf(outcomes[i]) != AttemptOf(outcomes[j])
  {
    var rest := outcomes[..|outcomes| - 1];
    var few, all := PreprocessesOf(rest), PreprocessesOf(outcomes);
    assert few <= all;
    if j < |outcomes| - 1 {
      forall a, b | 0 <= a < b < |few| ensures few[a] != few[b] { assert few[a] == all[a] && few[b] == all[b]; }
      PreprocessesOnce(rest, i, j);
    } else {
      PreprocessIn(rest, i);
      var a :| 0 <= a < |few| && few[a] == AttemptOf(outcomes[i]);
      assert all == few + [AttemptOf(outcomes[j])];
      assert all[a] != all[|few|];
    }
  }

  lemma {:induction false} ShareIn(outcomes: seq<Outcome>, i: nat)
    requires i < |outcomes| && IsShare(outcomes[i])
    ensures multiset(outcomes[i].message.shares) <= NoncesOf(outcomes)
  {
    if i < |outcomes| - 1 { ShareIn(outcomes[..|outcomes| - 1], i); }
  }

  /** No nonce is behind two shares. */
  lemma {:induction false} SharesApart(outcomes: seq<Outcome>, i: nat, j: nat)
    requires forall n :: NoncesOf(outcomes)[n] <= 1
    requires i < j < |outcomes| && IsShare(outcomes[i]) && IsShare(outcomes[j])
    ensures Apart(outcomes[i].message.shares, outcomes[j].message.shares)
  {
    var rest := outcomes[..|outcomes| - 1];
    assert NoncesOf(rest) <= NoncesOf(outcomes);
    if j < |outcomes| - 1 {
      SharesApart(rest, i, j);
    } else {
      ShareIn(rest, i);
      var a, b := outcomes[i].message.shares, outcomes[j].message.shares;
      assert NoncesOf(outcomes) == NoncesOf(rest) + multiset(b);
      forall x, y | 0 <= x < |a| && 0 <= y < |b| ensures a[x] != b[y] {
        assert a[x] in multiset(a) && b[y] in multiset(b);
        assert NoncesOf(outcomes)[a[x]] >= 1 + multiset(b)[a[x]];
      }
    }
  }

  method Step(signer: BatchSigner, event: Event) returns (o: Outcome)
    requires signer.Valid()
    modifies signer
    ensures signer.Valid()
    ensures signer.emitted == old(signer.emitted) + if IsPreprocess(o) then [AttemptOf(o)] else []
    ensures ConsumedBy(o, old(signer.consumed), signer.consumed)
  {
    match event {
      case ToSign(batch) => o := signer.Sign(batch);
      case Reattempt(id, attempt) => o := signer.Attempt(id, attempt);
      case Preprocesses(id, attempt, from, unreadable, faulty) =>
        o := signer.HandlePreprocesses(id, attempt, from, unreadable, faulty);
      case Shares(id, attempt, from, unreadable, completion) =>
        o := signer.HandleShares(id, attempt, from, unreadable, completion);
      case Acknowledged(id) => signer.BatchSigned(id); o := Nothing;
      case Rebooted => signer.Reboot(); o := Nothing;
    }
    if o.Panics? {
      signer.Reboot();
    }
  }

  /** Whatever is received in whichever order, and whenever it reboots or panics: at most one preprocess is sent
      for every batch and attempt, and no nonce is ever behind two of the shares sent. */
  method Run(holder: Holder, events: seq<Event>) returns (outcomes: seq<Outcome>)
    requires holder.Valid()
    ensures |outcomes| == |events|
    ensures forall i, j :: 0 <= i < j < |outcomes| && IsPreprocess(outcomes[i]) && IsPreprocess(outcomes[j]) ==>
              AttemptOf(outcomes[i]) != AttemptOf(outcomes[j])
    ensures forall i, j :: 0 <= i < j < |outcomes| && IsShare(outcomes[i]) && IsShare(outcomes[j]) ==>
              Apart(outcomes[i].message.shares, outcomes[j].message.shares)
  {
    var signer := new BatchSigner(holder);
    outcomes := [];
    for k := 0 to |events|
      invariant fresh(signer) && signer.Valid() && |outcomes| == k
      invariant signer.emitted == PreprocessesOf(outcomes) && NoncesOf(outcomes) <= signer.consumed
    {
      var o := Step(signer, events[k]);
      OutcomesPush(outcomes, o);
      outcomes := outcomes + [o];
    }
    forall i, j | 0 <= i < j < |outcomes| && IsPreprocess(outcomes[i]) && IsPreprocess(outcomes[j])
      ensures AttemptOf(outcomes[i]) != AttemptOf(outcomes[j])
    {
      PreprocessesOnce(outcomes, i, j);
    }
    forall n ensures NoncesOf(outcomes)[n] <= 1 { assert NoncesOf(outcomes)[n] <= signer.consumed[n]; }
    forall i, j | 0 <= i < j < |outcomes| && IsShare(outcomes[i]) && IsShare(outcomes[j])
      ensures Apart(outcomes[i].message.shares, outcomes[j].message.shares)
    {
      SharesApart(outcomes, i, j);
    }
  }
}
