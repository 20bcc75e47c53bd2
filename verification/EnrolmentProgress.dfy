/** That concurrent enrolment gets somewhere: what the tables allow, and no other transaction stands in the
    way of, runs to its commit, and what the commit leaves is written out row by row. And when a statement
    fails, in terms of the tables. */
module EnrolmentProgress {
  import opened Common
  import opened Addressing
  import opened Tables
  import opened Enrolment
  import Allocator

  // ----- when a statement fails -----

  /** Another row of the table has this public key. */
  ghost predicate KeyTextTaken(t: Snapshot, publicKey: string) {
    exists d :: d in t.devices && t.devices[d].publicKey == publicKey
  }

  ghost predicate SecretTaken(t: Snapshot, secret: string) {
    exists d :: d in t.tokens && t.tokens[d] == HashToken(secret)
  }

  /** The tables refuse what transaction tx is about to do. */
  ghost predicate Refused(t: Snapshot, tx: Tx, candidate: Addr) {
    match tx.phase
    case Consuming =>
      tx.job.Creating? && tx.job.via.Some? &&
      var k := tx.job.via.value.key;
      k in t.keys &&
      (|| t.keys[k].revokedAt.Some?
       || (t.keys[k].expiresAt.Some? && tx.job.now >= t.keys[k].expiresAt.value)
       || (t.keys[k].maxUses > 0 && |EnrolledBy(t, k)| >= t.keys[k].maxUses))
    case Inserting(_, attempt, _) => candidate in t.allocations && attempt + 1 >= 32
    case AddingDevice => tx.job.Creating? && KeyTextTaken(t, tx.job.publicKey)
    case AddingToken => tx.job.Creating? && tx.job.via.Some? && SecretTaken(t, tx.job.via.value.secret)
    case Marking => tx.job.id in t.devices && t.devices[tx.job.id].revokedAt.Some?
    case _ => false
  }

  lemma ConsumingFails(p: Pools, t: Snapshot, tx: Tx, candidate: Addr)
    requires Consistent(p, t) && CreatingOk(p, t, tx) && tx.phase.Consuming?
    ensures Exec(p, t, tx, candidate).None? <==> Refused(t, tx, candidate)
  {
    var k := tx.job.via.value.key;
    assert View(t, tx.writes).keys == t.keys;
    assert KeyAccounted(t, k);
    RedeemableIs(t, k, tx.job.now);
  }

  lemma CheckingWorks(p: Pools, t: Snapshot, tx: Tx, candidate: Addr)
    requires PoolsWellFormed(p) && Addressed(p, t) && CreatingOk(p, t, tx) && tx.phase.Checking?
    ensures Exec(p, t, tx, candidate).Some?
  {
    assert View(t, tx.writes).allocations == t.allocations;
    assert forall a :: a in t.allocations ==> AllocationOwned(t, a);
    assert Owned(View(t, tx.writes), tx.job.id) == {};
  }

  lemma InsertingFails(p: Pools, t: Snapshot, tx: Tx, candidate: Addr)
    requires PoolsWellFormed(p) && CreatingOk(p, t, tx) && tx.phase.Inserting?
    requires Usable(PoolOf(p, tx.phase.family), candidate)
    ensures Exec(p, t, tx, candidate).None? <==> Refused(t, tx, candidate)
  {
    assert candidate !in tx.writes.allocations;
  }

  lemma AddingDeviceFails(p: Pools, t: Snapshot, tx: Tx, candidate: Addr)
    requires PoolsWellFormed(p) && CreatingOk(p, t, tx) && tx.phase.AddingDevice?
    ensures Exec(p, t, tx, candidate).None? <==> Refused(t, tx, candidate)
  {
    assert View(t, tx.writes).devices == t.devices;
  }

  lemma AddingTokenFails(p: Pools, t: Snapshot, tx: Tx, candidate: Addr)
    requires PoolsWellFormed(p) && Credentialed(t) && CreatingOk(p, t, tx) && tx.phase.AddingToken?
    ensures Exec(p, t, tx, candidate).None? <==> Refused(t, tx, candidate)
  {
    assert View(t, tx.writes).tokens == t.tokens;
    assert tx.job.id in t.tokens <==> Enrolled(t, tx.job.id);
  }

  lemma RevokingFails(p: Pools, t: Snapshot, tx: Tx, candidate: Addr)
    requires PoolsWellFormed(p) && RevokingOk(p, t, tx) && !tx.phase.Done?
    ensures Exec(p, t, tx, candidate).None? <==> Refused(t, tx, candidate)
  {
    assert !Marked(tx) ==> View(t, tx.writes).devices == t.devices;
  }

  lemma ExecFails(p: Pools, t: Snapshot, tx: Tx, candidate: Addr)
    requires Consistent(p, t) && TxOk(p, t, tx) && !tx.phase.Done? && CandidateFits(p, tx, candidate)
    ensures Exec(p, t, tx, candidate).None? <==> Refused(t, tx, candidate)
  {
    if tx.job.Revoking? {
      RevokingFails(p, t, tx, candidate);
    } else {
      match tx.phase
      case Consuming => ConsumingFails(p, t, tx, candidate);
      case Checking => CheckingWorks(p, t, tx, candidate);
      case Reading(_, _, _) =>
      case Inserting(_, _, _) =>
        CandidateIsUsable(p, tx, candidate);
        InsertingFails(p, t, tx, candidate);
      case AddingDevice => AddingDeviceFails(p, t, tx, candidate);
      case AddingToken => AddingTokenFails(p, t, tx, candidate);
    }
  }

  /** In every reachable state, a statement that runs ends its transaction exactly when the committed tables
      refuse it: a key revoked, expired or used up; an address lost for the 32nd time; a public key or a
      secret already there; a device revoked already. */
  lemma StatementFailsIff(p: Pools, states: seq<State>, actions: seq<Action>, i: nat)
    requires IsRun(p, states, actions) && i < |actions| && actions[i].Statement?
    ensures actions[i].tx in states[i].txs
    ensures actions[i].tx !in states[i + 1].txs <==>
            Refused(states[i].committed, states[i].txs[actions[i].tx], actions[i].candidate)
  {
    RunKeepsInvariant(p, states, actions, i);
    var s, a := states[i], actions[i];
    assert Next(p, s, a, states[i + 1]);
    ExecFails(p, s.committed, s.txs[a.tx], a.candidate);
  }

  // ----- reading and retrying -----

  /** What a transaction takes for taken when it next picks an address: what is committed by the time it reads,
      and the address it has just lost. */
  lemma ReadingSees(p: Pools, states: seq<State>, actions: seq<Action>, i: nat, n: nat)
    requires IsRun(p, states, actions) && i < |actions| && actions[i].Statement? && actions[i].tx == n
    requires n in states[i].txs && states[i].txs[n].job.Creating? && states[i].txs[n].phase.Reading?
    ensures n in states[i + 1].txs && states[i + 1].txs[n].phase.Inserting?
    ensures var before, after := states[i].txs[n].phase, states[i + 1].txs[n].phase;
            && after.family == before.family && after.attempt == before.attempt
            && PoolEnabled(p, before.family)
            && forall a :: Usable(PoolOf(p, before.family), a) ==>
                 (a in after.taken <==> a in states[i].committed.allocations || a in before.lost)
  {
    RunKeepsInvariant(p, states, actions, i);
    var t, tx := states[i].committed, states[i].txs[n];
    assert Next(p, states[i], actions[i], states[i + 1]);
    assert CreatingOk(p, t, tx);
    ReadIs(p, t, tx, actions[i].candidate);
  }

  lemma ReadIs(p: Pools, t: Snapshot, tx: Tx, candidate: Addr)
    requires PoolsWellFormed(p) && CreatingOk(p, t, tx) && tx.phase.Reading?
    ensures Exec(p, t, tx, candidate).Some? && Exec(p, t, tx, candidate).value.phase.Inserting?
    ensures forall a :: Usable(PoolOf(p, tx.phase.family), a) ==>
              (a in Exec(p, t, tx, candidate).value.phase.taken <==> a in t.allocations || a in tx.phase.lost)
  {
    forall a | Usable(PoolOf(p, tx.phase.family), a)
      ensures a in Exec(p, t, tx, candidate).value.phase.taken <==> a in t.allocations || a in tx.phase.lost
    {
      ContainsIsInterval(PoolOf(p, tx.phase.family), a);
      assert a !in tx.writes.allocations;
    }
  }

  /** A lost race before the last attempt is followed by a read that keeps the lost address out; an address
      nobody has is claimed. */
  lemma LostRaceRetries(p: Pools, states: seq<State>, actions: seq<Action>, i: nat, n: nat)
    requires IsRun(p, states, actions) && i < |actions| && actions[i].Statement? && actions[i].tx == n
    requires n in states[i].txs && states[i].txs[n].job.Creating? && states[i].txs[n].phase.Inserting?
    ensures var a, tx := actions[i].candidate, states[i].txs[n];
            if a !in states[i].committed.allocations then
              && n in states[i + 1].txs
              && (if tx.phase.family.V4? then states[i + 1].txs[n].v4 else states[i + 1].txs[n].v6) == Some(a)
            else if tx.phase.attempt < 31 then
              && n in states[i + 1].txs
              && states[i + 1].txs[n] == tx.(phase := Reading(tx.phase.family, tx.phase.attempt + 1, {a}))
            else n !in states[i + 1].txs
  {
    RunKeepsInvariant(p, states, actions, i);
    var t, tx, a := states[i].committed, states[i].txs[n], actions[i].candidate;
    assert Next(p, states[i], actions[i], states[i + 1]);
    assert CreatingOk(p, t, tx);
    CandidateIsUsable(p, tx, a);
    InsertIs(p, t, tx, a);
  }

  lemma InsertIs(p: Pools, t: Snapshot, tx: Tx, a: Addr)
    requires PoolsWellFormed(p) && CreatingOk(p, t, tx) && tx.phase.Inserting?
    requires Usable(PoolOf(p, tx.phase.family), a)
    ensures Exec(p, t, tx, a) ==
            if a !in t.allocations then Some(Claimed(p, tx, tx.phase.family, a))
            else if tx.phase.attempt < 31 then
              Some(tx.(phase := Reading(tx.phase.family, tx.phase.attempt + 1, {a})))
            else None
  {
    assert a !in tx.writes.allocations;
  }

  // ----- paths -----

  /** A stretch of a run, begun anywhere, in which only transaction n does anything. */
  ghost predicate IsPath(p: Pools, n: nat, states: seq<State>, actions: seq<Action>) {
    && PoolsWellFormed(p)
    && |states| == |actions| + 1
    && (forall i :: 0 <= i < |actions| ==> Next(p, states[i], actions[i], states[i + 1]) && Does(actions[i], n))
  }

  predicate Does(a: Action, n: nat) {
    match a
    case Alone(_) => false
    case _ => a.tx == n
  }

  lemma Longer(p: Pools, n: nat, states: seq<State>, actions: seq<Action>, a: Action, s: State)
    requires IsPath(p, n, states, actions) && Next(p, states[|actions|], a, s) && Does(a, n)
    ensures IsPath(p, n, states + [s], actions + [a])
  {
  }

  /** The state s with transaction n at this point. */
  function With(s: State, n: nat, id: Id, tx: Tx): State {
    s.(txs := s.txs[n := tx], ids := s.ids + {id})
  }

  lemma Stays(s: State, n: nat, id: Id, tx: Tx, after: Tx)
    ensures With(s, n, id, tx).(txs := With(s, n, id, tx).txs[n := after]) == With(s, n, id, after)
  {
  }

  /** One more statement of the transaction: it must fit, nobody may hold what it needs, and it must not
      fail. */
  lemma OneMore(p: Pools, s: State, n: nat, id: Id, tx: Tx, candidate: Addr, after: Tx,
                states: seq<State>, actions: seq<Action>)
    requires IsPath(p, n, states, actions) && states[|actions|] == With(s, n, id, tx)
    requires n !in s.txs && !tx.phase.Done? && PhaseFits(p, tx) && CandidateFits(p, tx, candidate)
    requires forall m :: m in s.txs ==> !WaitsFor(s.committed, tx, candidate, s.txs[m])
    requires Exec(p, s.committed, tx, candidate) == Some(after)
    ensures IsPath(p, n, states + [With(s, n, id, after)], actions + [Statement(n, candidate)])
  {
    Stays(s, n, id, tx, after);
    Longer(p, n, states, actions, Statement(n, candidate), With(s, n, id, after));
  }

  // ----- a creation that nothing prevents -----

  /** What a creation needs of one other transaction in flight: that it has not written the key, the
      addresses, a device with this id or public key, or a credential with this id or secret. */
  predicate OutOfTheWay(other: Tx, id: Id, publicKey: string, via: Option<Redemption>, v4: Addr, v6: Option<Addr>) {
    && (via.Some? ==> via.value.key !in other.writes.keys)
    && v4 !in other.writes.allocations
    && (v6.Some? ==> v6.value !in other.writes.allocations)
    && (forall d :: d in other.writes.devices ==> d != id && other.writes.devices[d].publicKey != publicKey)
    && (via.Some? ==>
          forall d :: d in other.writes.tokens ==>
            d != id && other.writes.tokens[d] != Some(HashToken(via.value.secret)))
  }

  /** The lowest usable address that is not in the table. */
  ghost predicate LowestFree(pool: Prefix, t: Snapshot, a: Addr)
    requires WellFormed(pool)
  {
    && Usable(pool, a) && a !in t.allocations
    && forall b :: Usable(pool, b) && b !in t.allocations ==> a.value <= b.value
  }

  lemma SameAddress(a: Addr, b: Addr)
    ensures a.family == b.family && a.value == b.value ==> a == b
  {
  }

  lemma LowestIsCandidate(pool: Prefix, t: Snapshot, taken: set<Addr>, a: Addr)
    requires WellFormed(pool) && LowestFree(pool, t, a)
    requires forall b :: Usable(pool, b) ==> (b in taken <==> b in t.allocations)
    ensures Allocator.IsCandidate(pool, taken, false, a)
  {
    var free := [a];
    forall b | Allocator.Free(pool, taken, b) && b !in free ensures a.value < b.value {
      SameAddress(a, b);
    }
    assert Allocator.IsLowestFree(pool, taken, Allocator.Limit(false), free) && a in free;
  }

  /** The tables allow this creation, with these addresses. */
  ghost predicate Allowed(p: Pools, t: Snapshot, publicKey: string, via: Option<Redemption>, now: Time,
                          v4: Addr, v6: Option<Addr>)
    requires PoolsWellFormed(p)
  {
    && LowestFree(p.v4, t, v4)
    && (v6.Some? <==> p.v6.Some?)
    && (v6.Some? ==> LowestFree(p.v6.value, t, v6.value))
    && !KeyTextTaken(t, publicKey)
    && (via.Some? ==>
          && IsDeviceToken(via.value.secret) && !SecretTaken(t, via.value.secret)
          && via.value.key in t.keys
          && var k := t.keys[via.value.key];
             && k.revokedAt.None?
             && (k.expiresAt.Some? ==> now < k.expiresAt.value)
             && (k.maxUses == 0 || |EnrolledBy(t, via.value.key)| < k.maxUses))
  }

  /** The tables with this device added, and nothing else changed. */
  ghost predicate Added(t: Snapshot, u: Snapshot, id: Id, userId: Id, publicKey: string, via: Option<Redemption>,
                        now: Time, v4: Addr, v6: Option<Addr>)
  {
    && u.devices ==
       t.devices[id :=
         Device(userId := userId, publicKey := publicKey, ipv4 := Some(v4), ipv6 := v6,
                enrolledWith := if via.Some? then Some(via.value.key) else None,
                createdAt := now, lastSeenAt := None, revokedAt := None)]
    && u.allocations == (if v6.Some? then t.allocations[v4 := id][v6.value := id] else t.allocations[v4 := id])
    && (via.None? ==> u.keys == t.keys && u.tokens == t.tokens)
    && (via.Some? ==>
          && via.value.key in t.keys
          && u.keys == t.keys[via.value.key := t.keys[via.value.key].(uses := t.keys[via.value.key].uses + 1)]
          && u.tokens == t.tokens[id := HashToken(via.value.secret)])
  }

  function KeyWrites(t: Snapshot, via: Option<Redemption>): Writes
    requires via.Some? ==> via.value.key in t.keys
  {
    if via.Some? then NOTHING.(keys := map[via.value.key := Consumed(t.keys[via.value.key])]) else NOTHING
  }

  /** The transaction as it is when it comes to check for addresses it might have. */
  function AtChecking(t: Snapshot, job: Job): Tx
    requires job.Creating? && (job.via.Some? ==> job.via.value.key in t.keys)
  {
    Tx(job, Checking, None, None, KeyWrites(t, job.via))
  }

  function Begun(job: Job): Tx
    requires job.Creating?
  {
    Tx(job, if job.via.Some? then Consuming else Checking, None, None, NOTHING)
  }

  /** The first statement of an enrolment; a registration has no such statement. */
  lemma ToChecking(p: Pools, s: State, n: nat, job: Job, states: seq<State>, actions: seq<Action>)
    returns (states': seq<State>, actions': seq<Action>)
    requires Consistent(p, s.committed) && n !in s.txs && job.Creating? && job.via.Some?
    requires actions != [] && IsPath(p, n, states, actions) && states[|actions|] == With(s, n, job.id, Begun(job))
    requires job.via.value.key in s.committed.keys
    requires var k := s.committed.keys[job.via.value.key];
             && k.revokedAt.None? && (k.expiresAt.Some? ==> job.now < k.expiresAt.value)
             && (k.maxUses == 0 || |EnrolledBy(s.committed, job.via.value.key)| < k.maxUses)
    requires forall m :: m in s.txs ==> job.via.value.key !in s.txs[m].writes.keys
    ensures IsPath(p, n, states', actions') && states' != [] && states'[0] == states[0]
    ensures actions' != [] && actions'[0] == actions[0]
    ensures states'[|actions'|] == With(s, n, job.id, AtChecking(s.committed, job))
  {
    var t, k, tx, nowhere := s.committed, job.via.value.key, Begun(job), Addr(V4, 0);
    assert View(t, tx.writes).keys == t.keys;
    assert KeyAccounted(t, k);
    RedeemableIs(t, k, job.now);
    var after := AtChecking(t, job);
    assert map[][k := Consumed(t.keys[k])] == map[k := Consumed(t.keys[k])];
    assert Exec(p, t, tx, nowhere) == Some(after);
    OneMore(p, s, n, job.id, tx, nowhere, after, states, actions);
    states', actions' := states + [With(s, n, job.id, after)], actions + [Statement(n, nowhere)];
  }

  /** Allocation in one family: read, then insert the lowest free address. */
  lemma ToClaimed(p: Pools, s: State, n: nat, id: Id, tx: Tx, a: Addr, states: seq<State>, actions: seq<Action>)
    returns (states': seq<State>, actions': seq<Action>)
    requires PoolsWellFormed(p) && n !in s.txs && tx.job.Creating? && tx.phase.Reading? && PhaseFits(p, tx)
    requires tx.phase.attempt == 0 && tx.phase.lost == {}
    requires actions != [] && IsPath(p, n, states, actions) && states[|actions|] == With(s, n, id, tx)
    requires LowestFree(PoolOf(p, tx.phase.family), s.committed, a)
    requires forall b :: b in tx.writes.allocations ==>
               b.family != tx.phase.family && tx.writes.allocations[b].Some?
    requires forall m :: m in s.txs ==> a !in s.txs[m].writes.allocations
    ensures IsPath(p, n, states', actions') && states' != [] && states'[0] == states[0]
    ensures actions' != [] && actions'[0] == actions[0]
    ensures states'[|actions'|] == With(s, n, id, Claimed(p, tx, tx.phase.family, a))
  {
    var t, f, nowhere := s.committed, tx.phase.family, Addr(V4, 0);
    var seen := View(t, tx.writes).allocations;
    var taken := Allocator.TakenIn(PoolOf(p, f), seen.Keys);
    var mid := tx.(phase := Inserting(f, 0, taken));
    assert taken + {} == taken;
    assert Exec(p, t, tx, nowhere) == Some(mid);
    OneMore(p, s, n, id, tx, nowhere, mid, states, actions);
    states', actions' := states + [With(s, n, id, mid)], actions + [Statement(n, nowhere)];
    TakenAmongUsable(PoolOf(p, f), t, tx.writes.allocations, taken);
    LowestIsCandidate(PoolOf(p, f), t, taken, a);
    var after := Claimed(p, tx, f, a);
    assert Claimed(p, mid, f, a) == after;
    assert a !in seen;
    OneMore(p, s, n, id, mid, a, after, states', actions');
    states', actions' := states' + [With(s, n, id, after)], actions' + [Statement(n, a)];
  }

  lemma TakenAmongUsable(pool: Prefix, t: Snapshot, w: map<Addr, Option<Id>>, taken: set<Addr>)
    requires WellFormed(pool) && taken == Allocator.TakenIn(pool, Overlay(t.allocations, w).Keys)
    requires forall b :: b in w ==> b.family != pool.addr.family && w[b].Some?
    ensures forall b :: Usable(pool, b) ==> (b in taken <==> b in t.allocations)
  {
    forall b | Usable(pool, b) ensures b in taken <==> b in t.allocations {
      ContainsIsInterval(pool, b);
    }
  }

  function AddressWrites(id: Id, v4: Addr, v6: Option<Addr>): map<Addr, Option<Id>> {
    if v6.Some? then map[v4 := Some(id)][v6.value := Some(id)] else map[v4 := Some(id)]
  }

  function AtAdding(t: Snapshot, job: Job, v4: Addr, v6: Option<Addr>): Tx
    requires job.Creating? && (job.via.Some? ==> job.via.value.key in t.keys)
  {
    Tx(job, AddingDevice, Some(v4), v6, KeyWrites(t, job.via).(allocations := AddressWrites(job.id, v4, v6)))
  }

  lemma ToReading(p: Pools, s: State, n: nat, job: Job, states: seq<State>, actions: seq<Action>)
    returns (states': seq<State>, actions': seq<Action>)
    requires Consistent(p, s.committed) && n !in s.txs && job.Creating? && job.id !in s.committed.devices
    requires job.via.Some? ==> job.via.value.key in s.committed.keys
    requires actions != [] && IsPath(p, n, states, actions)
    requires states[|actions|] == With(s, n, job.id, AtChecking(s.committed, job))
    ensures IsPath(p, n, states', actions') && states' != [] && states'[0] == states[0]
    ensures actions' != [] && actions'[0] == actions[0]
    ensures states'[|actions'|] ==
            With(s, n, job.id, AtChecking(s.committed, job).(phase := Reading(V4, 0, {})))
  {
    var t, tx, nowhere := s.committed, AtChecking(s.committed, job), Addr(V4, 0);
    NoneOwned(p, t, tx.writes, job.id);
    var after := tx.(phase := Reading(V4, 0, {}));
    OneMore(p, s, n, job.id, tx, nowhere, after, states, actions);
    states', actions' := states + [With(s, n, job.id, after)], actions + [Statement(n, nowhere)];
  }

  lemma NoneOwned(p: Pools, t: Snapshot, w: Writes, id: Id)
    requires PoolsWellFormed(p) && Addressed(p, t) && id !in t.devices && w.allocations == map[]
    ensures Owned(View(t, w), id) == {}
  {
    assert View(t, w).allocations == t.allocations;
    assert forall a :: a in t.allocations ==> AllocationOwned(t, a);
  }

  /** From the check to the insertion of the device: one address per enabled family. */
  lemma ToAdding(p: Pools, s: State, n: nat, job: Job, v4: Addr, v6: Option<Addr>,
                 states: seq<State>, actions: seq<Action>)
    returns (states': seq<State>, actions': seq<Action>)
    requires PoolsWellFormed(p) && n !in s.txs && job.Creating?
    requires job.via.Some? ==> job.via.value.key in s.committed.keys
    requires actions != [] && IsPath(p, n, states, actions)
    requires states[|actions|] == With(s, n, job.id, AtChecking(s.committed, job).(phase := Reading(V4, 0, {})))
    requires LowestFree(p.v4, s.committed, v4) && (v6.Some? <==> p.v6.Some?)
    requires v6.Some? ==> LowestFree(p.v6.value, s.committed, v6.value)
    requires forall m :: m in s.txs ==> v4 !in s.txs[m].writes.allocations
    requires v6.Some? ==> forall m :: m in s.txs ==> v6.value !in s.txs[m].writes.allocations
    ensures IsPath(p, n, states', actions') && states' != [] && states'[0] == states[0]
    ensures actions' != [] && actions'[0] == actions[0]
    ensures states'[|actions'|] == With(s, n, job.id, AtAdding(s.committed, job, v4, v6))
  {
    var t := s.committed;
    var tx := AtChecking(t, job).(phase := Reading(V4, 0, {}));
    states', actions' := ToClaimed(p, s, n, job.id, tx, v4, states, actions);
    var one := Claimed(p, tx, V4, v4);
    assert one.writes.allocations == map[v4 := Some(job.id)];
    if v6.Some? {
      states', actions' := ToClaimed(p, s, n, job.id, one, v6.value, states', actions');
      assert Claimed(p, one, V6, v6.value) == AtAdding(t, job, v4, v6);
    } else {
      assert one == AtAdding(t, job, v4, v6);
    }
  }

  function NewDevice(job: Job, v4: Addr, v6: Option<Addr>): Device
    requires job.Creating?
  {
    Device(userId := job.userId, publicKey := job.publicKey, ipv4 := Some(v4), ipv6 := v6,
           enrolledWith := if job.via.Some? then Some(job.via.value.key) else None,
           createdAt := job.now, lastSeenAt := None, revokedAt := None)
  }

  function AtDone(t: Snapshot, job: Job, v4: Addr, v6: Option<Addr>): Tx
    requires job.Creating? && (job.via.Some? ==> job.via.value.key in t.keys)
  {
    var tx := AtAdding(t, job, v4, v6);
    tx.(phase := Done,
        writes := tx.writes.(
          devices := map[job.id := NewDevice(job, v4, v6)],
          tokens := if job.via.Some? then map[job.id := Some(HashToken(job.via.value.secret))] else map[]))
  }

  lemma AddsDevice(p: Pools, t: Snapshot, job: Job, v4: Addr, v6: Option<Addr>, candidate: Addr)
    requires PoolsWellFormed(p) && job.Creating? && (job.via.Some? ==> job.via.value.key in t.keys)
    requires job.id !in t.devices && !KeyTextTaken(t, job.publicKey)
    ensures var tx, done := AtAdding(t, job, v4, v6), AtDone(t, job, v4, v6);
            PhaseFits(p, tx) &&
            Exec(p, t, tx, candidate) ==
            Some(if job.via.Some? then done.(phase := AddingToken, writes := done.writes.(tokens := map[])) else done)
  {
    var tx := AtAdding(t, job, v4, v6);
    assert View(t, tx.writes).devices == t.devices;
    assert map[][job.id := NewDevice(job, v4, v6)] == map[job.id := NewDevice(job, v4, v6)];
  }

  lemma AddsToken(p: Pools, t: Snapshot, job: Job, v4: Addr, v6: Option<Addr>, candidate: Addr)
    requires PoolsWellFormed(p) && job.Creating? && job.via.Some? && job.via.value.key in t.keys
    requires job.id !in t.tokens && !SecretTaken(t, job.via.value.secret)
    ensures var done := AtDone(t, job, v4, v6);
            var tx := done.(phase := AddingToken, writes := done.writes.(tokens := map[]));
            PhaseFits(p, tx) && Exec(p, t, tx, candidate) == Some(done)
  {
    var done := AtDone(t, job, v4, v6);
    var tx := done.(phase := AddingToken, writes := done.writes.(tokens := map[]));
    assert View(t, tx.writes).tokens == t.tokens;
    var hash := Some(HashToken(job.via.value.secret));
    assert map[][job.id := hash] == map[job.id := hash];
  }

  /** The one or two inserts that end the transaction. */
  lemma ToDone(p: Pools, s: State, n: nat, job: Job, v4: Addr, v6: Option<Addr>,
               states: seq<State>, actions: seq<Action>)
    returns (states': seq<State>, actions': seq<Action>)
    requires PoolsWellFormed(p) && n !in s.txs && job.Creating?
    requires job.via.Some? ==> job.via.value.key in s.committed.keys
    requires actions != [] && IsPath(p, n, states, actions)
    requires states[|actions|] == With(s, n, job.id, AtAdding(s.committed, job, v4, v6))
    requires job.id !in s.committed.devices && !KeyTextTaken(s.committed, job.publicKey)
    requires job.via.Some? ==> job.id !in s.committed.tokens && !SecretTaken(s.committed, job.via.value.secret)
    requires forall m :: m in s.txs ==> OutOfTheWay(s.txs[m], job.id, job.publicKey, job.via, v4, v6)
    ensures IsPath(p, n, states', actions') && states' != [] && states'[0] == states[0]
    ensures actions' != [] && actions'[0] == actions[0]
    ensures states'[|actions'|] == With(s, n, job.id, AtDone(s.committed, job, v4, v6))
  {
    var t, nowhere, done := s.committed, Addr(V4, 0), AtDone(s.committed, job, v4, v6);
    AddsDevice(p, t, job, v4, v6, nowhere);
    var after := if job.via.Some? then done.(phase := AddingToken, writes := done.writes.(tokens := map[])) else done;
    forall m | m in s.txs ensures !WaitsFor(t, AtAdding(t, job, v4, v6), nowhere, s.txs[m]) {
      assert OutOfTheWay(s.txs[m], job.id, job.publicKey, job.via, v4, v6);
    }
    OneMore(p, s, n, job.id, AtAdding(t, job, v4, v6), nowhere, after, states, actions);
    states', actions' := states + [With(s, n, job.id, after)], actions + [Statement(n, nowhere)];
    if job.via.Some? {
      AddsToken(p, t, job, v4, v6, nowhere);
      forall m | m in s.txs ensures !WaitsFor(t, after, nowhere, s.txs[m]) {
        assert OutOfTheWay(s.txs[m], job.id, job.publicKey, job.via, v4, v6);
      }
      OneMore(p, s, n, job.id, after, nowhere, done, states', actions');
      states', actions' := states' + [With(s, n, job.id, done)], actions' + [Statement(n, nowhere)];
    }
  }

  /** The commit publishes exactly the new rows. */
  lemma DoneIsAdded(t: Snapshot, job: Job, v4: Addr, v6: Option<Addr>)
    requires job.Creating? && (job.via.Some? ==> job.via.value.key in t.keys)
    ensures var u := View(t, AtDone(t, job, v4, v6).writes);
            Added(t, u, job.id, job.userId, job.publicKey, job.via, job.now, v4, v6)
  {
    PlusOne(t.devices, job.id, NewDevice(job, v4, v6));
    AddressesAdded(t.allocations, job.id, v4, v6);
    if job.via.Some? {
      PlusOne(t.keys, job.via.value.key, Consumed(t.keys[job.via.value.key]));
      OverlayAdds(t.tokens, job.id, HashToken(job.via.value.secret));
    } else {
      PlusNothing(t.keys, map[]);
      OverlayAdds(t.tokens, job.id, HashToken(""));
    }
  }

  lemma AddressesAdded(m: map<Addr, Id>, id: Id, v4: Addr, v6: Option<Addr>)
    ensures Overlay(m, AddressWrites(id, v4, v6)) == if v6.Some? then m[v4 := id][v6.value := id] else m[v4 := id]
  {
  }

  lemma Committing(p: Pools, s: State, n: nat, id: Id, tx: Tx, states: seq<State>, actions: seq<Action>)
    returns (states': seq<State>, actions': seq<Action>)
    requires actions != [] && IsPath(p, n, states, actions) && states[|actions|] == With(s, n, id, tx)
    requires n !in s.txs && tx.phase.Done?
    ensures IsPath(p, n, states', actions') && states' != [] && states'[0] == states[0]
    ensures actions' != [] && actions'[0] == actions[0]
    ensures |actions'| > 0 && actions'[|actions'| - 1] == Commit(n)
    ensures states'[|actions'|] ==
            s.(committed := View(s.committed, tx.writes), ids := s.ids + {id})
  {
    var after := s.(committed := View(s.committed, tx.writes), ids := s.ids + {id});
    assert s.txs[n := tx] - {n} == s.txs;
    Longer(p, n, states, actions, Commit(n), after);
    states', actions' := states + [after], actions + [Commit(n)];
  }

  /** What Register and Enroll have in common, from their first step on. */
  lemma CreationRuns(p: Pools, s: State, n: nat, job: Job, first: Action, v4: Addr, v6: Option<Addr>)
    returns (states: seq<State>, actions: seq<Action>)
    requires PoolsWellFormed(p) && Inv(p, s) && n !in s.txs && job.Creating? && job.id !in s.ids
    requires Next(p, s, first, With(s, n, job.id, Begun(job))) && Does(first, n)
    requires Allowed(p, s.committed, job.publicKey, job.via, job.now, v4, v6)
    requires forall m :: m in s.txs ==> OutOfTheWay(s.txs[m], job.id, job.publicKey, job.via, v4, v6)
    ensures IsPath(p, n, states, actions) && states != [] && states[0] == s
    ensures |actions| > 0 && actions[0] == first && actions[|actions| - 1] == Commit(n)
    ensures var end := states[|actions|];
            && end.txs == s.txs && end.ids == s.ids + {job.id}
            && Added(s.committed, end.committed, job.id, job.userId, job.publicKey, job.via, job.now, v4, v6)
  {
    var t := s.committed;
    states, actions := [s, With(s, n, job.id, Begun(job))], [first];
    if job.via.Some? {
      states, actions := ToChecking(p, s, n, job, states, actions);
      assert job.id in t.tokens <==> Enrolled(t, job.id);
    }
    states, actions := ToReading(p, s, n, job, states, actions);
    states, actions := ToAdding(p, s, n, job, v4, v6, states, actions);
    states, actions := ToDone(p, s, n, job, v4, v6, states, actions);
    DoneIsAdded(t, job, v4, v6);
    states, actions := Committing(p, s, n, job.id, AtDone(t, job, v4, v6), states, actions);
  }

  /** Register gets through. In any state that satisfies the invariant, if each pool has a free address, the
      public key is new, and no transaction in flight has written what it needs, a registration can run to its
      commit, which adds exactly this device, with the lowest free address of each enabled family. */
  lemma RegisterSucceeds(p: Pools, s: State, n: nat, id: Id, userId: Id, publicKey: string, now: Time,
                         v4: Addr, v6: Option<Addr>)
    returns (states: seq<State>, actions: seq<Action>)
    requires PoolsWellFormed(p) && Inv(p, s) && n !in s.txs && id !in s.ids
    requires Allowed(p, s.committed, publicKey, None, now, v4, v6)
    requires forall m :: m in s.txs ==> OutOfTheWay(s.txs[m], id, publicKey, None, v4, v6)
    ensures IsPath(p, n, states, actions) && states != [] && states[0] == s
    ensures |actions| > 0 && actions[0] == BeginRegister(n, id, userId, publicKey, now)
    ensures actions[|actions| - 1] == Commit(n)
    ensures var end := states[|actions|];
            && end.txs == s.txs && end.ids == s.ids + {id}
            && Added(s.committed, end.committed, id, userId, publicKey, None, now, v4, v6)
  {
    var job := Creating(id, userId, publicKey, None, now);
    states, actions := CreationRuns(p, s, n, job, BeginRegister(n, id, userId, publicKey, now), v4, v6);
  }

  /** Enroll gets through, if besides the key can enrol one more device and the minted secret is new. The
      device belongs to whoever created the key, the key counts one more use, and the device has its
      credential. */
  lemma EnrollSucceeds(p: Pools, s: State, n: nat, id: Id, via: Redemption, publicKey: string, now: Time,
                       v4: Addr, v6: Option<Addr>)
    returns (states: seq<State>, actions: seq<Action>)
    requires PoolsWellFormed(p) && Inv(p, s) && n !in s.txs && id !in s.ids
    requires Allowed(p, s.committed, publicKey, Some(via), now, v4, v6)
    requires forall m :: m in s.txs ==> OutOfTheWay(s.txs[m], id, publicKey, Some(via), v4, v6)
    ensures IsPath(p, n, states, actions) && states != [] && states[0] == s
    ensures |actions| > 0 && actions[0] == BeginEnroll(n, id, via.key, via.secret, publicKey, now)
    ensures actions[|actions| - 1] == Commit(n)
    ensures var end := states[|actions|];
            && end.txs == s.txs && end.ids == s.ids + {id}
            && Added(s.committed, end.committed, id, s.committed.keys[via.key].createdBy, publicKey, Some(via), now,
                     v4, v6)
  {
    var job := Creating(id, s.committed.keys[via.key].createdBy, publicKey, Some(via), now);
    states, actions := CreationRuns(p, s, n, job, BeginEnroll(n, id, via.key, via.secret, publicKey, now), v4, v6);
  }

  // ----- a revocation that nothing prevents -----

  /** The tables with this device revoked, its addresses and its credential gone, and nothing else changed. */
  ghost predicate Removed(t: Snapshot, u: Snapshot, id: Id, now: Time)
    requires id in t.devices
  {
    && u.devices == t.devices[id := t.devices[id].(revokedAt := Some(now), ipv4 := None, ipv6 := None)]
    && (forall a :: a in u.allocations <==> a in t.allocations && t.allocations[a] != id)
    && (forall a :: a in u.allocations ==> u.allocations[a] == t.allocations[a])
    && u.keys == t.keys
    && u.tokens == t.tokens - {id}
  }

  function Away(t: Snapshot, id: Id): Writes {
    NOTHING.(allocations := Deletions(t, id))
  }

  function RevokedWrites(t: Snapshot, id: Id, now: Time): Writes
    requires id in t.devices
  {
    Away(t, id).(devices := map[id := t.devices[id].(revokedAt := Some(now), ipv4 := None, ipv6 := None)])
  }

  function AllWrites(t: Snapshot, id: Id, now: Time): Writes
    requires id in t.devices
  {
    RevokedWrites(t, id, now).(tokens := if id in t.tokens then map[id := None] else map[])
  }

  lemma Releases(p: Pools, t: Snapshot, job: Job, candidate: Addr)
    requires PoolsWellFormed(p) && job.Revoking?
    ensures Exec(p, t, Tx(job, Releasing, None, None, NOTHING), candidate)
            == Some(Tx(job, Marking, None, None, Away(t, job.id)))
  {
    var tx := Tx(job, Releasing, None, None, NOTHING);
    assert View(t, NOTHING).allocations == t.allocations;
    assert Exec(p, t, tx, candidate).value.writes.allocations == Deletions(t, job.id);
  }

  lemma Marks(p: Pools, t: Snapshot, job: Job, candidate: Addr)
    requires PoolsWellFormed(p) && job.Revoking? && job.id in t.devices && t.devices[job.id].revokedAt.None?
    ensures Exec(p, t, Tx(job, Marking, None, None, Away(t, job.id)), candidate)
            == Some(Tx(job, DroppingToken, None, None, RevokedWrites(t, job.id, job.now)))
  {
    var row := t.devices[job.id].(revokedAt := Some(job.now), ipv4 := None, ipv6 := None);
    assert View(t, Away(t, job.id)).devices == t.devices;
    assert map[][job.id := row] == map[job.id := row];
  }

  lemma Drops(p: Pools, t: Snapshot, job: Job, candidate: Addr)
    requires PoolsWellFormed(p) && job.Revoking? && job.id in t.devices
    ensures Exec(p, t, Tx(job, DroppingToken, None, None, RevokedWrites(t, job.id, job.now)), candidate)
            == Some(Tx(job, Done, None, None, AllWrites(t, job.id, job.now)))
  {
    assert View(t, RevokedWrites(t, job.id, job.now)).tokens == t.tokens;
    var gone: Option<Hash> := None;
    assert map[][job.id := gone] == map[job.id := gone];
  }

  lemma AllWritesRemove(t: Snapshot, id: Id, now: Time)
    requires id in t.devices
    ensures Removed(t, View(t, AllWrites(t, id, now)), id, now)
  {
    var row := t.devices[id].(revokedAt := Some(now), ipv4 := None, ipv6 := None);
    PlusOne(t.devices, id, row);
    PlusNothing(t.keys, map[]);
    assert View(t, AllWrites(t, id, now)).tokens == t.tokens - {id};
  }

  /** Revoke gets through, if the device is live and no transaction in flight has written its row, its
      addresses or its credential. */
  lemma RevokeSucceeds(p: Pools, s: State, n: nat, id: Id, now: Time)
    returns (states: seq<State>, actions: seq<Action>)
    requires PoolsWellFormed(p) && n !in s.txs && id in s.ids
    requires id in s.committed.devices && s.committed.devices[id].revokedAt.None?
    requires forall m :: m in s.txs ==>
               && id !in s.txs[m].writes.devices && id !in s.txs[m].writes.tokens
               && forall a :: a in s.txs[m].writes.allocations ==>
                    !(a in s.committed.allocations && s.committed.allocations[a] == id)
    ensures IsPath(p, n, states, actions) && states != [] && states[0] == s
    ensures |actions| > 0 && actions[0] == BeginRevoke(n, id, now)
    ensures actions[|actions| - 1] == Commit(n)
    ensures var end := states[|actions|];
            end.txs == s.txs && end.ids == s.ids && Removed(s.committed, end.committed, id, now)
  {
    var t, job, nowhere := s.committed, Revoking(id, now), Addr(V4, 0);
    var tx0 := Tx(job, Releasing, None, None, NOTHING);
    var tx1 := Tx(job, Marking, None, None, Away(t, id));
    var tx2 := Tx(job, DroppingToken, None, None, RevokedWrites(t, id, now));
    var tx3 := Tx(job, Done, None, None, AllWrites(t, id, now));
    Releases(p, t, job, nowhere);
    Marks(p, t, job, nowhere);
    Drops(p, t, job, nowhere);
    assert s.ids + {id} == s.ids;
    states, actions := [s, With(s, n, id, tx0)], [BeginRevoke(n, id, now)];
    OneMore(p, s, n, id, tx0, nowhere, tx1, states, actions);
    states, actions := states + [With(s, n, id, tx1)], actions + [Statement(n, nowhere)];
    OneMore(p, s, n, id, tx1, nowhere, tx2, states, actions);
    states, actions := states + [With(s, n, id, tx2)], actions + [Statement(n, nowhere)];
    OneMore(p, s, n, id, tx2, nowhere, tx3, states, actions);
    states, actions := states + [With(s, n, id, tx3)], actions + [Statement(n, nowhere)];
    AllWritesRemove(t, id, now);
    states, actions := Committing(p, s, n, id, tx3, states, actions);
  }

  // ----- single statements -----

  /** A setup key can be created, or revoked, and a device seen, whenever no transaction in flight has
      written that row, and this is what then changes. */
  lemma SingleStatementsRun(p: Pools, s: State, id: Id, key: SetupKey, now: Time)
    requires PoolsWellFormed(p)
    ensures (forall m :: m in s.txs ==> id !in s.txs[m].writes.keys)
            && id !in s.committed.keys && key.uses == 0 && key.maxUses >= 0 && key.revokedAt.None?
            && (forall k :: k in s.committed.keys ==> s.committed.keys[k].keyHash != key.keyHash) ==>
              Next(p, s, Alone(CreateKey(id, key)), s.(committed := s.committed.(keys := s.committed.keys[id := key])))
    ensures (forall m :: m in s.txs ==> id !in s.txs[m].writes.keys)
            && id in s.committed.keys && s.committed.keys[id].revokedAt.None? ==>
              var row := s.committed.keys[id].(revokedAt := Some(now));
              Next(p, s, Alone(RevokeKey(id, now)), s.(committed := s.committed.(keys := s.committed.keys[id := row])))
    ensures (forall m :: m in s.txs ==> id !in s.txs[m].writes.devices)
            && id in s.committed.devices && s.committed.devices[id].revokedAt.None? ==>
              var row := s.committed.devices[id].(lastSeenAt := Some(now));
              Next(p, s, Alone(Seen(id, now)), s.(committed := s.committed.(devices := s.committed.devices[id := row])))
  {
  }
}
