/** Register, Enroll and Revoke as concurrent transactions, one SQL statement at a time.

    A transaction collects its writes privately and sees committed data plus its own writes (READ
    COMMITTED). Writing a row, or a value of a unique index, takes a lock that is held until the
    transaction ends: a statement that needs a row some other transaction has written is not
    enabled, and when it runs it sees the latest committed version. Any transaction may roll back
    at any time, which covers every error, panic, lost connection and deadlock victim. A backend
    that serialises writers, as SQLite does, shows a subset of these interleavings.

    The result is that every interleaving is an interleaving of the atomic steps of `Tables`, each
    taking effect at its commit, so everything proved of those holds in every reachable state. */
module Enrolment {
  import opened Common
  import opened Addressing
  import opened Tables
  import Allocator

  // ----- private writes -----

  /** Rows written and not yet committed; `None` marks a deleted row. */
  datatype Writes = Writes(
    devices: map<Id, Device>,
    allocations: map<Addr, Option<Id>>,
    keys: map<Id, SetupKey>,
    tokens: map<Id, Option<Hash>>)

  const NOTHING := Writes(map[], map[], map[], map[])

  function Overlay<K, V>(m: map<K, V>, w: map<K, Option<V>>): map<K, V> {
    map k | k in m.Keys + w.Keys && (k in w ==> w[k].Some?) :: if k in w then w[k].value else m[k]
  }

  /** What a transaction sees, and what its commit publishes. */
  function View(t: Snapshot, w: Writes): Snapshot {
    Snapshot(t.devices + w.devices, Overlay(t.allocations, w.allocations), t.keys + w.keys, Overlay(t.tokens, w.tokens))
  }

  // ----- transactions -----

  datatype Job =
    | Creating(id: Id, userId: Id, publicKey: string, via: Option<Redemption>, now: Time)
    | Revoking(id: Id, now: Time)

  /** The statement a transaction will issue next. */
  datatype Phase =
    | Consuming
    | Checking
    | Reading(family: Family, attempt: nat, lost: set<Addr>)
    | Inserting(family: Family, attempt: nat, taken: set<Addr>)
    | AddingDevice
    | AddingToken
    | Releasing
    | Marking
    | DroppingToken
    | Done

  datatype Tx = Tx(job: Job, phase: Phase, v4: Option<Addr>, v6: Option<Addr>, writes: Writes)

  datatype State = State(committed: Snapshot, txs: map<nat, Tx>, ids: set<Id>)

  const INIT := State(EMPTY, map[], {})

  predicate PoolEnabled(p: Pools, f: Family) {
    f.V4? || p.v6.Some?
  }

  function PoolOf(p: Pools, f: Family): Prefix
    requires PoolEnabled(p, f)
  {
    if f.V4? then p.v4 else p.v6.value
  }

  /** The addresses a deletion by owner removes. */
  function Owned(t: Snapshot, id: Id): set<Addr> {
    set a | a in t.allocations && t.allocations[a] == id
  }

  function AfterAllocation(p: Pools, f: Family): Phase {
    if f.V4? && p.v6.Some? then Reading(V6, 0, {}) else AddingDevice
  }

  function Claimed(p: Pools, tx: Tx, f: Family, a: Addr): Tx {
    var w := tx.writes.(allocations := tx.writes.allocations[a := Some(tx.job.id)]);
    if f.V4? then tx.(v4 := Some(a), phase := AfterAllocation(p, f), writes := w)
    else tx.(v6 := Some(a), phase := AfterAllocation(p, f), writes := w)
  }

  function RowOf(tx: Tx): Device
    requires tx.job.Creating?
  {
    Device(tx.job.userId, tx.job.publicKey, tx.v4, tx.v6,
           if tx.job.via.Some? then Some(tx.job.via.value.key) else None, tx.job.now, None, None)
  }

  predicate PhaseFits(p: Pools, tx: Tx) {
    if tx.job.Creating? then
      && !tx.phase.Releasing? && !tx.phase.Marking? && !tx.phase.DroppingToken?
      && (tx.phase.Consuming? || tx.phase.AddingToken? ==> tx.job.via.Some?)
      && (tx.phase.Reading? || tx.phase.Inserting? ==> PoolEnabled(p, tx.phase.family))
    else
      tx.phase.Releasing? || tx.phase.Marking? || tx.phase.DroppingToken? || tx.phase.Done?
  }

  /** One statement of a transaction over the committed tables t. `None` is a statement that
      fails, after which the transaction rolls back. */
  ghost function Exec(p: Pools, t: Snapshot, tx: Tx, candidate: Addr): Option<Tx>
    requires PoolsWellFormed(p) && PhaseFits(p, tx)
  {
    var seen := View(t, tx.writes);
    var w, job := tx.writes, tx.job;
    match tx.phase
    case Consuming =>
      var k := job.via.value.key;
      if k in seen.keys && ConsumeGuard(seen.keys[k], job.now) then
        Some(tx.(phase := Checking, writes := w.(keys := w.keys[k := Consumed(seen.keys[k])])))
      else None
    case Checking =>
      if Owned(seen, job.id) != {} then None else Some(tx.(phase := Reading(V4, 0, {})))
    case Reading(f, n, lost) =>
      var taken := Allocator.TakenIn(PoolOf(p, f), seen.allocations.Keys) + lost;
      Some(tx.(phase := Inserting(f, n, taken)))
    case Inserting(f, n, taken) =>
      if candidate !in seen.allocations then Some(Claimed(p, tx, f, candidate))
      else if n + 1 < Allocator.MAX_ATTEMPTS then Some(tx.(phase := Reading(f, n + 1, {candidate})))
      else None
    case AddingDevice =>
      if job.id in seen.devices || !PublicKeyFree(seen, job.publicKey) then None
      else Some(tx.(phase := if job.via.Some? then AddingToken else Done,
                    writes := w.(devices := w.devices[job.id := RowOf(tx)])))
    case AddingToken =>
      if job.id in seen.tokens || !SecretFree(seen, job.via.value.secret) then None
      else Some(tx.(phase := Done,
                    writes := w.(tokens := w.tokens[job.id := Some(HashToken(job.via.value.secret))])))
    case Releasing =>
      Some(tx.(phase := Marking,
               writes := w.(allocations := map a | a in Owned(seen, job.id) + w.allocations.Keys ::
                              if a in Owned(seen, job.id) then None else w.allocations[a])))
    case Marking =>
      if job.id !in seen.devices || !seen.devices[job.id].Live() then None
      else Some(tx.(phase := DroppingToken,
                    writes := w.(devices := w.devices[job.id := RevokedRow(seen.devices[job.id], job.now)])))
    case DroppingToken =>
      Some(tx.(phase := Done,
               writes := if job.id in seen.tokens then w.(tokens := w.tokens[job.id := None]) else w))
    case Done => None
  }

  /** The statement tx is about to issue needs a row, or a unique value, that other has written. */
  predicate WaitsFor(t: Snapshot, tx: Tx, candidate: Addr, other: Tx) {
    match tx.phase
    case Consuming => tx.job.Creating? && tx.job.via.Some? && tx.job.via.value.key in other.writes.keys
    case Inserting(_, _, _) => candidate in other.writes.allocations
    case AddingDevice =>
      tx.job.Creating? &&
      exists d :: d in other.writes.devices && (d == tx.job.id || other.writes.devices[d].publicKey == tx.job.publicKey)
    case AddingToken =>
      tx.job.Creating? && tx.job.via.Some? &&
      exists d :: d in other.writes.tokens &&
                  (d == tx.job.id || other.writes.tokens[d] == Some(HashToken(tx.job.via.value.secret)))
    case Releasing => exists a :: a in Owned(t, tx.job.id) && a in other.writes.allocations
    case Marking => tx.job.id in other.writes.devices
    case DroppingToken => tx.job.id in other.writes.tokens
    case _ => false
  }

  /** A single autocommitted statement needs a row that a transaction has written. */
  predicate OpWaitsFor(op: Op, other: Tx) {
    match op
    case CreateKey(id, _) => id in other.writes.keys
    case RevokeKey(id, _) => id in other.writes.keys
    case Seen(id, _) => id in other.writes.devices
    case _ => false
  }

  // ----- the machine -----

  datatype Action =
    | BeginRegister(tx: nat, id: Id, userId: Id, publicKey: string, now: Time)
    | BeginEnroll(tx: nat, id: Id, key: Id, secret: string, publicKey: string, now: Time)
    | BeginRevoke(tx: nat, id: Id, now: Time)
    | Statement(tx: nat, candidate: Addr)
    | Commit(tx: nat)
    | Rollback(tx: nat)
    | Alone(op: Op)

  ghost predicate CandidateFits(p: Pools, tx: Tx, candidate: Addr)
    requires PoolsWellFormed(p) && PhaseFits(p, tx)
  {
    tx.job.Creating? && tx.phase.Inserting? ==>
      Allocator.IsCandidate(PoolOf(p, tx.phase.family), tx.phase.taken, tx.phase.attempt > 0, candidate)
  }

  /** One step of the whole system. The reads that precede a transaction (the setup key by its
      token, the device by its id and scope) may be stale by the time it begins; all that is kept
      of them is that the row exists, since rows are never deleted. */
  ghost predicate Next(p: Pools, s: State, a: Action, s': State)
    requires PoolsWellFormed(p)
  {
    match a
    case BeginRegister(n, id, userId, publicKey, now) =>
      && n !in s.txs && id !in s.ids
      && var tx := Tx(Creating(id, userId, publicKey, None, now), Checking, None, None, NOTHING);
         s' == s.(txs := s.txs[n := tx], ids := s.ids + {id})
    case BeginEnroll(n, id, key, secret, publicKey, now) =>
      && n !in s.txs && id !in s.ids
      && key in s.committed.keys && IsDeviceToken(secret)
      && var job := Creating(id, s.committed.keys[key].createdBy, publicKey, Some(Redemption(key, secret)), now);
         s' == s.(txs := s.txs[n := Tx(job, Consuming, None, None, NOTHING)], ids := s.ids + {id})
    case BeginRevoke(n, id, now) =>
      && n !in s.txs && id in s.committed.devices
      && s' == s.(txs := s.txs[n := Tx(Revoking(id, now), Releasing, None, None, NOTHING)])
    case Statement(n, candidate) =>
      && n in s.txs && !s.txs[n].phase.Done?
      && PhaseFits(p, s.txs[n]) && CandidateFits(p, s.txs[n], candidate)
      && (forall m :: m in s.txs && m != n ==> !WaitsFor(s.committed, s.txs[n], candidate, s.txs[m]))
      && var r := Exec(p, s.committed, s.txs[n], candidate);
         s' == s.(txs := if r.Some? then s.txs[n := r.value] else s.txs - {n})
    case Commit(n) =>
      && n in s.txs && s.txs[n].phase.Done?
      && s' == s.(committed := View(s.committed, s.txs[n].writes), txs := s.txs - {n})
    case Rollback(n) =>
      n in s.txs && s' == s.(txs := s.txs - {n})
    case Alone(op) =>
      && !op.Create? && !op.Revoke? && Enabled(p, s.committed, op)
      && (forall m :: m in s.txs ==> !OpWaitsFor(op, s.txs[m]))
      && s' == s.(committed := Effect(p, s.committed, op))
  }

  // ----- what holds of every transaction in flight -----

  predicate HasKey(tx: Tx) {
    tx.job.Creating? && tx.job.via.Some? && !tx.phase.Consuming?
  }

  predicate HasV4(tx: Tx) {
    tx.job.Creating? &&
    match tx.phase
    case Reading(f, _, _) => f.V6?
    case Inserting(f, _, _) => f.V6?
    case AddingDevice => true
    case AddingToken => true
    case Done => true
    case _ => false
  }

  predicate HasDevice(tx: Tx) {
    tx.job.Creating? && (tx.phase.AddingToken? || tx.phase.Done?)
  }

  predicate HasV6(p: Pools, tx: Tx) {
    p.v6.Some? && (HasDevice(tx) || (tx.job.Creating? && tx.phase.AddingDevice?))
  }

  predicate HasToken(tx: Tx) {
    tx.job.Creating? && tx.phase.Done? && tx.job.via.Some?
  }

  predicate CreatingKnown(t: Snapshot, tx: Tx)
    requires tx.job.Creating?
  {
    && tx.job.id !in t.devices
    && (tx.job.via.Some? ==>
          && tx.job.via.value.key in t.keys
          && t.keys[tx.job.via.value.key].createdBy == tx.job.userId
          && IsDeviceToken(tx.job.via.value.secret))
  }

  /** Everything the statements so far have established is still true of the committed tables. */
  ghost predicate CreatingHolds(p: Pools, t: Snapshot, tx: Tx)
    requires PoolsWellFormed(p) && tx.job.Creating? && CreatingKnown(t, tx)
  {
    && (HasKey(tx) ==> ConsumeGuard(t.keys[tx.job.via.value.key], tx.job.now))
    && (tx.v4.Some? ==> Claimable(p.v4, t, tx.v4.value))
    && (tx.v6.Some? ==> p.v6.Some? && Claimable(p.v6.value, t, tx.v6.value))
    && (HasDevice(tx) ==> PublicKeyFree(t, tx.job.publicKey))
    && (HasToken(tx) ==> SecretFree(t, tx.job.via.value.secret))
  }

  /** The private writes are exactly what the phase says they are. */
  predicate CreatingWrote(t: Snapshot, tx: Tx)
    requires tx.job.Creating? && CreatingKnown(t, tx)
  {
    && tx.writes.keys == (if HasKey(tx) then
                            map[tx.job.via.value.key := Consumed(t.keys[tx.job.via.value.key])]
                          else map[])
    && tx.writes.allocations ==
         (if tx.v4.Some? then map[tx.v4.value := Some(tx.job.id)] else map[]) +
         (if tx.v6.Some? then map[tx.v6.value := Some(tx.job.id)] else map[])
    && tx.writes.devices == (if HasDevice(tx) then map[tx.job.id := RowOf(tx)] else map[])
    && tx.writes.tokens == (if HasToken(tx) then map[tx.job.id := Some(HashToken(tx.job.via.value.secret))] else map[])
  }

  ghost predicate CreatingOk(p: Pools, t: Snapshot, tx: Tx)
    requires PoolsWellFormed(p)
  {
    && tx.job.Creating? && PhaseFits(p, tx)
    && (tx.v4.Some? <==> HasV4(tx))
    && (tx.v6.Some? <==> HasV6(p, tx))
    && CreatingKnown(t, tx)
    && CreatingHolds(p, t, tx)
    && CreatingWrote(t, tx)
  }

  predicate Released(tx: Tx) {
    tx.job.Revoking? && !tx.phase.Releasing?
  }

  predicate Marked(tx: Tx) {
    tx.job.Revoking? && (tx.phase.DroppingToken? || tx.phase.Done?)
  }

  function Deletions(t: Snapshot, id: Id): map<Addr, Option<Id>> {
    map a | a in Owned(t, id) :: None
  }

  ghost predicate RevokingOk(p: Pools, t: Snapshot, tx: Tx) {
    && tx.job.Revoking? && PhaseFits(p, tx)
    && tx.job.id in t.devices
    && (Marked(tx) ==> t.devices[tx.job.id].Live())
    && tx.writes.keys == map[]
    && tx.writes.allocations == (if Released(tx) then Deletions(t, tx.job.id) else map[])
    && tx.writes.devices ==
         (if Marked(tx) then map[tx.job.id := RevokedRow(t.devices[tx.job.id], tx.job.now)] else map[])
    && tx.writes.tokens == (if tx.phase.Done? && tx.job.id in t.tokens then map[tx.job.id := None] else map[])
  }

  ghost predicate TxOk(p: Pools, t: Snapshot, tx: Tx)
    requires PoolsWellFormed(p)
  {
    if tx.job.Creating? then CreatingOk(p, t, tx) else RevokingOk(p, t, tx)
  }

  /** Two transactions hold no common lock. */
  predicate Compatible(a: Tx, b: Tx) {
    && a.writes.allocations.Keys !! b.writes.allocations.Keys
    && a.writes.keys.Keys !! b.writes.keys.Keys
    && a.writes.devices.Keys !! b.writes.devices.Keys
    && a.writes.tokens.Keys !! b.writes.tokens.Keys
    && (a.job.Creating? && b.job.Creating? ==>
          && a.job.id != b.job.id
          && (HasDevice(a) && HasDevice(b) ==> a.job.publicKey != b.job.publicKey)
          && (HasToken(a) && HasToken(b) ==> a.job.via.value.secret != b.job.via.value.secret))
  }

  ghost predicate Inv(p: Pools, s: State)
    requires PoolsWellFormed(p)
  {
    && Consistent(p, s.committed)
    && s.committed.devices.Keys <= s.ids
    && (forall n :: n in s.txs ==> TxOk(p, s.committed, s.txs[n]))
    && (forall n :: n in s.txs && s.txs[n].job.Creating? ==> s.txs[n].job.id in s.ids)
    && (forall n, m :: n in s.txs && m in s.txs && n != m ==> Compatible(s.txs[n], s.txs[m]))
  }

  // ----- a commit is one atomic step -----

  function OpOf(tx: Tx): Op
    requires tx.job.Creating? ==> tx.v4.Some?
  {
    if tx.job.Creating? then
      Create(tx.job.id, tx.job.userId, tx.job.publicKey, tx.v4.value, tx.v6, tx.job.via, tx.job.now)
    else Revoke(tx.job.id, tx.job.now)
  }

  lemma OverlayAdds<K, V>(m: map<K, V>, k: K, v: V)
    ensures Overlay(m, map[k := Some(v)]) == m[k := v]
    ensures Overlay(m, map[]) == m
  {
  }

  lemma OverlayAddsTwo<K, V>(m: map<K, V>, j: K, k: K, v: V)
    ensures Overlay(m, map[j := Some(v)] + map[k := Some(v)]) == m[j := v] + map[k := v]
  {
  }

  lemma OverlayDrops<K, V>(m: map<K, V>, gone: set<K>)
    ensures Overlay(m, map k | k in gone :: None) == m - gone
  {
  }

  lemma CommittedAllocations(p: Pools, t: Snapshot, tx: Tx)
    requires PoolsWellFormed(p) && CreatingOk(p, t, tx) && tx.phase.Done?
    ensures View(t, tx.writes).allocations == Effect(p, t, OpOf(tx)).allocations
  {
    if tx.v6.Some? {
      OverlayAddsTwo(t.allocations, tx.v4.value, tx.v6.value, tx.job.id);
    } else {
      assert tx.writes.allocations == map[tx.v4.value := Some(tx.job.id)];
      OverlayAdds(t.allocations, tx.v4.value, tx.job.id);
      assert Effect(p, t, OpOf(tx)).allocations == t.allocations[tx.v4.value := tx.job.id];
    }
  }

  lemma CommittedTokens(p: Pools, t: Snapshot, tx: Tx)
    requires PoolsWellFormed(p) && CreatingOk(p, t, tx) && tx.phase.Done?
    ensures View(t, tx.writes).tokens == Effect(p, t, OpOf(tx)).tokens
  {
    OverlayAdds(t.tokens, tx.job.id, HashToken(if HasToken(tx) then tx.job.via.value.secret else ""));
  }

  lemma PlusOne<K, V>(m: map<K, V>, k: K, v: V)
    ensures m + map[k := v] == m[k := v]
    ensures m + map[] == m
  {
  }

  lemma CommittedRest(p: Pools, t: Snapshot, tx: Tx)
    requires PoolsWellFormed(p) && CreatingOk(p, t, tx) && tx.phase.Done?
    ensures View(t, tx.writes).devices == Effect(p, t, OpOf(tx)).devices
    ensures View(t, tx.writes).keys == Effect(p, t, OpOf(tx)).keys
  {
    PlusOne(t.devices, tx.job.id, RowOf(tx));
    assert RowOf(tx) == NewRow(OpOf(tx));
    if HasKey(tx) {
      var k := tx.job.via.value.key;
      PlusOne(t.keys, k, Consumed(t.keys[k]));
    }
  }

  lemma CreateIsEnabled(p: Pools, t: Snapshot, tx: Tx)
    requires PoolsWellFormed(p) && CreatingOk(p, t, tx) && tx.phase.Done?
    ensures Enabled(p, t, OpOf(tx))
  {
  }

  lemma RevokeCommit(p: Pools, t: Snapshot, tx: Tx)
    requires PoolsWellFormed(p) && RevokingOk(p, t, tx) && tx.phase.Done?
    ensures Enabled(p, t, OpOf(tx))
    ensures View(t, tx.writes) == Effect(p, t, OpOf(tx))
  {
    var id := tx.job.id;
    ReleasedAllocations(t, id);
    DroppedToken(t, tx);
    PlusOne(t.devices, id, RevokedRow(t.devices[id], tx.job.now));
    PlusNothing(t.keys, tx.writes.keys);
  }

  lemma PlusNothing<K, V>(m: map<K, V>, w: map<K, V>)
    requires w == map[]
    ensures m + w == m
  {
  }

  lemma ReleasedAllocations(t: Snapshot, id: Id)
    ensures Overlay(t.allocations, Deletions(t, id)) ==
            map a | a in t.allocations && t.allocations[a] != id :: t.allocations[a]
  {
    OverlayDrops(t.allocations, Owned(t, id));
  }

  lemma DroppedToken(t: Snapshot, tx: Tx)
    requires tx.writes.tokens == (if tx.job.id in t.tokens then map[tx.job.id := None] else map[])
    ensures Overlay(t.tokens, tx.writes.tokens) == t.tokens - {tx.job.id}
  {
  }

  /** The writes of a finished transaction, laid over whatever is committed by then, are one
      enabled atomic step. */
  lemma CommitIsAtomic(p: Pools, t: Snapshot, tx: Tx)
    requires PoolsWellFormed(p) && TxOk(p, t, tx) && tx.phase.Done?
    ensures Enabled(p, t, OpOf(tx))
    ensures View(t, tx.writes) == Effect(p, t, OpOf(tx))
  {
    if tx.job.Creating? {
      CreateIsEnabled(p, t, tx);
      CommittedAllocations(p, t, tx);
      CommittedTokens(p, t, tx);
      CommittedRest(p, t, tx);
    } else {
      RevokeCommit(p, t, tx);
    }
  }

  // ----- what a commit does to the transactions still running -----

  /** A creating transaction is undisturbed by a change of the tables that spares its locks. */
  lemma CreatingStable(p: Pools, t: Snapshot, u: Snapshot, tx: Tx)
    requires PoolsWellFormed(p) && CreatingOk(p, t, tx)
    requires tx.job.id !in u.devices
    requires tx.job.via.Some? ==>
               var k := tx.job.via.value.key;
               k in u.keys && u.keys[k].createdBy == t.keys[k].createdBy && (HasKey(tx) ==> u.keys[k] == t.keys[k])
    requires tx.v4.Some? ==> tx.v4.value !in u.allocations
    requires tx.v6.Some? ==> tx.v6.value !in u.allocations
    requires HasDevice(tx) ==> PublicKeyFree(u, tx.job.publicKey)
    requires HasToken(tx) ==> SecretFree(u, tx.job.via.value.secret)
    ensures CreatingOk(p, u, tx)
  {
  }

  lemma RevokingStable(p: Pools, t: Snapshot, u: Snapshot, tx: Tx)
    requires PoolsWellFormed(p) && RevokingOk(p, t, tx)
    requires tx.job.id in u.devices
    requires Released(tx) ==> Owned(u, tx.job.id) == Owned(t, tx.job.id)
    requires Marked(tx) ==> u.devices[tx.job.id] == t.devices[tx.job.id]
    requires tx.phase.Done? ==> (tx.job.id in u.tokens <==> tx.job.id in t.tokens)
    ensures RevokingOk(p, u, tx)
  {
    if Released(tx) {
      assert Deletions(u, tx.job.id) == Deletions(t, tx.job.id);
    }
  }

  lemma CreateSparesAddresses(p: Pools, t: Snapshot, tx: Tx, other: Tx)
    requires PoolsWellFormed(p) && CreatingOk(p, t, tx) && tx.phase.Done?
    requires CreatingOk(p, t, other) && Compatible(tx, other)
    ensures var u := Effect(p, t, OpOf(tx));
            && (other.v4.Some? ==> other.v4.value !in u.allocations)
            && (other.v6.Some? ==> other.v6.value !in u.allocations)
  {
    assert tx.v4.value in tx.writes.allocations;
    assert tx.v6.Some? ==> tx.v6.value in tx.writes.allocations;
    assert other.v4.Some? ==> other.v4.value in other.writes.allocations;
    assert other.v6.Some? ==> other.v6.value in other.writes.allocations;
  }

  lemma CreateSparesKey(p: Pools, t: Snapshot, tx: Tx, other: Tx)
    requires PoolsWellFormed(p) && CreatingOk(p, t, tx) && tx.phase.Done?
    requires CreatingOk(p, t, other) && Compatible(tx, other) && other.job.via.Some?
    ensures var u, k := Effect(p, t, OpOf(tx)), other.job.via.value.key;
            k in u.keys && u.keys[k].createdBy == t.keys[k].createdBy && (HasKey(other) ==> u.keys[k] == t.keys[k])
  {
    assert HasKey(tx) ==> tx.job.via.value.key in tx.writes.keys;
    assert HasKey(other) ==> other.job.via.value.key in other.writes.keys;
  }

  lemma CreateSparesUnique(p: Pools, t: Snapshot, tx: Tx, other: Tx)
    requires PoolsWellFormed(p) && CreatingOk(p, t, tx) && tx.phase.Done?
    requires CreatingOk(p, t, other) && Compatible(tx, other)
    ensures var u := Effect(p, t, OpOf(tx));
            && other.job.id !in u.devices
            && (HasDevice(other) ==> PublicKeyFree(u, other.job.publicKey))
            && (HasToken(other) ==> SecretFree(u, other.job.via.value.secret))
  {
  }

  lemma CreateThenCreate(p: Pools, t: Snapshot, tx: Tx, other: Tx)
    requires PoolsWellFormed(p) && CreatingOk(p, t, tx) && tx.phase.Done?
    requires CreatingOk(p, t, other) && Compatible(tx, other)
    ensures CreatingOk(p, Effect(p, t, OpOf(tx)), other)
  {
    CreateSparesAddresses(p, t, tx, other);
    if other.job.via.Some? {
      CreateSparesKey(p, t, tx, other);
    }
    CreateSparesUnique(p, t, tx, other);
    CreatingStable(p, t, Effect(p, t, OpOf(tx)), other);
  }

  lemma CreateThenRevoke(p: Pools, t: Snapshot, tx: Tx, other: Tx)
    requires PoolsWellFormed(p) && CreatingOk(p, t, tx) && tx.phase.Done?
    requires RevokingOk(p, t, other)
    ensures RevokingOk(p, Effect(p, t, OpOf(tx)), other)
  {
    var u := Effect(p, t, OpOf(tx));
    NewAddressesAreForeign(p, t, tx, other.job.id);
    RevokingStable(p, t, u, other);
  }

  lemma NewAddressesAreForeign(p: Pools, t: Snapshot, tx: Tx, id: Id)
    requires PoolsWellFormed(p) && CreatingOk(p, t, tx) && tx.phase.Done? && id != tx.job.id
    ensures Owned(Effect(p, t, OpOf(tx)), id) == Owned(t, id)
  {
    var u := Effect(p, t, OpOf(tx));
    assert tx.v4.value !in t.allocations && (tx.v6.Some? ==> tx.v6.value !in t.allocations);
    forall a ensures a in Owned(u, id) <==> a in Owned(t, id) {
      NewAddressIsForeign(p, t, OpOf(tx), a, id);
    }
  }

  lemma NewAddressIsForeign(p: Pools, t: Snapshot, op: Op, a: Addr, id: Id)
    requires PoolsWellFormed(p) && op.Create? && (op.via.Some? ==> op.via.value.key in t.keys)
    requires op.v4 !in t.allocations && (op.v6.Some? ==> op.v6.value !in t.allocations) && id != op.id
    ensures a in Owned(Effect(p, t, op), id) <==> a in Owned(t, id)
  {
  }

  lemma RevokeThenCreate(p: Pools, t: Snapshot, tx: Tx, other: Tx)
    requires PoolsWellFormed(p) && RevokingOk(p, t, tx) && tx.phase.Done?
    requires CreatingOk(p, t, other)
    ensures CreatingOk(p, Effect(p, t, OpOf(tx)), other)
  {
    var u := Effect(p, t, OpOf(tx));
    CreatingStable(p, t, u, other);
  }

  /** Two revocations of one live device never both get past the release: the device owns an address,
      and both would hold the lock on its row. */
  lemma OneRevocationAtATime(p: Pools, t: Snapshot, tx: Tx, other: Tx)
    requires PoolsWellFormed(p) && RevokingOk(p, t, tx) && RevokingOk(p, t, other) && Compatible(tx, other)
    requires t.devices[tx.job.id].Live() && DeviceAddressed(p, t, tx.job.id)
    requires Released(tx) && Released(other)
    ensures tx.job.id != other.job.id
  {
    var a := t.devices[tx.job.id].ipv4.value;
    assert a in Owned(t, tx.job.id) && a in tx.writes.allocations;
  }

  lemma RevokeThenRevoke(p: Pools, t: Snapshot, tx: Tx, other: Tx)
    requires PoolsWellFormed(p) && RevokingOk(p, t, tx) && tx.phase.Done?
    requires RevokingOk(p, t, other) && (Released(other) ==> tx.job.id != other.job.id)
    ensures RevokingOk(p, Effect(p, t, OpOf(tx)), other)
  {
    var u := Effect(p, t, OpOf(tx));
    assert tx.job.id != other.job.id ==> Owned(u, other.job.id) == Owned(t, other.job.id);
    RevokingStable(p, t, u, other);
  }

  lemma CommitSparesOthers(p: Pools, t: Snapshot, tx: Tx, other: Tx)
    requires Consistent(p, t) && TxOk(p, t, tx) && tx.phase.Done?
    requires TxOk(p, t, other) && Compatible(tx, other)
    ensures TxOk(p, View(t, tx.writes), other)
  {
    CommitIsAtomic(p, t, tx);
    if tx.job.Creating? {
      if other.job.Creating? {
        CreateThenCreate(p, t, tx, other);
      } else {
        CreateThenRevoke(p, t, tx, other);
      }
    } else {
      if other.job.Creating? {
        RevokeThenCreate(p, t, tx, other);
      } else {
        assert DeviceAddressed(p, t, tx.job.id);
        if Released(other) {
          OneRevocationAtATime(p, t, tx, other);
        }
        RevokeThenRevoke(p, t, tx, other);
      }
    }
  }

  lemma AloneSparesOthers(p: Pools, t: Snapshot, op: Op, other: Tx)
    requires PoolsWellFormed(p) && !op.Create? && !op.Revoke? && Enabled(p, t, op)
    requires TxOk(p, t, other) && !OpWaitsFor(op, other)
    ensures TxOk(p, Effect(p, t, op), other)
  {
    var u := Effect(p, t, op);
    if other.job.Creating? {
      assert HasKey(other) ==> other.job.via.value.key in other.writes.keys;
      CreatingStable(p, t, u, other);
    } else {
      assert Marked(other) ==> other.job.id in other.writes.devices;
      assert Owned(u, other.job.id) == Owned(t, other.job.id);
      RevokingStable(p, t, u, other);
    }
  }

  // ----- what a statement does to its own transaction -----

  lemma CandidateIsUsable(p: Pools, tx: Tx, candidate: Addr)
    requires PoolsWellFormed(p) && PhaseFits(p, tx) && CandidateFits(p, tx, candidate)
    requires tx.job.Creating? && tx.phase.Inserting?
    ensures Usable(PoolOf(p, tx.phase.family), candidate)
  {
    var pool, taken, scatter := PoolOf(p, tx.phase.family), tx.phase.taken, tx.phase.attempt > 0;
    var free: seq<Addr> :| Allocator.IsLowestFree(pool, taken, Allocator.Limit(scatter), free) && candidate in free;
    var i :| 0 <= i < |free| && free[i] == candidate;
    assert Allocator.Free(pool, taken, free[i]);
  }

  lemma ConsumeKeeps(p: Pools, t: Snapshot, tx: Tx, candidate: Addr)
    requires PoolsWellFormed(p) && CreatingOk(p, t, tx) && tx.phase.Consuming?
    requires Exec(p, t, tx, candidate).Some?
    ensures CreatingOk(p, t, Exec(p, t, tx, candidate).value)
  {
    var k := tx.job.via.value.key;
    assert View(t, tx.writes).keys == t.keys;
    assert map[][k := Consumed(t.keys[k])] == map[k := Consumed(t.keys[k])];
  }

  lemma CheckAndReadKeep(p: Pools, t: Snapshot, tx: Tx, candidate: Addr)
    requires PoolsWellFormed(p) && CreatingOk(p, t, tx) && (tx.phase.Checking? || tx.phase.Reading?)
    requires Exec(p, t, tx, candidate).Some?
    ensures CreatingOk(p, t, Exec(p, t, tx, candidate).value)
    ensures Exec(p, t, tx, candidate).value.writes == tx.writes
  {
  }

  lemma SeenAllocations(t: Snapshot, w: Writes, a: Addr)
    requires a !in View(t, w).allocations && (a in w.allocations ==> w.allocations[a].Some?)
    ensures a !in t.allocations && a !in w.allocations
  {
  }

  lemma InsertKeeps(p: Pools, t: Snapshot, tx: Tx, candidate: Addr)
    requires PoolsWellFormed(p) && CreatingOk(p, t, tx) && tx.phase.Inserting?
    requires CandidateFits(p, tx, candidate) && Exec(p, t, tx, candidate).Some?
    ensures CreatingOk(p, t, Exec(p, t, tx, candidate).value)
  {
    CandidateIsUsable(p, tx, candidate);
    if candidate !in View(t, tx.writes).allocations {
      SeenAllocations(t, tx.writes, candidate);
      ClaimKeeps(p, t, tx, candidate);
    }
  }

  lemma ClaimKeeps(p: Pools, t: Snapshot, tx: Tx, a: Addr)
    requires PoolsWellFormed(p) && CreatingOk(p, t, tx) && tx.phase.Inserting?
    requires Usable(PoolOf(p, tx.phase.family), a) && a !in t.allocations
    ensures CreatingOk(p, t, Claimed(p, tx, tx.phase.family, a))
  {
    var after := Claimed(p, tx, tx.phase.family, a);
    if tx.phase.family.V4? {
      assert after.writes.allocations == map[a := Some(tx.job.id)] + map[];
    } else {
      assert after.writes.allocations == map[tx.v4.value := Some(tx.job.id)] + map[a := Some(tx.job.id)];
    }
  }

  lemma AddDeviceKeeps(p: Pools, t: Snapshot, tx: Tx, candidate: Addr)
    requires PoolsWellFormed(p) && CreatingOk(p, t, tx) && tx.phase.AddingDevice?
    requires Exec(p, t, tx, candidate).Some?
    ensures CreatingOk(p, t, Exec(p, t, tx, candidate).value)
  {
    assert View(t, tx.writes).devices == t.devices;
    AddedDevice(p, t, tx, Exec(p, t, tx, candidate).value);
  }

  lemma AddedDevice(p: Pools, t: Snapshot, tx: Tx, after: Tx)
    requires PoolsWellFormed(p) && CreatingOk(p, t, tx) && tx.phase.AddingDevice?
    requires PublicKeyFree(t, tx.job.publicKey)
    requires after == tx.(phase := if tx.job.via.Some? then AddingToken else Done,
                          writes := tx.writes.(devices := tx.writes.devices[tx.job.id := RowOf(tx)]))
    ensures CreatingOk(p, t, after)
  {
    assert RowOf(after) == RowOf(tx);
    assert HasKey(after) == HasKey(tx);
    assert CreatingHolds(p, t, after);
    assert CreatingWrote(t, after);
  }

  lemma AddTokenKeeps(p: Pools, t: Snapshot, tx: Tx, candidate: Addr)
    requires PoolsWellFormed(p) && CreatingOk(p, t, tx) && tx.phase.AddingToken?
    requires Exec(p, t, tx, candidate).Some?
    ensures CreatingOk(p, t, Exec(p, t, tx, candidate).value)
  {
    assert View(t, tx.writes).tokens == t.tokens;
    assert RowOf(Exec(p, t, tx, candidate).value) == RowOf(tx);
  }

  lemma RevokingStatementKeeps(p: Pools, t: Snapshot, tx: Tx, candidate: Addr)
    requires PoolsWellFormed(p) && RevokingOk(p, t, tx) && !tx.phase.Done?
    requires Exec(p, t, tx, candidate).Some?
    ensures RevokingOk(p, t, Exec(p, t, tx, candidate).value)
  {
    var seen := View(t, tx.writes);
    assert Marked(tx) || seen.devices == t.devices;
    assert seen.tokens == t.tokens;
    if tx.phase.Releasing? {
      assert seen.allocations == t.allocations;
      assert Exec(p, t, tx, candidate).value.writes.allocations == Deletions(t, tx.job.id);
    }
  }

  lemma StatementKeeps(p: Pools, t: Snapshot, tx: Tx, candidate: Addr)
    requires PoolsWellFormed(p) && TxOk(p, t, tx) && !tx.phase.Done?
    requires CandidateFits(p, tx, candidate) && Exec(p, t, tx, candidate).Some?
    ensures TxOk(p, t, Exec(p, t, tx, candidate).value)
    ensures Exec(p, t, tx, candidate).value.job == tx.job
  {
    if tx.job.Revoking? {
      RevokingStatementKeeps(p, t, tx, candidate);
    } else {
      match tx.phase
      case Consuming => ConsumeKeeps(p, t, tx, candidate);
      case Checking => CheckAndReadKeep(p, t, tx, candidate);
      case Reading(_, _, _) => CheckAndReadKeep(p, t, tx, candidate);
      case Inserting(_, _, _) => InsertKeeps(p, t, tx, candidate);
      case AddingDevice => AddDeviceKeeps(p, t, tx, candidate);
      case AddingToken => AddTokenKeeps(p, t, tx, candidate);
    }
  }

  // ----- what a statement does to the locks -----

  lemma CompatibleSymmetric(a: Tx, b: Tx)
    requires Compatible(a, b)
    ensures Compatible(b, a)
  {
  }

  lemma CreatingLocksEarly(p: Pools, t: Snapshot, tx: Tx, candidate: Addr, other: Tx)
    requires PoolsWellFormed(p) && PhaseFits(p, tx) && tx.job.Creating?
    requires !tx.phase.AddingDevice? && !tx.phase.AddingToken? && !tx.phase.Done?
    requires Exec(p, t, tx, candidate).Some?
    requires Compatible(tx, other) && !WaitsFor(t, tx, candidate, other)
    ensures Compatible(Exec(p, t, tx, candidate).value, other)
  {
  }

  lemma AddingDeviceLocks(p: Pools, t: Snapshot, tx: Tx, candidate: Addr, other: Tx)
    requires PoolsWellFormed(p) && PhaseFits(p, tx) && tx.job.Creating? && tx.phase.AddingDevice?
    requires Exec(p, t, tx, candidate).Some?
    requires other.job.Creating? && HasDevice(other) ==>
               other.job.id in other.writes.devices &&
               other.writes.devices[other.job.id].publicKey == other.job.publicKey
    requires Compatible(tx, other) && !WaitsFor(t, tx, candidate, other)
    ensures Compatible(Exec(p, t, tx, candidate).value, other)
  {
  }

  lemma AddingTokenLocks(p: Pools, t: Snapshot, tx: Tx, candidate: Addr, other: Tx)
    requires PoolsWellFormed(p) && PhaseFits(p, tx) && tx.job.Creating? && tx.phase.AddingToken?
    requires Exec(p, t, tx, candidate).Some?
    requires other.job.Creating? && HasToken(other) ==>
               other.job.id in other.writes.tokens &&
               other.writes.tokens[other.job.id] == Some(HashToken(other.job.via.value.secret))
    requires Compatible(tx, other) && !WaitsFor(t, tx, candidate, other)
    ensures Compatible(Exec(p, t, tx, candidate).value, other)
  {
  }

  lemma RevokingLocks(p: Pools, t: Snapshot, tx: Tx, candidate: Addr, other: Tx)
    requires PoolsWellFormed(p) && RevokingOk(p, t, tx) && !tx.phase.Done?
    requires Exec(p, t, tx, candidate).Some?
    requires Compatible(tx, other) && !WaitsFor(t, tx, candidate, other)
    ensures Compatible(Exec(p, t, tx, candidate).value, other)
  {
    if tx.phase.Releasing? {
      assert View(t, tx.writes).allocations == t.allocations;
      assert Owned(View(t, tx.writes), tx.job.id) == Owned(t, tx.job.id);
    }
  }

  /** A statement that did not have to wait leaves the lock sets disjoint. */
  lemma StatementLocks(p: Pools, t: Snapshot, tx: Tx, candidate: Addr, other: Tx)
    requires PoolsWellFormed(p) && TxOk(p, t, tx) && !tx.phase.Done?
    requires Exec(p, t, tx, candidate).Some?
    requires TxOk(p, t, other) && Compatible(tx, other) && !WaitsFor(t, tx, candidate, other)
    ensures Compatible(Exec(p, t, tx, candidate).value, other)
    ensures Compatible(other, Exec(p, t, tx, candidate).value)
  {
    if tx.job.Revoking? {
      RevokingLocks(p, t, tx, candidate, other);
    } else if tx.phase.AddingDevice? {
      AddingDeviceLocks(p, t, tx, candidate, other);
    } else if tx.phase.AddingToken? {
      AddingTokenLocks(p, t, tx, candidate, other);
    } else {
      CreatingLocksEarly(p, t, tx, candidate, other);
    }
    CompatibleSymmetric(Exec(p, t, tx, candidate).value, other);
  }

  // ----- every step keeps the invariant and refines an atomic step -----

  lemma FreshTxOk(p: Pools, s: State, a: Action, s': State)
    requires PoolsWellFormed(p) && Next(p, s, a, s') && s.committed.devices.Keys <= s.ids
    requires a.BeginRegister? || a.BeginEnroll? || a.BeginRevoke?
    ensures a.tx !in s.txs && a.tx in s'.txs && s'.txs == s.txs[a.tx := s'.txs[a.tx]]
    ensures s'.committed == s.committed && s.ids <= s'.ids
    ensures TxOk(p, s.committed, s'.txs[a.tx]) && s'.txs[a.tx].writes == NOTHING
    ensures !s'.txs[a.tx].phase.Done? && !s'.txs[a.tx].phase.AddingToken?
    ensures s'.txs[a.tx].job.Creating? ==> s'.txs[a.tx].job.id !in s.ids && s'.txs[a.tx].job.id in s'.ids
  {
  }

  lemma FreshTxCompatible(tx: Tx, other: Tx)
    requires tx.writes == NOTHING && !tx.phase.Done? && !tx.phase.AddingToken?
    requires tx.job.Creating? && other.job.Creating? ==> tx.job.id != other.job.id
    ensures Compatible(tx, other) && Compatible(other, tx)
  {
  }

  /** One transaction replaced or added: the invariant needs checking only for that one. */
  lemma OneTxChanged(p: Pools, s: State, n: nat, tx: Tx, s': State)
    requires PoolsWellFormed(p) && Inv(p, s)
    requires s'.committed == s.committed && s'.txs == s.txs[n := tx] && s.ids <= s'.ids
    requires TxOk(p, s.committed, tx) && (tx.job.Creating? ==> tx.job.id in s'.ids)
    requires forall m :: m in s.txs && m != n ==> Compatible(tx, s.txs[m]) && Compatible(s.txs[m], tx)
    ensures Inv(p, s')
  {
    PairsCompatible(s.txs, n, tx);
  }

  lemma PairsCompatible(txs: map<nat, Tx>, n: nat, tx: Tx)
    requires forall a, b :: a in txs && b in txs && a != b ==> Compatible(txs[a], txs[b])
    requires forall m :: m in txs && m != n ==> Compatible(tx, txs[m]) && Compatible(txs[m], tx)
    ensures var after := txs[n := tx];
            forall a, b :: a in after && b in after && a != b ==> Compatible(after[a], after[b])
  {
    var after := txs[n := tx];
    forall a, b | a in after && b in after && a != b ensures Compatible(after[a], after[b]) {
      if a != n && b != n {
        assert after[a] == txs[a] && after[b] == txs[b];
      }
    }
  }

  lemma BeginKeeps(p: Pools, s: State, a: Action, s': State)
    requires PoolsWellFormed(p) && Inv(p, s) && Next(p, s, a, s')
    requires a.BeginRegister? || a.BeginEnroll? || a.BeginRevoke?
    ensures Inv(p, s')
  {
    FreshTxOk(p, s, a, s');
    var tx := s'.txs[a.tx];
    forall m | m in s.txs ensures Compatible(tx, s.txs[m]) && Compatible(s.txs[m], tx) {
      FreshTxCompatible(tx, s.txs[m]);
    }
    OneTxChanged(p, s, a.tx, tx, s');
  }

  lemma StatementStepKeeps(p: Pools, s: State, a: Action, s': State)
    requires PoolsWellFormed(p) && Inv(p, s) && Next(p, s, a, s') && a.Statement?
    ensures Inv(p, s')
  {
    var t, tx, r := s.committed, s.txs[a.tx], Exec(p, s.committed, s.txs[a.tx], a.candidate);
    if r.Some? {
      StatementKeeps(p, t, tx, a.candidate);
      forall m | m in s.txs && m != a.tx
        ensures Compatible(r.value, s.txs[m]) && Compatible(s.txs[m], r.value)
      {
        StatementLocks(p, t, tx, a.candidate, s.txs[m]);
      }
      OneTxChanged(p, s, a.tx, r.value, s');
    }
  }

  lemma DeviceIdsAfter(p: Pools, t: Snapshot, op: Op)
    requires PoolsWellFormed(p) && Enabled(p, t, op)
    ensures Effect(p, t, op).devices.Keys == t.devices.Keys + (if op.Create? then {op.id} else {})
  {
  }

  /** The committed tables changed and the transactions `gone` ended. */
  lemma TablesChanged(p: Pools, s: State, gone: set<nat>, s': State)
    requires PoolsWellFormed(p) && Inv(p, s)
    requires s'.txs == s.txs - gone && s'.ids == s.ids
    requires Consistent(p, s'.committed) && s'.committed.devices.Keys <= s.ids
    requires forall m :: m in s.txs && m !in gone ==> TxOk(p, s'.committed, s.txs[m])
    ensures Inv(p, s')
  {
  }

  lemma EffectIsConsistent(p: Pools, t: Snapshot, op: Op, u: Snapshot)
    requires Consistent(p, t) && Enabled(p, t, op) && u == Effect(p, t, op)
    ensures Consistent(p, u)
    ensures u.devices.Keys == t.devices.Keys + (if op.Create? then {op.id} else {})
  {
    StepKeepsConsistent(p, t, op);
    DeviceIdsAfter(p, t, op);
  }

  lemma CommittedIsConsistent(p: Pools, t: Snapshot, tx: Tx, u: Snapshot)
    requires Consistent(p, t) && TxOk(p, t, tx) && tx.phase.Done? && u == View(t, tx.writes)
    ensures Consistent(p, u)
    ensures u.devices.Keys == t.devices.Keys + (if tx.job.Creating? then {tx.job.id} else {})
  {
    CommitIsAtomic(p, t, tx);
    EffectIsConsistent(p, t, OpOf(tx), u);
  }

  lemma CommitStepKeeps(p: Pools, s: State, a: Action, s': State)
    requires PoolsWellFormed(p) && Inv(p, s) && Next(p, s, a, s') && a.Commit?
    ensures Inv(p, s')
  {
    var t, tx := s.committed, s.txs[a.tx];
    CommittedIsConsistent(p, t, tx, s'.committed);
    forall m | m in s.txs && m != a.tx ensures TxOk(p, s'.committed, s.txs[m]) {
      CommitSparesOthers(p, t, tx, s.txs[m]);
    }
    TablesChanged(p, s, {a.tx}, s');
  }

  lemma AloneSparesAll(p: Pools, s: State, op: Op, u: Snapshot)
    requires PoolsWellFormed(p) && !op.Create? && !op.Revoke? && Enabled(p, s.committed, op)
    requires u == Effect(p, s.committed, op)
    requires forall m :: m in s.txs ==> TxOk(p, s.committed, s.txs[m]) && !OpWaitsFor(op, s.txs[m])
    ensures forall m :: m in s.txs ==> TxOk(p, u, s.txs[m])
  {
    forall m | m in s.txs ensures TxOk(p, u, s.txs[m]) {
      AloneSparesOthers(p, s.committed, op, s.txs[m]);
    }
  }

  lemma AloneStepKeeps(p: Pools, s: State, a: Action, s': State)
    requires PoolsWellFormed(p) && Inv(p, s) && Next(p, s, a, s') && a.Alone?
    ensures Inv(p, s')
  {
    AloneKeeps(p, s, a.op, s'.committed, s');
  }

  lemma AloneKeeps(p: Pools, s: State, op: Op, u: Snapshot, s': State)
    requires PoolsWellFormed(p) && Inv(p, s) && !op.Create? && !op.Revoke? && Enabled(p, s.committed, op)
    requires u == Effect(p, s.committed, op) && s' == s.(committed := u)
    requires forall m :: m in s.txs ==> !OpWaitsFor(op, s.txs[m])
    ensures Inv(p, s')
  {
    AloneIsConsistent(p, s.committed, op, u);
    AloneSparesAll(p, s, op, u);
    NoneGone(s.txs);
    TablesChanged(p, s, {}, s');
  }

  lemma NoneGone(txs: map<nat, Tx>)
    ensures txs - {} == txs
  {
  }

  lemma AloneIsConsistent(p: Pools, t: Snapshot, op: Op, u: Snapshot)
    requires Consistent(p, t) && !op.Create? && Enabled(p, t, op) && u == Effect(p, t, op)
    ensures Consistent(p, u) && u.devices.Keys == t.devices.Keys
  {
    EffectIsConsistent(p, t, op, u);
  }

  /** The atomic step an action performs on the committed tables, if any. */
  function Published(s: State, a: Action): Option<Op>
    requires a.Commit? ==> a.tx in s.txs && (s.txs[a.tx].job.Creating? ==> s.txs[a.tx].v4.Some?)
  {
    match a
    case Commit(n) => Some(OpOf(s.txs[n]))
    case Alone(op) => Some(op)
    case _ => None
  }

  lemma CommitPublishes(p: Pools, s: State, a: Action, s': State)
    requires PoolsWellFormed(p) && a.Commit? && Next(p, s, a, s') && TxOk(p, s.committed, s.txs[a.tx])
    ensures s.txs[a.tx].job.Creating? ==> s.txs[a.tx].v4.Some?
    ensures Enabled(p, s.committed, OpOf(s.txs[a.tx]))
    ensures s'.committed == Effect(p, s.committed, OpOf(s.txs[a.tx]))
  {
    CommitIsAtomic(p, s.committed, s.txs[a.tx]);
  }

  /** Refinement. Every step keeps the invariant; it changes the committed tables only by
      committing, and then by exactly one enabled atomic step. */
  lemma StepRefines(p: Pools, s: State, a: Action, s': State)
    requires PoolsWellFormed(p) && Inv(p, s) && Next(p, s, a, s')
    ensures Inv(p, s')
    ensures a.Commit? ==> a.tx in s.txs && (s.txs[a.tx].job.Creating? ==> s.txs[a.tx].v4.Some?)
    ensures match Published(s, a)
            case None => s'.committed == s.committed
            case Some(op) => Enabled(p, s.committed, op) && s'.committed == Effect(p, s.committed, op)
  {
    match a
    case Statement(_, _) => StatementStepKeeps(p, s, a, s');
    case Commit(_) =>
      CommitPublishes(p, s, a, s');
      CommitStepKeeps(p, s, a, s');
    case Alone(_) => AloneStepKeeps(p, s, a, s');
    case Rollback(_) =>
    case _ => BeginKeeps(p, s, a, s');
  }

  // ----- whole runs -----

  ghost predicate IsRun(p: Pools, states: seq<State>, actions: seq<Action>) {
    && PoolsWellFormed(p)
    && |states| == |actions| + 1
    && states[0] == INIT
    && forall i :: 0 <= i < |actions| ==> Next(p, states[i], actions[i], states[i + 1])
  }

  /** In every reachable state the tables are consistent. */
  lemma {:induction false} RunKeepsInvariant(p: Pools, states: seq<State>, actions: seq<Action>, i: nat)
    requires IsRun(p, states, actions) && i < |states|
    ensures Inv(p, states[i])
  {
    if i == 0 {
      EmptyIsConsistent(p);
    } else {
      RunKeepsInvariant(p, states, actions, i - 1);
      StepRefines(p, states[i - 1], actions[i - 1], states[i]);
    }
  }

  /** Between any two points of a run nothing is undone. */
  lemma RunAdvances(p: Pools, states: seq<State>, actions: seq<Action>, i: nat, j: nat)
    requires IsRun(p, states, actions) && i <= j < |states|
    ensures Advances(states[i].committed, states[j].committed)
  {
    forall k | i <= k < j ensures AdvancesAt(states, k) {
      RunStepAdvances(p, states, actions, k);
    }
    AdvancesAlong(states, i, j);
  }

  ghost predicate AdvancesAt(states: seq<State>, k: nat)
    requires k + 1 < |states|
  {
    Advances(states[k].committed, states[k + 1].committed)
  }

  lemma {:induction false} AdvancesAlong(states: seq<State>, i: nat, j: nat)
    requires i <= j < |states|
    requires forall k :: i <= k < j ==> AdvancesAt(states, k)
    ensures Advances(states[i].committed, states[j].committed)
    decreases j - i
  {
    if i < j {
      AdvancesAlong(states, i, j - 1);
      assert AdvancesAt(states, j - 1);
      AdvancesTransitive(states[i].committed, states[j - 1].committed, states[j].committed);
    } else {
      NothingAdvances(states[i].committed);
    }
  }

  lemma RunStepAdvances(p: Pools, states: seq<State>, actions: seq<Action>, i: nat)
    requires IsRun(p, states, actions) && i < |actions|
    ensures AdvancesAt(states, i)
  {
    RunKeepsInvariant(p, states, actions, i);
    NextAdvances(p, states[i], actions[i], states[i + 1]);
  }

  lemma NothingAdvances(t: Snapshot)
    ensures Advances(t, t)
  {
  }

  lemma NextAdvances(p: Pools, s: State, a: Action, s': State)
    requires PoolsWellFormed(p) && Inv(p, s) && Next(p, s, a, s')
    ensures Advances(s.committed, s'.committed)
  {
    StepRefines(p, s, a, s');
    match Published(s, a) {
      case None => NothingAdvances(s.committed);
      case Some(op) => StepAdvances(p, s.committed, op);
    }
  }

  /** A transaction about to insert a device with this public key. */
  predicate AtDeviceInsert(p: Pools, tx: Tx, publicKey: string) {
    && tx.job.Creating? && tx.phase.AddingDevice? && PhaseFits(p, tx)
    && tx.job.publicKey == publicKey && tx.writes.devices == map[]
  }

  /** Once a device's revocation is committed its row is frozen for the rest of the run, no token
      authenticates it, and no later transaction gets its public key past the unique index. */
  lemma RevocationIsFinal(p: Pools, states: seq<State>, actions: seq<Action>, i: nat, j: nat, d: Id)
    requires IsRun(p, states, actions) && i <= j < |states|
    requires d in states[i].committed.devices && !states[i].committed.devices[d].Live()
    ensures var t, u := states[i].committed, states[j].committed;
            && d in u.devices && u.devices[d] == t.devices[d]
            && (forall token :: !Authenticates(u, token, d))
            && (forall e :: e in u.devices && u.devices[e].publicKey == t.devices[d].publicKey ==> e == d)
            && (forall tx: Tx, c: Addr :: AtDeviceInsert(p, tx, t.devices[d].publicKey) ==> Exec(p, u, tx, c).None?)
  {
    RunAdvances(p, states, actions, i, j);
    RunKeepsInvariant(p, states, actions, j);
    var t, u := states[i].committed, states[j].committed;
    assert DeviceAdvances(t, u, d);
    RevokedIsLockedOut(u, d);
    forall tx: Tx, c: Addr | AtDeviceInsert(p, tx, t.devices[d].publicKey)
      ensures Exec(p, u, tx, c).None?
    {
      TakenKeyIsRefused(p, u, d, tx, c);
    }
  }

  lemma RevokedIsLockedOut(t: Snapshot, d: Id)
    requires PublicKeysUnique(t) && d in t.devices && !t.devices[d].Live()
    ensures forall token :: !Authenticates(t, token, d)
    ensures forall e :: e in t.devices && t.devices[e].publicKey == t.devices[d].publicKey ==> e == d
  {
  }

  /** The unique index turns away a public key that is in the table, whoever holds it. */
  lemma TakenKeyIsRefused(p: Pools, t: Snapshot, d: Id, tx: Tx, c: Addr)
    requires PoolsWellFormed(p) && d in t.devices && AtDeviceInsert(p, tx, t.devices[d].publicKey)
    ensures Exec(p, t, tx, c).None?
  {
    assert View(t, tx.writes).devices == t.devices;
    assert !PublicKeyFree(View(t, tx.writes), tx.job.publicKey);
  }

  /** Once a setup key's revocation is committed its row is frozen: its first revocation time
      stands and it enrols nothing more. */
  lemma KeyRevocationIsFinal(p: Pools, states: seq<State>, actions: seq<Action>, i: nat, j: nat, k: Id)
    requires IsRun(p, states, actions) && i <= j < |states|
    requires k in states[i].committed.keys && states[i].committed.keys[k].revokedAt.Some?
    ensures var t, u := states[i].committed, states[j].committed;
            && k in u.keys && u.keys[k] == t.keys[k]
            && |EnrolledBy(u, k)| == |EnrolledBy(t, k)|
  {
    RunAdvances(p, states, actions, i, j);
    RunKeepsInvariant(p, states, actions, i);
    RunKeepsInvariant(p, states, actions, j);
    assert KeyAdvances(states[i].committed, states[j].committed, k);
    assert KeyAccounted(states[i].committed, k) && KeyAccounted(states[j].committed, k);
  }
}
