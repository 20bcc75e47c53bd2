/** Where the rows of a run come from: every device there is was asked for, once, by one Register or one
    Enroll, and is what that call asked for. */
module EnrolmentOrigins {
  import opened Common
  import opened Addressing
  import opened Tables
  import opened Enrolment

  /** Step k of a run asks for device d, for this user, with this public key, key and time. An enrolment
      asks for whoever created the setup key. */
  ghost predicate AsksFor(states: seq<State>, actions: seq<Action>, k: nat, d: Id, userId: Id, publicKey: string,
                          enrolledWith: Option<Id>, createdAt: Time)
    requires k < |actions| && k < |states|
  {
    match actions[k]
    case BeginRegister(_, id, user, text, now) =>
      id == d && user == userId && text == publicKey && enrolledWith.None? && now == createdAt
    case BeginEnroll(_, id, key, _, text, now) =>
      && id == d && text == publicKey && enrolledWith == Some(key) && now == createdAt
      && key in states[k].committed.keys && states[k].committed.keys[key].createdBy == userId
    case _ => false
  }

  function KeyUsed(job: Job): Option<Id>
    requires job.Creating?
  {
    if job.via.Some? then Some(job.via.value.key) else None
  }

  ghost predicate TxHasOrigin(states: seq<State>, actions: seq<Action>, i: nat, tx: Tx)
    requires i <= |actions| && i <= |states|
  {
    tx.job.Creating? ==>
      exists k :: 0 <= k < i &&
                  AsksFor(states, actions, k, tx.job.id, tx.job.userId, tx.job.publicKey, KeyUsed(tx.job), tx.job.now)
  }

  ghost predicate RowHasOrigin(states: seq<State>, actions: seq<Action>, i: nat, d: Id, row: Device)
    requires i <= |actions| && i <= |states|
  {
    exists k :: 0 <= k < i && AsksFor(states, actions, k, d, row.userId, row.publicKey, row.enrolledWith, row.createdAt)
  }

  ghost predicate AllHaveOrigins(states: seq<State>, actions: seq<Action>, i: nat)
    requires i <= |actions| && i < |states|
  {
    && (forall n :: n in states[i].txs ==> TxHasOrigin(states, actions, i, states[i].txs[n]))
    && (forall d :: d in states[i].committed.devices ==>
          RowHasOrigin(states, actions, i, d, states[i].committed.devices[d]))
  }

  lemma TxStep(p: Pools, states: seq<State>, actions: seq<Action>, i: nat, n: nat)
    requires PoolsWellFormed(p) && i < |actions| && i + 1 < |states|
    requires Inv(p, states[i]) && Next(p, states[i], actions[i], states[i + 1]) && n in states[i + 1].txs
    requires n in states[i].txs ==> TxHasOrigin(states, actions, i, states[i].txs[n])
    ensures TxHasOrigin(states, actions, i + 1, states[i + 1].txs[n])
  {
    var s, s', a := states[i], states[i + 1], actions[i];
    if n in s.txs {
      if a.Statement? && a.tx == n {
        StatementKeeps(p, s.committed, s.txs[n], a.candidate);
      }
      assert s'.txs[n].job == s.txs[n].job;
    } else if s'.txs[n].job.Creating? {
      var job := s'.txs[n].job;
      assert AsksFor(states, actions, i, job.id, job.userId, job.publicKey, KeyUsed(job), job.now);
    }
  }

  lemma OnlyCommitsAdd(p: Pools, s: State, a: Action, s': State, d: Id)
    requires PoolsWellFormed(p) && Next(p, s, a, s')
    requires d in s'.committed.devices && d !in s.committed.devices
    ensures a.Commit?
  {
    if a.Alone? {
      DeviceIdsAfter(p, s.committed, a.op);
    }
  }

  /** The row a finished transaction adds is the one its job describes. */
  lemma CommittedRow(p: Pools, t: Snapshot, tx: Tx, d: Id)
    requires PoolsWellFormed(p) && TxOk(p, t, tx) && tx.phase.Done?
    requires d in View(t, tx.writes).devices && d !in t.devices
    ensures tx.job.Creating? && d == tx.job.id
    ensures var job, row := tx.job, View(t, tx.writes).devices[d];
            && row.userId == job.userId && row.publicKey == job.publicKey && row.createdAt == job.now
            && row.enrolledWith == KeyUsed(job)
  {
    assert d in tx.writes.devices;
  }

  lemma RowStep(p: Pools, states: seq<State>, actions: seq<Action>, i: nat, d: Id)
    requires PoolsWellFormed(p) && i < |actions| && i + 1 < |states|
    requires Inv(p, states[i]) && Next(p, states[i], actions[i], states[i + 1])
    requires AllHaveOrigins(states, actions, i) && d in states[i + 1].committed.devices
    ensures RowHasOrigin(states, actions, i + 1, d, states[i + 1].committed.devices[d])
  {
    var t, u := states[i].committed, states[i + 1].committed;
    if d in t.devices {
      NextAdvances(p, states[i], actions[i], states[i + 1]);
      assert DeviceAdvances(t, u, d);
      assert RowHasOrigin(states, actions, i, d, t.devices[d]);
    } else {
      OnlyCommitsAdd(p, states[i], actions[i], states[i + 1], d);
      CommittedRow(p, t, states[i].txs[actions[i].tx], d);
      assert TxHasOrigin(states, actions, i, states[i].txs[actions[i].tx]);
    }
  }

  lemma {:induction false} Origins(p: Pools, states: seq<State>, actions: seq<Action>, i: nat)
    requires IsRun(p, states, actions) && i < |states|
    ensures AllHaveOrigins(states, actions, i)
  {
    if i > 0 {
      Origins(p, states, actions, i - 1);
      RunKeepsInvariant(p, states, actions, i - 1);
      assert Next(p, states[i - 1], actions[i - 1], states[i]);
      forall n | n in states[i].txs ensures TxHasOrigin(states, actions, i, states[i].txs[n]) {
        TxStep(p, states, actions, i - 1, n);
      }
      forall d | d in states[i].committed.devices
        ensures RowHasOrigin(states, actions, i, d, states[i].committed.devices[d])
      {
        RowStep(p, states, actions, i - 1, d);
      }
    }
  }

  predicate Requests(a: Action, d: Id) {
    (a.BeginRegister? || a.BeginEnroll?) && a.id == d
  }

  lemma {:induction false} IdsGrow(p: Pools, states: seq<State>, actions: seq<Action>, i: nat, j: nat)
    requires IsRun(p, states, actions) && i <= j < |states|
    ensures states[i].ids <= states[j].ids
    decreases j - i
  {
    if i < j {
      IdsGrow(p, states, actions, i, j - 1);
      assert Next(p, states[j - 1], actions[j - 1], states[j]);
    }
  }

  lemma RequestedOnce(p: Pools, states: seq<State>, actions: seq<Action>, j: nat, k: nat, d: Id)
    requires IsRun(p, states, actions) && j < |actions| && k < |actions|
    requires Requests(actions[j], d) && Requests(actions[k], d)
    ensures j == k
  {
    assert Next(p, states[j], actions[j], states[j + 1]) && Next(p, states[k], actions[k], states[k + 1]);
    if j < k {
      IdsGrow(p, states, actions, j + 1, k);
    } else if k < j {
      IdsGrow(p, states, actions, k + 1, j);
    }
  }

  /** In every reachable state, every device was asked for by exactly one call of the run, the one that
      carried its id: it belongs to the user of that Register, or to the creator of that Enroll's key, and its
      public key, key used and creation time are that call's. */
  lemma DeviceIsAsRequested(p: Pools, states: seq<State>, actions: seq<Action>, i: nat, d: Id) returns (k: nat)
    requires IsRun(p, states, actions) && i < |states| && d in states[i].committed.devices
    ensures k < i && Requests(actions[k], d)
    ensures var row := states[i].committed.devices[d];
            AsksFor(states, actions, k, d, row.userId, row.publicKey, row.enrolledWith, row.createdAt)
    ensures forall j :: 0 <= j < |actions| && Requests(actions[j], d) ==> j == k
  {
    Origins(p, states, actions, i);
    var row := states[i].committed.devices[d];
    assert RowHasOrigin(states, actions, i, d, row);
    k :| 0 <= k < i && AsksFor(states, actions, k, d, row.userId, row.publicKey, row.enrolledWith, row.createdAt);
    forall j | 0 <= j < |actions| && Requests(actions[j], d) ensures j == k {
      RequestedOnce(p, states, actions, j, k, d);
    }
  }
}
