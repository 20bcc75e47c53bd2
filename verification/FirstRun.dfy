/** First start of an installation: claiming it for its first administrator, and giving it an
    identity. Both are conditional inserts into server_metadata raced by any number of requests and
    servers, statement by statement.

    A transaction's inserts are private until it commits. An insert of a key that another
    transaction has inserted waits for that transaction to end (the primary key of server_metadata).
    Accounts are created by the bootstrap transaction only. */
module FirstRun {
  import opened Common

  const CLAIMED := "bootstrap_claimed_at"
  const INSTANCE := "instance_id"
  const INITIALISED := "initialised_at"

  type Metadata = map<string, string>

  datatype Account = Account(id: string, email: string)

  datatype BootPhase = Claiming | AddingUser | BootCommitting

  datatype IdentPhase = Reading | InsertingId | InsertingTime | IdentCommitting | Rereading

  /** A bootstrap request, or a call to InstanceID, in flight. */
  datatype Proc =
    | Boot(boot: BootPhase, account: Account, stamp: string, writes: Metadata)
    | Ident(ident: IdentPhase, candidate: string, stamp: string, writes: Metadata)

  /** `claims` counts the bootstrap transactions committed so far and `answers` collects every value
      InstanceID has returned; neither is stored. */
  datatype State = State(
    metadata: Metadata,
    users: map<string, string>,
    procs: map<nat, Proc>,
    claims: nat,
    answers: set<string>)

  const INIT := State(map[], map[], map[], 0, {})

  datatype Action =
    | Bootstrap(n: nat, account: Account, stamp: string)
    | AskIdentity(n: nat, candidate: string, stamp: string)
    | Step(n: nat, acceptable: bool)
    | Fail(n: nat)

  /** BootstrapClaimed. */
  predicate IsClaimed(s: State) {
    CLAIMED in s.metadata
  }

  /** The key the next statement of a process inserts. */
  function Inserts(p: Proc): Option<string> {
    match p
    case Boot(Claiming, _, _, _) => Some(CLAIMED)
    case Ident(InsertingId, _, _, _) => Some(INSTANCE)
    case Ident(InsertingTime, _, _, _) => Some(INITIALISED)
    case _ => None
  }

  function Gone(s: State, n: nat): State {
    s.(procs := s.procs - {n})
  }

  function Put(s: State, n: nat, p: Proc): State {
    s.(procs := s.procs[n := p])
  }

  /** INSERT ... ON CONFLICT (key) DO NOTHING. */
  function InsertIfAbsent(m: Metadata, writes: Metadata, key: string, value: string): Metadata {
    if key in m || key in writes then writes else writes[key := value]
  }

  predicate EmailTaken(users: map<string, string>, email: string) {
    exists u :: u in users && users[u] == email
  }

  /** One statement of process n. `acceptable` is whether the account passes validation. */
  function Stepped(s: State, n: nat, acceptable: bool): State
    requires n in s.procs
  {
    var p := s.procs[n];
    match p
    case Boot(Claiming, account, stamp, w) =>
      if CLAIMED in s.metadata then Gone(s, n)
      else Put(s, n, Boot(AddingUser, account, stamp, w[CLAIMED := stamp]))
    case Boot(AddingUser, account, stamp, w) =>
      if !acceptable || account.id in s.users || EmailTaken(s.users, account.email) then Gone(s, n)
      else Put(s, n, Boot(BootCommitting, account, stamp, w))
    case Boot(BootCommitting, account, stamp, w) =>
      Gone(s, n).(metadata := s.metadata + w, users := s.users[account.id := account.email], claims := s.claims + 1)
    case Ident(Reading, candidate, stamp, w) =>
      if INSTANCE in s.metadata then Gone(s, n).(answers := s.answers + {s.metadata[INSTANCE]})
      else Put(s, n, p.(ident := InsertingId))
    case Ident(InsertingId, candidate, stamp, w) =>
      Put(s, n, Ident(InsertingTime, candidate, stamp, InsertIfAbsent(s.metadata, w, INSTANCE, candidate)))
    case Ident(InsertingTime, candidate, stamp, w) =>
      Put(s, n, Ident(IdentCommitting, candidate, stamp, InsertIfAbsent(s.metadata, w, INITIALISED, stamp)))
    case Ident(IdentCommitting, candidate, stamp, w) =>
      Put(s, n, Ident(Rereading, candidate, stamp, map[])).(metadata := s.metadata + w)
    case Ident(Rereading, candidate, stamp, w) =>
      if INSTANCE in s.metadata then Gone(s, n).(answers := s.answers + {s.metadata[INSTANCE]}) else Gone(s, n)
  }

  ghost predicate Next(s: State, a: Action, s': State) {
    match a
    case Bootstrap(n, account, stamp) => n !in s.procs && s' == Put(s, n, Boot(Claiming, account, stamp, map[]))
    case AskIdentity(n, candidate, stamp) => n !in s.procs && s' == Put(s, n, Ident(Reading, candidate, stamp, map[]))
    case Step(n, acceptable) =>
      && n in s.procs
      && (forall m :: m in s.procs && m != n && Inserts(s.procs[n]).Some? ==>
            Inserts(s.procs[n]).value !in s.procs[m].writes)
      && s' == Stepped(s, n, acceptable)
    case Fail(n) => n in s.procs && s' == Gone(s, n)
  }

  // ----- the invariant -----

  predicate ProcOk(p: Proc, m: Metadata) {
    && p.writes.Keys !! m.Keys
    && match p
       case Boot(Claiming, _, _, w) => w == map[]
       case Boot(_, _, stamp, w) => w == map[CLAIMED := stamp]
       case Ident(Reading, _, _, w) => w == map[]
       case Ident(InsertingId, _, _, w) => w == map[]
       case Ident(InsertingTime, _, _, w) => w.Keys <= {INSTANCE}
       case Ident(_, _, _, w) => w.Keys <= {INSTANCE, INITIALISED}
  }

  ghost predicate Inv(s: State) {
    && (IsClaimed(s) <==> s.users != map[])
    && s.claims == (if IsClaimed(s) then 1 else 0)
    && (forall n :: n in s.procs ==> ProcOk(s.procs[n], s.metadata))
    && (forall n, m :: n in s.procs && m in s.procs && n != m ==> s.procs[n].writes.Keys !! s.procs[m].writes.Keys)
    && s.answers <= (if INSTANCE in s.metadata then {s.metadata[INSTANCE]} else {})
  }

  /** A commit publishes rows nobody else has written and changes no row that was there. */
  lemma CommitKeeps(s: State, n: nat, acceptable: bool)
    requires Inv(s) && n in s.procs
    requires s.procs[n].Boot? ==> s.procs[n].boot.BootCommitting?
    requires s.procs[n].Ident? ==> s.procs[n].ident.IdentCommitting?
    ensures Inv(Stepped(s, n, acceptable))
  {
    var s', w := Stepped(s, n, acceptable), s.procs[n].writes;
    assert ProcOk(s.procs[n], s.metadata);
    assert |CLAIMED| != |INSTANCE| && |CLAIMED| != |INITIALISED|;
    if s.procs[n].Boot? {
      assert s.procs[n].account.id in s'.users && CLAIMED in w;
    }
    forall m | m in s'.procs ensures ProcOk(s'.procs[m], s'.metadata) {
      if m != n {
        assert ProcOk(s.procs[m], s.metadata) && s.procs[m].writes.Keys !! w.Keys;
        assert s'.metadata.Keys == s.metadata.Keys + w.Keys;
      }
    }
  }

  lemma InsertKeeps(s: State, n: nat, acceptable: bool)
    requires Inv(s) && n in s.procs && Inserts(s.procs[n]).Some?
    requires forall m :: m in s.procs && m != n ==> Inserts(s.procs[n]).value !in s.procs[m].writes
    ensures Inv(Stepped(s, n, acceptable))
  {
    var s' := Stepped(s, n, acceptable);
    assert ProcOk(s.procs[n], s.metadata);
    if n in s'.procs {
      assert ProcOk(s'.procs[n], s'.metadata);
      assert s'.procs[n].writes.Keys <= s.procs[n].writes.Keys + {Inserts(s.procs[n]).value};
    }
  }

  lemma OtherStepKeeps(s: State, n: nat, acceptable: bool)
    requires Inv(s) && n in s.procs && Inserts(s.procs[n]).None?
    requires s.procs[n].Boot? ==> s.procs[n].boot.AddingUser?
    requires s.procs[n].Ident? ==> s.procs[n].ident.Reading? || s.procs[n].ident.Rereading?
    ensures Inv(Stepped(s, n, acceptable))
  {
    assert ProcOk(s.procs[n], s.metadata);
  }

  lemma StepKeeps(s: State, a: Action, s': State)
    requires Inv(s) && Next(s, a, s')
    ensures Inv(s')
    ensures forall k :: k in s.metadata ==> k in s'.metadata && s'.metadata[k] == s.metadata[k]
    ensures s.answers <= s'.answers
  {
    match a
    case Step(n, acceptable) =>
      var p := s.procs[n];
      assert ProcOk(p, s.metadata);
      if Inserts(p).Some? {
        InsertKeeps(s, n, acceptable);
      } else if (p.Boot? && p.boot.BootCommitting?) || (p.Ident? && p.ident.IdentCommitting?) {
        CommitKeeps(s, n, acceptable);
      } else {
        OtherStepKeeps(s, n, acceptable);
      }
    case _ =>
  }

  // ----- whole runs -----

  ghost predicate IsRun(states: seq<State>, actions: seq<Action>) {
    && |states| == |actions| + 1
    && states[0] == INIT
    && forall i :: 0 <= i < |actions| ==> Next(states[i], actions[i], states[i + 1])
  }

  /** In every reachable state: at most one bootstrap has ever committed, and "there are no users"
      is the same as "not claimed". */
  lemma {:induction false} ClaimedOnce(states: seq<State>, actions: seq<Action>, i: nat)
    requires IsRun(states, actions) && i < |states|
    ensures Inv(states[i])
    ensures states[i].claims <= 1
    ensures |states[i].users| == 0 <==> !IsClaimed(states[i])
  {
    if i > 0 {
      ClaimedOnce(states, actions, i - 1);
      StepKeeps(states[i - 1], actions[i - 1], states[i]);
    }
  }

  lemma {:induction false} MetadataStays(states: seq<State>, actions: seq<Action>, i: nat, j: nat)
    requires IsRun(states, actions) && i <= j < |states|
    ensures forall k :: k in states[i].metadata ==>
              k in states[j].metadata && states[j].metadata[k] == states[i].metadata[k]
    ensures states[i].answers <= states[j].answers
    decreases j - i
  {
    if i < j {
      MetadataStays(states, actions, i, j - 1);
      ClaimedOnce(states, actions, j - 1);
      StepKeeps(states[j - 1], actions[j - 1], states[j]);
    }
  }

  /** Every successful InstanceID call of a run, by whichever server and however raced, returns the
      one value that is stored from then on. */
  lemma OneIdentityForever(states: seq<State>, actions: seq<Action>, i: nat, j: nat, a: string, b: string)
    requires IsRun(states, actions) && i < |states| && j < |states|
    requires a in states[i].answers && b in states[j].answers
    ensures a == b
    ensures INSTANCE in states[j].metadata && states[j].metadata[INSTANCE] == a
  {
    ClaimedOnce(states, actions, i);
    ClaimedOnce(states, actions, j);
    if i <= j {
      MetadataStays(states, actions, i, j);
    } else {
      MetadataStays(states, actions, j, i);
    }
  }

  /** As long as no bootstrap has committed, a rejected or abandoned attempt leaves the installation
      claimable: with no other attempt in flight, an acceptable account gets it in four steps. */
  lemma StillClaimable(states: seq<State>, actions: seq<Action>, n: nat, account: Account, stamp: string)
    returns (s1: State, s2: State, s3: State, s4: State)
    requires IsRun(states, actions)
    requires var s := states[|actions|];
             && !IsClaimed(s) && n !in s.procs
             && forall m :: m in s.procs ==> CLAIMED !in s.procs[m].writes
    ensures Next(states[|actions|], Bootstrap(n, account, stamp), s1) && Next(s1, Step(n, true), s2)
    ensures Next(s2, Step(n, true), s3) && Next(s3, Step(n, true), s4)
    ensures IsClaimed(s4) && s4.users == map[account.id := account.email]
  {
    var s := states[|actions|];
    ClaimedOnce(states, actions, |actions|);
    s1 := Put(s, n, Boot(Claiming, account, stamp, map[]));
    s2 := Stepped(s1, n, true);
    s3 := Stepped(s2, n, true);
    s4 := Stepped(s3, n, true);
  }

  /** A call of InstanceID that nobody stands in the way of is answered: with the stored identity if there is
      one, else with its own candidate, which is then stored. */
  lemma IdentityIsGiven(s: State, n: nat, candidate: string, stamp: string)
    returns (states: seq<State>, actions: seq<Action>)
    requires n !in s.procs
    requires forall m :: m in s.procs ==> INSTANCE !in s.procs[m].writes && INITIALISED !in s.procs[m].writes
    ensures |states| == |actions| + 1 && states[0] == s
    ensures forall i :: 0 <= i < |actions| ==> Next(states[i], actions[i], states[i + 1])
    ensures var end, id := states[|actions|], if INSTANCE in s.metadata then s.metadata[INSTANCE] else candidate;
            && end.procs == s.procs && end.answers == s.answers + {id}
            && INSTANCE in end.metadata && end.metadata[INSTANCE] == id
            && (INSTANCE in s.metadata ==> end.metadata == s.metadata)
  {
    var s1 := Put(s, n, Ident(Reading, candidate, stamp, map[]));
    if INSTANCE in s.metadata {
      var s2 := Stepped(s1, n, true);
      assert s2.procs == s.procs;
      states, actions := [s, s1, s2], [AskIdentity(n, candidate, stamp), Step(n, true)];
    } else {
      var writes := map[INSTANCE := candidate];
      var all := InsertIfAbsent(s.metadata, writes, INITIALISED, stamp);
      var s2 := Put(s, n, Ident(InsertingId, candidate, stamp, map[]));
      var s3 := Put(s, n, Ident(InsertingTime, candidate, stamp, writes));
      var s4 := Put(s, n, Ident(IdentCommitting, candidate, stamp, all));
      var s5 := Put(s, n, Ident(Rereading, candidate, stamp, map[])).(metadata := s.metadata + all);
      var s6 := s.(metadata := s.metadata + all, answers := s.answers + {candidate});
      IdentityInserts(s, n, candidate, stamp);
      IdentityCommits(s, n, candidate, stamp);
      states := [s, s1, s2, s3, s4, s5, s6];
      actions := [AskIdentity(n, candidate, stamp), Step(n, true), Step(n, true), Step(n, true), Step(n, true),
                  Step(n, true)];
      assert |INSTANCE| != |INITIALISED|;
    }
  }

  lemma IdentityInserts(s: State, n: nat, candidate: string, stamp: string)
    requires n !in s.procs && INSTANCE !in s.metadata
    requires forall m :: m in s.procs ==> INSTANCE !in s.procs[m].writes && INITIALISED !in s.procs[m].writes
    ensures var writes := map[INSTANCE := candidate];
            var all := InsertIfAbsent(s.metadata, writes, INITIALISED, stamp);
            && Next(Put(s, n, Ident(Reading, candidate, stamp, map[])), Step(n, true),
                    Put(s, n, Ident(InsertingId, candidate, stamp, map[])))
            && Next(Put(s, n, Ident(InsertingId, candidate, stamp, map[])), Step(n, true),
                    Put(s, n, Ident(InsertingTime, candidate, stamp, writes)))
            && Next(Put(s, n, Ident(InsertingTime, candidate, stamp, writes)), Step(n, true),
                    Put(s, n, Ident(IdentCommitting, candidate, stamp, all)))
  {
    var writes := map[INSTANCE := candidate];
    assert map[][INSTANCE := candidate] == writes;
    PutAgain(s, n, Ident(Reading, candidate, stamp, map[]), Ident(InsertingId, candidate, stamp, map[]));
    PutAgain(s, n, Ident(InsertingId, candidate, stamp, map[]), Ident(InsertingTime, candidate, stamp, writes));
    PutAgain(s, n, Ident(InsertingTime, candidate, stamp, writes),
             Ident(IdentCommitting, candidate, stamp, InsertIfAbsent(s.metadata, writes, INITIALISED, stamp)));
  }

  /** One step of n that only moves n on, with nobody holding what it inserts. */
  lemma PutAgain(s: State, n: nat, p: Proc, after: Proc)
    requires n !in s.procs && Stepped(Put(s, n, p), n, true) == Put(Put(s, n, p), n, after)
    requires forall m :: m in s.procs && Inserts(p).Some? ==> Inserts(p).value !in s.procs[m].writes
    ensures Next(Put(s, n, p), Step(n, true), Put(s, n, after))
  {
    assert s.procs[n := p][n := after] == s.procs[n := after];
  }

  lemma IdentityCommits(s: State, n: nat, candidate: string, stamp: string)
    requires n !in s.procs && INSTANCE !in s.metadata
    ensures var all := InsertIfAbsent(s.metadata, map[INSTANCE := candidate], INITIALISED, stamp);
            var s5 := Put(s, n, Ident(Rereading, candidate, stamp, map[])).(metadata := s.metadata + all);
            && Next(Put(s, n, Ident(IdentCommitting, candidate, stamp, all)), Step(n, true), s5)
            && Next(s5, Step(n, true), s.(metadata := s.metadata + all, answers := s.answers + {candidate}))
  {
    var all := InsertIfAbsent(s.metadata, map[INSTANCE := candidate], INITIALISED, stamp);
    assert |INSTANCE| != |INITIALISED|;
    assert all[INSTANCE] == candidate;
    var s5 := Put(s, n, Ident(Rereading, candidate, stamp, map[])).(metadata := s.metadata + all);
    assert s5.procs - {n} == s.procs;
  }

  // ----- the same operations with nobody else at work -----

  datatype BootError = AlreadyClaimed | AccountRejected

  class Installation {
    var metadata: Metadata
    var users: map<string, string>

    ghost predicate Valid()
      reads this
    {
      CLAIMED in metadata <==> users != map[]
    }

    constructor ()
      ensures Valid() && metadata == map[] && users == map[]
    {
      metadata, users := map[], map[];
    }

    method ClaimBootstrap(stamp: string) returns (claimed: bool)
      modifies this`metadata
      ensures claimed <==> CLAIMED !in old(metadata)
      ensures metadata == if claimed then old(metadata)[CLAIMED := stamp] else old(metadata)
    {
      if CLAIMED in metadata {
        return false;
      }
      metadata := metadata[CLAIMED := stamp];
      return true;
    }

    /** handleBootstrap's transaction: the claim and the account, or neither. */
    method ClaimFor(account: Account, acceptable: bool, stamp: string) returns (r: Result<(), BootError>)
      requires Valid()
      modifies this
      ensures Valid()
      ensures r == Err(AlreadyClaimed) <==> old(users) != map[]
      ensures r == Err(AccountRejected) <==> old(users) == map[] && !acceptable
      ensures r.Err? ==> metadata == old(metadata) && users == old(users)
      ensures r.Ok? ==> metadata == old(metadata)[CLAIMED := stamp] && users == map[account.id := account.email]
    {
      var saved := metadata;
      var claimed := ClaimBootstrap(stamp);
      if !claimed {
        metadata := saved;
        return Err(AlreadyClaimed);
      }
      if !acceptable || account.id in users || EmailTaken(users, account.email) {
        metadata := saved;
        return Err(AccountRejected);
      }
      users := users[account.id := account.email];
      assert account.id in users;
      return Ok(());
    }

    /** InstanceID: the stored identity, made on the first call. */
    method InstanceId(candidate: string, stamp: string) returns (id: string)
      requires Valid()
      modifies this`metadata
      ensures Valid()
      ensures INSTANCE in metadata && metadata[INSTANCE] == id
      ensures id == if INSTANCE in old(metadata) then old(metadata)[INSTANCE] else candidate
      ensures INSTANCE in old(metadata) ==> metadata == old(metadata)
      ensures forall k :: k in old(metadata) ==> k in metadata && metadata[k] == old(metadata)[k]
    {
      if INSTANCE in metadata {
        return metadata[INSTANCE];
      }
      assert |CLAIMED| != |INSTANCE| && |CLAIMED| != |INITIALISED| && |INSTANCE| != |INITIALISED|;
      metadata := metadata + InsertIfAbsent(metadata, map[], INSTANCE, candidate);
      metadata := metadata + InsertIfAbsent(metadata, map[], INITIALISED, stamp);
      return metadata[INSTANCE];
    }
  }
}
