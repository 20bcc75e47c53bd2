/** Any number of servers running Migrate at once, statement by statement, crashing anywhere.

    Every caller brings its own list of migrations: builds may be older, newer, or simply different. A
    caller's transaction keeps its schema change and its ledger row to itself until it commits; an
    insert of a version that another transaction has inserted waits for it. Whether a migration's SQL
    runs is left open at every execution: on a schema that already holds its change, a plain CREATE
    TABLE fails. */
module MigrationRaces {
  import opened Common
  import opened Migrations

  datatype Phase = Ready | Executed | Inserted

  /** One run of Migrate: its build's migrations, the versions it read at the start, its position, how
      many it has applied, and (not stored anywhere) which. */
  datatype Caller = Caller(
    available: seq<Migration>,
    applied: set<int>,
    next: nat,
    phase: Phase,
    count: nat,
    own: set<int>)

  datatype State = State(history: seq<Migration>, ledger: map<int, Row>, callers: map<nat, Caller>)

  const INIT := State([], map[], map[])

  datatype Action =
    | Start(c: nat, available: seq<Migration>)
    | Skip(c: nat)
    | Execute(c: nat, works: bool)
    | Insert(c: nat)
    | Commit(c: nat)
    | Finish(c: nat)
    | Crash(c: nat)

  predicate Current(s: State, c: nat) {
    c in s.callers && s.callers[c].next < |s.callers[c].available|
  }

  function At(s: State, c: nat): Migration
    requires Current(s, c)
  {
    s.callers[c].available[s.callers[c].next]
  }

  function Moved(s: State, c: nat, to: Caller): State {
    s.(callers := s.callers[c := to])
  }

  function Gone(s: State, c: nat): State {
    s.(callers := s.callers - {c})
  }

  function Fresh(s: State, available: seq<Migration>): Caller {
    Caller(available, s.ledger.Keys, 0, Ready, 0, {})
  }

  ghost predicate Next(s: State, a: Action, s': State) {
    match a
    case Start(c, available) =>
      && c !in s.callers && Ascending(available)
      && (forall v :: v in s.ledger ==> Matches(available, v, s.ledger[v]))
      && s' == Moved(s, c, Fresh(s, available))
    case Skip(c) =>
      && Current(s, c) && s.callers[c].phase.Ready? && At(s, c).version in s.callers[c].applied
      && s' == Moved(s, c, s.callers[c].(next := s.callers[c].next + 1))
    case Execute(c, works) =>
      && Current(s, c) && s.callers[c].phase.Ready? && At(s, c).version !in s.callers[c].applied
      && s' == if works then Moved(s, c, s.callers[c].(phase := Executed)) else Gone(s, c)
    case Insert(c) =>
      && Current(s, c) && s.callers[c].phase.Executed?
      && (forall d :: d in s.callers && d != c && s.callers[d].phase.Inserted? ==>
            Current(s, d) && At(s, d).version != At(s, c).version)
      && s' == if At(s, c).version in s.ledger then Gone(s, c)
               else Moved(s, c, s.callers[c].(phase := Inserted))
    case Commit(c) =>
      && Current(s, c) && s.callers[c].phase.Inserted?
      && var m := At(s, c);
         var me := s.callers[c];
         var done := me.(next := me.next + 1, phase := Ready, count := me.count + 1, own := me.own + {m.version});
         s' == State(s.history + [m], s.ledger[m.version := RowOf(m)], s.callers[c := done])
    case Finish(c) =>
      c in s.callers && s.callers[c].next == |s.callers[c].available| && s' == Gone(s, c)
    case Crash(c) =>
      c in s.callers && s' == Gone(s, c)
  }

  // ----- the invariant -----

  /** The ledger has this migration, with this checksum. */
  predicate RecordedAs(s: State, m: Migration) {
    m.version in s.ledger && s.ledger[m.version].checksum == m.checksum
  }

  predicate CallerOk(s: State, c: nat)
    requires c in s.callers
  {
    var me := s.callers[c];
    && Ascending(me.available) && me.next <= |me.available|
    && me.applied <= s.ledger.Keys && me.own <= s.ledger.Keys && me.own !! me.applied
    && (forall v :: v in me.applied ==> Matches(me.available, v, s.ledger[v]))
    && (forall j :: 0 <= j < me.next ==>
          && RecordedAs(s, me.available[j])
          && (me.available[j].version in me.applied || me.available[j].version in me.own))
    && (forall v :: v in me.own ==> HasVersion(me.available[..me.next], v))
    && (!me.phase.Ready? ==> me.next < |me.available| && me.available[me.next].version !in me.applied)
    && (me.phase.Inserted? ==> me.available[me.next].version !in s.ledger)
  }

  /** The version a caller has inserted and not yet committed. */
  function Pending(me: Caller): set<int> {
    if me.phase.Inserted? && me.next < |me.available| then {me.available[me.next].version} else {}
  }

  ghost predicate Inv(s: State) {
    && InStep(s.history, s.ledger)
    && (forall c :: c in s.callers ==> CallerOk(s, c))
    && (forall c, d :: c in s.callers && d in s.callers && c != d ==>
          Pending(s.callers[c]) !! Pending(s.callers[d]))
  }

  lemma MatchingIsRecorded(s: State, available: seq<Migration>, i: nat)
    requires Ascending(available) && i < |available| && available[i].version in s.ledger
    requires Matches(available, available[i].version, s.ledger[available[i].version])
    ensures RecordedAs(s, available[i])
  {
  }

  lemma SkipKeeps(s: State, c: nat, s': State)
    requires Inv(s) && Next(s, Skip(c), s')
    ensures CallerOk(s', c)
  {
    var me, after := s.callers[c], s'.callers[c];
    assert CallerOk(s, c);
    MatchingIsRecorded(s, me.available, me.next);
    forall v | v in after.own ensures HasVersion(after.available[..after.next], v) {
      LongerHas(me.available, me.next, v);
    }
  }

  lemma LongerHas(ms: seq<Migration>, k: nat, v: int)
    requires k < |ms| && (HasVersion(ms[..k], v) || v == ms[k].version)
    ensures HasVersion(ms[..k + 1], v)
  {
    if HasVersion(ms[..k], v) {
      var i :| 0 <= i < |ms[..k]| && ms[..k][i].version == v;
      assert ms[..k + 1][i].version == v;
    } else {
      assert ms[..k + 1][k].version == v;
    }
  }

  lemma CommitterKeeps(s: State, c: nat, s': State)
    requires Inv(s) && Next(s, Commit(c), s')
    ensures CallerOk(s', c)
  {
    var me, after := s.callers[c], s'.callers[c];
    assert CallerOk(s, c);
    forall v | v in after.own ensures HasVersion(after.available[..after.next], v) {
      LongerHas(me.available, me.next, v);
    }
  }

  lemma CommitSpares(s: State, c: nat, s': State, d: nat)
    requires Inv(s) && Next(s, Commit(c), s') && d in s.callers && d != c
    ensures CallerOk(s', d)
  {
    assert CallerOk(s, d) && CallerOk(s, c);
    assert Pending(s.callers[c]) == {At(s, c).version};
  }

  lemma CommitKeeps(s: State, c: nat, s': State)
    requires Inv(s) && Next(s, Commit(c), s')
    ensures Inv(s')
  {
    assert CallerOk(s, c);
    Appended(s.history, s.ledger, At(s, c));
    CommitterKeeps(s, c, s');
    forall d | d in s'.callers && d != c ensures CallerOk(s', d) {
      CommitSpares(s, c, s', d);
    }
    assert Pending(s'.callers[c]) == {};
  }

  lemma QuietSpares(s: State, a: Action, s': State, d: nat)
    requires Inv(s) && Next(s, a, s') && !a.Commit? && d in s'.callers
    ensures CallerOk(s', d)
  {
    QuietPending(s, a, s', d);
    if d != a.c {
      SameCaller(s, s', d);
    } else if a.Skip? {
      SkipKeeps(s, d, s');
    } else if d in s.callers {
      assert CallerOk(s, d);
    }
  }

  lemma SameCaller(s: State, s': State, d: nat)
    requires d in s.callers && d in s'.callers && s'.callers[d] == s.callers[d] && s'.ledger == s.ledger
    requires CallerOk(s, d)
    ensures CallerOk(s', d)
  {
  }

  lemma QuietPending(s: State, a: Action, s': State, d: nat)
    requires Next(s, a, s') && !a.Commit? && d in s'.callers
    ensures d != a.c ==> d in s.callers && s'.callers[d] == s.callers[d]
    ensures d == a.c && !a.Insert? ==> Pending(s'.callers[d]) == {}
    ensures d == a.c && a.Insert? ==> Pending(s'.callers[d]) == {At(s, d).version}
  {
  }

  lemma InsertWaits(s: State, c: nat, s': State, d: nat)
    requires Next(s, Insert(c), s') && d in s.callers && d != c
    ensures Current(s, c) && Pending(s.callers[d]) !! {At(s, c).version}
  {
  }

  /** Any other step leaves schema and ledger alone and moves at most one caller. */
  lemma QuietKeeps(s: State, a: Action, s': State)
    requires Inv(s) && Next(s, a, s') && !a.Commit?
    ensures Inv(s')
  {
    forall d | d in s'.callers ensures CallerOk(s', d) {
      QuietSpares(s, a, s', d);
    }
    forall c, d | c in s'.callers && d in s'.callers && c != d
      ensures Pending(s'.callers[c]) !! Pending(s'.callers[d])
    {
      QuietPending(s, a, s', c);
      QuietPending(s, a, s', d);
      if a.Insert? && c == a.c {
        InsertWaits(s, c, s', d);
      } else if a.Insert? && d == a.c {
        InsertWaits(s, d, s', c);
      }
    }
  }

  lemma StepKeeps(s: State, a: Action, s': State)
    requires Inv(s) && Next(s, a, s')
    ensures Inv(s')
  {
    if a.Commit? {
      CommitKeeps(s, a.c, s');
    } else {
      QuietKeeps(s, a, s');
    }
  }

  // ----- whole runs -----

  ghost predicate IsRun(states: seq<State>, actions: seq<Action>) {
    && |states| == |actions| + 1
    && states[0] == INIT
    && forall i :: 0 <= i < |actions| ==> Next(states[i], actions[i], states[i + 1])
  }

  /** In every run of concurrent callers and crashes, whatever builds they are, each migration is in the
      schema at most once and the ledger records exactly what is in the schema. */
  lemma {:induction false} LedgerIsTheHistory(states: seq<State>, actions: seq<Action>, i: nat)
    requires IsRun(states, actions) && i < |states|
    ensures Inv(states[i])
    ensures InStep(states[i].history, states[i].ledger)
  {
    if i > 0 {
      LedgerIsTheHistory(states, actions, i - 1);
      StepKeeps(states[i - 1], actions[i - 1], states[i]);
    }
  }

  /** A commit adds one migration, its committer's next, to schema and ledger together; nothing else
      changes either. */
  ghost predicate WholeStep(s: State, a: Action, s': State) {
    if a.Commit? then
      && Current(s, a.c) && At(s, a.c).version !in s.ledger
      && s'.history == s.history + [At(s, a.c)]
      && s'.ledger == s.ledger[At(s, a.c).version := RowOf(At(s, a.c))]
    else s'.history == s.history && s'.ledger == s.ledger
  }

  lemma StepIsWhole(s: State, a: Action, s': State)
    requires Inv(s) && Next(s, a, s')
    ensures WholeStep(s, a, s')
  {
    if a.Commit? {
      assert CallerOk(s, a.c);
    }
  }

  /** A caller that fails or crashes leaves no part of a step behind. */
  lemma OnlyWholeSteps(states: seq<State>, actions: seq<Action>, i: nat)
    requires IsRun(states, actions) && i < |actions|
    ensures WholeStep(states[i], actions[i], states[i + 1])
  {
    LedgerIsTheHistory(states, actions, i);
    assert Next(states[i], actions[i], states[i + 1]);
    StepIsWhole(states[i], actions[i], states[i + 1]);
  }

  /** What is recorded stays recorded, and stays as it is. */
  lemma {:induction false} LedgerStays(states: seq<State>, actions: seq<Action>, i: nat, j: nat)
    requires IsRun(states, actions) && i <= j < |states|
    ensures states[i].history <= states[j].history
    ensures forall v :: v in states[i].ledger ==> v in states[j].ledger && states[j].ledger[v] == states[i].ledger[v]
    decreases j - i
  {
    if i < j {
      LedgerStays(states, actions, i, j - 1);
      OnlyWholeSteps(states, actions, j - 1);
    }
  }

  /** A caller that finishes has every migration of its build in the ledger, with its checksum, from then
      on for the rest of the run. */
  lemma FinishedMeansMigrated(states: seq<State>, actions: seq<Action>, i: nat, j: nat)
    requires IsRun(states, actions) && i < |actions| && actions[i].Finish? && i <= j < |states|
    ensures actions[i].c in states[i].callers
    ensures forall m :: m in states[i].callers[actions[i].c].available ==> RecordedAs(states[j], m)
  {
    LedgerIsTheHistory(states, actions, i);
    LedgerStays(states, actions, i, j);
    assert Next(states[i], actions[i], states[i + 1]);
    assert CallerOk(states[i], actions[i].c);
  }

  // ----- racing callers conflict -----

  /** Caller c starts at step i of a run and is still at work before step j. */
  ghost predicate AtWork(states: seq<State>, actions: seq<Action>, c: nat, i: nat, j: nat) {
    && IsRun(states, actions) && i < j < |states|
    && actions[i].Start? && actions[i].c == c
    && forall k :: i < k <= j ==> c in states[k].callers
  }

  /** Step k of a run records version v, and a caller other than c does it. */
  ghost predicate OthersCommit(states: seq<State>, actions: seq<Action>, c: nat, k: nat, v: int)
    requires k < |actions| && k < |states|
  {
    && actions[k].Commit? && actions[k].c != c
    && Current(states[k], actions[k].c) && At(states[k], actions[k].c).version == v
  }

  lemma {:induction false} SameBuild(states: seq<State>, actions: seq<Action>, c: nat, i: nat, j: nat)
    requires AtWork(states, actions, c, i, j)
    ensures states[j].callers[c].available == actions[i].available
    ensures states[j].callers[c].applied == states[i].ledger.Keys
    decreases j - i
  {
    if j == i + 1 {
      assert Next(states[i], actions[i], states[j]);
    } else {
      SameBuild(states, actions, c, i, j - 1);
      assert Next(states[j - 1], actions[j - 1], states[j]);
    }
  }

  /** A version in the ledger that the caller neither read there nor put there was put there by another,
      since it started; and the other way round. */
  lemma {:induction false} RecordedByAnother(states: seq<State>, actions: seq<Action>, c: nat, i: nat, j: nat, v: int)
    requires AtWork(states, actions, c, i, j)
    ensures c in states[j].callers
    ensures v in states[j].ledger && v !in states[i].ledger && v !in states[j].callers[c].own
            <==> exists k :: i < k < j && OthersCommit(states, actions, c, k, v)
    decreases j - i
  {
    var l := j - 1;
    assert Next(states[l], actions[l], states[j]);
    LedgerIsTheHistory(states, actions, l);
    StepIsWhole(states[l], actions[l], states[j]);
    if l == i {
      assert states[j].callers[c].own == {};
    } else {
      RecordedByAnother(states, actions, c, i, l, v);
      LedgerStays(states, actions, i, l);
      OneStepOn(states[l], actions[l], states[j], c, v);
      assert OthersCommit(states, actions, c, l, v) <==>
             actions[l].Commit? && actions[l].c != c && At(states[l], actions[l].c).version == v;
    }
  }

  lemma OneStepOn(s: State, a: Action, s': State, c: nat, v: int)
    requires Inv(s) && Next(s, a, s') && WholeStep(s, a, s')
    requires c in s.callers && c in s'.callers && !(a.Start? && a.c == c)
    ensures v in s'.ledger && v !in s'.callers[c].own <==>
            (v in s.ledger && v !in s.callers[c].own) ||
            (a.Commit? && a.c != c && At(s, a.c).version == v)
  {
    assert CallerOk(s, c);
  }

  /** A caller still at work has recorded or read in the ledger everything it has passed; what it stands
      at it has done neither for. */
  lemma Standing(s: State, c: nat)
    requires Inv(s) && c in s.callers
    ensures var me := s.callers[c];
            && me.next <= |me.available|
            && (forall m :: m in me.available[..me.next] ==> m.version in me.applied || m.version in me.own)
            && (me.next < |me.available| ==> me.available[me.next].version !in me.own)
  {
    var me := s.callers[c];
    assert CallerOk(s, c);
    if me.next < |me.available| {
      NotBefore(me.available, me.next);
    }
  }

  lemma NotBefore(ms: seq<Migration>, k: nat)
    requires Ascending(ms) && k < |ms|
    ensures !HasVersion(ms[..k], ms[k].version)
  {
  }

  /** A caller's run ends otherwise than by finishing if and only if it crashes, its SQL fails of itself,
      that is, on a version nobody has recorded, or, while it was at work, another caller recorded one of
      the migrations it had read as missing. */
  lemma EndsInErrorIff(states: seq<State>, actions: seq<Action>, c: nat, i: nat, j: nat)
    requires AtWork(states, actions, c, i, j) && j < |actions| && c !in states[j + 1].callers
    ensures !actions[j].Finish? <==>
            || Overtaken(states, actions, c, i, j)
            || actions[j] == Crash(c)
            || (actions[j] == Execute(c, false) && FailsOfItself(states[j], c))
  {
    assert Next(states[j], actions[j], states[j + 1]);
    LedgerIsTheHistory(states, actions, j);
    SameBuild(states, actions, c, i, j);
    Standing(states[j], c);
    var me := states[j].callers[c];
    if actions[j].Finish? {
      assert me.available[..me.next] == me.available;
      forall m, k | m in Missing(me.available, states[i].ledger) && i < k < j
        ensures !OthersCommit(states, actions, c, k, m.version)
      {
        MissingMembers(me.available, states[i].ledger, m);
        RecordedByAnother(states, actions, c, i, j, m.version);
      }
    } else if actions[j] != Crash(c) && !FailsOfItself(states[j], c) {
      var m := At(states[j], c);
      MissingMembers(me.available, states[i].ledger, m);
      RecordedByAnother(states, actions, c, i, j, m.version);
    }
  }

  /** If the SQL of the migration the caller stands at fails now, it is not for one recorded already. */
  predicate FailsOfItself(s: State, c: nat) {
    Current(s, c) && At(s, c).version !in s.ledger
  }

  /** Between steps i and j another caller recorded what c, starting at i, had read as missing. */
  ghost predicate Overtaken(states: seq<State>, actions: seq<Action>, c: nat, i: nat, j: nat)
    requires i < |actions| && i < |states| && actions[i].Start? && j <= |actions| && j <= |states|
  {
    exists k, m ::
      && i < k < j && m in Missing(actions[i].available, states[i].ledger)
      && OthersCommit(states, actions, c, k, m.version)
  }

  // ----- an undisturbed caller gets there -----

  /** A stretch of a run, begun anywhere. */
  ghost predicate IsPath(states: seq<State>, actions: seq<Action>) {
    && |states| == |actions| + 1
    && forall i :: 0 <= i < |actions| ==> Next(states[i], actions[i], states[i + 1])
  }

  lemma Longer(states: seq<State>, actions: seq<Action>, a: Action, s: State)
    requires IsPath(states, actions) && Next(states[|actions|], a, s)
    ensures IsPath(states + [s], actions + [a])
  {
  }

  function Versions(ms: seq<Migration>): set<int> {
    set m | m in ms :: m.version
  }

  /** The state s with caller c before its i-th migration, having applied these since it started. */
  function Having(s: State, c: nat, available: seq<Migration>, i: nat, done: seq<Migration>, phase: Phase): State {
    State(s.history + done, Recorded(s.ledger, done),
          s.callers[c := Caller(available, s.ledger.Keys, i, phase, |done|, Versions(done))])
  }

  /** What a caller that started at s has done when it stands before its i-th migration. */
  function Partly(s: State, c: nat, available: seq<Migration>, i: nat): State
    requires i <= |available|
  {
    Having(s, c, available, i, Missing(available[..i], s.ledger), Ready)
  }

  /** What is done before the next migration, if it is missing, and what is done after it. */
  lemma OneMoreMissing(s: State, available: seq<Migration>, i: nat)
    requires Ascending(available) && i < |available| && available[i].version !in s.ledger
    ensures var done, m := Missing(available[..i], s.ledger), available[i];
            && Missing(available[..i + 1], s.ledger) == done + [m]
            && m.version !in Recorded(s.ledger, done)
            && Recorded(s.ledger, done + [m]) == Recorded(s.ledger, done)[m.version := RowOf(m)]
            && Versions(done + [m]) == Versions(done) + {m.version}
  {
    MissingSplit(available, i, s.ledger);
    RecordedKeys(s.ledger, Missing(available[..i], s.ledger));
    NotYetRecorded(available, i, s.ledger);
    RecordedSnoc(s.ledger, Missing(available[..i], s.ledger), available[i]);
  }

  lemma SkipsNext(s: State, c: nat, available: seq<Migration>, i: nat, done: seq<Migration>)
    requires i < |available| && available[i].version in s.ledger
    ensures Next(Having(s, c, available, i, done, Ready), Skip(c), Having(s, c, available, i + 1, done, Ready))
  {
    var from, to := Having(s, c, available, i, done, Ready), Having(s, c, available, i + 1, done, Ready);
    assert from.callers[c := to.callers[c]] == to.callers;
  }

  lemma ExecutesNext(s: State, c: nat, available: seq<Migration>, i: nat, done: seq<Migration>)
    requires i < |available| && available[i].version !in s.ledger
    ensures Next(Having(s, c, available, i, done, Ready), Execute(c, true), Having(s, c, available, i, done, Executed))
  {
    var from, to := Having(s, c, available, i, done, Ready), Having(s, c, available, i, done, Executed);
    assert from.callers[c := to.callers[c]] == to.callers;
  }

  lemma InsertsNext(s: State, c: nat, available: seq<Migration>, i: nat, done: seq<Migration>)
    requires i < |available| && available[i].version !in Recorded(s.ledger, done)
    requires forall d :: d in s.callers ==> !s.callers[d].phase.Inserted?
    ensures Next(Having(s, c, available, i, done, Executed), Insert(c), Having(s, c, available, i, done, Inserted))
  {
    var from, to := Having(s, c, available, i, done, Executed), Having(s, c, available, i, done, Inserted);
    assert from.callers[c := to.callers[c]] == to.callers;
  }

  lemma CommitsNext(s: State, c: nat, available: seq<Migration>, i: nat, done: seq<Migration>)
    requires i < |available| && Versions(done + [available[i]]) == Versions(done) + {available[i].version}
    requires Recorded(s.ledger, done + [available[i]])
             == Recorded(s.ledger, done)[available[i].version := RowOf(available[i])]
    ensures Next(Having(s, c, available, i, done, Inserted), Commit(c),
                 Having(s, c, available, i + 1, done + [available[i]], Ready))
  {
    var from := Having(s, c, available, i, done, Inserted);
    var to := Having(s, c, available, i + 1, done + [available[i]], Ready);
    assert s.history + (done + [available[i]]) == s.history + done + [available[i]];
    assert from.callers[c := to.callers[c]] == to.callers;
  }

  /** Executing, recording and committing the next missing migration. */
  lemma AppliesOne(s: State, c: nat, available: seq<Migration>, i: nat, states: seq<State>, actions: seq<Action>)
    returns (states': seq<State>, actions': seq<Action>)
    requires Ascending(available) && i < |available| && available[i].version !in s.ledger
    requires forall d :: d in s.callers ==> !s.callers[d].phase.Inserted?
    requires states != [] && IsPath(states, actions) && states[|actions|] == Partly(s, c, available, i)
    ensures states' != [] && states'[0] == states[0]
    ensures IsPath(states', actions') && states'[|actions'|] == Partly(s, c, available, i + 1)
  {
    var done := Missing(available[..i], s.ledger);
    var s1, s2 := Having(s, c, available, i, done, Executed), Having(s, c, available, i, done, Inserted);
    OneMoreMissing(s, available, i);
    ExecutesNext(s, c, available, i, done);
    Longer(states, actions, Execute(c, true), s1);
    states', actions' := states + [s1], actions + [Execute(c, true)];
    InsertsNext(s, c, available, i, done);
    Longer(states', actions', Insert(c), s2);
    states', actions' := states' + [s2], actions' + [Insert(c)];
    CommitsNext(s, c, available, i, done);
    Longer(states', actions', Commit(c), Partly(s, c, available, i + 1));
    states', actions' := states' + [Partly(s, c, available, i + 1)], actions' + [Commit(c)];
  }

  lemma {:induction false} GetsTo(s: State, c: nat, available: seq<Migration>, i: nat)
    returns (states: seq<State>, actions: seq<Action>)
    requires Ascending(available) && i <= |available| && c !in s.callers
    requires forall v :: v in s.ledger ==> Matches(available, v, s.ledger[v])
    requires forall d :: d in s.callers ==> !s.callers[d].phase.Inserted?
    ensures states != [] && states[0] == s && IsPath(states, actions)
    ensures states[|actions|] == Partly(s, c, available, i)
  {
    if i == 0 {
      assert available[..0] == [] && Versions([]) == {} && s.history + [] == s.history;
      states, actions := [s, Partly(s, c, available, 0)], [Start(c, available)];
    } else {
      states, actions := GetsTo(s, c, available, i - 1);
      if available[i - 1].version in s.ledger {
        var done := Missing(available[..i - 1], s.ledger);
        MissingSplit(available, i - 1, s.ledger);
        assert done + [] == done;
        SkipsNext(s, c, available, i - 1, done);
        Longer(states, actions, Skip(c), Partly(s, c, available, i));
        states, actions := states + [Partly(s, c, available, i)], actions + [Skip(c)];
      } else {
        states, actions := AppliesOne(s, c, available, i - 1, states, actions);
      }
    }
  }

  /** From any state whose ledger it can verify, with no other caller holding an uncommitted row and none of
      its SQL failing, a caller can run to the end, and then the schema has grown by exactly its missing
      migrations, in order, and the ledger records them. */
  lemma UndisturbedFinishes(s: State, c: nat, available: seq<Migration>)
    returns (states: seq<State>, actions: seq<Action>)
    requires Ascending(available) && c !in s.callers
    requires forall v :: v in s.ledger ==> Matches(available, v, s.ledger[v])
    requires forall d :: d in s.callers ==> !s.callers[d].phase.Inserted?
    ensures IsPath(states, actions) && |actions| > 0
    ensures states[0] == s && actions[|actions| - 1] == Finish(c)
    ensures var end := states[|actions|];
            && end.callers == s.callers
            && end.history == s.history + Missing(available, s.ledger)
            && end.ledger == Recorded(s.ledger, Missing(available, s.ledger))
            && Missing(available, end.ledger) == []
  {
    states, actions := GetsTo(s, c, available, |available|);
    assert available[..|available|] == available;
    var now := Partly(s, c, available, |available|);
    assert Gone(now, c).callers == s.callers;
    Longer(states, actions, Finish(c), Gone(now, c));
    states, actions := states + [Gone(now, c)], actions + [Finish(c)];
    SecondRunAppliesNothing(available, s.ledger);
  }

  /** Two servers started together on an empty database that needs one migration, step by step. */
  function Racing(m: Migration, k: nat): State {
    var ready := Caller([m], {}, 0, Ready, 0, {});
    var done := Caller([m], {}, 1, Ready, 1, {m.version});
    if k == 0 then INIT
    else if k == 1 then Moved(INIT, 0, ready)
    else if k == 2 then State([], map[], map[0 := ready, 1 := ready])
    else if k == 3 then State([], map[], map[0 := ready.(phase := Executed), 1 := ready])
    else if k == 4 then State([], map[], map[0 := ready.(phase := Inserted), 1 := ready])
    else State([m], map[m.version := RowOf(m)], if k == 5 then map[0 := done, 1 := ready] else map[0 := done])
  }

  function Race(m: Migration): seq<Action> {
    [Start(0, [m]), Start(1, [m]), Execute(0, true), Insert(0), Commit(0), Execute(1, false)]
  }

  lemma RaceStep(m: Migration, k: nat)
    requires k < |Race(m)|
    ensures Next(Racing(m, k), Race(m)[k], Racing(m, k + 1))
  {
    var none: set<int> := {};
    assert INIT.ledger.Keys == none && none + {m.version} == {m.version};
  }

  /** So racing servers conflict: the first creates the tables, the second's SQL fails on them and its
      start ends in an error, with the schema complete. */
  lemma RacersConflict(m: Migration)
    ensures var states := seq(7, k requires 0 <= k < 7 => Racing(m, k));
            && IsRun(states, Race(m))
            && 1 in states[5].callers && states[5].history == [m] && Race(m)[5] == Execute(1, false)
            && 1 !in states[6].callers && states[6].history == [m]
  {
    var states := seq(7, k requires 0 <= k < 7 => Racing(m, k));
    forall k | 0 <= k < |Race(m)| ensures Next(states[k], Race(m)[k], states[k + 1]) {
      RaceStep(m, k);
    }
    assert states[0] == INIT;
  }

  // ----- builds of one history -----

  /** Every build of the run knows a prefix of one history: releases that only ever add to the end. */
  ghost predicate PrefixBuilds(all: seq<Migration>, actions: seq<Action>) {
    Ascending(all) && forall i :: 0 <= i < |actions| && actions[i].Start? ==> actions[i].available <= all
  }

  ghost predicate PrefixState(all: seq<Migration>, s: State) {
    s.history <= all && forall c :: c in s.callers ==> s.callers[c].available <= all
  }

  lemma LedgerIsThePrefix(all: seq<Migration>, s: State, j: nat)
    requires Ascending(all) && InStep(s.history, s.ledger) && s.history <= all && j < |all|
    ensures all[j].version in s.ledger <==> j < |s.history|
  {
    if j < |s.history| {
      assert s.history[j] == all[j];
    } else {
      forall i | 0 <= i < |s.history| ensures s.history[i].version != all[j].version {
        assert s.history[i] == all[i];
      }
    }
  }

  /** Whoever holds an uncommitted ledger row stands exactly at the end of the history: everything
      before its migration is recorded and nothing after. */
  lemma InserterIsAtTheFront(all: seq<Migration>, s: State, c: nat)
    requires Ascending(all) && Inv(s) && PrefixState(all, s) && c in s.callers && s.callers[c].phase.Inserted?
    ensures s.callers[c].next == |s.history|
  {
    var me := s.callers[c];
    assert CallerOk(s, c) && me.available <= all;
    LedgerIsThePrefix(all, s, me.next);
    if me.next > 0 {
      LedgerIsThePrefix(all, s, me.next - 1);
    }
  }

  lemma PrefixStep(all: seq<Migration>, s: State, a: Action, s': State)
    requires Ascending(all) && Inv(s) && PrefixState(all, s) && Next(s, a, s')
    requires a.Start? ==> a.available <= all
    ensures PrefixState(all, s')
  {
    if a.Commit? {
      InserterIsAtTheFront(all, s, a.c);
      assert s.callers[a.c].available <= all;
    }
  }

  /** Then the schema is a prefix of that history, whoever raced and crashed: each migration applied once
      and in order. */
  lemma {:induction false} HistoryIsAPrefix(all: seq<Migration>, states: seq<State>, actions: seq<Action>, i: nat)
    requires IsRun(states, actions) && PrefixBuilds(all, actions) && i < |states|
    ensures PrefixState(all, states[i])
    ensures states[i].history <= all
  {
    if i > 0 {
      HistoryIsAPrefix(all, states, actions, i - 1);
      LedgerIsTheHistory(states, actions, i - 1);
      assert Next(states[i - 1], actions[i - 1], states[i]);
      PrefixStep(all, states[i - 1], actions[i - 1], states[i]);
    }
  }

  /** Then, too, an insert into the ledger is refused exactly when the history has grown past its caller. */
  lemma InsertIsRefusedIff(all: seq<Migration>, s: State, c: nat, s': State)
    requires Ascending(all) && Inv(s) && PrefixState(all, s) && Next(s, Insert(c), s')
    ensures c !in s'.callers <==> s.callers[c].next < |s.history|
  {
    assert CallerOk(s, c) && s.callers[c].available <= all;
    LedgerIsThePrefix(all, s, s.callers[c].next);
  }

  // ----- the readiness probe -----

  ghost predicate IsHighest(ledger: map<int, Row>, v: int) {
    v in ledger && forall w :: w in ledger ==> w <= v
  }

  method SchemaVersion(versions: seq<int>) returns (version: int)
    requires forall i :: 0 <= i < |versions| ==> versions[i] > 0
    ensures version == 0 <==> versions == []
    ensures versions != [] ==> version in versions
    ensures forall i :: 0 <= i < |versions| ==> versions[i] <= version
  {
    version := 0;
    for i := 0 to |versions|
      invariant version == 0 <==> i == 0
      invariant i > 0 ==> version in versions[..i]
      invariant forall k :: 0 <= k < i ==> versions[k] <= version
    {
      version := Max(version, versions[i]);
    }
  }

  ghost predicate ProbePasses(available: seq<Migration>, ledger: map<int, Row>) {
    available != [] && IsHighest(ledger, available[|available| - 1].version)
  }

  /** The schema part of the readiness check: the highest recorded version against the newest known. */
  method SchemaIsReady(available: seq<Migration>, versions: seq<int>, ledger: map<int, Row>) returns (ready: bool)
    requires forall v :: v in versions <==> v in ledger
    requires forall v :: v in ledger ==> v > 0
    requires forall i :: 0 <= i < |available| ==> available[i].version > 0
    ensures ready <==> ProbePasses(available, ledger)
  {
    forall i | 0 <= i < |versions| ensures versions[i] > 0 {
      assert versions[i] in versions;
    }
    var version := SchemaVersion(versions);
    assert forall v :: v in ledger ==> v in versions && v <= version;
    if |available| == 0 {
      return false;
    }
    return version == available[|available| - 1].version;
  }

  /** On a ledger this build has verified, the probe passes exactly when the newest migration is recorded. */
  lemma ProbeMeansNewestRecorded(available: seq<Migration>, ledger: map<int, Row>)
    requires Ascending(available) && available != []
    requires forall v :: v in ledger ==> Matches(available, v, ledger[v])
    ensures ProbePasses(available, ledger) <==> available[|available| - 1].version in ledger
  {
  }

  /** No recorded version stands above an unrecorded one. */
  predicate NoGap(available: seq<Migration>, ledger: map<int, Row>) {
    forall i, j :: 0 <= i < j < |available| && available[j].version in ledger ==> available[i].version in ledger
  }

  /** Whatever came before, a verified ledger is complete if and only if the probe passes and the ledger
      has no gap: a passing probe is right exactly when there is none. */
  lemma CompleteIff(available: seq<Migration>, ledger: map<int, Row>)
    requires Ascending(available) && available != []
    requires forall v :: v in ledger ==> Matches(available, v, ledger[v])
    ensures Missing(available, ledger) == [] <==> ProbePasses(available, ledger) && NoGap(available, ledger)
  {
    var last := |available| - 1;
    ProbeMeansNewestRecorded(available, ledger);
    if ProbePasses(available, ledger) && NoGap(available, ledger) {
      forall i | 0 <= i < |available| ensures available[i].version in ledger {
        assert i < last ==> available[last].version in ledger;
      }
      NothingMissing(available, ledger);
    }
    if Missing(available, ledger) == [] {
      forall i | 0 <= i < |available| ensures available[i].version in ledger {
        MissingMembers(available, ledger, available[i]);
      }
    }
  }

  /** A server answers the probe only after its own Migrate has finished. From then on none of its
      migrations is missing, and the probe passes if and only if no newer version has been recorded. */
  lemma ProbeAfterFinish(states: seq<State>, actions: seq<Action>, i: nat, j: nat)
    requires IsRun(states, actions) && i < |actions| && actions[i].Finish? && i <= j < |states|
    ensures actions[i].c in states[i].callers
    ensures var available, ledger := states[i].callers[actions[i].c].available, states[j].ledger;
            && Missing(available, ledger) == []
            && (available != [] ==>
                  (ProbePasses(available, ledger) <==>
                   forall v :: v in ledger ==> v <= available[|available| - 1].version))
  {
    FinishedMeansMigrated(states, actions, i, j);
    var available, ledger := states[i].callers[actions[i].c].available, states[j].ledger;
    forall k | 0 <= k < |available| ensures available[k].version in ledger {
      assert RecordedAs(states[j], available[k]);
    }
    NothingMissing(available, ledger);
  }

  /** An older build that knows only version 2 migrates an empty database. */
  function GapRun(m: Migration, k: nat): State {
    var ready := Caller([m], {}, 0, Ready, 0, {});
    if k == 0 then INIT
    else if k == 1 then State([], map[], map[0 := ready])
    else if k == 2 then State([], map[], map[0 := ready.(phase := Executed)])
    else if k == 3 then State([], map[], map[0 := ready.(phase := Inserted)])
    else
      var done := Caller([m], {}, 1, Ready, 1, {m.version});
      State([m], map[m.version := RowOf(m)], if k == 4 then map[0 := done] else map[])
  }

  function GapActions(m: Migration): seq<Action> {
    [Start(0, [m]), Execute(0, true), Insert(0), Commit(0), Finish(0)]
  }

  lemma GapStep(m: Migration, k: nat)
    requires k < |GapActions(m)|
    ensures Next(GapRun(m, k), GapActions(m)[k], GapRun(m, k + 1))
  {
    var none: set<int> := {};
    assert INIT.ledger.Keys == none && none + {m.version} == {m.version};
  }

  /** After that, a newer build that has also slipped in a version 1 finds a ledger it can verify, and its
      probe passes, with its version 1 missing, as long as it has not migrated itself. */
  lemma ProbeCanMissOne(late: Migration, newer: Migration)
    requires late.version < newer.version
    ensures var states, available := seq(6, k requires 0 <= k < 6 => GapRun(newer, k)), [late, newer];
            && IsRun(states, GapActions(newer))
            && Ascending(available)
            && (forall v :: v in states[5].ledger ==> Matches(available, v, states[5].ledger[v]))
            && ProbePasses(available, states[5].ledger)
            && late in Missing(available, states[5].ledger)
  {
    var states := seq(6, k requires 0 <= k < 6 => GapRun(newer, k));
    forall k | 0 <= k < |GapActions(newer)| ensures Next(states[k], GapActions(newer)[k], states[k + 1]) {
      GapStep(newer, k);
    }
    assert states[0] == INIT && states[5].ledger == map[newer.version := RowOf(newer)];
    assert [late, newer][1] == newer;
    MissingMembers([late, newer], GapRun(newer, 5).ledger, late);
  }

  /** Where releases only add to the end there are no gaps, and the newest migration is recorded exactly
      when all of a build's migrations are applied. */
  lemma ProbeIsExactInRuns(all: seq<Migration>, states: seq<State>, actions: seq<Action>, i: nat,
                           available: seq<Migration>)
    requires IsRun(states, actions) && PrefixBuilds(all, actions) && i < |states|
    requires available != [] && available <= all
    ensures available[|available| - 1].version in states[i].ledger <==> available <= states[i].history
    ensures NoGap(available, states[i].ledger)
  {
    HistoryIsAPrefix(all, states, actions, i);
    LedgerIsTheHistory(states, actions, i);
    forall k | 0 <= k < |available| ensures available[k].version in states[i].ledger <==> k < |states[i].history| {
      LedgerIsThePrefix(all, states[i], k);
    }
  }
}
