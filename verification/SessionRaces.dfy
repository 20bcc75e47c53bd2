/** Lookups racing each other and every other session operation. A lookup is two statements: it reads
    the row, and then deletes it or moves its clock on the strength of what it read. Nothing is assumed
    about the order of the times callers pass in. */
module SessionRaces {
  import opened Common
  import opened Sessions

  /** A lookup in flight, with the row it has read. */
  datatype Reader = Reader(token: string, now: Time, seen: Option<Session>)

  /** `uses` collects when each session was really used (issued, or accepted by a lookup) and `born` when
      it was issued, `owner` to whom; none of them is stored. */
  datatype State = State(
    rows: Rows,
    readers: map<nat, Reader>,
    owner: map<Hash, Id>,
    born: map<Hash, Time>,
    uses: map<Hash, set<Time>>)

  const INIT := State(map[], map[], map[], map[], map[])

  datatype Action =
    | Issuing(token: string, userId: Id, now: Time)
    | Begin(n: nat, token: string, now: Time)
    | Select(n: nat)
    | Write(n: nat)
    | Fail(n: nat)
    | Alone(event: Event)

  /** The lookup will accept: what it has read is not expired. */
  predicate Admits(c: Config, r: Reader) {
    r.seen.Some? && !IsExpired(c, r.seen.value, r.now)
  }

  /** The write that ends a lookup. */
  function Written(c: Config, rows: Rows, r: Reader): Rows
    requires r.seen.Some?
  {
    var h := HashToken(r.token);
    if IsExpired(c, r.seen.value, r.now) then rows - {h}
    else if r.now - r.seen.value.lastUsedAt > TOUCH_INTERVAL && h in rows then rows[h := rows[h].(lastUsedAt := r.now)]
    else rows
  }

  function UsedAt(uses: map<Hash, set<Time>>, h: Hash, now: Time): map<Hash, set<Time>> {
    uses[h := (if h in uses then uses[h] else {}) + {now}]
  }

  ghost predicate Next(c: Config, s: State, a: Action, s': State) {
    match a
    case Issuing(token, userId, now) =>
      var h := HashToken(token);
      && h !in s.born
      && s' == s.(rows := s.rows[h := Session(userId, now, now, now + c.lifetime)],
                  owner := s.owner[h := userId], born := s.born[h := now], uses := UsedAt(s.uses, h, now))
    case Begin(n, token, now) =>
      n !in s.readers && token != "" && s' == s.(readers := s.readers[n := Reader(token, now, None)])
    case Select(n) =>
      && n in s.readers && s.readers[n].seen.None?
      && var h := HashToken(s.readers[n].token);
         s' == s.(readers := if h in s.rows then s.readers[n := s.readers[n].(seen := Some(s.rows[h]))]
                             else s.readers - {n})
    case Write(n) =>
      && n in s.readers && s.readers[n].seen.Some?
      && var r := s.readers[n];
         s' == State(Written(c, s.rows, r), s.readers - {n}, s.owner, s.born,
                     if Admits(c, r) then UsedAt(s.uses, HashToken(r.token), r.now) else s.uses)
    case Fail(n) => n in s.readers && s' == s.(readers := s.readers - {n})
    case Alone(event) =>
      && (event.Revoke? || event.RevokeAll? || event.DeleteExpired?)
      && s' == s.(rows := After(c, s.rows, event))
  }

  // ----- what every row, stored or read, says is true -----

  /** The clock of a row is a time the session was really used; its user and its expiry were fixed at its
      issue. */
  predicate Genuine(c: Config, s: State, h: Hash, row: Session) {
    && h in s.owner && row.userId == s.owner[h]
    && h in s.born && row.createdAt == s.born[h] && row.expiresAt == s.born[h] + c.lifetime
    && h in s.uses && row.lastUsedAt in s.uses[h]
  }

  ghost predicate Inv(c: Config, s: State) {
    && (forall h :: h in s.rows ==> Genuine(c, s, h, s.rows[h]))
    && (forall n :: n in s.readers && s.readers[n].seen.Some? ==>
          Genuine(c, s, HashToken(s.readers[n].token), s.readers[n].seen.value))
  }

  lemma GenuineStays(c: Config, s: State, a: Action, s': State, h: Hash, row: Session)
    requires Next(c, s, a, s') && Genuine(c, s, h, row)
    ensures Genuine(c, s', h, row)
  {
  }

  lemma StepKeeps(c: Config, s: State, a: Action, s': State)
    requires Inv(c, s) && Next(c, s, a, s')
    ensures Inv(c, s')
  {
    forall h | h in s'.rows ensures Genuine(c, s', h, s'.rows[h]) {
      if h in s.rows {
        GenuineStays(c, s, a, s', h, s.rows[h]);
      }
    }
    forall n | n in s'.readers && s'.readers[n].seen.Some?
      ensures Genuine(c, s', HashToken(s'.readers[n].token), s'.readers[n].seen.value)
    {
      GenuineStays(c, s, a, s', HashToken(s'.readers[n].token), s'.readers[n].seen.value);
    }
  }

  ghost predicate IsRun(c: Config, states: seq<State>, actions: seq<Action>) {
    && |states| == |actions| + 1
    && states[0] == INIT
    && forall i :: 0 <= i < |actions| ==> Next(c, states[i], actions[i], states[i + 1])
  }

  lemma {:induction false} RunKeeps(c: Config, states: seq<State>, actions: seq<Action>, i: nat)
    requires IsRun(c, states, actions) && i < |states|
    ensures Inv(c, states[i])
  {
    if i > 0 {
      RunKeeps(c, states, actions, i - 1);
      StepKeeps(c, states[i - 1], actions[i - 1], states[i]);
    }
  }

  /** However lookups race, one that is accepted returns the user the session was issued to, and is within
      the lifetime and within the idle timeout of an earlier real use. */
  lemma AcceptanceIsSound(c: Config, states: seq<State>, actions: seq<Action>, i: nat, n: nat)
    requires IsRun(c, states, actions) && i < |actions| && actions[i] == Write(n)
    requires n in states[i].readers && Admits(c, states[i].readers[n])
    ensures var s, r, h := states[i], states[i].readers[n], HashToken(states[i].readers[n].token);
            && h in s.owner && r.seen.value.userId == s.owner[h]
            && h in s.born && r.now < s.born[h] + c.lifetime
            && h in s.uses && (c.idleTimeout > 0 ==> exists u :: u in s.uses[h] && r.now - u < c.idleTimeout)
  {
    RunKeeps(c, states, actions, i);
    var r := states[i].readers[n];
    assert Genuine(c, states[i], HashToken(r.token), r.seen.value);
  }

  /** A lookup that nothing comes between is the atomic one: it accepts what that accepts, returns the same
      row, and leaves the same rows. */
  lemma LoneLookupIsAtomic(c: Config, s: State, n: nat, token: string, now: Time)
    returns (states: seq<State>, accepted: bool)
    requires n !in s.readers && token != ""
    ensures |states| >= 3 && states[0] == s && Next(c, s, Begin(n, token, now), states[1])
    ensures Next(c, states[1], Select(n), states[2])
    ensures |states| == 4 ==> Next(c, states[2], Write(n), states[3])
    ensures |states| <= 4 && n !in states[|states| - 1].readers
    ensures accepted <==> |states| == 4 && n in states[2].readers && Admits(c, states[2].readers[n])
    ensures accepted <==> Accepts(c, s.rows, token, now)
    ensures accepted ==> states[2].readers[n].seen == Some(s.rows[HashToken(token)])
    ensures states[|states| - 1].rows == After(c, s.rows, Lookup(token, now))
  {
    var s1 := s.(readers := s.readers[n := Reader(token, now, None)]);
    if HashToken(token) in s.rows {
      var r := Reader(token, now, Some(s.rows[HashToken(token)]));
      var s2 := s1.(readers := s1.readers[n := r]);
      var uses := if Admits(c, r) then UsedAt(s.uses, HashToken(token), now) else s.uses;
      var s3 := State(Written(c, s.rows, r), s2.readers - {n}, s.owner, s.born, uses);
      states, accepted := [s, s1, s2, s3], Admits(c, r);
      assert Next(c, s1, Select(n), s2) && Next(c, s2, Write(n), s3);
      if accepted {
        assert s3.rows == s.rows[HashToken(token) := Touched(s.rows[HashToken(token)], now)];
      }
    } else {
      states, accepted := [s, s1, s1.(readers := s1.readers - {n})], false;
    }
  }

  // ----- what is gone stays gone -----

  /** No late write brings a session back. */
  lemma {:induction false} GoneForGood(c: Config, states: seq<State>, actions: seq<Action>, h: Hash, i: nat, j: nat)
    requires IsRun(c, states, actions) && i <= j < |states|
    requires h in states[i].born && h !in states[i].rows
    ensures h in states[j].born && h !in states[j].rows
    decreases j - i
  {
    if i < j {
      GoneForGood(c, states, actions, h, i, j - 1);
      assert Next(c, states[j - 1], actions[j - 1], states[j]);
    }
  }

  /** Once a session is gone, a lookup that has yet to read it is refused. */
  lemma GoneIsRefused(c: Config, states: seq<State>, actions: seq<Action>, i: nat, j: nat, n: nat)
    requires IsRun(c, states, actions) && i <= j < |actions| && actions[j] == Select(n) && n in states[j].readers
    requires var h := HashToken(states[j].readers[n].token); h in states[i].born && h !in states[i].rows
    ensures n !in states[j + 1].readers
  {
    GoneForGood(c, states, actions, HashToken(states[j].readers[n].token), i, j);
    assert Next(c, states[j], actions[j], states[j + 1]);
  }

  // ----- losing a race -----

  /** Step k accepts a lookup of session h and moves its clock. */
  ghost predicate TouchedAt(c: Config, states: seq<State>, actions: seq<Action>, h: Hash, k: nat)
    requires k < |actions| && k < |states|
  {
    && actions[k].Write? && actions[k].n in states[k].readers
    && var r := states[k].readers[actions[k].n];
       HashToken(r.token) == h && Admits(c, r) && r.now - r.seen.value.lastUsedAt > TOUCH_INTERVAL
  }

  /** Step k is the last before j to touch the session. */
  ghost predicate LastTouch(c: Config, states: seq<State>, actions: seq<Action>, h: Hash, j: nat, k: nat)
    requires k < j <= |actions| && j <= |states|
  {
    TouchedAt(c, states, actions, h, k) && forall m :: k < m < j ==> !TouchedAt(c, states, actions, h, m)
  }

  /** A touch sets the row's clock to the time of the lookup; any other step leaves the row alone. */
  ghost predicate StepOfRow(c: Config, states: seq<State>, actions: seq<Action>, h: Hash, k: nat)
    requires k < |actions| && k + 1 < |states| && h in states[k].rows && h in states[k + 1].rows
  {
    if TouchedAt(c, states, actions, h, k) then
      states[k + 1].rows[h] == states[k].rows[h].(lastUsedAt := states[k].readers[actions[k].n].now)
    else states[k + 1].rows[h] == states[k].rows[h]
  }

  lemma {:induction false} SomeLastTouch(c: Config, states: seq<State>, actions: seq<Action>, h: Hash, i: nat, j: nat)
    returns (k: nat)
    requires i < j < |states| && j <= |actions|
    requires exists m :: i <= m < j && TouchedAt(c, states, actions, h, m)
    ensures i <= k < j && LastTouch(c, states, actions, h, j, k)
    decreases j - i
  {
    k := j - 1;
    if !TouchedAt(c, states, actions, h, k) {
      k := SomeLastTouch(c, states, actions, h, i, j - 1);
    }
  }

  lemma {:induction false} RowsAlong(c: Config, states: seq<State>, actions: seq<Action>, h: Hash, i: nat, j: nat)
    requires i <= j < |states| && j <= |actions|
    requires forall k :: i <= k <= j ==> h in states[k].rows
    requires forall k :: i <= k < j ==> StepOfRow(c, states, actions, h, k)
    ensures states[j].rows[h] == states[i].rows[h].(lastUsedAt := states[j].rows[h].lastUsedAt)
    ensures (forall k :: i <= k < j ==> !TouchedAt(c, states, actions, h, k)) ==> states[j].rows[h] == states[i].rows[h]
    ensures forall k :: i <= k < j && LastTouch(c, states, actions, h, j, k) ==>
              states[j].rows[h].lastUsedAt == states[k].readers[actions[k].n].now
    decreases j - i
  {
    if i < j {
      RowsAlong(c, states, actions, h, i, j - 1);
      assert StepOfRow(c, states, actions, h, j - 1);
      forall k | i <= k < j && LastTouch(c, states, actions, h, j, k)
        ensures states[j].rows[h].lastUsedAt == states[k].readers[actions[k].n].now
      {
        if k < j - 1 {
          assert LastTouch(c, states, actions, h, j - 1, k);
        }
      }
    }
  }

  /** A session's row changes only when a lookup of it is accepted, and its clock is the time of the last. */
  lemma RowsChangeByUse(c: Config, states: seq<State>, actions: seq<Action>, h: Hash, i: nat, j: nat)
    requires IsRun(c, states, actions) && i <= j < |states|
    requires h in states[i].born && h in states[j].rows
    ensures h in states[i].rows
    ensures states[j].rows[h] == states[i].rows[h].(lastUsedAt := states[j].rows[h].lastUsedAt)
    ensures forall k :: i <= k < j && LastTouch(c, states, actions, h, j, k) ==>
              states[j].rows[h].lastUsedAt == states[k].readers[actions[k].n].now
    ensures states[j].rows[h] == states[i].rows[h] || exists k :: i <= k < j && LastTouch(c, states, actions, h, j, k)
  {
    forall k | i <= k <= j ensures h in states[k].born && h in states[k].rows {
      BornStays(c, states, actions, h, i, k);
      WasThere(c, states, actions, h, k, j);
    }
    forall k | i <= k < j ensures StepOfRow(c, states, actions, h, k) {
      OneStep(c, states, actions, h, k);
    }
    RowsAlong(c, states, actions, h, i, j);
    if exists k :: i <= k < j && TouchedAt(c, states, actions, h, k) {
      var k := SomeLastTouch(c, states, actions, h, i, j);
    }
  }

  lemma WasThere(c: Config, states: seq<State>, actions: seq<Action>, h: Hash, i: nat, j: nat)
    requires IsRun(c, states, actions) && i <= j < |states|
    requires h in states[i].born && h in states[j].rows
    ensures h in states[i].rows
  {
    if h !in states[i].rows {
      GoneForGood(c, states, actions, h, i, j);
    }
  }

  lemma {:induction false} BornStays(c: Config, states: seq<State>, actions: seq<Action>, h: Hash, i: nat, j: nat)
    requires IsRun(c, states, actions) && i <= j < |states| && h in states[i].born
    ensures h in states[j].born
    decreases j - i
  {
    if i < j {
      BornStays(c, states, actions, h, i, j - 1);
      assert Next(c, states[j - 1], actions[j - 1], states[j]);
    }
  }

  lemma OneStep(c: Config, states: seq<State>, actions: seq<Action>, h: Hash, k: nat)
    requires IsRun(c, states, actions) && k < |actions|
    requires h in states[k].born && h in states[k].rows && h in states[k + 1].rows
    ensures StepOfRow(c, states, actions, h, k)
  {
    assert Next(c, states[k], actions[k], states[k + 1]);
  }

  /** Step j ends a lookup by deleting a session that the lookup's own clock would still let in. */
  ghost predicate LiveDeletion(c: Config, states: seq<State>, actions: seq<Action>, j: nat)
    requires |states| == |actions| + 1
  {
    && j < |actions| && actions[j].Write? && actions[j].n in states[j].readers
    && var r := states[j].readers[actions[j].n];
       var h := HashToken(r.token);
       h in states[j].rows && h !in states[j + 1].rows && !IsExpired(c, states[j].rows[h], r.now)
  }

  /** Lookup n reads its row at step i and writes at step j. */
  ghost predicate ReadsAndWrites(c: Config, states: seq<State>, actions: seq<Action>, i: nat, j: nat, n: nat) {
    && IsRun(c, states, actions) && i < j < |actions|
    && actions[i] == Select(n) && actions[j] == Write(n)
    && n in states[i].readers && n in states[i + 1].readers && n in states[j].readers
    && states[j].readers[n] == states[i + 1].readers[n]
  }

  /** A lookup whose row is still there when it writes deletes a live session exactly when the row it read
      was idle but not past its expiry, another lookup of the session has been accepted and has moved the
      clock in between, and the last of those was less than the idle timeout ago. */
  lemma LiveDeletionIsALostRace(c: Config, states: seq<State>, actions: seq<Action>, i: nat, j: nat, n: nat)
    requires ReadsAndWrites(c, states, actions, i, j, n)
    requires HashToken(states[j].readers[n].token) in states[j].rows
    ensures states[j].readers[n].seen.Some?
    ensures var r, h := states[j].readers[n], HashToken(states[j].readers[n].token);
            LiveDeletion(c, states, actions, j) <==>
            && IsExpired(c, r.seen.value, r.now)
            && r.now < r.seen.value.expiresAt
            && exists k :: i < k < j && LastTouch(c, states, actions, h, j, k)
                           && r.now - states[k].readers[actions[k].n].now < c.idleTimeout
  {
    var r, h := states[j].readers[n], HashToken(states[j].readers[n].token);
    assert Next(c, states[i], actions[i], states[i + 1]) && Next(c, states[j], actions[j], states[j + 1]);
    RunKeeps(c, states, actions, i + 1);
    assert r.seen == Some(states[i + 1].rows[h]);
    assert Genuine(c, states[i + 1], h, r.seen.value);
    RowsChangeByUse(c, states, actions, h, i + 1, j);
    WriteDeletesIff(c, states[j], n, states[j + 1]);
  }

  lemma WriteDeletesIff(c: Config, s: State, n: nat, s': State)
    requires Next(c, s, Write(n), s') && HashToken(s.readers[n].token) in s.rows
    ensures HashToken(s.readers[n].token) !in s'.rows <==> IsExpired(c, s.readers[n].seen.value, s.readers[n].now)
  {
  }

  // ----- which configurations allow it -----

  /** No clock stands before its session's issue, and it moves at all only where the idle timeout leaves
      room for an accepted lookup to find it stale. */
  predicate ClockFits(c: Config, s: State, h: Hash, row: Session) {
    && h in s.born && s.born[h] <= row.lastUsedAt && row.expiresAt == s.born[h] + c.lifetime
    && (0 < c.idleTimeout <= TOUCH_INTERVAL + 1 ==> row.lastUsedAt == s.born[h])
  }

  ghost predicate ClocksFit(c: Config, s: State) {
    && (forall h :: h in s.rows ==> ClockFits(c, s, h, s.rows[h]))
    && (forall n :: n in s.readers && s.readers[n].seen.Some? ==>
          ClockFits(c, s, HashToken(s.readers[n].token), s.readers[n].seen.value))
  }

  lemma FitsStays(c: Config, s: State, a: Action, s': State, h: Hash, row: Session)
    requires Next(c, s, a, s') && ClockFits(c, s, h, row)
    ensures ClockFits(c, s', h, row)
  {
  }

  lemma RowFits(c: Config, s: State, a: Action, s': State, h: Hash)
    requires ClocksFit(c, s) && Next(c, s, a, s') && h in s'.rows
    ensures ClockFits(c, s', h, s'.rows[h])
  {
    if h in s.rows {
      FitsStays(c, s, a, s', h, s.rows[h]);
    }
  }

  lemma StepFits(c: Config, s: State, a: Action, s': State)
    requires ClocksFit(c, s) && Next(c, s, a, s')
    ensures ClocksFit(c, s')
  {
    forall h | h in s'.rows ensures ClockFits(c, s', h, s'.rows[h]) {
      RowFits(c, s, a, s', h);
    }
    forall n | n in s'.readers && s'.readers[n].seen.Some?
      ensures ClockFits(c, s', HashToken(s'.readers[n].token), s'.readers[n].seen.value)
    {
      FitsStays(c, s, a, s', HashToken(s'.readers[n].token), s'.readers[n].seen.value);
    }
  }

  lemma {:induction false} RunFits(c: Config, states: seq<State>, actions: seq<Action>, i: nat)
    requires IsRun(c, states, actions) && i < |states|
    ensures ClocksFit(c, states[i])
  {
    if i > 0 {
      RunFits(c, states, actions, i - 1);
      StepFits(c, states[i - 1], actions[i - 1], states[i]);
    }
  }

  lemma LiveDeletionNeedsRoom(c: Config, states: seq<State>, actions: seq<Action>, j: nat)
    requires IsRun(c, states, actions) && LiveDeletion(c, states, actions, j)
    ensures TOUCH_INTERVAL + 1 < c.idleTimeout < c.lifetime
  {
    RunFits(c, states, actions, j);
    assert Next(c, states[j], actions[j], states[j + 1]);
    var r := states[j].readers[actions[j].n];
    WriteDeletesIff(c, states[j], actions[j].n, states[j + 1]);
    assert ClockFits(c, states[j], HashToken(r.token), r.seen.value);
    assert ClockFits(c, states[j], HashToken(r.token), states[j].rows[HashToken(r.token)]);
  }

  /** A configuration lets some run of racing lookups delete a live session if and only if its idle timeout
      is longer than the touch interval and a nanosecond, and shorter than the lifetime. */
  lemma LiveDeletionPossibleIff(c: Config)
    ensures (exists states, actions, j :: IsRun(c, states, actions) && LiveDeletion(c, states, actions, j))
            <==> TOUCH_INTERVAL + 1 < c.idleTimeout < c.lifetime
  {
    if TOUCH_INTERVAL + 1 < c.idleTimeout < c.lifetime {
      StaleLookupDeletes(c);
      var states := seq(8, k requires 0 <= k < 8 => Collision(c, k));
      assert LiveDeletion(c, states, CollisionActions(c), 6);
    }
    forall states, actions, j | IsRun(c, states, actions) && LiveDeletion(c, states, actions, j)
      ensures TOUCH_INTERVAL + 1 < c.idleTimeout < c.lifetime
    {
      LiveDeletionNeedsRoom(c, states, actions, j);
    }
  }

  /** It does happen. Two lookups one nanosecond apart, around the idle timeout, both read the row; the
      earlier is accepted and moves the clock; the later then deletes the session. */
  function Collision(c: Config, k: nat): State {
    var h, idle := HashToken("t"), c.idleTimeout;
    var row, owner, born, used := Session("u", 0, 0, c.lifetime), map[h := "u"], map[h := 0], map[h := {0}];
    var first, second := Reader("t", idle - 1, None), Reader("t", idle, None);
    if k == 0 then INIT
    else if k == 1 then State(map[h := row], map[], owner, born, used)
    else if k == 2 then State(map[h := row], map[0 := first], owner, born, used)
    else if k == 3 then State(map[h := row], map[0 := first, 1 := second], owner, born, used)
    else if k == 4 then State(map[h := row], map[0 := first.(seen := Some(row)), 1 := second], owner, born, used)
    else if k == 5 then
      State(map[h := row], map[0 := first.(seen := Some(row)), 1 := second.(seen := Some(row))], owner, born, used)
    else if k == 6 then
      State(map[h := row.(lastUsedAt := idle - 1)], map[1 := second.(seen := Some(row))],
            owner, born, map[h := {0, idle - 1}])
    else State(map[], map[], owner, born, map[h := {0, idle - 1}])
  }

  function CollisionActions(c: Config): seq<Action> {
    [Issuing("t", "u", 0), Begin(0, "t", c.idleTimeout - 1), Begin(1, "t", c.idleTimeout),
     Select(0), Select(1), Write(0), Write(1)]
  }

  lemma CollisionStep(c: Config, k: nat)
    requires TOUCH_INTERVAL + 1 < c.idleTimeout < c.lifetime && k < 7
    ensures Next(c, Collision(c, k), CollisionActions(c)[k], Collision(c, k + 1))
  {
    var none: set<Time> := {};
    assert none + {0} == {0} && {0} + {c.idleTimeout - 1} == {0, c.idleTimeout - 1};
  }

  lemma StaleLookupDeletes(c: Config)
    requires TOUCH_INTERVAL + 1 < c.idleTimeout < c.lifetime
    ensures var states := seq(8, k requires 0 <= k < 8 => Collision(c, k));
            && IsRun(c, states, CollisionActions(c))
            && Admits(c, states[5].readers[0])
            && !IsExpired(c, states[6].rows[HashToken("t")], c.idleTimeout)
            && states[7].rows == map[]
  {
    var states := seq(8, k requires 0 <= k < 8 => Collision(c, k));
    forall k | 0 <= k < 7 ensures Next(c, states[k], CollisionActions(c)[k], states[k + 1]) {
      CollisionStep(c, k);
    }
    assert states[0] == INIT;
  }
}
