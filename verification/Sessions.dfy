/** internal/auth.SessionStore: sessions with an absolute expiry and an idle timeout whose clock is
    written back at most once a minute. Instants are nanoseconds; the rows are keyed by the hash of
    the bearer token, which HashToken makes injective. */
module Sessions {
  import opened Common

  const TOUCH_INTERVAL: Time := 60 * 1_000_000_000
  const DEFAULT_LIFETIME: Time := 30 * 24 * 3600 * 1_000_000_000

  datatype Config = Config(lifetime: Time, idleTimeout: Time)

  datatype Session = Session(userId: Id, createdAt: Time, lastUsedAt: Time, expiresAt: Time)

  type Rows = map<Hash, Session>

  datatype Event =
    | Issue(token: string, userId: Id, now: Time)
    | Lookup(token: string, now: Time)
    | Revoke(token: string)
    | RevokeAll(userId: Id)
    | DeleteExpired(now: Time)

  predicate IsExpired(c: Config, s: Session, now: Time) {
    now >= s.expiresAt || (c.idleTimeout > 0 && now - s.lastUsedAt >= c.idleTimeout)
  }

  function Touched(s: Session, now: Time): Session {
    if now - s.lastUsedAt > TOUCH_INTERVAL then s.(lastUsedAt := now) else s
  }

  function WithoutUser(rows: Rows, userId: Id): Rows {
    map h | h in rows && rows[h].userId != userId :: rows[h]
  }

  function WithoutExpired(rows: Rows, now: Time): Rows {
    map h | h in rows && rows[h].expiresAt > now :: rows[h]
  }

  predicate Accepts(c: Config, rows: Rows, token: string, now: Time) {
    token != "" && HashToken(token) in rows && !IsExpired(c, rows[HashToken(token)], now)
  }

  function After(c: Config, rows: Rows, e: Event): Rows {
    match e
    case Issue(token, userId, now) => rows[HashToken(token) := Session(userId, now, now, now + c.lifetime)]
    case Lookup(token, now) =>
      var h := HashToken(token);
      if token == "" || h !in rows then rows
      else if IsExpired(c, rows[h], now) then rows - {h}
      else rows[h := Touched(rows[h], now)]
    case Revoke(token) => if token == "" then rows else rows - {HashToken(token)}
    case RevokeAll(userId) => WithoutUser(rows, userId)
    case DeleteExpired(now) => WithoutExpired(rows, now)
  }

  // ----- the object -----

  class SessionStore {
    const config: Config
    var rows: Rows

    constructor (lifetime: Time, idleTimeout: Time)
      ensures rows == map[]
      ensures config.lifetime > 0 && config.idleTimeout >= 0
      ensures config.lifetime == if lifetime <= 0 then 30 * 24 * 3600 * 1_000_000_000 else lifetime
      ensures config.idleTimeout == Max(idleTimeout, 0)
    {
      config := Config(if lifetime <= 0 then DEFAULT_LIFETIME else lifetime,
                       if idleTimeout < 0 then 0 else idleTimeout);
      rows := map[];
    }

    method IssueSession(token: string, userId: Id, now: Time) returns (ok: bool)
      modifies this
      ensures ok <==> userId != ""
      ensures rows == if ok then After(config, old(rows), Issue(token, userId, now)) else old(rows)
      ensures ok ==>
                rows == old(rows)[HashToken(token) :=
                          Session(userId := userId, createdAt := now, lastUsedAt := now,
                                  expiresAt := now + config.lifetime)]
    {
      if userId == "" {
        return false;
      }
      rows := rows[HashToken(token) := Session(userId, now, now, now + config.lifetime)];
      return true;
    }

    method LookupSession(token: string, now: Time) returns (r: Option<Session>)
      modifies this
      ensures r.Some? <==> Accepts(config, old(rows), token, now)
      ensures rows == After(config, old(rows), Lookup(token, now))
      ensures r.Some? ==> r == Some(rows[HashToken(token)])
      ensures r.Some? ==>
                var row := old(rows)[HashToken(token)];
                && r.value == row.(lastUsedAt := if now - row.lastUsedAt > 60_000_000_000 then now else row.lastUsedAt)
                && rows == old(rows)[HashToken(token) := r.value]
      ensures r.None? ==> rows == if token != "" then old(rows) - {HashToken(token)} else old(rows)
    {
      var h := HashToken(token);
      if token == "" || h !in rows {
        return None;
      }
      var session := rows[h];
      if IsExpired(config, session, now) {
        rows := rows - {h};
        return None;
      }
      if now - session.lastUsedAt > TOUCH_INTERVAL {
        session := session.(lastUsedAt := now);
        rows := rows[h := session];
      }
      assert rows == After(config, old(rows), Lookup(token, now));
      return Some(session);
    }

    method RevokeSession(token: string)
      modifies this
      ensures rows == After(config, old(rows), Event.Revoke(token))
      ensures forall now :: !Accepts(config, rows, token, now)
      ensures rows == if token != "" then old(rows) - {HashToken(token)} else old(rows)
    {
      if token != "" {
        rows := rows - {HashToken(token)};
      }
    }

    method RevokeAllForUser(userId: Id) returns (n: nat)
      modifies this
      ensures rows == After(config, old(rows), RevokeAll(userId))
      ensures n == |old(rows)| - |rows|
      ensures forall h :: h in rows <==> h in old(rows) && old(rows)[h].userId != userId
      ensures forall h :: h in rows ==> rows[h] == old(rows)[h]
    {
      var before := |rows|;
      KeysSubsetSize(WithoutUser(rows, userId), rows);
      rows := WithoutUser(rows, userId);
      return before - |rows|;
    }

    method DeleteExpiredSessions(now: Time) returns (n: nat)
      modifies this
      ensures rows == After(config, old(rows), DeleteExpired(now))
      ensures forall h :: h in rows <==> h in old(rows) && now < old(rows)[h].expiresAt
      ensures forall h :: h in rows ==> rows[h] == old(rows)[h]
      ensures n == |old(rows)| - |rows|
    {
      var before := |rows|;
      KeysSubsetSize(WithoutExpired(rows, now), rows);
      rows := WithoutExpired(rows, now);
      return before - |rows|;
    }
  }

  lemma KeysSubsetSize(a: Rows, b: Rows)
    requires a.Keys <= b.Keys
    ensures |a| <= |b|
  {
    SubsetSize(a.Keys, b.Keys);
  }

  lemma {:induction false} SubsetSize<T>(a: set<T>, b: set<T>)
    requires a <= b
    ensures |a| <= |b|
  {
    if a != {} {
      var x :| x in a;
      SubsetSize(a - {x}, b - {x});
    }
  }

  // ----- traces -----

  /** The rows, every token ever issued and to whom, the exact time each session was last really used
      (issued, or accepted by a lookup), when it was issued, and which sessions somebody ended on purpose.
      Only the rows exist in the system. */
  datatype World = World(
    rows: Rows,
    issued: set<Hash>,
    owner: map<Hash, Id>,
    used: map<Hash, Time>,
    born: map<Hash, Time>,
    ended: set<Hash>)

  const NEW_WORLD := World(map[], {}, map[], map[], map[], {})

  function Next(c: Config, w: World, e: Event): World {
    var rows := After(c, w.rows, e);
    match e
    case Issue(token, userId, now) =>
      var h := HashToken(token);
      World(rows, w.issued + {h}, w.owner[h := userId], w.used[h := now], w.born[h := now], w.ended)
    case Lookup(token, now) =>
      if Accepts(c, w.rows, token, now) then w.(rows := rows, used := w.used[HashToken(token) := now])
      else w.(rows := rows)
    case Revoke(token) => if token == "" then w else w.(rows := rows, ended := w.ended + {HashToken(token)})
    case RevokeAll(user) => w.(rows := rows, ended := w.ended + (w.rows.Keys - rows.Keys))
    case DeleteExpired(_) => w.(rows := rows)
  }

  /** An event may happen now: the clock has not gone back, and an issued token is a new one. */
  predicate Timely(w: World, from: Time, e: Event) {
    match e
    case Issue(token, _, now) => from <= now && token != "" && HashToken(token) !in w.issued
    case Lookup(_, now) => from <= now
    case DeleteExpired(now) => from <= now
    case _ => true
  }

  function Clock(from: Time, e: Event): Time {
    match e
    case Issue(_, _, now) => now
    case Lookup(_, now) => now
    case DeleteExpired(now) => now
    case _ => from
  }

  predicate IsTrace(c: Config, w: World, from: Time, trace: seq<Event>)
    decreases |trace|
  {
    trace != [] ==> Timely(w, from, trace[0]) && IsTrace(c, Next(c, w, trace[0]), Clock(from, trace[0]), trace[1..])
  }

  function End(c: Config, w: World, trace: seq<Event>): World
    decreases |trace|
  {
    if trace == [] then w else End(c, Next(c, w, trace[0]), trace[1..])
  }

  function EndClock(from: Time, trace: seq<Event>): Time
    decreases |trace|
  {
    if trace == [] then from else EndClock(Clock(from, trace[0]), trace[1..])
  }

  /** For each event: does it let a bearer in? */
  function Verdicts(c: Config, w: World, trace: seq<Event>): (r: seq<bool>)
    ensures |r| == |trace|
    decreases |trace|
  {
    if trace == [] then []
    else
      [trace[0].Lookup? && Accepts(c, w.rows, trace[0].token, trace[0].now)]
      + Verdicts(c, Next(c, w, trace[0]), trace[1..])
  }

  // ----- the lazy clock trails the exact one by at most a minute -----

  predicate RowTracked(c: Config, w: World, h: Hash, now: Time)
    requires h in w.rows
  {
    && h in w.issued && h in w.owner && h in w.used && h in w.born
    && w.rows[h].userId == w.owner[h] && w.rows[h].createdAt == w.born[h]
    && w.rows[h].lastUsedAt <= w.used[h] <= now
    && w.used[h] - w.rows[h].lastUsedAt <= TOUCH_INTERVAL
    && w.rows[h].expiresAt == w.born[h] + c.lifetime
  }

  ghost predicate Tracked(c: Config, w: World, now: Time) {
    forall h :: h in w.rows ==> RowTracked(c, w, h, now)
  }

  lemma StepTracks(c: Config, w: World, from: Time, e: Event)
    requires Tracked(c, w, from) && Timely(w, from, e)
    ensures Tracked(c, Next(c, w, e), Clock(from, e))
  {
    var next := Next(c, w, e);
    forall h | h in next.rows ensures RowTracked(c, next, h, Clock(from, e)) {
      if h in w.rows {
        assert RowTracked(c, w, h, from);
      }
    }
  }

  lemma {:induction false} TraceTracks(c: Config, w: World, from: Time, trace: seq<Event>)
    requires Tracked(c, w, from) && IsTrace(c, w, from, trace)
    ensures Tracked(c, End(c, w, trace), EndClock(from, trace))
    decreases |trace|
  {
    if trace != [] {
      StepTracks(c, w, from, trace[0]);
      TraceTracks(c, Next(c, w, trace[0]), Clock(from, trace[0]), trace[1..]);
    }
  }

  /** Why an issued session may be gone: ended on purpose, past its expiry, or really idle for at
      least a minute less than the timeout. */
  predicate Accounted(c: Config, w: World, h: Hash, now: Time)
    requires h in w.issued
  {
    && h in w.used && h in w.born
    && (h in w.rows || h in w.ended || now >= w.born[h] + c.lifetime ||
        (c.idleTimeout > 0 && now - w.used[h] >= c.idleTimeout - TOUCH_INTERVAL))
  }

  ghost predicate AllAccounted(c: Config, w: World, now: Time) {
    forall h :: h in w.issued ==> Accounted(c, w, h, now)
  }

  lemma StepAccounts(c: Config, w: World, from: Time, e: Event)
    requires Tracked(c, w, from) && AllAccounted(c, w, from) && Timely(w, from, e)
    ensures AllAccounted(c, Next(c, w, e), Clock(from, e))
  {
    var next := Next(c, w, e);
    forall h | h in next.issued ensures Accounted(c, next, h, Clock(from, e)) {
      if h in w.issued {
        assert Accounted(c, w, h, from);
        if h in w.rows {
          assert RowTracked(c, w, h, from);
        }
      }
    }
  }

  lemma {:induction false} TraceAccounts(c: Config, w: World, from: Time, trace: seq<Event>)
    requires Tracked(c, w, from) && AllAccounted(c, w, from) && IsTrace(c, w, from, trace)
    ensures AllAccounted(c, End(c, w, trace), EndClock(from, trace))
    decreases |trace|
  {
    if trace != [] {
      StepTracks(c, w, from, trace[0]);
      StepAccounts(c, w, from, trace[0]);
      TraceAccounts(c, Next(c, w, trace[0]), Clock(from, trace[0]), trace[1..]);
    }
  }

  /** After every trace: a session really idle for the timeout is refused, and nothing is accepted
      past its issue plus the lifetime; every session issued and not ended on purpose that has
      really been idle for less than a minute short of the timeout is accepted until then. */
  lemma LazyClockIsSafe(c: Config, start: Time, trace: seq<Event>, token: string, now: Time)
    requires IsTrace(c, NEW_WORLD, start, trace) && EndClock(start, trace) <= now
    ensures var w, h := End(c, NEW_WORLD, trace), HashToken(token);
            && (h in w.rows ==> h in w.issued)
            && (h in w.issued ==> h in w.used && h in w.born)
            && (Accepts(c, w.rows, token, now) ==>
                  && (c.idleTimeout > 0 ==> now - w.used[h] < c.idleTimeout)
                  && now < w.born[h] + c.lifetime)
            && (token != "" && h in w.issued && h !in w.ended && now < w.born[h] + c.lifetime &&
                (c.idleTimeout > 0 ==> now - w.used[h] < c.idleTimeout - TOUCH_INTERVAL) ==>
                  Accepts(c, w.rows, token, now))
  {
    TraceTracks(c, NEW_WORLD, start, trace);
    TraceAccounts(c, NEW_WORLD, start, trace);
    var w, h := End(c, NEW_WORLD, trace), HashToken(token);
    assert h in w.issued ==> Accounted(c, w, h, EndClock(start, trace));
    if h in w.rows {
      assert RowTracked(c, w, h, EndClock(start, trace));
    }
  }

  // ----- whose session it is -----

  /** Some event of the trace issues this token to this user. */
  ghost predicate IssuedTo(trace: seq<Event>, token: string, user: Id) {
    exists i :: 0 <= i < |trace| && trace[i].Issue? && trace[i].token == token && trace[i].userId == user
  }

  lemma IssuedFirstOrLater(trace: seq<Event>, token: string, user: Id)
    requires trace != []
    ensures IssuedTo(trace, token, user) <==>
            (trace[0].Issue? && trace[0].token == token && trace[0].userId == user) || IssuedTo(trace[1..], token, user)
  {
    if IssuedTo(trace[1..], token, user) {
      var i :| 0 <= i < |trace[1..]| && trace[1..][i].Issue? && trace[1..][i].token == token
               && trace[1..][i].userId == user;
      assert trace[i + 1] == trace[1..][i];
    }
    if IssuedTo(trace, token, user) {
      var i :| 0 <= i < |trace| && trace[i].Issue? && trace[i].token == token && trace[i].userId == user;
      assert i > 0 ==> trace[1..][i - 1] == trace[i];
    }
  }

  lemma {:induction false} OwnersAreIssues(c: Config, w: World, from: Time, trace: seq<Event>, token: string, user: Id)
    requires IsTrace(c, w, from, trace) && w.owner.Keys == w.issued
    ensures var end, h := End(c, w, trace), HashToken(token);
            && end.owner.Keys == end.issued && w.issued <= end.issued
            && (h in w.owner ==> end.owner[h] == w.owner[h] && !IssuedTo(trace, token, user))
            && (h !in w.owner ==> (IssuedTo(trace, token, user) <==> h in end.owner && end.owner[h] == user))
    decreases |trace|
  {
    if trace != [] {
      OwnersAreIssues(c, Next(c, w, trace[0]), Clock(from, trace[0]), trace[1..], token, user);
      IssuedFirstOrLater(trace, token, user);
    }
  }

  /** After every trace, a session that is let in belongs to the user it was issued to and to nobody else. */
  lemma SessionIsItsUsers(c: Config, start: Time, trace: seq<Event>, token: string, now: Time, user: Id)
    requires IsTrace(c, NEW_WORLD, start, trace)
    requires Accepts(c, End(c, NEW_WORLD, trace).rows, token, now)
    ensures IssuedTo(trace, token, user) <==> End(c, NEW_WORLD, trace).rows[HashToken(token)].userId == user
  {
    TraceTracks(c, NEW_WORLD, start, trace);
    assert RowTracked(c, End(c, NEW_WORLD, trace), HashToken(token), EndClock(start, trace));
    OwnersAreIssues(c, NEW_WORLD, start, trace, token, user);
  }

  /** Signing a user out everywhere: no token issued to the user before is let in ever after. */
  lemma SignedOutEverywhere(c: Config, start: Time, before: seq<Event>, user: Id, later: seq<Event>, token: string,
                            now: Time)
    requires IsTrace(c, NEW_WORLD, start, before + ([RevokeAll(user)] + later)) && IssuedTo(before, token, user)
    ensures !Accepts(c, End(c, NEW_WORLD, before + ([RevokeAll(user)] + later)).rows, token, now)
  {
    var w, from, h := End(c, NEW_WORLD, before), EndClock(start, before), HashToken(token);
    var out: Event := RevokeAll(user);
    TraceConcat(c, NEW_WORLD, start, before, [out] + later);
    EndConcat(c, NEW_WORLD, before, [out] + later);
    OwnersAreIssues(c, NEW_WORLD, start, before, token, user);
    TraceTracks(c, NEW_WORLD, start, before);
    assert h in w.rows ==> RowTracked(c, w, h, from);
    assert ([out] + later)[1..] == later;
    GoneStaysGone(c, Next(c, w, out), from, later, token);
  }

  /** And nobody else is: a session issued to another user is untouched. */
  lemma OthersStaySignedIn(c: Config, start: Time, before: seq<Event>, user: Id, token: string, other: Id)
    requires IsTrace(c, NEW_WORLD, start, before) && IssuedTo(before, token, other) && other != user
    ensures var rows, h := End(c, NEW_WORLD, before).rows, HashToken(token);
            var after := After(c, rows, RevokeAll(user));
            (h in after <==> h in rows) && (h in rows ==> after[h] == rows[h])
  {
    var w, h := End(c, NEW_WORLD, before), HashToken(token);
    OwnersAreIssues(c, NEW_WORLD, start, before, token, other);
    TraceTracks(c, NEW_WORLD, start, before);
    assert h in w.rows ==> RowTracked(c, w, h, EndClock(start, before));
  }

  lemma {:induction false} EndConcat(c: Config, w: World, one: seq<Event>, two: seq<Event>)
    ensures End(c, w, one + two) == End(c, End(c, w, one), two)
    decreases |one|
  {
    if one == [] {
      assert one + two == two;
    } else {
      assert (one + two)[1..] == one[1..] + two;
      EndConcat(c, Next(c, w, one[0]), one[1..], two);
    }
  }

  // ----- what is gone stays gone -----

  lemma {:induction false} GoneStaysGone(c: Config, w: World, from: Time, trace: seq<Event>, token: string)
    requires IsTrace(c, w, from, trace)
    requires HashToken(token) in w.issued && HashToken(token) !in w.rows
    ensures HashToken(token) !in End(c, w, trace).rows
    decreases |trace|
  {
    if trace != [] {
      GoneStaysGone(c, Next(c, w, trace[0]), Clock(from, trace[0]), trace[1..], token);
    }
  }

  /** An event after which the token is no longer good: refused, revoked, or its user's sessions
      ended. */
  predicate Ends(c: Config, w: World, e: Event, token: string) {
    match e
    case Lookup(t, now) => t == token && !Accepts(c, w.rows, token, now)
    case Revoke(t) => t == token && token != ""
    case RevokeAll(user) => HashToken(token) in w.rows && w.rows[HashToken(token)].userId == user
    case _ => false
  }

  /** Once an issued token has been refused or revoked it is never accepted again. */
  lemma RejectionIsFinal(c: Config, w: World, from: Time, e: Event, later: seq<Event>, token: string, now: Time)
    requires token != "" && HashToken(token) in w.issued && Ends(c, w, e, token)
    requires IsTrace(c, w, from, [e] + later)
    ensures !Accepts(c, End(c, w, [e] + later).rows, token, now)
  {
    assert ([e] + later)[1..] == later;
    GoneStaysGone(c, Next(c, w, e), Clock(from, e), later, token);
  }

  // ----- housekeeping is invisible -----

  /** b is a without some rows that are past their absolute expiry. */
  ghost predicate Purged(a: World, b: World, now: Time) {
    && a.issued == b.issued
    && (forall h :: h in b.rows ==> h in a.rows && a.rows[h] == b.rows[h])
    && (forall h :: h in a.rows && h !in b.rows ==> h in a.issued && a.rows[h].expiresAt <= now)
  }

  lemma PurgedVerdict(c: Config, a: World, b: World, from: Time, e: Event)
    requires Purged(a, b, from) && Timely(a, from, e)
    ensures e.Lookup? ==> (Accepts(c, a.rows, e.token, e.now) <==> Accepts(c, b.rows, e.token, e.now))
    ensures Timely(b, from, e)
  {
  }

  lemma PurgedRow(c: Config, a: World, b: World, from: Time, e: Event, h: Hash)
    requires Purged(a, b, from) && Timely(a, from, e)
    ensures h in After(c, b.rows, e) ==> h in After(c, a.rows, e) && After(c, a.rows, e)[h] == After(c, b.rows, e)[h]
    ensures h in After(c, a.rows, e) && h !in After(c, b.rows, e) ==>
              h in a.issued && After(c, a.rows, e)[h].expiresAt <= Clock(from, e)
  {
  }

  lemma PurgedStep(c: Config, a: World, b: World, from: Time, e: Event)
    requires Purged(a, b, from) && Timely(a, from, e)
    ensures e.Lookup? ==> (Accepts(c, a.rows, e.token, e.now) <==> Accepts(c, b.rows, e.token, e.now))
    ensures Timely(b, from, e)
    ensures Purged(Next(c, a, e), Next(c, b, e), Clock(from, e))
  {
    PurgedVerdict(c, a, b, from, e);
    var s, u := Next(c, a, e), Next(c, b, e);
    assert s.rows == After(c, a.rows, e) && u.rows == After(c, b.rows, e);
    assert s.issued == u.issued && a.issued <= s.issued;
    forall h
      ensures h in u.rows ==> h in s.rows && s.rows[h] == u.rows[h]
      ensures h in s.rows && h !in u.rows ==> h in s.issued && s.rows[h].expiresAt <= Clock(from, e)
    {
      PurgedRow(c, a, b, from, e, h);
    }
  }

  lemma {:induction false} PurgedRun(c: Config, a: World, b: World, from: Time, trace: seq<Event>)
    requires Purged(a, b, from) && IsTrace(c, a, from, trace)
    ensures Verdicts(c, a, trace) == Verdicts(c, b, trace)
    decreases |trace|
  {
    if trace != [] {
      PurgedStep(c, a, b, from, trace[0]);
      PurgedRun(c, Next(c, a, trace[0]), Next(c, b, trace[0]), Clock(from, trace[0]), trace[1..]);
    }
  }

  lemma {:induction false} VerdictsConcat(c: Config, w: World, one: seq<Event>, two: seq<Event>)
    ensures Verdicts(c, w, one + two) == Verdicts(c, w, one) + Verdicts(c, End(c, w, one), two)
    decreases |one|
  {
    if one == [] {
      assert one + two == two;
    } else {
      assert (one + two)[1..] == one[1..] + two;
      VerdictsConcat(c, Next(c, w, one[0]), one[1..], two);
    }
  }

  lemma {:induction false} TraceConcat(c: Config, w: World, from: Time, one: seq<Event>, two: seq<Event>)
    requires IsTrace(c, w, from, one + two)
    ensures IsTrace(c, w, from, one) && IsTrace(c, End(c, w, one), EndClock(from, one), two)
    decreases |one|
  {
    if one == [] {
      assert one + two == two;
    } else {
      assert (one + two)[1..] == one[1..] + two;
      TraceConcat(c, Next(c, w, one[0]), Clock(from, one[0]), one[1..], two);
    }
  }

  /** Deleting expired sessions at any point of any trace changes no verdict, before or after. */
  lemma HousekeepingIsInvisible(c: Config, start: Time, before: seq<Event>, at: Time, after: seq<Event>)
    requires IsTrace(c, NEW_WORLD, start, before + [DeleteExpired(at)] + after)
    ensures var with := Verdicts(c, NEW_WORLD, before + [DeleteExpired(at)] + after);
            var without := Verdicts(c, NEW_WORLD, before + after);
            with == without[..|before|] + [false] + without[|before|..]
  {
    var tidy := DeleteExpired(at);
    var w, now := End(c, NEW_WORLD, before), EndClock(start, before);
    assert before + [tidy] + after == before + ([tidy] + after);
    TraceConcat(c, NEW_WORLD, start, before, [tidy] + after);
    VerdictsConcat(c, NEW_WORLD, before, [tidy] + after);
    VerdictsConcat(c, NEW_WORLD, before, after);
    TraceTracks(c, NEW_WORLD, start, before);
    assert ([tidy] + after)[1..] == after;
    var b := Next(c, w, tidy);
    assert forall h :: h in w.rows ==> RowTracked(c, w, h, now);
    assert Purged(w, b, at);
    TidiedTrace(c, w, b, at, after);
    PurgedRun(c, w, b, at, after);
  }

  /** The rest of the trace is as possible without the housekeeping as with it. */
  lemma {:induction false} TidiedTrace(c: Config, a: World, b: World, from: Time, trace: seq<Event>)
    requires Purged(a, b, from) && IsTrace(c, b, from, trace)
    ensures IsTrace(c, a, from, trace)
    decreases |trace|
  {
    if trace != [] {
      assert Timely(a, from, trace[0]);
      PurgedStep(c, a, b, from, trace[0]);
      TidiedTrace(c, Next(c, a, trace[0]), Next(c, b, trace[0]), Clock(from, trace[0]), trace[1..]);
    }
  }
}
