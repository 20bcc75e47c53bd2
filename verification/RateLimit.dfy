/** internal/httpapi.Limiter: token buckets that are refilled lazily and forgotten when idle.

    Amounts are exact: a request costs 60 * 10^9 units and one nanosecond adds
    `requestsPerMinute` units, so the sustained rate is requestsPerMinute per minute. The source
    computes in float64. Instants are nanoseconds and do not go backwards within a trace. */
module RateLimit {
  import opened Common
  import opened Division

  const SECOND: Time := 1_000_000_000
  const COST := 60 * SECOND
  const SWEEP_EVERY: Time := 60 * SECOND
  const IDLE_TTL: Time := 600 * SECOND

  datatype Config = Config(requestsPerMinute: int, burst: int)

  predicate Limiting(c: Config) {
    c.requestsPerMinute > 0 && c.burst > 0
  }

  datatype Bucket = Bucket(tokens: int, lastSeen: Time)

  datatype State = State(buckets: map<string, Bucket>, lastSweep: Time)

  datatype Answer = Admitted | Refused(wait: Time)

  datatype Call = Call(key: string, now: Time)

  function Capacity(c: Config): int {
    c.burst * COST
  }

  function Gain(c: Config, elapsed: Time): int {
    c.requestsPerMinute * elapsed
  }

  function Refilled(c: Config, b: Bucket, now: Time): int {
    if now > b.lastSeen then Min(Capacity(c), b.tokens + Gain(c, now - b.lastSeen)) else b.tokens
  }

  /** What Allow does to one client's bucket. */
  function Decide(c: Config, b: Option<Bucket>, now: Time): (Bucket, Answer)
    requires Limiting(c)
  {
    if b.None? then (Bucket(Capacity(c) - COST, now), Admitted)
    else
      var tokens := Refilled(c, b.value, now);
      if tokens < COST then (Bucket(tokens, now), Refused(Max((COST - tokens) / c.requestsPerMinute, SECOND)))
      else (Bucket(tokens - COST, now), Admitted)
  }

  predicate Idle(b: Bucket, now: Time) {
    now - b.lastSeen > IDLE_TTL
  }

  function Swept(s: State, now: Time): State {
    if now - s.lastSweep < SWEEP_EVERY then s
    else State(map k | k in s.buckets && !Idle(s.buckets[k], now) :: s.buckets[k], now)
  }

  function BucketOf(s: State, key: string): Option<Bucket> {
    if key in s.buckets then Some(s.buckets[key]) else None
  }

  /** One call. `sweeping` distinguishes the limiter from the ideal one that forgets nobody. */
  function Allow(c: Config, sweeping: bool, s: State, call: Call): (State, Answer) {
    if !Limiting(c) then (s, Admitted)
    else
      var now := if sweeping then Swept(s, call.now) else s;
      var (bucket, answer) := Decide(c, BucketOf(now, call.key), call.now);
      (now.(buckets := now.buckets[call.key := bucket]), answer)
  }

  function Answers(c: Config, sweeping: bool, s: State, trace: seq<Call>): (r: seq<Answer>)
    ensures |r| == |trace|
    decreases |trace|
  {
    if trace == [] then []
    else
      var (next, answer) := Allow(c, sweeping, s, trace[0]);
      [answer] + Answers(c, sweeping, next, trace[1..])
  }

  function After(c: Config, sweeping: bool, s: State, trace: seq<Call>): State
    decreases |trace|
  {
    if trace == [] then s else After(c, sweeping, Allow(c, sweeping, s, trace[0]).0, trace[1..])
  }

  predicate Ordered(from: Time, trace: seq<Call>)
    decreases |trace|
  {
    trace != [] ==> from <= trace[0].now && Ordered(trace[0].now, trace[1..])
  }

  function Fresh(start: Time): State {
    State(map[], start)
  }

  // ----- the object -----

  class Limiter {
    const config: Config
    var buckets: map<string, Bucket>
    var lastSweep: Time

    function Contents(): State
      reads this
    {
      State(buckets, lastSweep)
    }

    constructor (requestsPerMinute: int, burst: int, now: Time)
      ensures config == Config(requestsPerMinute, burst) && Contents() == Fresh(now)
    {
      config := Config(requestsPerMinute, burst);
      buckets := map[];
      lastSweep := now;
    }

    method SweepLocked(now: Time)
      modifies this
      ensures Contents() == Swept(old(Contents()), now)
    {
      if now - lastSweep < SWEEP_EVERY {
        return;
      }
      lastSweep := now;
      var pending := buckets.Keys;
      while pending != {}
        invariant lastSweep == now
        invariant pending <= old(buckets).Keys
        invariant buckets.Keys <= old(buckets).Keys
        invariant forall k :: k in buckets ==> buckets[k] == old(buckets)[k]
        invariant forall k :: k in pending ==> k in buckets
        invariant forall k :: k in old(buckets) && k !in pending ==> (k in buckets <==> !Idle(old(buckets)[k], now))
        decreases pending
      {
        var key :| key in pending;
        if now - buckets[key].lastSeen > IDLE_TTL {
          buckets := buckets - {key};
        }
        pending := pending - {key};
      }
      assert buckets == Swept(old(Contents()), now).buckets;
    }

    /** Allow: sweep, then refill, then spend or refuse with the time until one whole token. */
    method Admit(key: string, now: Time) returns (allowed: bool, retryAfter: Time)
      modifies this
      ensures Contents() == Allow(config, true, old(Contents()), Call(key, now)).0
      ensures Allow(config, true, old(Contents()), Call(key, now)).1 ==
              if allowed then Admitted else Refused(retryAfter)
      ensures allowed ==> retryAfter == 0
      ensures config.requestsPerMinute <= 0 || config.burst <= 0 ==> allowed && Contents() == old(Contents())
    {
      if config.requestsPerMinute <= 0 || config.burst <= 0 {
        return true, 0;
      }
      SweepLocked(now);
      if key !in buckets {
        buckets := buckets[key := Bucket(Capacity(config) - COST, now)];
        return true, 0;
      }
      var b := buckets[key];
      var elapsed := now - b.lastSeen;
      if elapsed > 0 {
        b := b.(tokens := Min(Capacity(config), b.tokens + config.requestsPerMinute * elapsed));
      }
      b := b.(lastSeen := now);
      if b.tokens < COST {
        buckets := buckets[key := b];
        var deficit := COST - b.tokens;
        return false, Max(deficit / config.requestsPerMinute, SECOND);
      }
      buckets := buckets[key := b.(tokens := b.tokens - COST)];
      return true, 0;
    }
  }

  // ----- arithmetic -----

  lemma GainMonotone(c: Config, a: Time, b: Time)
    requires c.requestsPerMinute >= 0 && a <= b
    ensures Gain(c, a) <= Gain(c, b)
  {
    assert Gain(c, b) - Gain(c, a) == c.requestsPerMinute * (b - a);
  }

  lemma GainAdds(c: Config, a: Time, b: Time)
    ensures Gain(c, a + b) == Gain(c, a) + Gain(c, b)
    ensures Gain(c, 0) == 0
  {
  }

  // ----- well-formed buckets -----

  predicate BucketOk(c: Config, b: Bucket, now: Time) {
    0 <= b.tokens <= Capacity(c) && b.lastSeen <= now
  }

  ghost predicate StateOk(c: Config, s: State, now: Time) {
    forall k :: k in s.buckets ==> BucketOk(c, s.buckets[k], now)
  }

  lemma RefillOk(c: Config, b: Bucket, now: Time)
    requires Limiting(c) && BucketOk(c, b, now)
    ensures b.tokens <= Refilled(c, b, now) <= Capacity(c)
  {
    GainMonotone(c, 0, now - b.lastSeen);
    GainAdds(c, 0, 0);
  }

  lemma DecideOk(c: Config, b: Option<Bucket>, now: Time)
    requires Limiting(c) && (b.Some? ==> BucketOk(c, b.value, now))
    ensures BucketOk(c, Decide(c, b, now).0, now) && Decide(c, b, now).0.lastSeen == now
  {
    if b.Some? {
      RefillOk(c, b.value, now);
    }
  }

  lemma AllowOk(c: Config, sweeping: bool, s: State, call: Call, from: Time)
    requires Limiting(c) && StateOk(c, s, from) && from <= call.now
    ensures StateOk(c, Allow(c, sweeping, s, call).0, call.now)
  {
    var now := if sweeping then Swept(s, call.now) else s;
    DecideOk(c, BucketOf(now, call.key), call.now);
  }

  // ----- sweeping is invisible, exactly when the idle time refills a bucket -----

  /** An idle bucket has refilled: one nanosecond past the TTL is enough to fill it from empty. */
  predicate IdleMeansFull(c: Config) {
    Capacity(c) <= Gain(c, IDLE_TTL + 1)
  }

  /** Below sixty billion requests a minute, that is a burst of at most ten minutes' worth. */
  lemma IdleMeansFullIs(c: Config)
    requires Limiting(c) && c.requestsPerMinute < COST
    ensures IdleMeansFull(c) <==> c.burst <= 10 * c.requestsPerMinute
  {
    assert Gain(c, IDLE_TTL + 1) == COST * (10 * c.requestsPerMinute) + c.requestsPerMinute;
    if c.burst > 10 * c.requestsPerMinute {
      assert COST * c.burst >= COST * (10 * c.requestsPerMinute + 1);
    } else {
      assert COST * c.burst <= COST * (10 * c.requestsPerMinute);
    }
  }

  /** The limiter's state s next to the ideal one u: what s has forgotten is idle in u. */
  ghost predicate Simulates(c: Config, s: State, u: State, now: Time) {
    && StateOk(c, u, now)
    && (forall k :: k in s.buckets ==> k in u.buckets && u.buckets[k] == s.buckets[k])
    && (forall k :: k in u.buckets && k !in s.buckets ==> Idle(u.buckets[k], now))
  }

  lemma IdleIsNew(c: Config, b: Bucket, now: Time)
    requires Limiting(c) && IdleMeansFull(c) && BucketOk(c, b, now) && Idle(b, now)
    ensures Decide(c, Some(b), now) == Decide(c, None, now)
  {
    GainMonotone(c, IDLE_TTL + 1, now - b.lastSeen);
    assert Refilled(c, b, now) == Capacity(c);
  }

  lemma SimulationStep(c: Config, s: State, u: State, from: Time, call: Call)
    requires Limiting(c) && IdleMeansFull(c) && Simulates(c, s, u, from) && from <= call.now
    ensures Allow(c, true, s, call).1 == Allow(c, false, u, call).1
    ensures Simulates(c, Allow(c, true, s, call).0, Allow(c, false, u, call).0, call.now)
  {
    var swept := Swept(s, call.now);
    AllowOk(c, false, u, call, from);
    assert forall k :: k in u.buckets && k !in swept.buckets ==> Idle(u.buckets[k], call.now);
    if call.key in u.buckets && call.key !in swept.buckets {
      IdleIsNew(c, u.buckets[call.key], call.now);
    }
  }

  lemma {:induction false} SimulationRun(c: Config, s: State, u: State, from: Time, trace: seq<Call>)
    requires Limiting(c) && IdleMeansFull(c) && Simulates(c, s, u, from) && Ordered(from, trace)
    ensures Answers(c, true, s, trace) == Answers(c, false, u, trace)
    decreases |trace|
  {
    if trace != [] {
      SimulationStep(c, s, u, from, trace[0]);
      SimulationRun(c, Allow(c, true, s, trace[0]).0, Allow(c, false, u, trace[0]).0, trace[0].now, trace[1..]);
    }
  }

  /** Every trace gets the same answers from the limiter as from one that never sweeps. */
  ghost predicate SweepInvisible(c: Config) {
    forall start, trace :: Ordered(start, trace) ==>
      Answers(c, true, Fresh(start), trace) == Answers(c, false, Fresh(start), trace)
  }

  /** n calls by one client at one instant. */
  function Volley(key: string, now: Time, n: nat): seq<Call> {
    seq(n, _ => Call(key, now))
  }

  lemma {:induction false} VolleyAnswers(c: Config, sweeping: bool, s: State, key: string, now: Time, n: nat, j: nat)
    requires Limiting(c) && j < n && (sweeping ==> now - s.lastSweep < SWEEP_EVERY)
    requires key in s.buckets && s.buckets[key].lastSeen == now && s.buckets[key].tokens >= 0
    ensures var tokens := s.buckets[key].tokens;
            Answers(c, sweeping, s, Volley(key, now, n))[j].Admitted? <==> tokens >= (j + 1) * COST
    decreases n
  {
    var (next, answer) := Allow(c, sweeping, s, Call(key, now));
    assert Volley(key, now, n)[1..] == Volley(key, now, n - 1);
    if j > 0 {
      VolleyAnswers(c, sweeping, next, key, now, n - 1, j - 1);
    }
  }

  lemma {:induction false} VolleyAfter(c: Config, sweeping: bool, s: State, key: string, now: Time, n: nat)
    requires Limiting(c) && (sweeping ==> now - s.lastSweep < SWEEP_EVERY)
    requires key in s.buckets && s.buckets[key].lastSeen == now && s.buckets[key].tokens == n * COST
    ensures After(c, sweeping, s, Volley(key, now, n)) == s.(buckets := s.buckets[key := Bucket(0, now)])
    decreases n
  {
    if n > 0 {
      var next := Allow(c, sweeping, s, Call(key, now)).0;
      assert Volley(key, now, n)[1..] == Volley(key, now, n - 1);
      VolleyAfter(c, sweeping, next, key, now, n - 1);
    }
  }

  lemma {:induction false} AnswersConcat(c: Config, sweeping: bool, s: State, one: seq<Call>, two: seq<Call>)
    ensures Answers(c, sweeping, s, one + two) ==
            Answers(c, sweeping, s, one) + Answers(c, sweeping, After(c, sweeping, s, one), two)
    decreases |one|
  {
    if one == [] {
      assert one + two == two;
    } else {
      assert (one + two)[1..] == one[1..] + two;
      AnswersConcat(c, sweeping, Allow(c, sweeping, s, one[0]).0, one[1..], two);
    }
  }

  lemma {:induction false} OrderedConcat(from: Time, one: seq<Call>, at: Time, two: seq<Call>)
    requires Ordered(from, one) && from <= at && Ordered(at, two)
    requires forall i :: 0 <= i < |one| ==> one[i].now <= at
    ensures Ordered(from, one + two)
    decreases |one|
  {
    if one == [] {
      assert one + two == two;
    } else {
      assert (one + two)[1..] == one[1..] + two;
      OrderedConcat(one[0].now, one[1..], at, two);
    }
  }

  lemma {:induction false} VolleyOrdered(key: string, now: Time, n: nat)
    ensures Ordered(now, Volley(key, now, n))
  {
    if n > 0 {
      assert Volley(key, now, n)[1..] == Volley(key, now, n - 1);
      VolleyOrdered(key, now, n - 1);
    }
  }

  /** A fresh client's whole burst at instant 0 empties its bucket. */
  lemma BurstEmpties(c: Config, sweeping: bool)
    requires Limiting(c)
    ensures After(c, sweeping, Fresh(0), Volley("client", 0, c.burst)) == State(map["client" := Bucket(0, 0)], 0)
  {
    var first := Allow(c, sweeping, Fresh(0), Call("client", 0)).0;
    assert Volley("client", 0, c.burst)[1..] == Volley("client", 0, c.burst - 1);
    assert Capacity(c) - COST == (c.burst - 1) * COST;
    VolleyAfter(c, sweeping, first, "client", 0, c.burst - 1);
    assert first.buckets["client" := Bucket(0, 0)] == map["client" := Bucket(0, 0)];
  }

  /** Just past the TTL the limiter has forgotten the client and admits a whole burst again. */
  lemma ForgottenBurst(c: Config)
    requires Limiting(c)
    ensures var empty := State(map["client" := Bucket(0, 0)], 0);
            Answers(c, true, empty, Volley("client", IDLE_TTL + 1, c.burst))[c.burst - 1] == Admitted
  {
    var s, now := State(map["client" := Bucket(0, 0)], 0), IDLE_TTL + 1;
    var next := Allow(c, true, s, Call("client", now)).0;
    assert Swept(s, now).buckets == map[];
    assert Volley("client", now, c.burst)[1..] == Volley("client", now, c.burst - 1);
    assert Capacity(c) - COST == (c.burst - 1) * COST;
    if c.burst > 1 {
      VolleyAnswers(c, true, next, "client", now, c.burst - 1, c.burst - 2);
    }
  }

  /** A limiter that remembers it does not, unless the bucket has had time to fill. */
  lemma RememberedBurst(c: Config, sweeping: bool, s: State)
    requires Limiting(c) && !IdleMeansFull(c)
    requires "client" in s.buckets && s.buckets["client"] == Bucket(0, 0)
    requires sweeping ==> IDLE_TTL + 1 - s.lastSweep < SWEEP_EVERY
    ensures Answers(c, sweeping, s, Volley("client", IDLE_TTL + 1, c.burst))[c.burst - 1] != Admitted
  {
    var now := IDLE_TTL + 1;
    var (next, answer) := Allow(c, sweeping, s, Call("client", now));
    assert Refilled(c, Bucket(0, 0), now) == Gain(c, now);
    GainMonotone(c, 0, now);
    GainAdds(c, 0, 0);
    assert Volley("client", now, c.burst)[1..] == Volley("client", now, c.burst - 1);
    assert Capacity(c) - COST == (c.burst - 1) * COST;
    if c.burst > 1 {
      VolleyAnswers(c, sweeping, next, "client", now, c.burst - 1, c.burst - 2);
    }
  }

  /** Sweeping is invisible if and only if an idle bucket is a full one. The configuration check
      does not enforce the condition. */
  lemma SweepInvisibleIff(c: Config)
    requires Limiting(c)
    ensures SweepInvisible(c) <==> IdleMeansFull(c)
  {
    if IdleMeansFull(c) {
      forall start, trace | Ordered(start, trace)
        ensures Answers(c, true, Fresh(start), trace) == Answers(c, false, Fresh(start), trace)
      {
        SimulationRun(c, Fresh(start), Fresh(start), start, trace);
      }
    } else {
      var one, two := Volley("client", 0, c.burst), Volley("client", IDLE_TTL + 1, c.burst);
      VolleyOrdered("client", 0, c.burst);
      VolleyOrdered("client", IDLE_TTL + 1, c.burst);
      OrderedConcat(0, one, IDLE_TTL + 1, two);
      AnswersConcat(c, true, Fresh(0), one, two);
      AnswersConcat(c, false, Fresh(0), one, two);
      BurstEmpties(c, true);
      BurstEmpties(c, false);
      ForgottenBurst(c);
      RememberedBurst(c, false, State(map["client" := Bucket(0, 0)], 0));
      assert Answers(c, true, Fresh(0), one + two)[2 * c.burst - 1]
          != Answers(c, false, Fresh(0), one + two)[2 * c.burst - 1];
    }
  }

  // ----- memory -----

  /** Nothing older than the TTL survives the last sweep, and the last sweep is recent. */
  ghost predicate Recent(s: State, now: Time) {
    && now - s.lastSweep < SWEEP_EVERY
    && forall k :: k in s.buckets ==> s.lastSweep - s.buckets[k].lastSeen <= IDLE_TTL
  }

  lemma AllowIsRecent(c: Config, s: State, call: Call)
    requires Limiting(c)
    requires forall k :: k in s.buckets ==> s.lastSweep - s.buckets[k].lastSeen <= IDLE_TTL
    requires s.lastSweep <= call.now
    ensures Recent(Allow(c, true, s, call).0, call.now) && Allow(c, true, s, call).0.lastSweep <= call.now
  {
  }

  lemma {:induction false} TraceIsRecent(c: Config, s: State, from: Time, trace: seq<Call>)
    requires Limiting(c) && Ordered(from, trace) && trace != []
    requires s.lastSweep <= from && forall k :: k in s.buckets ==> s.lastSweep - s.buckets[k].lastSeen <= IDLE_TTL
    ensures Recent(After(c, true, s, trace), trace[|trace| - 1].now)
    decreases |trace|
  {
    AllowIsRecent(c, s, trace[0]);
    var next, rest := Allow(c, true, s, trace[0]).0, trace[1..];
    assert After(c, true, s, trace) == After(c, true, next, rest);
    if |trace| > 1 {
      TraceIsRecent(c, next, trace[0].now, rest);
      assert rest[|rest| - 1] == trace[|trace| - 1];
    } else {
      assert After(c, true, next, rest) == next;
    }
  }

  /** After every call of every trace no bucket is older than the TTL plus one sweep interval. */
  lemma MemoryIsBounded(c: Config, s: State, from: Time, trace: seq<Call>)
    requires Limiting(c) && Ordered(from, trace) && trace != []
    requires s.lastSweep <= from && forall k :: k in s.buckets ==> s.lastSweep - s.buckets[k].lastSeen <= IDLE_TTL
    ensures var end := After(c, true, s, trace);
            forall k :: k in end.buckets ==> trace[|trace| - 1].now - end.buckets[k].lastSeen < 660_000_000_000
  {
    TraceIsRecent(c, s, from, trace);
  }

  // ----- the admission bound -----

  /** How many of this client's calls a trace gets admitted. */
  function AdmittedFor(c: Config, sweeping: bool, s: State, trace: seq<Call>, key: string): nat
    decreases |trace|
  {
    if trace == [] then 0
    else
      var (next, answer) := Allow(c, sweeping, s, trace[0]);
      (if trace[0].key == key && answer.Admitted? then 1 else 0) + AdmittedFor(c, sweeping, next, trace[1..], key)
  }

  /** What a client can spend at an instant. */
  function Level(c: Config, s: State, key: string, now: Time): int {
    if key in s.buckets then Refilled(c, s.buckets[key], now) else Capacity(c)
  }

  lemma LevelGrowsAtRate(c: Config, s: State, key: string, a: Time, b: Time)
    requires Limiting(c) && StateOk(c, s, a) && a <= b
    ensures Level(c, s, key, b) <= Level(c, s, key, a) + Gain(c, b - a)
    ensures Level(c, s, key, a) <= Capacity(c)
  {
    GainMonotone(c, 0, b - a);
    GainAdds(c, 0, 0);
    if key in s.buckets {
      var seen := s.buckets[key].lastSeen;
      RefillOk(c, s.buckets[key], a);
      GainAdds(c, a - seen, b - a);
    }
  }

  lemma LevelAfterCall(c: Config, s: State, key: string, from: Time, call: Call)
    requires Limiting(c) && StateOk(c, s, from) && from <= call.now
    ensures var (next, answer) := Allow(c, false, s, call);
            Level(c, next, key, call.now) ==
            Level(c, s, key, call.now) - (if call.key == key && answer.Admitted? then COST else 0)
  {
  }

  lemma {:induction false} IdealBound(c: Config, s: State, from: Time, trace: seq<Call>, key: string)
    requires Limiting(c) && StateOk(c, s, from) && Ordered(from, trace) && trace != []
    ensures AdmittedFor(c, false, s, trace, key) * COST <=
            Level(c, s, key, trace[0].now) + Gain(c, trace[|trace| - 1].now - trace[0].now)
    decreases |trace|
  {
    var call := trace[0];
    var next := Allow(c, false, s, call).0;
    AllowOk(c, false, s, call, from);
    LevelAfterCall(c, s, key, from, call);
    if |trace| == 1 {
      assert AdmittedFor(c, false, next, trace[1..], key) == 0;
      LevelIsNotNegative(c, next, key, call.now);
      GainAdds(c, 0, 0);
    } else {
      var rest := trace[1..];
      assert rest[|rest| - 1] == trace[|trace| - 1];
      IdealBound(c, next, call.now, rest, key);
      LevelGrowsAtRate(c, next, key, call.now, rest[0].now);
      GainAdds(c, rest[0].now - call.now, rest[|rest| - 1].now - rest[0].now);
    }
  }

  lemma LevelIsNotNegative(c: Config, s: State, key: string, now: Time)
    requires Limiting(c) && StateOk(c, s, now)
    ensures Level(c, s, key, now) >= 0
  {
    if key in s.buckets {
      RefillOk(c, s.buckets[key], now);
    }
  }

  lemma {:induction false} SweptCountsSame(c: Config, s: State, u: State, from: Time, trace: seq<Call>, key: string)
    requires Limiting(c) && IdleMeansFull(c) && Simulates(c, s, u, from) && Ordered(from, trace)
    ensures AdmittedFor(c, true, s, trace, key) == AdmittedFor(c, false, u, trace, key)
    decreases |trace|
  {
    if trace != [] {
      SimulationStep(c, s, u, from, trace[0]);
      SweptCountsSame(c, Allow(c, true, s, trace[0]).0, Allow(c, false, u, trace[0]).0, trace[0].now, trace[1..], key);
    }
  }

  lemma {:induction false} SimulationAfter(c: Config, s: State, u: State, from: Time, trace: seq<Call>)
    returns (now: Time)
    requires Limiting(c) && IdleMeansFull(c) && Simulates(c, s, u, from) && Ordered(from, trace)
    ensures Simulates(c, After(c, true, s, trace), After(c, false, u, trace), now)
    ensures now == if trace == [] then from else trace[|trace| - 1].now
    decreases |trace|
  {
    now := from;
    if trace != [] {
      SimulationStep(c, s, u, from, trace[0]);
      var swept, ideal := Allow(c, true, s, trace[0]).0, Allow(c, false, u, trace[0]).0;
      now := SimulationAfter(c, swept, ideal, trace[0].now, trace[1..]);
      if |trace| > 1 {
        assert trace[1..][|trace| - 2] == trace[|trace| - 1];
      }
    }
  }

  lemma {:induction false} OrderedSuffix(from: Time, before: seq<Call>, window: seq<Call>)
    requires Ordered(from, before + window)
    ensures Ordered(from, before)
    ensures Ordered(if before == [] then from else before[|before| - 1].now, window)
    decreases |before|
  {
    if before == [] {
      assert before + window == window;
    } else {
      assert (before + window)[1..] == before[1..] + window;
      OrderedSuffix(before[0].now, before[1..], window);
      if |before| > 1 {
        assert before[1..][|before| - 2] == before[|before| - 1];
      }
    }
  }

  /** In every window of every trace, whatever the other clients do, a client is admitted at most
      its burst plus the sustained rate over the window. */
  lemma AdmissionBound(c: Config, start: Time, before: seq<Call>, window: seq<Call>, key: string)
    requires Limiting(c) && IdleMeansFull(c) && Ordered(start, before + window) && window != []
    ensures AdmittedFor(c, true, After(c, true, Fresh(start), before), window, key) * COST <=
            c.burst * COST + c.requestsPerMinute * (window[|window| - 1].now - window[0].now)
  {
    OrderedSuffix(start, before, window);
    var now := SimulationAfter(c, Fresh(start), Fresh(start), start, before);
    var s, u := After(c, true, Fresh(start), before), After(c, false, Fresh(start), before);
    SweptCountsSame(c, s, u, now, window, key);
    IdealBound(c, u, now, window, key);
    assert StateOk(c, u, window[0].now);
    LevelGrowsAtRate(c, u, key, window[0].now, window[0].now);
  }

  // ----- other clients do not matter -----

  function Only(trace: seq<Call>, key: string): seq<Call> {
    if trace == [] then []
    else (if trace[0].key == key then [trace[0]] else []) + Only(trace[1..], key)
  }

  /** The answers a client receives within a trace. */
  function AnswersTo(c: Config, sweeping: bool, s: State, trace: seq<Call>, key: string): seq<Answer>
    decreases |trace|
  {
    if trace == [] then []
    else
      var (next, answer) := Allow(c, sweeping, s, trace[0]);
      (if trace[0].key == key then [answer] else []) + AnswersTo(c, sweeping, next, trace[1..], key)
  }

  lemma {:induction false} IdealIndependence(c: Config, s: State, u: State, trace: seq<Call>, key: string)
    requires Limiting(c) && BucketOf(s, key) == BucketOf(u, key)
    ensures AnswersTo(c, false, s, trace, key) == Answers(c, false, u, Only(trace, key))
    decreases |trace|
  {
    if trace != [] {
      var next := Allow(c, false, s, trace[0]).0;
      if trace[0].key == key {
        var (alone, answer) := Allow(c, false, u, trace[0]);
        assert Only(trace, key)[0] == trace[0] && Only(trace, key)[1..] == Only(trace[1..], key);
        IdealIndependence(c, next, alone, trace[1..], key);
      } else {
        assert Only(trace, key) == Only(trace[1..], key);
        IdealIndependence(c, next, u, trace[1..], key);
      }
    }
  }

  lemma {:induction false} SweptAnswersSame(c: Config, s: State, u: State, from: Time, trace: seq<Call>, key: string)
    requires Limiting(c) && IdleMeansFull(c) && Simulates(c, s, u, from) && Ordered(from, trace)
    ensures AnswersTo(c, true, s, trace, key) == AnswersTo(c, false, u, trace, key)
    decreases |trace|
  {
    if trace != [] {
      SimulationStep(c, s, u, from, trace[0]);
      SweptAnswersSame(c, Allow(c, true, s, trace[0]).0, Allow(c, false, u, trace[0]).0, trace[0].now, trace[1..], key);
    }
  }

  lemma {:induction false} OnlyOrdered(from: Time, trace: seq<Call>, key: string)
    requires Ordered(from, trace)
    ensures Ordered(from, Only(trace, key))
    decreases |trace|
  {
    if trace != [] {
      OnlyOrdered(trace[0].now, trace[1..], key);
      if trace[0].key == key {
        assert Only(trace, key)[1..] == Only(trace[1..], key);
      } else {
        assert Only(trace, key) == Only(trace[1..], key);
        OrderedEarlier(from, trace[0].now, Only(trace, key));
      }
    }
  }

  lemma OrderedEarlier(from: Time, later: Time, trace: seq<Call>)
    requires from <= later && Ordered(later, trace)
    ensures Ordered(from, trace)
  {
  }

  /** A client is answered as if it were alone. */
  lemma ClientsAreIndependent(c: Config, start: Time, trace: seq<Call>, key: string)
    requires Limiting(c) && IdleMeansFull(c) && Ordered(start, trace)
    ensures AnswersTo(c, true, Fresh(start), trace, key) == Answers(c, true, Fresh(start), Only(trace, key))
  {
    SweptAnswersSame(c, Fresh(start), Fresh(start), start, trace, key);
    IdealIndependence(c, Fresh(start), Fresh(start), trace, key);
    OnlyOrdered(start, trace, key);
    SimulationRun(c, Fresh(start), Fresh(start), start, Only(trace, key));
  }

  // ----- refusals are free -----

  /** Two buckets that no call at or after `now` can tell apart. */
  predicate Alike(c: Config, a: Bucket, b: Bucket, now: Time) {
    a.lastSeen <= now && b.lastSeen <= now && Refilled(c, a, now) == Refilled(c, b, now)
  }

  /** Refills compose: stopping half way loses nothing. */
  lemma RefillsCompose(c: Config, b: Bucket, mid: Time, now: Time)
    requires Limiting(c) && BucketOk(c, b, mid) && mid <= now
    ensures Refilled(c, Bucket(Refilled(c, b, mid), mid), now) == Refilled(c, b, now)
  {
    GainAdds(c, mid - b.lastSeen, now - mid);
    GainMonotone(c, 0, now - mid);
    GainAdds(c, 0, 0);
  }

  ghost predicate StatesAlike(c: Config, s: State, u: State, now: Time) {
    && s.buckets.Keys == u.buckets.Keys
    && StateOk(c, s, now) && StateOk(c, u, now)
    && forall k :: k in s.buckets ==> Alike(c, s.buckets[k], u.buckets[k], now)
  }

  lemma StaysAlike(c: Config, s: State, u: State, now: Time, later: Time)
    requires Limiting(c) && StatesAlike(c, s, u, now) && now <= later
    ensures StatesAlike(c, s, u, later)
  {
    forall k | k in s.buckets ensures Alike(c, s.buckets[k], u.buckets[k], later) {
      RefillsCompose(c, s.buckets[k], now, later);
      RefillsCompose(c, u.buckets[k], now, later);
    }
  }

  /** The calls of a trace that the ideal limiter admits. */
  function Kept(c: Config, sweeping: bool, s: State, trace: seq<Call>): seq<Call>
    decreases |trace|
  {
    if trace == [] then []
    else
      var (next, answer) := Allow(c, sweeping, s, trace[0]);
      (if answer.Admitted? then [trace[0]] else []) + Kept(c, sweeping, next, trace[1..])
  }

  lemma RefusalChangesNothing(c: Config, s: State, call: Call, from: Time)
    requires Limiting(c) && StateOk(c, s, from) && from <= call.now
    requires Allow(c, false, s, call).1.Refused?
    ensures StatesAlike(c, Allow(c, false, s, call).0, s, call.now)
  {
    AllowOk(c, false, s, call, from);
    RefillsCompose(c, s.buckets[call.key], call.now, call.now);
  }

  lemma AlikeTransitive(c: Config, s: State, t: State, u: State, now: Time)
    requires StatesAlike(c, s, t, now) && StatesAlike(c, t, u, now)
    ensures StatesAlike(c, s, u, now)
  {
    forall k | k in s.buckets ensures Alike(c, s.buckets[k], u.buckets[k], now) {
      assert Alike(c, s.buckets[k], t.buckets[k], now) && Alike(c, t.buckets[k], u.buckets[k], now);
    }
  }

  lemma AlikeAnswerAlike(c: Config, s: State, u: State, call: Call)
    requires Limiting(c) && StatesAlike(c, s, u, call.now)
    ensures Allow(c, false, s, call).1 == Allow(c, false, u, call).1
    ensures StatesAlike(c, Allow(c, false, s, call).0, Allow(c, false, u, call).0, call.now)
  {
    AllowOk(c, false, s, call, call.now);
    AllowOk(c, false, u, call, call.now);
    assert call.key in s.buckets ==> Alike(c, s.buckets[call.key], u.buckets[call.key], call.now);
  }

  lemma {:induction false} IdealRefusalsAreFree(c: Config, s: State, u: State, from: Time, trace: seq<Call>)
    requires Limiting(c) && StatesAlike(c, s, u, from) && Ordered(from, trace)
    ensures var kept := Kept(c, false, s, trace);
            Answers(c, false, u, kept) == seq(|kept|, _ => Admitted)
    decreases |trace|
  {
    if trace != [] {
      var call := trace[0];
      StaysAlike(c, s, u, from, call.now);
      var (next, answer) := Allow(c, false, s, call);
      var kept, rest := Kept(c, false, s, trace), Kept(c, false, next, trace[1..]);
      if answer.Admitted? {
        AlikeAnswerAlike(c, s, u, call);
        IdealRefusalsAreFree(c, next, Allow(c, false, u, call).0, call.now, trace[1..]);
        assert kept[0] == call && kept[1..] == rest;
      } else {
        RefusalChangesNothing(c, s, call, from);
        AlikeTransitive(c, next, s, u, call.now);
        IdealRefusalsAreFree(c, next, u, call.now, trace[1..]);
        assert kept == rest;
      }
    }
  }

  lemma {:induction false} SweptKeepsSame(c: Config, s: State, u: State, from: Time, trace: seq<Call>)
    requires Limiting(c) && IdleMeansFull(c) && Simulates(c, s, u, from) && Ordered(from, trace)
    ensures Kept(c, true, s, trace) == Kept(c, false, u, trace)
    ensures Ordered(from, Kept(c, true, s, trace))
    decreases |trace|
  {
    if trace != [] {
      var call := trace[0];
      SimulationStep(c, s, u, from, call);
      SweptKeepsSame(c, Allow(c, true, s, call).0, Allow(c, false, u, call).0, call.now, trace[1..]);
      var kept := Kept(c, true, s, trace);
      if Allow(c, true, s, call).1.Admitted? {
        assert kept[1..] == Kept(c, true, Allow(c, true, s, call).0, trace[1..]);
      } else {
        assert kept == Kept(c, true, Allow(c, true, s, call).0, trace[1..]);
        OrderedEarlier(from, call.now, kept);
      }
    }
  }

  /** Leaving out every refused call changes no other answer: what was admitted still is. */
  lemma RefusalsAreFree(c: Config, start: Time, trace: seq<Call>)
    requires Limiting(c) && IdleMeansFull(c) && Ordered(start, trace)
    ensures var kept := Kept(c, true, Fresh(start), trace);
            Answers(c, true, Fresh(start), kept) == seq(|kept|, _ => Admitted)
  {
    var s := Fresh(start);
    SweptKeepsSame(c, s, s, start, trace);
    IdealRefusalsAreFree(c, s, s, start, trace);
    SimulationRun(c, s, s, start, Kept(c, true, s, trace));
  }

  // ----- waiting as told -----

  /** Calls by others leave a client's bucket as it is or forget it. */
  lemma {:induction false} OthersOnlyForget(c: Config, s: State, trace: seq<Call>, key: string)
    requires forall i :: 0 <= i < |trace| ==> trace[i].key != key
    ensures var end := After(c, true, s, trace);
            key in end.buckets ==> key in s.buckets && end.buckets[key] == s.buckets[key]
    decreases |trace|
  {
    if trace != [] {
      OthersOnlyForget(c, Allow(c, true, s, trace[0]).0, trace[1..], key);
    }
  }

  lemma WaitCoversDeficit(c: Config, deficit: int, wait: Time)
    requires Limiting(c) && deficit > 0 && wait >= deficit / c.requestsPerMinute
    ensures Gain(c, wait + 1) >= deficit
  {
    var q := deficit / c.requestsPerMinute;
    assert deficit < c.requestsPerMinute * (q + 1);
    GainMonotone(c, q + 1, wait + 1);
  }

  /** A client refused with wait w and then silent is admitted at any instant after w has passed,
      whatever the others did meanwhile; no burst condition is needed. */
  lemma WaitIsEnough(c: Config, s: State, from: Time, call: Call, others: seq<Call>, later: Time)
    requires Limiting(c) && StateOk(c, s, from) && from <= call.now
    requires Allow(c, true, s, call).1.Refused?
    requires forall i :: 0 <= i < |others| ==> others[i].key != call.key
    requires later >= call.now + Allow(c, true, s, call).1.wait + 1
    ensures Allow(c, true, After(c, true, Allow(c, true, s, call).0, others), Call(call.key, later)).1 == Admitted
  {
    var (next, answer) := Allow(c, true, s, call);
    var end := After(c, true, next, others);
    OthersOnlyForget(c, next, others, call.key);
    if call.key in Swept(end, later).buckets {
      var b := next.buckets[call.key];
      WaitRefills(c, b, answer.wait, later);
    }
  }

  lemma WaitRefills(c: Config, b: Bucket, wait: Time, later: Time)
    requires Limiting(c) && b.tokens < COST && wait >= (COST - b.tokens) / c.requestsPerMinute
    requires wait >= 0 && later >= b.lastSeen + wait + 1
    ensures Refilled(c, b, later) >= COST
  {
    WaitCoversDeficit(c, COST - b.tokens, wait);
    GainMonotone(c, wait + 1, later - b.lastSeen);
    BurstHoldsOne(c);
  }

  /** Nor is it told to wait longer than it must: a wait is a second, or else at a nanosecond less the
      client would be refused again. */
  lemma WaitIsNeeded(c: Config, b: Bucket, now: Time)
    requires Limiting(c) && BucketOk(c, b, now) && Decide(c, Some(b), now).1.Refused?
    ensures var (after, answer) := Decide(c, Some(b), now);
            answer.wait == 1_000_000_000 ||
            (answer.wait > 1_000_000_000 && Decide(c, Some(after), now + answer.wait - 1).1.Refused?)
  {
    var (after, answer) := Decide(c, Some(b), now);
    if answer.wait > SECOND {
      var q := (COST - after.tokens) / c.requestsPerMinute;
      assert answer.wait == q;
      GainShort(c, COST - after.tokens, q);
    }
  }

  lemma GainShort(c: Config, short: int, q: int)
    requires Limiting(c) && short > 0 && q == short / c.requestsPerMinute
    ensures Gain(c, q - 1) < short
  {
    DivBounds(short, c.requestsPerMinute);
    assert Gain(c, q - 1) == q * c.requestsPerMinute - c.requestsPerMinute;
  }

  lemma BurstHoldsOne(c: Config)
    requires Limiting(c)
    ensures Capacity(c) >= COST
  {
  }

  /** The Retry-After header, in whole seconds. */
  function RetryAfterHeader(wait: Time): int {
    wait / SECOND
  }

  /** The header is rounded down, so a client that waits one second more than it says has waited
      long enough. */
  lemma HeaderPlusOneSecond(wait: Time)
    requires wait >= 0
    ensures (RetryAfterHeader(wait) + 1) * SECOND >= wait + 1
  {
  }

  /** What one second refills. */
  function PerSecond(c: Config): int {
    c.requestsPerMinute * SECOND
  }

  /** Waiting exactly as long as the header says is enough if and only if the bucket was less than a
      second short, or short by a whole number of seconds. */
  lemma HeaderIsEnoughIff(c: Config, b: Bucket, now: Time)
    requires Limiting(c) && BucketOk(c, b, now) && Decide(c, Some(b), now).1.Refused?
    ensures var (after, answer) := Decide(c, Some(b), now);
            var short := COST - Refilled(c, b, now);
            Decide(c, Some(after), now + RetryAfterHeader(answer.wait) * SECOND).1 == Admitted
            <==> short < PerSecond(c) || short % PerSecond(c) == 0
  {
    var (after, answer) := Decide(c, Some(b), now);
    var header, short := RetryAfterHeader(answer.wait) * SECOND, COST - after.tokens;
    assert header >= SECOND;
    BurstHoldsOne(c);
    assert Decide(c, Some(after), now + header).1 == Admitted <==> Gain(c, header) >= short;
    HeaderGain(c, short, answer.wait);
  }

  /** The header's seconds refill the shortfall exactly when nothing of it is rounded away. */
  lemma HeaderGain(c: Config, short: int, wait: Time)
    requires Limiting(c) && short > 0 && wait == Max(short / c.requestsPerMinute, SECOND)
    ensures Gain(c, RetryAfterHeader(wait) * SECOND) >= short
            <==> short < PerSecond(c) || short % PerSecond(c) == 0
  {
    var rpm, per := c.requestsPerMinute, PerSecond(c);
    var q := short / per;
    assert short == q * per + short % per;
    assert Gain(c, RetryAfterHeader(wait) * SECOND) == RetryAfterHeader(wait) * per;
    QuotientTwice(short, rpm, SECOND);
    assert q == short / rpm / SECOND;
    if short / rpm < SECOND {
      assert RetryAfterHeader(wait) == 1 && q == 0;
    } else {
      assert RetryAfterHeader(wait) == q >= 1;
      Scales(1, q, per);
    }
  }

  /** It can fail: at seven requests a minute an empty bucket needs 8.57 seconds and the header
      says 8. */
  lemma HeaderCanBeShort()
    ensures var c := Config(7, 1);
            var (after, answer) := Decide(c, Some(Bucket(0, 0)), 0);
            answer.Refused? && RetryAfterHeader(answer.wait) == 8 &&
            Decide(c, Some(after), 8 * SECOND).1.Refused?
  {
    assert 60_000_000_000 / 7 == 8_571_428_571;
  }
}
