/** Exactly which configurations give the limiter the laws a reader expects of it: the admission bound,
    independence of clients, and refusals that cost nothing. The counterexamples are all of one kind: a
    client that spent its burst is forgotten, or remembered, by the accident of when a sweep happened. */
module RateLimitExact {
  import opened Common
  import opened RateLimit

  // ----- the admission bound -----

  lemma {:induction false} AdmittedConcat(c: Config, sweeping: bool, s: State,
                                          one: seq<Call>, two: seq<Call>, key: string)
    ensures AdmittedFor(c, sweeping, s, one + two, key) ==
            AdmittedFor(c, sweeping, s, one, key) + AdmittedFor(c, sweeping, After(c, sweeping, s, one), two, key)
    decreases |one|
  {
    if one == [] {
      assert one + two == two;
    } else {
      assert (one + two)[1..] == one[1..] + two;
      AdmittedConcat(c, sweeping, Allow(c, sweeping, s, one[0]).0, one[1..], two, key);
    }
  }

  lemma {:induction false} VolleyAdmitted(c: Config, s: State, key: string, now: Time, n: nat)
    requires Limiting(c) && now - s.lastSweep < SWEEP_EVERY
    requires key in s.buckets && s.buckets[key].lastSeen == now && s.buckets[key].tokens == n * COST
    ensures AdmittedFor(c, true, s, Volley(key, now, n), key) == n
    decreases n
  {
    if n > 0 {
      assert Volley(key, now, n)[1..] == Volley(key, now, n - 1);
      VolleyAdmitted(c, Allow(c, true, s, Call(key, now)).0, key, now, n - 1);
    }
  }

  /** A client the limiter does not know, or is about to forget, gets its whole burst. */
  lemma BurstAdmitted(c: Config, s: State, now: Time)
    requires Limiting(c) && "client" !in Swept(s, now).buckets
    ensures AdmittedFor(c, true, s, Volley("client", now, c.burst), "client") == c.burst
  {
    assert Volley("client", now, c.burst)[1..] == Volley("client", now, c.burst - 1);
    assert Capacity(c) - COST == (c.burst - 1) * COST;
    VolleyAdmitted(c, Allow(c, true, s, Call("client", now)).0, "client", now, c.burst - 1);
  }

  /** What one client gets admitted in a window, against its burst and the rate. */
  ghost predicate BoundHolds(c: Config, start: Time, before: seq<Call>, window: seq<Call>, key: string)
    requires window != []
  {
    AdmittedFor(c, true, After(c, true, Fresh(start), before), window, key) * COST <=
    c.burst * COST + c.requestsPerMinute * (window[|window| - 1].now - window[0].now)
  }

  function TwoBursts(c: Config): seq<Call>
    requires c.burst >= 0
  {
    Volley("client", 0, c.burst) + Volley("client", IDLE_TTL + 1, c.burst)
  }

  lemma TwoBurstsOrdered(c: Config)
    requires Limiting(c)
    ensures Ordered(0, TwoBursts(c))
  {
    VolleyOrdered("client", 0, c.burst);
    VolleyOrdered("client", IDLE_TTL + 1, c.burst);
    OrderedConcat(0, Volley("client", 0, c.burst), IDLE_TTL + 1, Volley("client", IDLE_TTL + 1, c.burst));
  }

  /** A burst at 0 and another just past the TTL: all admitted, which is more than the bound if an idle
      bucket has not had time to fill. */
  lemma TwoBurstsExceed(c: Config)
    requires Limiting(c) && !IdleMeansFull(c)
    ensures !BoundHolds(c, 0, [], TwoBursts(c), "client")
  {
    var window := TwoBursts(c);
    TwoBurstsAdmitted(c);
    assert After(c, true, Fresh(0), []) == Fresh(0);
    assert window[0].now == 0 && window[|window| - 1].now == IDLE_TTL + 1;
    assert (2 * c.burst) * COST == c.burst * COST + c.burst * COST;
  }

  lemma TwoBurstsAdmitted(c: Config)
    requires Limiting(c)
    ensures AdmittedFor(c, true, Fresh(0), TwoBursts(c), "client") == 2 * c.burst
  {
    AdmittedConcat(c, true, Fresh(0), Volley("client", 0, c.burst), Volley("client", IDLE_TTL + 1, c.burst), "client");
    BurstEmpties(c, true);
    BurstAdmitted(c, Fresh(0), 0);
    BurstAdmitted(c, State(map["client" := Bucket(0, 0)], 0), IDLE_TTL + 1);
  }

  /** The bound holds of every window of every trace, for every client and whatever the others do, if and
      only if an idle bucket is a full one. */
  lemma AdmissionBoundIff(c: Config)
    requires Limiting(c)
    ensures (forall start, before, window, key :: Ordered(start, before + window) && window != [] ==>
               BoundHolds(c, start, before, window, key))
            <==> IdleMeansFull(c)
  {
    if IdleMeansFull(c) {
      forall start, before, window, key | Ordered(start, before + window) && window != []
        ensures BoundHolds(c, start, before, window, key)
      {
        AdmissionBound(c, start, before, window, key);
      }
    } else {
      TwoBurstsOrdered(c);
      TwoBurstsExceed(c);
      assert [] + TwoBursts(c) == TwoBursts(c);
      assert Ordered(0, [] + TwoBursts(c)) && !BoundHolds(c, 0, [], TwoBursts(c), "client");
    }
  }

  // ----- independence -----

  lemma {:induction false} AnswersToConcat(c: Config, s: State, one: seq<Call>, two: seq<Call>, key: string)
    ensures AnswersTo(c, true, s, one + two, key) ==
            AnswersTo(c, true, s, one, key) + AnswersTo(c, true, After(c, true, s, one), two, key)
    decreases |one|
  {
    if one == [] {
      assert one + two == two;
    } else {
      assert (one + two)[1..] == one[1..] + two;
      AnswersToConcat(c, Allow(c, true, s, one[0]).0, one[1..], two, key);
    }
  }

  lemma {:induction false} AnswersToOwn(c: Config, s: State, trace: seq<Call>, key: string)
    requires forall i :: 0 <= i < |trace| ==> trace[i].key == key
    ensures AnswersTo(c, true, s, trace, key) == Answers(c, true, s, trace) && Only(trace, key) == trace
    decreases |trace|
  {
    if trace != [] {
      AnswersToOwn(c, Allow(c, true, s, trace[0]).0, trace[1..], key);
    }
  }

  lemma {:induction false} OnlyConcat(one: seq<Call>, two: seq<Call>, key: string)
    ensures Only(one + two, key) == Only(one, key) + Only(two, key)
  {
    if one == [] {
      assert one + two == two;
    } else {
      var first := if one[0].key == key then [one[0]] else [];
      assert (one + two)[0] == one[0] && (one + two)[1..] == one[1..] + two;
      OnlyConcat(one[1..], two, key);
      assert first + (Only(one[1..], key) + Only(two, key)) == first + Only(one[1..], key) + Only(two, key);
    }
  }

  /** A burst at 0, another client's call at exactly the TTL, which sweeps a moment too early, and a burst
      just past the TTL. */
  function Disturbed(c: Config): seq<Call>
    requires c.burst >= 0
  {
    Volley("client", 0, c.burst) + ([Call("other", IDLE_TTL)] + Volley("client", IDLE_TTL + 1, c.burst))
  }

  lemma DisturbedIsOrdered(c: Config)
    requires Limiting(c)
    ensures Ordered(0, Disturbed(c))
    ensures Only(Disturbed(c), "client") == TwoBursts(c)
  {
    var one, two := Volley("client", 0, c.burst), Volley("client", IDLE_TTL + 1, c.burst);
    var other := [Call("other", IDLE_TTL)];
    VolleyOrdered("client", 0, c.burst);
    VolleyOrdered("client", IDLE_TTL + 1, c.burst);
    assert other[1..] == [];
    OrderedConcat(IDLE_TTL, other, IDLE_TTL + 1, two);
    OrderedConcat(0, one, IDLE_TTL, other + two);
    OnlyConcat(one, other + two, "client");
    OnlyConcat(other, two, "client");
    AnswersToOwn(c, Fresh(0), one, "client");
    AnswersToOwn(c, Fresh(0), two, "client");
    assert Only(other, "client") == [];
  }

  lemma DisturbedAnswers(c: Config)
    requires Limiting(c) && !IdleMeansFull(c)
    ensures var answers := AnswersTo(c, true, Fresh(0), Disturbed(c), "client");
            |answers| == 2 * c.burst && answers[2 * c.burst - 1] != Admitted
  {
    var one, two := Volley("client", 0, c.burst), Volley("client", IDLE_TTL + 1, c.burst);
    var other := [Call("other", IDLE_TTL)];
    AnswersToConcat(c, Fresh(0), one, other + two, "client");
    AnswersToOwn(c, Fresh(0), one, "client");
    BurstEmpties(c, true);
    var empty := State(map["client" := Bucket(0, 0)], 0);
    var next := Allow(c, true, empty, other[0]).0;
    assert (other + two)[0] == other[0] && (other + two)[1..] == two;
    assert next.lastSweep == IDLE_TTL && next.buckets["client"] == Bucket(0, 0);
    AnswersToOwn(c, next, two, "client");
    RememberedBurst(c, true, next);
  }

  lemma AloneAnswers(c: Config)
    requires Limiting(c)
    ensures var answers := Answers(c, true, Fresh(0), TwoBursts(c));
            |answers| == 2 * c.burst && answers[2 * c.burst - 1] == Admitted
  {
    AnswersConcat(c, true, Fresh(0), Volley("client", 0, c.burst), Volley("client", IDLE_TTL + 1, c.burst));
    BurstEmpties(c, true);
    ForgottenBurst(c);
  }

  /** Every client is answered in every trace as if it were alone, if and only if an idle bucket is a full
      one. */
  lemma IndependentIff(c: Config)
    requires Limiting(c)
    ensures (forall start, trace, key :: Ordered(start, trace) ==>
               AnswersTo(c, true, Fresh(start), trace, key) == Answers(c, true, Fresh(start), Only(trace, key)))
            <==> IdleMeansFull(c)
  {
    if IdleMeansFull(c) {
      forall start, trace, key | Ordered(start, trace)
        ensures AnswersTo(c, true, Fresh(start), trace, key) == Answers(c, true, Fresh(start), Only(trace, key))
      {
        ClientsAreIndependent(c, start, trace, key);
      }
    } else {
      DisturbedIsOrdered(c);
      DisturbedAnswers(c);
      AloneAnswers(c);
      assert AnswersTo(c, true, Fresh(0), Disturbed(c), "client")
          != Answers(c, true, Fresh(0), Only(Disturbed(c), "client"));
    }
  }

  // ----- refusals -----

  /** What a trace gets admitted is still all admitted when its refused calls are left out. */
  ghost predicate RefusalsFree(c: Config, start: Time, trace: seq<Call>) {
    var kept := Kept(c, true, Fresh(start), trace);
    Answers(c, true, Fresh(start), kept) == seq(|kept|, _ => Admitted)
  }

  /** A bucket is never seen much later than the last sweep. */
  ghost predicate Anchored(s: State) {
    forall k :: k in s.buckets ==> s.buckets[k].lastSeen - s.lastSweep < SWEEP_EVERY
  }

  lemma StaysAnchored(c: Config, s: State, call: Call, from: Time)
    requires Limiting(c) && StateOk(c, s, from) && Anchored(s) && from <= call.now
    ensures Anchored(Allow(c, true, s, call).0)
  {
    var swept := Swept(s, call.now);
    assert call.now - swept.lastSweep < SWEEP_EVERY;
    forall k | k in swept.buckets ensures swept.buckets[k].lastSeen - swept.lastSweep < SWEEP_EVERY {
      assert BucketOk(c, s.buckets[k], from);
    }
  }

  /** If a nanosecond pays for a request, only a bucket seen at this very instant can refuse, and refusing
      changes nothing. */
  lemma FastRefusalIsNothing(c: Config, s: State, call: Call, from: Time)
    requires Limiting(c) && c.requestsPerMinute >= COST
    requires StateOk(c, s, from) && Anchored(s) && from <= call.now
    requires Allow(c, true, s, call).1.Refused?
    ensures Allow(c, true, s, call).0 == s
  {
    var b := s.buckets[call.key];
    assert BucketOk(c, b, from);
    if b.lastSeen < call.now {
      FastRefill(c, b, call.now);
    }
  }

  lemma FastRefill(c: Config, b: Bucket, now: Time)
    requires Limiting(c) && c.requestsPerMinute >= COST && b.tokens >= 0 && b.lastSeen < now
    ensures Refilled(c, b, now) >= COST
  {
    GainMonotone(c, 1, now - b.lastSeen);
    BurstHoldsOne(c);
  }

  lemma {:induction false} FastRefusalsAreFree(c: Config, s: State, from: Time, trace: seq<Call>)
    requires Limiting(c) && c.requestsPerMinute >= COST
    requires StateOk(c, s, from) && Anchored(s) && Ordered(from, trace)
    ensures var kept := Kept(c, true, s, trace); Answers(c, true, s, kept) == seq(|kept|, _ => Admitted)
    decreases |trace|
  {
    if trace != [] {
      var call := trace[0];
      var (next, answer) := Allow(c, true, s, call);
      var kept, rest := Kept(c, true, s, trace), Kept(c, true, next, trace[1..]);
      AllowOk(c, true, s, call, from);
      StaysAnchored(c, s, call, from);
      FastRefusalsAreFree(c, next, call.now, trace[1..]);
      if answer.Admitted? {
        assert kept[0] == call && kept[1..] == rest;
      } else {
        FastRefusalIsNothing(c, s, call, from);
        assert kept == rest;
      }
    }
  }

  lemma {:induction false} AfterConcat(c: Config, s: State, one: seq<Call>, two: seq<Call>)
    ensures After(c, true, s, one + two) == After(c, true, After(c, true, s, one), two)
    ensures Kept(c, true, s, one + two) == Kept(c, true, s, one) + Kept(c, true, After(c, true, s, one), two)
    decreases |one|
  {
    if one == [] {
      assert one + two == two;
    } else {
      assert (one + two)[1..] == one[1..] + two;
      AfterConcat(c, Allow(c, true, s, one[0]).0, one[1..], two);
    }
  }

  lemma {:induction false} VolleyKept(c: Config, s: State, key: string, now: Time, n: nat)
    requires Limiting(c) && now - s.lastSweep < SWEEP_EVERY
    requires key in s.buckets && s.buckets[key].lastSeen == now && s.buckets[key].tokens == n * COST
    ensures Kept(c, true, s, Volley(key, now, n)) == Volley(key, now, n)
    decreases n
  {
    if n > 0 {
      assert Volley(key, now, n)[1..] == Volley(key, now, n - 1);
      VolleyKept(c, Allow(c, true, s, Call(key, now)).0, key, now, n - 1);
    }
  }

  /** A client the limiter does not know, or is about to forget, spends its whole burst. */
  lemma WholeBurst(c: Config, s: State, key: string, now: Time)
    requires Limiting(c) && key !in Swept(s, now).buckets
    ensures Kept(c, true, s, Volley(key, now, c.burst)) == Volley(key, now, c.burst)
    ensures After(c, true, s, Volley(key, now, c.burst)) ==
            Swept(s, now).(buckets := Swept(s, now).buckets[key := Bucket(0, now)])
  {
    var first := Allow(c, true, s, Call(key, now)).0;
    assert Volley(key, now, c.burst)[1..] == Volley(key, now, c.burst - 1);
    assert Capacity(c) - COST == (c.burst - 1) * COST;
    VolleyKept(c, first, key, now, c.burst - 1);
    VolleyAfter(c, true, first, key, now, c.burst - 1);
  }

  const EARLY: Time := 480 * SECOND + 1
  const LATE: Time := 540 * SECOND

  lemma OneCall(c: Config, s: State, call: Call)
    ensures After(c, true, s, [call]) == Allow(c, true, s, call).0
    ensures Kept(c, true, s, [call]) == if Allow(c, true, s, call).1.Admitted? then [call] else []
  {
    assert [call][1..] == [];
  }

  /** The client and then a rival spend their bursts, with a sweep between them. */
  function Opening(c: Config): seq<Call>
    requires c.burst >= 0
  {
    Volley("client", 0, c.burst) + ([Call("early", EARLY)] + Volley("rival", LATE, c.burst))
  }

  function Opened(c: Config): State {
    var early := Bucket(Capacity(c) - COST, EARLY);
    State(map["client" := Bucket(0, 0), "early" := early, "rival" := Bucket(0, LATE)], EARLY)
  }

  lemma AfterOpening(c: Config)
    requires Limiting(c)
    ensures Kept(c, true, Fresh(0), Opening(c)) == Opening(c)
    ensures After(c, true, Fresh(0), Opening(c)) == Opened(c)
  {
    var one, early, two := Volley("client", 0, c.burst), Call("early", EARLY), Volley("rival", LATE, c.burst);
    WholeBurst(c, Fresh(0), "client", 0);
    var s1 := State(map["client" := Bucket(0, 0)], 0);
    assert After(c, true, Fresh(0), one) == s1;
    AfterConcat(c, Fresh(0), one, [early] + two);
    AfterConcat(c, s1, [early], two);
    OneCall(c, s1, early);
    var s2 := State(map["client" := Bucket(0, 0), "early" := Bucket(Capacity(c) - COST, EARLY)], EARLY);
    assert Swept(s1, EARLY).buckets == s1.buckets;
    assert Allow(c, true, s1, early) == (s2, Admitted);
    WholeBurst(c, s2, "rival", LATE);
    assert Swept(s2, LATE) == s2;
    assert s2.buckets["rival" := Bucket(0, LATE)] == Opened(c).buckets;
    assert After(c, true, s2, two) == Opened(c);
  }

  /** The rival asks once too often, which makes the sweep that would otherwise be made a nanosecond later
      by a newcomer; so the client's next burst, just past the TTL, finds it forgotten. */
  function Spoiled(c: Config): seq<Call>
    requires c.burst >= 0
  {
    Opening(c) + ([Call("rival", LATE + 1)] + ([Call("new", LATE + 2)] + Volley("client", IDLE_TTL + 1, c.burst)))
  }

  function Unspoiled(c: Config): seq<Call>
    requires c.burst >= 0
  {
    Opening(c) + ([Call("new", LATE + 2)] + Volley("client", IDLE_TTL + 1, c.burst))
  }

  lemma SpoiledKeeps(c: Config)
    requires Limiting(c) && c.requestsPerMinute < COST
    ensures Kept(c, true, Fresh(0), Spoiled(c)) == Unspoiled(c)
  {
    var rival, new_, last := Call("rival", LATE + 1), Call("new", LATE + 2), Volley("client", IDLE_TTL + 1, c.burst);
    AfterOpening(c);
    AfterConcat(c, Fresh(0), Opening(c), [rival] + ([new_] + last));
    var s1 := Allow(c, true, Opened(c), rival).0;
    AfterConcat(c, Opened(c), [rival], [new_] + last);
    OneCall(c, Opened(c), rival);
    assert Allow(c, true, Opened(c), rival).1.Refused? by {
      RivalIsRefused(c);
    }
    assert s1.lastSweep == LATE + 1 && "client" in s1.buckets && s1.buckets["client"] == Bucket(0, 0);
    assert "new" !in s1.buckets;
    ForgottenAtLast(c, s1);
  }

  /** After a sweep at LATE + 1 the newcomer makes none, and the client's burst does and is all admitted. */
  lemma ForgottenAtLast(c: Config, s: State)
    requires Limiting(c) && s.lastSweep == LATE + 1 && "new" !in s.buckets
    requires "client" in s.buckets && s.buckets["client"] == Bucket(0, 0)
    ensures var tail := [Call("new", LATE + 2)] + Volley("client", IDLE_TTL + 1, c.burst);
            Kept(c, true, s, tail) == tail
  {
    var new_, last := Call("new", LATE + 2), Volley("client", IDLE_TTL + 1, c.burst);
    var s2 := Allow(c, true, s, new_).0;
    AfterConcat(c, s, [new_], last);
    OneCall(c, s, new_);
    assert s2.lastSweep == LATE + 1 && s2.buckets["client"] == Bucket(0, 0);
    WholeBurst(c, s2, "client", IDLE_TTL + 1);
  }

  lemma RivalIsRefused(c: Config)
    requires Limiting(c) && c.requestsPerMinute < COST
    ensures Allow(c, true, Opened(c), Call("rival", LATE + 1)).1.Refused?
  {
    assert Swept(Opened(c), LATE + 1).buckets["rival"] == Bucket(0, LATE);
    assert Gain(c, 1) == c.requestsPerMinute;
  }

  lemma UnspoiledRefuses(c: Config)
    requires Limiting(c) && !IdleMeansFull(c)
    ensures var answers := Answers(c, true, Fresh(0), Unspoiled(c));
            |answers| == 2 * c.burst + c.burst + 2 && answers[3 * c.burst + 1] != Admitted
  {
    var new_, last := Call("new", LATE + 2), Volley("client", IDLE_TTL + 1, c.burst);
    AfterOpening(c);
    AnswersConcat(c, true, Fresh(0), Opening(c), [new_] + last);
    var s1 := Allow(c, true, Opened(c), new_).0;
    AnswersConcat(c, true, Opened(c), [new_], last);
    OneCall(c, Opened(c), new_);
    assert s1.lastSweep == LATE + 2 && s1.buckets["client"] == Bucket(0, 0);
    RememberedBurst(c, true, s1);
  }

  lemma SpoiledIsOrdered(c: Config)
    requires Limiting(c)
    ensures Ordered(0, Spoiled(c))
  {
    var one, last := Volley("client", 0, c.burst), Volley("client", IDLE_TTL + 1, c.burst);
    var early, two := [Call("early", EARLY)], Volley("rival", LATE, c.burst);
    var rival, new_ := [Call("rival", LATE + 1)], [Call("new", LATE + 2)];
    assert early[1..] == [] && rival[1..] == [] && new_[1..] == [];
    VolleyOrdered("client", IDLE_TTL + 1, c.burst);
    OrderedConcat(LATE + 2, new_, IDLE_TTL + 1, last);
    OrderedConcat(LATE + 1, rival, LATE + 2, new_ + last);
    VolleyOrdered("rival", LATE, c.burst);
    OrderedConcat(EARLY, early, LATE, two);
    VolleyOrdered("client", 0, c.burst);
    OrderedConcat(0, one, EARLY, early + two);
    OrderedConcat(0, Opening(c), LATE + 1, rival + (new_ + last));
  }

  /** Refused calls can be left out of every trace without changing another answer, if and only if an idle
      bucket is a full one, or a single nanosecond pays for a request. */
  lemma RefusalsAreFreeIff(c: Config)
    requires Limiting(c)
    ensures (forall start, trace :: Ordered(start, trace) ==> RefusalsFree(c, start, trace))
            <==> IdleMeansFull(c) || c.requestsPerMinute >= COST
  {
    if IdleMeansFull(c) {
      forall start, trace | Ordered(start, trace) ensures RefusalsFree(c, start, trace) {
        RefusalsAreFree(c, start, trace);
      }
    } else if c.requestsPerMinute >= COST {
      forall start, trace | Ordered(start, trace) ensures RefusalsFree(c, start, trace) {
        FastRefusalsAreFree(c, Fresh(start), start, trace);
      }
    } else {
      SpoiledIsOrdered(c);
      SpoiledKeeps(c);
      UnspoiledRefuses(c);
      assert !RefusalsFree(c, 0, Spoiled(c));
    }
  }
}
