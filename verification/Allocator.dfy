/** internal/network: choosing an address and claiming it against a table other transactions
    keep changing.

    A call to `AllocateFrom` issues an alternation of statements: read, insert, read, insert, ...
    The environment is the sequence `tables` of committed tables, one entry per foreign commit,
    and `at[k]`, the position in that sequence at which statement k executes. Positions never go
    backwards; nothing else is assumed of the other transactions, and addresses may come and go. */
module Allocator {
  import opened Common
  import opened Addressing

  const MAX_ATTEMPTS := 32
  const SCATTER_WINDOW := 256

  datatype AllocError = PoolExhausted | CouldNotClaim

  type Table = set<Addr>

  predicate Free(pool: Prefix, taken: set<Addr>, a: Addr)
    requires WellFormed(pool)
  {
    Usable(pool, a) && a !in taken
  }

  /** takenIn: the allocated addresses of the pool; rows outside it are ignored. */
  function TakenIn(pool: Prefix, table: Table): set<Addr>
    requires WellFormed(pool)
  {
    set a | a in table && Contains(pool, a)
  }

  /** `free` lists the lowest free addresses in ascending order, cut off only at `limit`. */
  ghost predicate IsLowestFree(pool: Prefix, taken: set<Addr>, limit: nat, free: seq<Addr>)
    requires WellFormed(pool)
  {
    && |free| <= limit
    && (forall i :: 0 <= i < |free| ==> Free(pool, taken, free[i]))
    && (forall i, j :: 0 <= i < j < |free| ==> free[i].value < free[j].value)
    && (forall a :: Free(pool, taken, a) && a !in free ==>
          |free| == limit && forall i :: 0 <= i < |free| ==> free[i].value < a.value)
  }

  function Limit(scatter: bool): nat {
    if scatter then SCATTER_WINDOW else 1
  }

  /** The addresses an attempt may try: the lowest free one, or one of the lowest 256. */
  ghost predicate IsCandidate(pool: Prefix, taken: set<Addr>, scatter: bool, a: Addr)
    requires WellFormed(pool)
  {
    exists free :: IsLowestFree(pool, taken, Limit(scatter), free) && a in free
  }

  ghost predicate IsLowest(pool: Prefix, taken: set<Addr>, a: Addr)
    requires WellFormed(pool)
  {
    Free(pool, taken, a) && forall b :: Free(pool, taken, b) ==> a.value <= b.value
  }

  /** A quiet system numbers its devices in order: without scattering the candidate is the
      lowest free address. */
  lemma FirstCandidateIsLowest(pool: Prefix, taken: set<Addr>, a: Addr)
    requires WellFormed(pool) && IsCandidate(pool, taken, false, a)
    ensures IsLowest(pool, taken, a)
  {
    var free: seq<Addr> :| IsLowestFree(pool, taken, 1, free) && a in free;
    forall b | Free(pool, taken, b) ensures a.value <= b.value {
      if b in free {
        assert a == free[0] == b;
      } else {
        assert free[0].value < b.value;
      }
    }
  }

  /** What the scan has collected when it stands at `next`: exactly the free addresses below. */
  ghost predicate Scanned(pool: Prefix, taken: set<Addr>, free: seq<Addr>, next: nat)
    requires WellFormed(pool)
  {
    && (forall i :: 0 <= i < |free| ==> Free(pool, taken, free[i]) && free[i].value < next)
    && (forall i, j :: 0 <= i < j < |free| ==> free[i].value < free[j].value)
    && (forall a :: Free(pool, taken, a) && a.value < next ==> a in free)
  }

  lemma ScanMoves(pool: Prefix, taken: set<Addr>, free: seq<Addr>, a: Addr)
    requires WellFormed(pool) && a.family == pool.addr.family && Scanned(pool, taken, free, a.value)
    ensures Scanned(pool, taken, if Free(pool, taken, a) then free + [a] else free, a.value + 1)
  {
    var more := if Free(pool, taken, a) then free + [a] else free;
    forall b | Free(pool, taken, b) && b.value < a.value + 1 ensures b in more {
      if b.value == a.value {
        assert b == a;
      } else {
        assert b in free;
      }
    }
  }

  lemma UsableIs(pool: Prefix, broadcast: Addr, a: Addr)
    requires WellFormed(pool) && a.family == pool.addr.family && First(pool) < a.value <= Last(pool)
    requires pool.addr.family.V4? ==> broadcast == Addr(V4, Last(pool))
    ensures Usable(pool, a) <==> !(a.family.V4? && a == broadcast)
  {
  }

  lemma ScanFull(pool: Prefix, taken: set<Addr>, free: seq<Addr>, next: nat, limit: nat)
    requires WellFormed(pool) && Scanned(pool, taken, free, next)
    requires |free| == limit || (|free| < limit && next > Last(pool))
    ensures IsLowestFree(pool, taken, limit, free)
  {
  }

  method FreeAddresses(pool: Prefix, broadcast: Addr, taken: set<Addr>, limit: nat) returns (free: seq<Addr>)
    requires WellFormed(pool) && limit > 0
    requires pool.addr.family.V4? ==> broadcast == Addr(V4, Last(pool))
    ensures IsLowestFree(pool, taken, limit, free)
  {
    free := [];
    var addr := Addr(pool.addr.family, Masked(pool).addr.value + 1);
    PrefixFitsFamily(pool);
    ContainsIsInterval(pool, addr);
    while addr.value < SpaceSize(addr.family) && Contains(pool, addr)
      invariant addr.family == pool.addr.family && First(pool) < addr.value <= Last(pool) + 1
      invariant Contains(pool, addr) <==> addr.value <= Last(pool)
      invariant |free| < limit && Scanned(pool, taken, free, addr.value)
      decreases Last(pool) - addr.value
    {
      UsableIs(pool, broadcast, addr);
      ScanMoves(pool, taken, free, addr);
      if addr.family.V4? && addr == broadcast {
      } else if addr in taken {
      } else {
        free := free + [addr];
        if |free| == limit {
          ScanFull(pool, taken, free, addr.value + 1, limit);
          return;
        }
      }
      addr := addr.(value := addr.value + 1);
      ContainsIsInterval(pool, addr);
    }
    ScanFull(pool, taken, free, addr.value, limit);
  }

  /** The free addresses below this one. */
  ghost function FreeBelow(pool: Prefix, taken: set<Addr>, a: Addr): set<Addr>
    requires WellFormed(pool)
  {
    set v: nat | v < a.value && Free(pool, taken, Addr(pool.addr.family, v)) :: Addr(pool.addr.family, v)
  }

  lemma {:induction false} AllFree(pool: Prefix, taken: set<Addr>, next: nat) returns (free: seq<Addr>)
    requires WellFormed(pool)
    ensures Scanned(pool, taken, free, next)
  {
    if next == 0 {
      free := [];
    } else {
      free := AllFree(pool, taken, next - 1);
      var a := Addr(pool.addr.family, next - 1);
      ScanMoves(pool, taken, free, a);
      free := if Free(pool, taken, a) then free + [a] else free;
    }
  }

  lemma {:induction false} Distinct(free: seq<Addr>, n: nat)
    requires n <= |free| && forall i, j :: 0 <= i < j < |free| ==> free[i].value < free[j].value
    ensures |set i | 0 <= i < n :: free[i]| == n
  {
    var first := set i | 0 <= i < n :: free[i];
    if n > 0 {
      Distinct(free, n - 1);
      var fewer := set i | 0 <= i < n - 1 :: free[i];
      assert first == fewer + {free[n - 1]};
    }
  }

  /** An address stands at the place in an ascending list of free addresses that says how many are below. */
  lemma PlaceIs(pool: Prefix, taken: set<Addr>, free: seq<Addr>, i: nat)
    requires WellFormed(pool) && i < |free|
    requires forall j :: 0 <= j < |free| ==> Free(pool, taken, free[j])
    requires forall j, k :: 0 <= j < k < |free| ==> free[j].value < free[k].value
    requires forall b :: Free(pool, taken, b) && b.value < free[i].value ==> b in free
    ensures |FreeBelow(pool, taken, free[i])| == i
  {
    var first := set j | 0 <= j < i :: free[j];
    Distinct(free, i);
    forall b ensures b in FreeBelow(pool, taken, free[i]) <==> b in first {
      if b in FreeBelow(pool, taken, free[i]) {
        var j :| 0 <= j < |free| && free[j] == b;
      }
      if b in first {
        var j :| 0 <= j < i && free[j] == b;
        assert Free(pool, taken, b) && b == Addr(pool.addr.family, b.value);
      }
    }
    assert FreeBelow(pool, taken, free[i]) == first;
  }

  /** The candidates of an attempt are the lowest free address, or, once scattering, exactly the lowest 256. */
  lemma CandidatesAre(pool: Prefix, taken: set<Addr>, scatter: bool, a: Addr)
    requires WellFormed(pool)
    ensures IsCandidate(pool, taken, scatter, a) <==>
            Free(pool, taken, a) && |FreeBelow(pool, taken, a)| < (if scatter then 256 else 1)
  {
    if IsCandidate(pool, taken, scatter, a) {
      var free: seq<Addr> :| IsLowestFree(pool, taken, Limit(scatter), free) && a in free;
      var i :| 0 <= i < |free| && free[i] == a;
      PlaceIs(pool, taken, free, i);
    }
    if Free(pool, taken, a) && |FreeBelow(pool, taken, a)| < Limit(scatter) {
      LowIsListed(pool, taken, Limit(scatter), a);
    }
  }

  lemma LowIsListed(pool: Prefix, taken: set<Addr>, limit: nat, a: Addr)
    requires WellFormed(pool) && Free(pool, taken, a) && |FreeBelow(pool, taken, a)| < limit
    ensures exists free :: IsLowestFree(pool, taken, limit, free) && a in free
  {
    var all := AllFree(pool, taken, Last(pool) + 1);
    var i :| 0 <= i < |all| && all[i] == a;
    PlaceIs(pool, taken, all, i);
    FirstOnes(pool, taken, all, limit);
    var free := all[..Min(limit, |all|)];
    assert free[i] == a;
  }

  lemma FirstOnes(pool: Prefix, taken: set<Addr>, all: seq<Addr>, limit: nat)
    requires WellFormed(pool) && Scanned(pool, taken, all, Last(pool) + 1)
    ensures IsLowestFree(pool, taken, limit, all[..Min(limit, |all|)])
  {
    var free := all[..Min(limit, |all|)];
    assert forall k :: 0 <= k < |free| ==> free[k] == all[k] && all[k] in free;
    forall a | Free(pool, taken, a) && a !in free
      ensures |free| == limit && forall i :: 0 <= i < |free| ==> free[i].value < a.value
    {
      var j :| 0 <= j < |all| && all[j] == a;
    }
  }

  method PickCandidate(pool: Prefix, broadcast: Addr, taken: set<Addr>, scatter: bool, random: nat)
    returns (r: Result<Addr, AllocError>)
    requires WellFormed(pool)
    requires pool.addr.family.V4? ==> broadcast == Addr(V4, Last(pool))
    ensures r.Ok? ==> IsCandidate(pool, taken, scatter, r.value) && Free(pool, taken, r.value)
    ensures r.Ok? && scatter ==>
              exists free :: IsLowestFree(pool, taken, 256, free) && free != [] && r.value == free[random % |free|]
    ensures r.Ok? && !scatter ==> IsLowest(pool, taken, r.value)
    ensures r.Err? <==> forall a :: !Free(pool, taken, a)
    ensures r.Err? ==> r.error == PoolExhausted
  {
    var free := FreeAddresses(pool, broadcast, taken, Limit(scatter));
    if |free| == 0 {
      return Err(PoolExhausted);
    }
    var choice := if scatter then random % |free| else 0;
    assert Free(pool, taken, free[choice]);
    assert IsCandidate(pool, taken, scatter, free[choice]);
    if !scatter {
      FirstCandidateIsLowest(pool, taken, free[choice]);
    }
    return Ok(free[choice]);
  }

  /** Statements of one call: an initial read, then an insert and a refreshing read per attempt. */
  const STATEMENTS := 2 * MAX_ATTEMPTS + 1

  ghost predicate IsSchedule(tables: seq<Table>, at: seq<nat>) {
    && |at| == STATEMENTS
    && (forall k :: 0 <= k < |at| ==> at[k] < |tables|)
    && (forall j, k :: 0 <= j <= k < |at| ==> at[j] <= at[k])
  }

  function ReadBy(tables: seq<Table>, at: seq<nat>, attempt: nat): Table
    requires attempt <= MAX_ATTEMPTS && IsSchedule(tables, at)
  {
    tables[at[2 * attempt]]
  }

  function InsertedInto(tables: seq<Table>, at: seq<nat>, attempt: nat): Table
    requires attempt < MAX_ATTEMPTS && IsSchedule(tables, at)
  {
    tables[at[2 * attempt + 1]]
  }

  /** No other transaction commits anything that touches the table during the call. */
  ghost predicate Quiet(tables: seq<Table>, at: seq<nat>)
    requires IsSchedule(tables, at)
  {
    forall k :: 0 <= k < |at| ==> tables[at[k]] == tables[at[0]]
  }

  ghost predicate NoneFree(pool: Prefix, table: Table)
    requires WellFormed(pool)
  {
    forall a :: Usable(pool, a) ==> a in table
  }

  ghost predicate NoneFreeBut(pool: Prefix, table: Table, lost: Addr)
    requires WellFormed(pool)
  {
    forall a :: Usable(pool, a) && a != lost ==> a in table
  }

  /** An attempt was beaten to this address: free when it read, taken when it inserted. */
  ghost predicate LostAt(pool: Prefix, tables: seq<Table>, at: seq<nat>, attempt: nat, lost: Addr)
    requires WellFormed(pool) && attempt < MAX_ATTEMPTS && IsSchedule(tables, at)
  {
    && Usable(pool, lost)
    && lost !in ReadBy(tables, at, attempt)
    && lost in InsertedInto(tables, at, attempt)
  }

  /** An address that was free when read and present when inserted was committed in between. */
  lemma LostRaceIsACommit(pool: Prefix, tables: seq<Table>, at: seq<nat>, attempt: nat, candidate: Addr)
    requires WellFormed(pool) && attempt < MAX_ATTEMPTS && IsSchedule(tables, at)
    requires Free(pool, TakenIn(pool, ReadBy(tables, at, attempt)), candidate)
    requires candidate in InsertedInto(tables, at, attempt)
    ensures at[2 * attempt + 2] > at[2 * attempt]
    ensures !Quiet(tables, at)
  {
    ContainsIsInterval(pool, candidate);
    var read, insert, start := at[2 * attempt], at[2 * attempt + 1], at[0];
    assert tables[read] != tables[insert];
    assert tables[read] != tables[start] || tables[insert] != tables[start];
    assert at[2 * attempt] <= at[2 * attempt + 1] <= at[2 * attempt + 2];
  }

  /** allocateFrom under arbitrary interference. `attempt` is the attempt that decided.

      An address handed out is usable and absent from the table at its insert. Giving up takes
      32 commits by others during the call, so with fewer it never happens. The first attempt
      takes the lowest free address. Exhaustion at the first attempt means exactly that none is
      free; later it means exactly that none is free apart from `lost`, the address the attempt
      before was beaten to, which the refresh marks as taken even if it has been released since. So a
      later exhaustion is true of the table exactly when that address is still taken. */
  method AllocateFrom(pool: Prefix, broadcast: Addr, tables: seq<Table>, at: seq<nat>, random: seq<nat>)
    returns (r: Result<Addr, AllocError>, attempt: nat, ghost lost: Addr)
    requires WellFormed(pool)
    requires pool.addr.family.V4? ==> broadcast == Addr(V4, Last(pool))
    requires IsSchedule(tables, at) && |random| == MAX_ATTEMPTS
    ensures r != Err(CouldNotClaim) ==> attempt < MAX_ATTEMPTS
    ensures r.Ok? ==> Usable(pool, r.value) && r.value !in InsertedInto(tables, at, attempt)
    ensures r.Ok? && attempt == 0 ==> IsLowest(pool, TakenIn(pool, ReadBy(tables, at, 0)), r.value)
    ensures r == Err(CouldNotClaim) ==> attempt == MAX_ATTEMPTS && at[STATEMENTS - 1] - at[0] >= 32
    ensures 0 < attempt < MAX_ATTEMPTS ==> LostAt(pool, tables, at, attempt - 1, lost)
    ensures 0 < attempt < MAX_ATTEMPTS ==>
              (r == Err(PoolExhausted) <==> NoneFreeBut(pool, ReadBy(tables, at, attempt), lost))
    ensures r == Err(PoolExhausted) && attempt > 0 ==>
              (NoneFree(pool, ReadBy(tables, at, attempt)) <==> lost in ReadBy(tables, at, attempt))
    ensures attempt == 0 ==> (r == Err(PoolExhausted) <==> NoneFree(pool, ReadBy(tables, at, 0)))
    ensures attempt > 0 ==> !Quiet(tables, at)
  {
    attempt := 0;
    var taken := TakenIn(pool, ReadBy(tables, at, 0));
    lost := broadcast;
    while attempt < MAX_ATTEMPTS
      invariant attempt <= MAX_ATTEMPTS
      invariant attempt == 0 ==> taken == TakenIn(pool, ReadBy(tables, at, 0))
      invariant attempt > 0 ==> taken == TakenIn(pool, ReadBy(tables, at, attempt)) + {lost}
      invariant attempt > 0 ==> LostAt(pool, tables, at, attempt - 1, lost)
      invariant at[2 * attempt] - at[0] >= attempt
      invariant attempt > 0 ==> !Quiet(tables, at)
    {
      var picked := PickCandidate(pool, broadcast, taken, attempt > 0, random[attempt]);
      FreeIs(pool, ReadBy(tables, at, attempt), taken, attempt > 0, lost);
      if picked.Err? {
        return Err(PoolExhausted), attempt, lost;
      }
      var candidate := picked.value;
      if candidate !in InsertedInto(tables, at, attempt) {
        return Ok(candidate), attempt, lost;
      }
      LostRaceIsACommit(pool, tables, at, attempt, candidate);
      lost := candidate;
      attempt := attempt + 1;
      taken := TakenIn(pool, ReadBy(tables, at, attempt)) + {candidate};
    }
    return Err(CouldNotClaim), attempt, lost;
  }

  lemma FreeInTable(pool: Prefix, table: Table, a: Addr)
    requires WellFormed(pool) && Free(pool, TakenIn(pool, table), a)
    ensures a !in table && !NoneFree(pool, table)
  {
    ContainsIsInterval(pool, a);
  }

  /** What an attempt takes for free: the usable addresses absent from the table it read, except, once
      a race has been lost, the address lost. */
  lemma FreeIs(pool: Prefix, table: Table, taken: set<Addr>, raced: bool, lost: Addr)
    requires WellFormed(pool)
    requires taken == TakenIn(pool, table) + (if raced then {lost} else {})
    ensures forall a :: Free(pool, taken, a) <==> Usable(pool, a) && a !in table && !(raced && a == lost)
    ensures (forall a :: !Free(pool, taken, a)) <==>
            if raced then NoneFreeBut(pool, table, lost) else NoneFree(pool, table)
  {
    forall a ensures Free(pool, taken, a) <==> Usable(pool, a) && a !in table && !(raced && a == lost) {
      ContainsIsInterval(pool, a);
    }
  }

  /** The input that makes a false exhaustion: an address that is the only free one at the read, is
      taken when the call tries to insert it, and is released before the refresh. */
  method ExhaustedWithOneFree(pool: Prefix, broadcast: Addr, a: Addr, others: Table)
    returns (r: Result<Addr, AllocError>, attempt: nat, tables: seq<Table>, at: seq<nat>)
    requires WellFormed(pool) && Usable(pool, a) && a !in others
    requires pool.addr.family.V4? ==> broadcast == Addr(V4, Last(pool))
    requires forall b :: Usable(pool, b) && b != a ==> b in others
    ensures r == Err(PoolExhausted)
    ensures attempt < MAX_ATTEMPTS && IsSchedule(tables, at)
    ensures Usable(pool, a) && a !in ReadBy(tables, at, attempt)
  {
    tables := [others, others + {a}, others];
    at := seq(STATEMENTS, i => if i <= 2 then i else 2);
    assert ReadBy(tables, at, 0) == others && InsertedInto(tables, at, 0) == others + {a};
    ghost var lost;
    r, attempt, lost := AllocateFrom(pool, broadcast, tables, at, seq(MAX_ATTEMPTS, _ => 0));
    FreeIs(pool, others, TakenIn(pool, others), false, a);
    assert Free(pool, TakenIn(pool, others), a);
    assert !NoneFree(pool, others);
    assert forall b :: Free(pool, TakenIn(pool, others), b) ==> b == a;
    match r {
      case Ok(_) =>
      case Err(e) => assert e == PoolExhausted || e == CouldNotClaim;
    }
    assert attempt > 0;
  }

  /** On a quiet table the answer is determined: the lowest free address, or exhaustion exactly
      when no usable address is left. */
  method AllocateQuietly(pool: Prefix, broadcast: Addr, table: Table)
    returns (r: Result<Addr, AllocError>)
    requires WellFormed(pool)
    requires pool.addr.family.V4? ==> broadcast == Addr(V4, Last(pool))
    ensures r.Ok? ==> IsLowest(pool, TakenIn(pool, table), r.value) && r.value !in table
    ensures r.Err? <==> NoneFree(pool, table)
    ensures r.Err? ==> r.error == PoolExhausted
  {
    var at := seq(STATEMENTS, _ => 0);
    var attempt;
    ghost var lost;
    r, attempt, lost := AllocateFrom(pool, broadcast, [table], at, seq(MAX_ATTEMPTS, _ => 0));
    assert Quiet([table], at) && ReadBy([table], at, 0) == table;
    if r.Ok? {
      FreeInTable(pool, table, r.value);
    } else {
      assert attempt == 0 && r != Err(CouldNotClaim);
      assert r.error == PoolExhausted;
    }
  }
}
