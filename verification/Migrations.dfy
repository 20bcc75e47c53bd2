/** internal/storage's migrator: a ledger that records schema changes in the same transaction that
    makes them, any number of servers migrating at once, and crashes anywhere.

    `history` stands for the schema: the migrations whose effect is in it, in order. The ledger's
    primary key is the version. */
module Migrations {
  import opened Common

  datatype Migration = Migration(version: int, name: string, sql: string, checksum: string)

  datatype Row = Row(name: string, checksum: string)

  datatype MigrateError = ChecksumMismatch(version: int) | DatabaseAhead(version: int) | ApplyFailed(version: int)

  function RowOf(m: Migration): Row {
    Row(m.name, m.checksum)
  }

  /** Ascending versions, hence each version once: what LoadMigrations returns. */
  predicate Ascending(ms: seq<Migration>) {
    forall i, j :: 0 <= i < j < |ms| ==> ms[i].version < ms[j].version
  }

  predicate HasVersion(ms: seq<Migration>, v: int) {
    exists i :: 0 <= i < |ms| && ms[i].version == v
  }

  /** The ledger and the schema say the same thing, each migration once. */
  ghost predicate InStep(history: seq<Migration>, ledger: map<int, Row>) {
    && (forall i, j :: 0 <= i < j < |history| ==> history[i].version != history[j].version)
    && (forall v :: v in ledger <==> HasVersion(history, v))
    && (forall i :: 0 <= i < |history| ==>
          history[i].version in ledger && ledger[history[i].version] == RowOf(history[i]))
  }

  lemma Appended(history: seq<Migration>, ledger: map<int, Row>, m: Migration)
    requires InStep(history, ledger) && m.version !in ledger
    ensures InStep(history + [m], ledger[m.version := RowOf(m)])
  {
    var h, l := history + [m], ledger[m.version := RowOf(m)];
    assert h[|history|] == m;
    forall v ensures v in l <==> HasVersion(h, v) {
      if HasVersion(history, v) {
        var i :| 0 <= i < |history| && history[i].version == v;
        assert h[i].version == v;
      }
      if HasVersion(h, v) && v != m.version {
        var i :| 0 <= i < |h| && h[i].version == v;
        assert history[i].version == v;
      }
    }
  }

  // ----- verifyLedger -----

  /** A recorded row matches this build. */
  predicate Matches(available: seq<Migration>, v: int, row: Row) {
    exists i :: 0 <= i < |available| && available[i].version == v && available[i].checksum == row.checksum
  }

  method VerifyLedger(available: seq<Migration>, versions: seq<int>, ledger: map<int, Row>)
    returns (r: Result<(), MigrateError>)
    requires Ascending(available)
    requires forall v :: v in versions <==> v in ledger
    ensures r.Ok? <==> forall v :: v in ledger ==> Matches(available, v, ledger[v])
    ensures r.Err? && r.error.DatabaseAhead? ==> r.error.version in ledger && !HasVersion(available, r.error.version)
    ensures r.Err? && r.error.ChecksumMismatch? ==>
              && r.error.version in ledger && HasVersion(available, r.error.version)
              && !Matches(available, r.error.version, ledger[r.error.version])
    ensures r.Err? ==> !r.error.ApplyFailed?
  {
    var byVersion: map<int, Migration> := map[];
    for i := 0 to |available|
      invariant forall v :: v in byVersion <==> exists k :: 0 <= k < i && available[k].version == v
      invariant forall k :: 0 <= k < i ==>
                  available[k].version in byVersion && byVersion[available[k].version] == available[k]
    {
      byVersion := byVersion[available[i].version := available[i]];
    }
    for i := 0 to |versions|
      invariant forall k :: 0 <= k < i ==> Matches(available, versions[k], ledger[versions[k]])
    {
      var v := versions[i];
      assert v in versions;
      if v !in byVersion {
        return Err(DatabaseAhead(v));
      }
      if byVersion[v].checksum != ledger[v].checksum {
        return Err(ChecksumMismatch(v));
      }
    }
    return Ok(());
  }

  // ----- one undisturbed run -----

  /** The migrations not yet recorded, in order. */
  function Missing(available: seq<Migration>, ledger: map<int, Row>): seq<Migration> {
    if available == [] then []
    else (if available[0].version in ledger then [] else [available[0]]) + Missing(available[1..], ledger)
  }

  function Recorded(ledger: map<int, Row>, ms: seq<Migration>): map<int, Row>
    decreases |ms|
  {
    if ms == [] then ledger else Recorded(ledger[ms[0].version := RowOf(ms[0])], ms[1..])
  }

  class Database {
    var history: seq<Migration>
    var ledger: map<int, Row>

    ghost predicate Valid()
      reads this
    {
      InStep(history, ledger)
    }

    constructor ()
      ensures Valid() && history == [] && ledger == map[]
    {
      history, ledger := [], map[];
    }

    /** applyOne: the change and its record in one transaction. `works` is whether the SQL runs. */
    method ApplyOne(m: Migration, works: bool) returns (ok: bool)
      requires Valid()
      modifies this
      ensures Valid()
      ensures ok <==> works && m.version !in old(ledger)
      ensures ok ==> history == old(history) + [m] && ledger == old(ledger)[m.version := RowOf(m)]
      ensures !ok ==> history == old(history) && ledger == old(ledger)
    {
      var savedHistory := history;
      if !works {
        return false;
      }
      history := history + [m];
      if m.version in ledger {
        history := savedHistory;
        return false;
      }
      Appended(savedHistory, ledger, m);
      ledger := ledger[m.version := RowOf(m)];
      return true;
    }

    /** These migrations have been run and recorded since the database stood like that. */
    predicate HasApplied(oldHistory: seq<Migration>, oldLedger: map<int, Row>, done: seq<Migration>)
      reads this
    {
      history == oldHistory + done && ledger == Recorded(oldLedger, done)
    }

    /** Migrate, with nobody else at work. `works(v)` is whether migration v's SQL runs. */
    method Migrate(available: seq<Migration>, versions: seq<int>, works: int -> bool)
      returns (count: nat, r: Result<(), MigrateError>)
      requires Valid() && Ascending(available)
      requires forall v :: v in versions <==> v in ledger
      modifies this
      ensures Valid()
      ensures var missing := Missing(available, old(ledger));
              && count <= |missing|
              && HasApplied(old(history), old(ledger), missing[..count])
              && (r.Ok? <==>
                  count == |missing| && forall v :: v in old(ledger) ==> Matches(available, v, old(ledger)[v]))
              && (r.Err? && r.error.ApplyFailed? ==>
                    count < |missing| && r.error.version == missing[count].version && !works(r.error.version))
              && (r.Err? && !r.error.ApplyFailed? ==> count == 0)
    {
      count := 0;
      var verified := VerifyLedger(available, versions, ledger);
      if verified.Err? {
        MissingOnce(available, ledger);
        return 0, verified;
      }
      count, r := ApplyMissing(available, ledger.Keys, works);
    }

    /** The loop of Migrate, over the versions that were recorded at its start. */
    method ApplyMissing(available: seq<Migration>, applied: set<int>, works: int -> bool)
      returns (count: nat, r: Result<(), MigrateError>)
      requires Valid() && Ascending(available) && applied == ledger.Keys
      modifies this
      ensures Valid()
      ensures var missing := Missing(available, old(ledger));
              && count <= |missing|
              && HasApplied(old(history), old(ledger), missing[..count])
              && (r.Ok? <==> count == |missing|)
              && (r.Err? ==>
                    && r.error == ApplyFailed(missing[count].version)
                    && !works(missing[count].version))
    {
      count := 0;
      ghost var missing := Missing(available, ledger);
      assert available[..0] == [];
      for i := 0 to |available|
        invariant Valid()
        invariant count <= |missing| && Missing(available[..i], old(ledger)) == missing[..count]
        invariant HasApplied(old(history), old(ledger), missing[..count])
      {
        var m := available[i];
        NextMissing(available, i, old(ledger), count);
        assert old(history) + missing[..count] + [m] == old(history) + (missing[..count] + [m]);
        if m.version !in applied {
          var ok := ApplyOne(m, works(m.version));
          if !ok {
            return count, Err(ApplyFailed(m.version));
          }
          count := count + 1;
        }
      }
      assert available[..|available|] == available;
      return count, Ok(());
    }
  }

  lemma {:induction false} MissingConcat(a: seq<Migration>, b: seq<Migration>, ledger: map<int, Row>)
    ensures Missing(a + b, ledger) == Missing(a, ledger) + Missing(b, ledger)
  {
    if a == [] {
      assert a + b == b;
    } else {
      assert (a + b)[1..] == a[1..] + b;
      MissingConcat(a[1..], b, ledger);
    }
  }

  /** The missing ones among the first i + 1 are those among the first i and, if it is missing, the
      next one; both are prefixes of all the missing. */
  lemma MissingSplit(available: seq<Migration>, i: nat, ledger: map<int, Row>)
    requires i < |available|
    ensures var next := if available[i].version in ledger then [] else [available[i]];
            && Missing(available[..i + 1], ledger) == Missing(available[..i], ledger) + next
            && Missing(available[..i + 1], ledger) <= Missing(available, ledger)
  {
    MissingConcat(available[..i], [available[i]], ledger);
    assert available[..i + 1] == available[..i] + [available[i]];
    MissingConcat(available[..i + 1], available[i + 1..], ledger);
    assert available == available[..i + 1] + available[i + 1..];
    assert [available[i]][1..] == [];
  }

  /** What the loop of Migrate needs to know about the migration it stands at. */
  lemma NextMissing(available: seq<Migration>, i: nat, ledger: map<int, Row>, count: nat)
    requires Ascending(available) && i < |available| && count <= |Missing(available, ledger)|
    requires Missing(available[..i], ledger) == Missing(available, ledger)[..count]
    ensures var m, missing := available[i], Missing(available, ledger);
            if m.version in ledger then Missing(available[..i + 1], ledger) == missing[..count]
            else
              && count < |missing| && missing[count] == m
              && Missing(available[..i + 1], ledger) == missing[..count + 1] == missing[..count] + [m]
              && m.version !in Recorded(ledger, missing[..count])
              && Recorded(ledger, missing[..count + 1]) == Recorded(ledger, missing[..count])[m.version := RowOf(m)]
  {
    var m, missing := available[i], Missing(available, ledger);
    MissingSplit(available, i, ledger);
    if m.version !in ledger {
      assert missing[..count + 1] == missing[..count] + [m];
      RecordedKeys(ledger, missing[..count]);
      NotYetRecorded(available, i, ledger);
      RecordedSnoc(ledger, missing[..count], m);
    }
  }

  lemma {:induction false} MissingMembers(available: seq<Migration>, ledger: map<int, Row>, m: Migration)
    ensures m in Missing(available, ledger) <==> m in available && m.version !in ledger
  {
    if available != [] {
      MissingMembers(available[1..], ledger, m);
      assert m in available <==> m == available[0] || m in available[1..];
    }
  }

  lemma MissingOnce(available: seq<Migration>, ledger: map<int, Row>)
    ensures Missing(available, ledger)[..0] == []
    ensures Recorded(ledger, []) == ledger
  {
  }

  lemma {:induction false} RecordedKeys(ledger: map<int, Row>, ms: seq<Migration>)
    ensures forall v :: v in Recorded(ledger, ms) <==> v in ledger || HasVersion(ms, v)
    decreases |ms|
  {
    if ms != [] {
      RecordedKeys(ledger[ms[0].version := RowOf(ms[0])], ms[1..]);
      forall v ensures HasVersion(ms, v) <==> ms[0].version == v || HasVersion(ms[1..], v) {
        if HasVersion(ms[1..], v) {
          var i :| 0 <= i < |ms[1..]| && ms[1..][i].version == v;
          assert ms[i + 1].version == v;
        }
        if HasVersion(ms, v) && ms[0].version != v {
          var i :| 0 <= i < |ms| && ms[i].version == v;
          assert ms[1..][i - 1].version == v;
        }
      }
    }
  }

  lemma {:induction false} RecordedSnoc(ledger: map<int, Row>, ms: seq<Migration>, m: Migration)
    ensures Recorded(ledger, ms + [m]) == Recorded(ledger, ms)[m.version := RowOf(m)]
    decreases |ms|
  {
    if ms == [] {
      assert ms + [m] == [m] && [m][1..] == [];
    } else {
      assert (ms + [m])[1..] == ms[1..] + [m];
      RecordedSnoc(ledger[ms[0].version := RowOf(ms[0])], ms[1..], m);
    }
  }

  lemma NotYetRecorded(available: seq<Migration>, i: nat, ledger: map<int, Row>)
    requires Ascending(available) && i < |available|
    ensures !HasVersion(Missing(available[..i], ledger), available[i].version)
  {
    if HasVersion(Missing(available[..i], ledger), available[i].version) {
      var missing := Missing(available[..i], ledger);
      var k :| 0 <= k < |missing| && missing[k].version == available[i].version;
      MissingMembers(available[..i], ledger, missing[k]);
    }
  }

  /** After a successful run the ledger holds exactly this build's versions, so the next run finds
      nothing missing and applies none. */
  lemma SecondRunAppliesNothing(available: seq<Migration>, ledger: map<int, Row>)
    requires forall v :: v in ledger ==> Matches(available, v, ledger[v])
    ensures var after := Recorded(ledger, Missing(available, ledger));
            && Missing(available, after) == []
            && forall v :: v in after <==> HasVersion(available, v)
  {
    var missing := Missing(available, ledger);
    var after := Recorded(ledger, missing);
    RecordedKeys(ledger, missing);
    forall v ensures v in after <==> HasVersion(available, v) {
      if HasVersion(available, v) {
        var i :| 0 <= i < |available| && available[i].version == v;
        MissingMembers(available, ledger, available[i]);
        if v !in ledger {
          var k :| 0 <= k < |missing| && missing[k] == available[i];
          assert missing[k].version == v;
        }
      }
      if HasVersion(missing, v) {
        var k :| 0 <= k < |missing| && missing[k].version == v;
        MissingMembers(available, ledger, missing[k]);
      }
    }
    NothingMissing(available, after);
  }

  lemma {:induction false} NothingMissing(available: seq<Migration>, ledger: map<int, Row>)
    requires forall i :: 0 <= i < |available| ==> available[i].version in ledger
    ensures Missing(available, ledger) == []
  {
    if available != [] {
      NothingMissing(available[1..], ledger);
    }
  }
}
