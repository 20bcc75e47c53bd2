/** Loading the embedded migrations: names such as 0001_init.sql, one file per version, in order. */
module MigrationFiles {
  import opened Common
  import opened Migrations
  import Decimal
  import Keys

  datatype LoadError = Misnamed | NoVersion | SharedVersion | EmptyBody

  const SUFFIX := ".sql"
  const MAX_INT := 0x7fff_ffff_ffff_ffff

  // ----- names -----

  predicate HasSuffix(s: string) {
    |s| >= |SUFFIX| && s[|s| - |SUFFIX|..] == SUFFIX
  }

  function TrimSuffix(s: string): string {
    if HasSuffix(s) then s[..|s| - |SUFFIX|] else s
  }

  /** strings.Cut at the first underscore. */
  function Cut(s: string): Option<(string, string)> {
    if s == "" then None
    else if s[0] == '_' then Some(("", s[1..]))
    else
      var rest := Cut(s[1..]);
      if rest.None? then None else Some(([s[0]] + rest.value.0, rest.value.1))
  }

  /** strconv.Atoi on a 64-bit int. */
  function Atoi(s: string): Option<int> {
    var signed := s != "" && (s[0] == '+' || s[0] == '-');
    var digits := if signed then s[1..] else s;
    if digits == "" || !Decimal.AllDigits(digits) then None
    else
      var magnitude: int := Decimal.Value(digits);
      var v := if signed && s[0] == '-' then -magnitude else magnitude;
      if -MAX_INT - 1 <= v <= MAX_INT then Some(v) else None
  }

  function ParseName(filename: string): Result<(int, string), LoadError> {
    var parts := Cut(TrimSuffix(filename));
    if parts.None? || parts.value.1 == "" then Err(Misnamed)
    else
      var version := Atoi(parts.value.0);
      if version.None? || version.value <= 0 then Err(NoVersion) else Ok((version.value, parts.value.1))
  }

  function Filename(version: nat, name: string): string {
    Decimal.PrintPadded(version, 4) + "_" + name + SUFFIX
  }

  lemma {:induction false} CutAfterDigits(digits: string, name: string)
    requires Decimal.AllDigits(digits)
    ensures Cut(digits + "_" + name) == Some((digits, name))
  {
    var s := digits + "_" + name;
    if digits == "" {
      assert s[1..] == name;
    } else {
      assert s[1..] == digits[1..] + "_" + name;
      CutAfterDigits(digits[1..], name);
      assert [digits[0]] + digits[1..] == digits;
    }
  }

  /** A migration's file name leads back to its version and name. */
  lemma FilenameRoundTrip(version: nat, name: string)
    requires 0 < version <= MAX_INT && name != ""
    ensures ParseName(Filename(version, name)) == Ok((version, name))
  {
    var digits := Decimal.PrintPadded(version, 4);
    var base := digits + "_" + name;
    assert Filename(version, name) == base + SUFFIX;
    assert (base + SUFFIX)[..|base|] == base;
    CutAfterDigits(digits, name);
    Decimal.PaddedValue(version, 4);
  }

  lemma {:induction false} CutIs(s: string)
    ensures Cut(s).Some? ==> s == Cut(s).value.0 + "_" + Cut(s).value.1 && '_' !in Cut(s).value.0
    ensures Cut(s).None? <==> '_' !in s
  {
    if s != "" && s[0] != '_' {
      CutIs(s[1..]);
      assert s == [s[0]] + s[1..];
    }
  }

  /** What a file must be called: a positive decimal number, an underscore and a name, then the suffix or not. */
  lemma NameIsParsed(filename: string)
    ensures ParseName(filename).Ok? ==>
              var (version, name) := ParseName(filename).value;
              var base := TrimSuffix(filename);
              && version > 0 && name != ""
              && (filename == base + ".sql" || filename == base)
              && exists digits :: Atoi(digits) == Some(version) && '_' !in digits && base == digits + "_" + name
    ensures ParseName(filename) == Err(Misnamed) <==>
            Cut(TrimSuffix(filename)).None? || Cut(TrimSuffix(filename)).value.1 == ""
  {
    CutIs(TrimSuffix(filename));
    if ParseName(filename).Ok? {
      var digits := Cut(TrimSuffix(filename)).value.0;
      assert Atoi(digits) == Some(ParseName(filename).value.0);
    }
  }

  // ----- loading -----

  datatype Entry = Entry(name: string, isDir: bool, body: string)

  predicate IsMigration(e: Entry) {
    !e.isDir && HasSuffix(e.name)
  }

  /** SHA-256 of the text, treated as injective. */
  function Checksum(body: string): string {
    "sha256:" + body
  }

  predicate Readable(e: Entry) {
    ParseName(e.name).Ok? && Keys.TrimSpace(e.body) != ""
  }

  function Loaded(e: Entry): Migration
    requires ParseName(e.name).Ok?
  {
    Migration(ParseName(e.name).value.0, ParseName(e.name).value.1, e.body, Checksum(e.body))
  }

  ghost predicate Loadable(entries: seq<Entry>) {
    && (forall i :: 0 <= i < |entries| && IsMigration(entries[i]) ==> Readable(entries[i]))
    && (forall i, j :: 0 <= i < j < |entries| && IsMigration(entries[i]) && IsMigration(entries[j]) ==>
          Loaded(entries[i]).version != Loaded(entries[j]).version)
  }

  function InsertSorted(ms: seq<Migration>, m: Migration): seq<Migration> {
    if ms == [] then [m]
    else if m.version < ms[0].version then [m] + ms
    else [ms[0]] + InsertSorted(ms[1..], m)
  }

  lemma {:induction false} InsertMembers(ms: seq<Migration>, m: Migration, x: Migration)
    ensures x in InsertSorted(ms, m) <==> x in ms || x == m
  {
    if ms != [] && m.version >= ms[0].version {
      InsertMembers(ms[1..], m, x);
      assert x in ms <==> x == ms[0] || x in ms[1..];
    }
  }

  lemma {:induction false} InsertAscends(ms: seq<Migration>, m: Migration)
    requires Ascending(ms) && !HasVersion(ms, m.version)
    ensures Ascending(InsertSorted(ms, m))
  {
    if ms != [] && m.version >= ms[0].version {
      assert ms[0].version != m.version;
      forall i | 0 <= i < |ms[1..]| ensures ms[1..][i].version != m.version {
        assert ms[1..][i] == ms[i + 1];
      }
      InsertAscends(ms[1..], m);
      var rest := InsertSorted(ms[1..], m);
      forall i | 0 <= i < |rest| ensures ms[0].version < rest[i].version {
        InsertMembers(ms[1..], m, rest[i]);
        assert rest[i] in rest;
      }
    }
  }

  /** LoadMigrations: succeeds exactly when every file is named, filled and versioned on its own,
      and then returns them all, ascending. */
  method LoadMigrations(entries: seq<Entry>) returns (r: Result<seq<Migration>, LoadError>)
    ensures r.Ok? <==> Loadable(entries)
    ensures r.Ok? ==> Ascending(r.value)
    ensures r.Ok? ==>
              forall m :: m in r.value <==> exists i :: 0 <= i < |entries| && IsMigration(entries[i]) &&
                                                        ParseName(entries[i].name).Ok? && m == Loaded(entries[i])
  {
    var out: seq<Migration>, seen: set<int> := [], {};
    for i := 0 to |entries|
      invariant Loadable(entries[..i])
      invariant Ascending(out)
      invariant forall v :: v in seen <==> HasVersion(out, v)
      invariant forall m :: m in out <==> FromSome(entries[..i], m)
    {
      var e := entries[i];
      assert entries[..i + 1] == entries[..i] + [e];
      ExtendFrom(entries[..i], e);
      if IsMigration(e) {
        var parsed := ParseName(e.name);
        if parsed.Err? {
          assert !Readable(entries[i]);
          return Err(parsed.error);
        }
        if parsed.value.0 in seen {
          SharedIsNotLoadable(entries, i, out);
          return Err(SharedVersion);
        }
        if Keys.TrimSpace(e.body) == "" {
          assert !Readable(entries[i]);
          return Err(EmptyBody);
        }
        seen := seen + {parsed.value.0};
        InsertKeepsVersions(out, Loaded(e));
        StillLoadable(entries[..i], e, out);
        InsertAscends(out, Loaded(e));
        InsertedFrom(entries[..i], e, out);
        out := InsertSorted(out, Loaded(e));
      }
    }
    assert entries[..|entries|] == entries;
    forall m ensures m in out <==> FromSome(entries, m) {
    }
    return Ok(out);
  }

  ghost predicate FromSome(entries: seq<Entry>, m: Migration) {
    exists i ::
      0 <= i < |entries| && IsMigration(entries[i]) && ParseName(entries[i].name).Ok? && m == Loaded(entries[i])
  }

  lemma ExtendFrom(before: seq<Entry>, e: Entry)
    ensures forall m :: FromSome(before + [e], m) <==>
                        FromSome(before, m) || (IsMigration(e) && ParseName(e.name).Ok? && m == Loaded(e))
    ensures !IsMigration(e) && Loadable(before) ==> Loadable(before + [e])
  {
    var after := before + [e];
    forall m ensures FromSome(after, m) <==>
                     FromSome(before, m) || (IsMigration(e) && ParseName(e.name).Ok? && m == Loaded(e))
    {
      if FromSome(before, m) {
        var i :| 0 <= i < |before| && IsMigration(before[i]) && ParseName(before[i].name).Ok? && m == Loaded(before[i]);
        assert after[i] == before[i];
      }
      assert after[|before|] == e;
    }
  }

  lemma InsertedFrom(before: seq<Entry>, e: Entry, out: seq<Migration>)
    requires IsMigration(e) && ParseName(e.name).Ok?
    requires forall m :: m in out <==> FromSome(before, m)
    ensures forall m :: m in InsertSorted(out, Loaded(e)) <==> FromSome(before + [e], m)
  {
    ExtendFrom(before, e);
    forall m ensures m in InsertSorted(out, Loaded(e)) <==> FromSome(before + [e], m) {
      InsertMembers(out, Loaded(e), m);
    }
  }

  lemma StillLoadable(before: seq<Entry>, e: Entry, out: seq<Migration>)
    requires Loadable(before) && IsMigration(e) && Readable(e)
    requires forall m :: m in out <==> FromSome(before, m)
    requires !HasVersion(out, Loaded(e).version)
    ensures Loadable(before + [e])
  {
    forall i | 0 <= i < |before| && IsMigration(before[i]) ensures Loaded(before[i]).version != Loaded(e).version {
      assert Readable(before[i]);
      assert FromSome(before, Loaded(before[i]));
      var k :| 0 <= k < |out| && out[k] == Loaded(before[i]);
    }
  }

  lemma SharedIsNotLoadable(entries: seq<Entry>, i: nat, out: seq<Migration>)
    requires i < |entries| && IsMigration(entries[i]) && ParseName(entries[i].name).Ok?
    requires forall m :: m in out <==> FromSome(entries[..i], m)
    requires HasVersion(out, Loaded(entries[i]).version)
    ensures !Loadable(entries)
  {
    var k :| 0 <= k < |out| && out[k].version == Loaded(entries[i]).version;
    assert FromSome(entries[..i], out[k]);
    var j :| 0 <= j < |entries[..i]| && IsMigration(entries[..i][j]) && ParseName(entries[..i][j].name).Ok? &&
             out[k] == Loaded(entries[..i][j]);
    assert entries[j] == entries[..i][j];
  }

  lemma InsertKeepsVersions(ms: seq<Migration>, m: Migration)
    ensures forall v :: HasVersion(InsertSorted(ms, m), v) <==> HasVersion(ms, v) || v == m.version
  {
    var out := InsertSorted(ms, m);
    forall v ensures HasVersion(out, v) <==> HasVersion(ms, v) || v == m.version {
      if HasVersion(out, v) {
        var i :| 0 <= i < |out| && out[i].version == v;
        InsertMembers(ms, m, out[i]);
      }
      if HasVersion(ms, v) {
        var i :| 0 <= i < |ms| && ms[i].version == v;
        InsertMembers(ms, m, ms[i]);
        var k :| 0 <= k < |out| && out[k] == ms[i];
      }
      InsertMembers(ms, m, m);
      var k :| 0 <= k < |out| && out[k] == m;
    }
  }
}
