/** internal/wireguard.Store: the device's private key on disk, with input and output failing at any
    step. What the platform checks about permissions is one bit of the file, `private`. */
module KeyStore {
  import opened Common
  import opened Keys

  const MAX_FILE := 128

  datatype KeyFile = KeyFile(contents: string, private: bool)

  /** Which steps of a call fail. `written` is how much a failing write leaves behind, `exposed`
      whether the file ends up readable by others in spite of being restricted. */
  datatype Faults = Faults(
    open: bool, read: bool, random: bool, directory: bool, create: bool, write: bool, written: nat,
    sync: bool, close: bool, restrict: bool, exposed: bool, check: bool, checkClose: bool, remove: bool)

  const NO_FAULTS :=
    Faults(false, false, false, false, false, false, 0, false, false, false, false, false, false, false)

  datatype StoreError = NoKey | KeyExists | Insecure | Unusable | IoError

  /** openKeyFile, reading and parsing, when nothing fails: the key a file holds, if it is usable. */
  function KeyIn(f: KeyFile): Option<Scalar> {
    if !f.private || |f.contents| > MAX_FILE then None
    else
      var parsed := ParsePrivateKey(TrimSpace(f.contents));
      if parsed.Ok? then Some(parsed.value) else None
  }

  function FileFor(key: Scalar): KeyFile {
    KeyFile(KeyFileText(key), true)
  }

  lemma SavedKeyIsReadable(key: Scalar)
    requires IsClamped(key)
    ensures KeyIn(FileFor(key)) == Some(key)
  {
    KeyFileRoundTrip(key);
    KeyFileLength(key);
  }

  // ----- the operations, on the file as it is -----

  datatype Outcome = Outcome(result: Result<Scalar, StoreError>, created: bool)

  function LoadStep(file: Option<KeyFile>, f: Faults): Result<Scalar, StoreError> {
    if f.open then Err(IoError)
    else if file.None? then Err(NoKey)
    else if !file.value.private then Err(Insecure)
    else if f.read then Err(IoError)
    else if |file.value.contents| > MAX_FILE then Err(Unusable)
    else
      var parsed := ParsePrivateKey(TrimSpace(file.value.contents));
      if parsed.Err? then Err(Unusable) else Ok(parsed.value)
  }

  /** What a failed save leaves of the file it was writing. */
  function Leavings(f: Faults, partial: KeyFile): Option<KeyFile> {
    if f.remove then Some(partial) else None
  }

  function SaveStep(file: Option<KeyFile>, key: Scalar, f: Faults): (Option<KeyFile>, Result<(), StoreError>) {
    var contents := KeyFileText(key);
    if f.directory then (file, Err(IoError))
    else if file.Some? then (file, Err(KeyExists))
    else if f.create then (file, Err(IoError))
    else if f.write then (Leavings(f, KeyFile(contents[..Min(f.written, |contents|)], true)), Err(IoError))
    else if f.sync || f.close || f.restrict then (Leavings(f, KeyFile(contents, true)), Err(IoError))
    else if f.check || f.exposed then (Leavings(f, KeyFile(contents, !f.exposed)), Err(Insecure))
    else if f.checkClose then (Some(KeyFile(contents, true)), Err(IoError))
    else (Some(KeyFile(contents, true)), Ok(()))
  }

  function CreateStep(file: Option<KeyFile>, random: Scalar, f: Faults): (Option<KeyFile>, Result<Scalar, StoreError>) {
    if f.random then (file, Err(IoError))
    else
      var (after, saved) := SaveStep(file, Clamped(random), f);
      (after, if saved.Ok? then Ok(Clamped(random)) else Err(saved.error))
  }

  function LoadOrCreateStep(file: Option<KeyFile>, random: Scalar, loading: Faults, creating: Faults)
    : (Option<KeyFile>, Outcome)
  {
    var loaded := LoadStep(file, loading);
    if loaded != Err(NoKey) then (file, Outcome(loaded, false))
    else
      var (after, r) := CreateStep(file, random, creating);
      (after, Outcome(r, r.Ok?))
  }

  datatype Call =
    | Load(faults: Faults)
    | Create(random: Scalar, faults: Faults)
    | LoadOrCreate(random: Scalar, loading: Faults, creating: Faults)

  /** One call, with the random bytes it draws and the faults it meets. */
  function Perform(file: Option<KeyFile>, call: Call): (Option<KeyFile>, Outcome) {
    match call
    case Load(f) => (file, Outcome(LoadStep(file, f), false))
    case Create(random, f) =>
      var (after, r) := CreateStep(file, random, f);
      (after, Outcome(r, r.Ok?))
    case LoadOrCreate(random, loading, creating) => LoadOrCreateStep(file, random, loading, creating)
  }

  // ----- what every call keeps, whatever fails -----

  /** An existing file stays as it is and a success returns the key in it; a success without one
      leaves behind the file for the key it returns. */
  predicate CallKeeps(before: Option<KeyFile>, after: Option<KeyFile>, o: Outcome) {
    && (before.Some? ==> after == before && !o.created)
    && (o.result.Ok? ==> after.Some? && KeyIn(after.value) == Some(o.result.value))
    && (o.result.Ok? ==> (o.created <==> before.None?))
    && (o.result.Err? ==> !o.created)
  }

  lemma LoadKeeps(file: Option<KeyFile>, f: Faults)
    ensures LoadStep(file, f).Ok? ==> file.Some? && KeyIn(file.value) == Some(LoadStep(file, f).value)
    ensures file.Some? && !f.open && !f.read ==> (LoadStep(file, f).Ok? <==> KeyIn(file.value).Some?)
    ensures LoadStep(file, f) == Err(NoKey) ==> file.None?
  {
  }

  lemma SaveKeeps(file: Option<KeyFile>, key: Scalar, f: Faults)
    ensures file.Some? ==> SaveStep(file, key, f).0 == file && SaveStep(file, key, f).1.Err?
    ensures SaveStep(file, key, f).1.Ok? ==> SaveStep(file, key, f).0 == Some(FileFor(key))
  {
  }

  /** Only the last close failed: everything before it worked. */
  predicate OnlyLastCloseFails(f: Faults) {
    && !f.directory && !f.create && !f.write && !f.sync && !f.close && !f.restrict && !f.exposed && !f.check
    && f.checkClose
  }

  /** A failed save leaves a file behind exactly when the file had been created and the removal failed too,
      or only the last close failed: no removal follows that, and the file is the complete key. */
  lemma FailedSaveLeaves(key: Scalar, f: Faults)
    requires SaveStep(None, key, f).1.Err?
    ensures SaveStep(None, key, f).0.Some? <==>
            (!f.directory && !f.create && f.remove) || OnlyLastCloseFails(f)
    ensures OnlyLastCloseFails(f) ==> SaveStep(None, key, f).0 == Some(FileFor(key))
  {
  }

  /** So a failed Create may have made a key all the same, which the next call then returns. */
  lemma FailedCreateIsFound(random: Scalar, f: Faults, later: Scalar)
    requires !f.random && OnlyLastCloseFails(f)
    ensures var (after, o) := Perform(None, Create(random, f));
            && o.result.Err?
            && Perform(after, LoadOrCreate(later, NO_FAULTS, NO_FAULTS)).1 == Outcome(Ok(Clamped(random)), false)
  {
    ClampIsAccepted(random);
    SavedKeyIsReadable(Clamped(random));
    LoadKeeps(Some(FileFor(Clamped(random))), NO_FAULTS);
  }

  lemma CreateKeeps(file: Option<KeyFile>, random: Scalar, f: Faults)
    ensures var (after, r) := CreateStep(file, random, f); CallKeeps(file, after, Outcome(r, r.Ok?))
  {
    SaveKeeps(file, Clamped(random), f);
    ClampIsAccepted(random);
    SavedKeyIsReadable(Clamped(random));
  }

  lemma PerformKeeps(file: Option<KeyFile>, call: Call)
    ensures CallKeeps(file, Perform(file, call).0, Perform(file, call).1)
  {
    match call
    case Load(f) => LoadKeeps(file, f);
    case Create(random, f) => CreateKeeps(file, random, f);
    case LoadOrCreate(random, loading, creating) =>
      LoadKeeps(file, loading);
      CreateKeeps(file, random, creating);
  }

  /** Without faults a call succeeds unless the file that is there is corrupt or insecure, or a key was to
      be created over one. */
  lemma PerformSucceeds(file: Option<KeyFile>, random: Scalar)
    ensures Perform(file, LoadOrCreate(random, NO_FAULTS, NO_FAULTS)).1.result.Ok?
            <==> file.None? || KeyIn(file.value).Some?
    ensures Perform(file, Create(random, NO_FAULTS)).1.result.Ok? <==> file.None?
    ensures Perform(file, Load(NO_FAULTS)).1.result.Ok? <==> file.Some? && KeyIn(file.value).Some?
  {
    LoadKeeps(file, NO_FAULTS);
  }

  // ----- the object -----

  class Store {
    var file: Option<KeyFile>

    constructor ()
      ensures file == None
    {
      file := None;
    }

    method Load(f: Faults) returns (r: Result<Scalar, StoreError>)
      ensures r == LoadStep(file, f)
      ensures file.Some? && file.value.private && !f.open && !f.read && |file.value.contents| > 128 ==>
                r == Err(Unusable)
      ensures CallKeeps(file, file, Outcome(r, false))
      ensures file.Some? && !f.open && !f.read ==> (r.Ok? <==> KeyIn(file.value).Some?)
      ensures r.Ok? ==> file.Some? && KeyIn(file.value) == Some(r.value)
      ensures r == Err(NoKey) <==> file.None? && !f.open
      ensures r == Err(Insecure) <==> file.Some? && !f.open && !file.value.private
    {
      if f.open {
        return Err(IoError);
      }
      if file.None? {
        return Err(NoKey);
      }
      if !file.value.private {
        return Err(Insecure);
      }
      if f.read {
        return Err(IoError);
      }
      if |file.value.contents| > MAX_FILE {
        return Err(Unusable);
      }
      var parsed := ParsePrivateKey(TrimSpace(file.value.contents));
      if parsed.Err? {
        return Err(Unusable);
      }
      return Ok(parsed.value);
    }

    /** os.Remove, whose error is dropped. */
    method TryRemove(f: Faults)
      modifies this
      ensures file == if f.remove then old(file) else None
    {
      if !f.remove {
        file := None;
      }
    }

    /** save: create exclusively, write, sync, close, restrict, check; clean up its own leavings. */
    method Save(key: Scalar, f: Faults) returns (r: Result<(), StoreError>)
      requires IsClamped(key)
      modifies this
      ensures (file, r) == SaveStep(old(file), key, f)
      ensures old(file).Some? ==> file == old(file) && r.Err?
      ensures old(file).Some? && !f.directory ==> r == Err(KeyExists)
      ensures r.Ok? ==> file == Some(FileFor(key))
      ensures old(file).None? && f == NO_FAULTS ==> r.Ok?
      ensures old(file).None? && r.Err? && !f.remove && !f.checkClose ==> file.None?
      ensures file.Some? && old(file).None? ==> file.value.contents <= KeyFileText(key)
    {
      if f.directory {
        return Err(IoError);
      }
      var contents := KeyFileText(key);
      if file.Some? {
        return Err(KeyExists);
      }
      if f.create {
        return Err(IoError);
      }
      file := Some(KeyFile("", true));
      if f.write {
        file := Some(KeyFile(contents[..Min(f.written, |contents|)], true));
        TryRemove(f);
        return Err(IoError);
      }
      file := Some(KeyFile(contents, true));
      if f.sync || f.close {
        TryRemove(f);
        return Err(IoError);
      }
      if f.restrict {
        TryRemove(f);
        return Err(IoError);
      }
      file := Some(KeyFile(contents, !f.exposed));
      if f.check || !file.value.private {
        TryRemove(f);
        return Err(Insecure);
      }
      if f.checkClose {
        return Err(IoError);
      }
      return Ok(());
    }

    /** Create: a fresh key, clamped and saved. */
    method Create(random: Scalar, f: Faults) returns (r: Result<Scalar, StoreError>)
      modifies this
      ensures (file, r) == CreateStep(old(file), random, f)
      ensures CallKeeps(old(file), file, Outcome(r, r.Ok?))
      ensures r.Ok? ==> r.value == Clamped(random) && file == Some(FileFor(r.value))
      ensures old(file).None? && f == NO_FAULTS ==> r.Ok?
      ensures old(file).Some? && !f.random && !f.directory ==> r == Err(KeyExists)
    {
      CreateKeeps(file, random, f);
      if f.random {
        return Err(IoError);
      }
      var scalar := new bv8[KEY_LENGTH](i requires 0 <= i < KEY_LENGTH => random[i]);
      assert scalar[..] == random;
      Clamp(scalar);
      var key: Scalar := scalar[..];
      var saved := Save(key, f);
      if saved.Err? {
        return Err(saved.error);
      }
      return Ok(key);
    }

    /** LoadOrCreate: a corrupt or insecure file is an error, never a reason to replace it. */
    method LoadOrCreate(random: Scalar, loading: Faults, creating: Faults) returns (o: Outcome)
      modifies this
      ensures (file, o) == LoadOrCreateStep(old(file), random, loading, creating)
      ensures CallKeeps(old(file), file, o)
      ensures old(file).Some? && KeyIn(old(file).value).None? ==> o.result.Err? && file == old(file)
      ensures old(file).None? && loading == creating == NO_FAULTS ==> o.result.Ok? && o.created
    {
      var loaded := Load(loading);
      if loaded.Ok? {
        return Outcome(loaded, false);
      }
      if loaded.error != NoKey {
        return Outcome(loaded, false);
      }
      var r := Create(random, creating);
      return Outcome(r, r.Ok?);
    }
  }

  // ----- whole runs -----

  /** files[i] is what is on disk before call i, and outcomes[i] what it returned. A run starts from any
      file at all, and any step of any call may fail. */
  ghost predicate IsRun(files: seq<Option<KeyFile>>, calls: seq<Call>, outcomes: seq<Outcome>) {
    && |files| == |calls| + 1 && |outcomes| == |calls|
    && forall i :: 0 <= i < |calls| ==> (files[i + 1], outcomes[i]) == Perform(files[i], calls[i])
  }

  /** What the calls of a run have kept, without the calls. */
  ghost predicate Kept(files: seq<Option<KeyFile>>, outcomes: seq<Outcome>) {
    && |files| == |outcomes| + 1
    && forall i :: 0 <= i < |outcomes| ==> CallKeeps(files[i], files[i + 1], outcomes[i])
  }

  lemma RunKeeps(files: seq<Option<KeyFile>>, calls: seq<Call>, outcomes: seq<Outcome>)
    requires IsRun(files, calls, outcomes)
    ensures Kept(files, outcomes)
  {
    forall i | 0 <= i < |outcomes| ensures CallKeeps(files[i], files[i + 1], outcomes[i]) {
      PerformKeeps(files[i], calls[i]);
    }
  }

  lemma {:induction false} KeptFileStays(files: seq<Option<KeyFile>>, outcomes: seq<Outcome>, i: nat, j: nat)
    requires Kept(files, outcomes) && i <= j < |files| && files[i].Some?
    ensures files[j] == files[i]
    decreases j - i
  {
    if i < j {
      KeptFileStays(files, outcomes, i, j - 1);
    }
  }

  lemma KeptKey(files: seq<Option<KeyFile>>, outcomes: seq<Outcome>, i: nat, j: nat)
    requires Kept(files, outcomes) && i < j < |outcomes|
    requires outcomes[i].result.Ok? && outcomes[j].result.Ok?
    ensures outcomes[i].result.value == outcomes[j].result.value && !outcomes[j].created
  {
    KeptFileStays(files, outcomes, i + 1, j);
    KeptFileStays(files, outcomes, i + 1, j + 1);
  }

  /** Whatever is called and whatever fails, a file that is there is never altered or removed. */
  lemma FileStays(files: seq<Option<KeyFile>>, calls: seq<Call>, outcomes: seq<Outcome>, i: nat, j: nat)
    requires IsRun(files, calls, outcomes) && i <= j < |files| && files[i].Some?
    ensures files[j] == files[i]
  {
    RunKeeps(files, calls, outcomes);
    KeptFileStays(files, outcomes, i, j);
  }

  /** Over every sequence of calls, whatever fails: all that succeed return one key, and at most one
      of them says it created it. */
  lemma OneKeyPerMachine(files: seq<Option<KeyFile>>, calls: seq<Call>, outcomes: seq<Outcome>, i: nat, j: nat)
    requires IsRun(files, calls, outcomes) && i < j < |outcomes|
    requires outcomes[i].result.Ok? && outcomes[j].result.Ok?
    ensures outcomes[i].result.value == outcomes[j].result.value
    ensures !outcomes[j].created
  {
    RunKeeps(files, calls, outcomes);
    KeptKey(files, outcomes, i, j);
  }
}
