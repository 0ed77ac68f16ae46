/**
 * DeleteObsoleteFiles on the directory of a database: what it leaves is a
 * deletion step of the machine, so that every log recovery will replay, every
 * table a version holds and the current manifest are still there (db_impl.cc).
 */
module DirectoryGc {
  import opened InternalKeys
  import opened Versions
  import opened TreeSteps
  import opened Database
  import FileGc

  type Names = seq<FileGc.FileName>

  ghost predicate HasLog(names: Names, n: nat) {
    FileGc.Parsed(FileGc.LogFile, n) in names
  }

  ghost predicate HasTable(names: Names, n: nat) {
    FileGc.Parsed(FileGc.TableFile, n) in names
  }

  ghost predicate HasManifest(names: Names, n: nat) {
    FileGc.Parsed(FileGc.DescriptorFile, n) in names
  }

  ghost predicate HasTemp(names: Names, n: nat) {
    FileGc.Parsed(FileGc.TempFile, n) in names
  }

  /** CURRENT, the lock, the info logs, and files that are none of the database's. */
  predicate Untouched(name: FileGc.FileName) {
    name.Foreign? || name.kind.CurrentFile? || name.kind.DBLockFile? || name.kind.InfoLogFile?
  }

  /** The directory holds the state's logs and tables under their names. */
  ghost predicate Lists(names: Names, s: State) {
    && (forall n: nat :: HasLog(names, n) <==> n in s.logs)
    && (forall n: nat :: HasTable(names, n) <==> n in s.disk)
  }

  /** The reference-counted versions of a state: its current version is one of them. */
  ghost predicate Tracks(gc: FileGc.State, s: State) {
    && !gc.failed && gc.disk == s.disk.Keys && gc.current in gc.versions
    && forall m: nat, h :: Placed(s.version, m, h) ==> h.number in gc.versions[gc.current]
  }

  lemma ListedTables(names: Names, s: State)
    requires Lists(names, s)
    ensures FileGc.TablesIn(names) == s.disk.Keys
  {
    forall n: nat ensures n in FileGc.TablesIn(names) <==> n in s.disk {
      assert HasTable(names, n) <==> n in s.disk;
    }
  }

  ghost function LiveNumbers(gc: FileGc.State, s: State): set<nat> {
    set n | n in s.disk && FileGc.LiveFile(gc, n) :: n
  }

  /** The state once the files are gone. */
  ghost function Collected(gc: FileGc.State, s: State): State {
    s.(disk := map n | n in s.disk && n in LiveNumbers(gc, s) :: s.disk[n],
       logs := map n | n in s.logs && n >= s.logNumber :: s.logs[n])
  }

  lemma CollectedIsStep(gc: FileGc.State, s: State)
    requires Sound(s) && Tracks(gc, s)
    ensures DeleteStep(s, LiveNumbers(gc, s), Collected(gc, s)) && Sound(Collected(gc, s))
    ensures Commits(Collected(gc, s)) == Commits(s) && Unflushed(Collected(gc, s)) == Unflushed(s)
  {
    forall m: nat, h | Placed(s.version, m, h) ensures h.number in LiveNumbers(gc, s) {
      assert Stored(s.disk, h);
      assert FileGc.LiveFile(gc, h.number);
    }
    DeleteKeepsSound(s, LiveNumbers(gc, s), Collected(gc, s));
  }

  /**
   * The directory afterwards lists a state one deletion step further. No log
   * from LogNumber() on is missing, nor a table of the current version, nor the
   * current manifest; logs and manifests before them are gone.
   */
  method DeleteObsoleteFiles(gc: FileGc.State, s: State, names: Names, manifestNumber: nat) returns (kept: Names)
    requires Sound(s) && Tracks(gc, s) && Lists(names, s)
    ensures exists live, s' ::
      DeleteStep(s, live, s') && Sound(s') && Unflushed(s') == Unflushed(s) && Commits(s') == Commits(s) && Lists(kept, s')
    ensures forall n: nat :: HasLog(kept, n) <==> n in s.logs && n >= s.logNumber
    ensures forall m: nat, h :: Placed(s.version, m, h) ==> HasTable(kept, h.number)
    ensures forall n: nat :: HasManifest(kept, n) <==> HasManifest(names, n) && n >= manifestNumber
    ensures forall name :: name in kept ==> name in names
    ensures forall name :: name in names && Untouched(name) ==> name in kept
    ensures forall n: nat :: HasTable(kept, n) <==> n in s.disk && FileGc.LiveFile(gc, n)
    ensures forall n: nat :: HasTemp(kept, n) <==> HasTemp(names, n) && FileGc.LiveFile(gc, n)
  {
    ListedTables(names, s);
    CollectedIsStep(gc, s);
    kept := FileGc.DeleteObsoleteFiles(gc, names, s.logNumber, 0, manifestNumber);
    var s' := Collected(gc, s);
    KeptLists(gc, s, names, kept, manifestNumber);
    assert DeleteStep(s, LiveNumbers(gc, s), s') && Lists(kept, s');
  }

  ghost predicate KeptOnly(gc: FileGc.State, s: State, names: Names, kept: Names, manifestNumber: nat) {
    forall name :: name in kept <==> name in names && FileGc.Kept(gc, name, s.logNumber, 0, manifestNumber)
  }

  lemma KeptLists(gc: FileGc.State, s: State, names: Names, kept: Names, manifestNumber: nat)
    requires CountersOk(s) && Lists(names, s) && KeptOnly(gc, s, names, kept, manifestNumber)
    ensures Lists(kept, Collected(gc, s))
    ensures forall n: nat :: HasLog(kept, n) <==> n in s.logs && n >= s.logNumber
    ensures forall n: nat :: HasTable(kept, n) <==> n in LiveNumbers(gc, s)
    ensures forall n: nat :: HasManifest(kept, n) <==> HasManifest(names, n) && n >= manifestNumber
  {
    forall n: nat ensures HasLog(kept, n) <==> n in s.logs && n >= s.logNumber {
      assert HasLog(names, n) <==> n in s.logs;
    }
    forall n: nat ensures HasTable(kept, n) <==> n in LiveNumbers(gc, s) {
      assert HasTable(names, n) <==> n in s.disk;
    }
  }
}
