/**
 * Garbage collection of table files: reference-counted versions,
 * `pending_outputs_`, the one background worker, and `DeleteObsoleteFiles`.
 * The steps are the stretches between two points where the mutex is released.
 */
module FileGc {
  import opened InternalKeys

  /** WriteLevel0Table and CompactMemTable under way. */
  datatype FlushStage = Building | Built(added: bool) | Installed
  datatype Flush = Flush(number: nat, base: nat, stage: FlushStage)

  /** DoCompactionWork under way; `input` is the version the compaction holds. */
  datatype Work = Work(outputs: set<nat>, input: nat, installed: bool)

  /** `versions` and `refs` are the linked list of versions; `readers` holds one entry for each Get or iterator. */
  datatype State = State(
    disk: set<nat>, versions: map<nat, set<nat>>, refs: map<nat, nat>, current: nat,
    pending: set<nat>, scheduled: bool, flush: Option<Flush>, work: Option<Work>, readers: multiset<nat>,
    nextFile: nat, nextVersion: nat, failed: bool)

  // ----- reference counts -----

  function Ref(s: State, id: nat): State
    requires id in s.refs
  {
    s.(refs := s.refs[id := s.refs[id] + 1])
  }

  /** The last reference takes the version out of the list. */
  function Unref(s: State, id: nat): State
    requires id in s.refs && s.refs[id] > 0
  {
    if s.refs[id] == 1 then s.(refs := s.refs - {id}, versions := s.versions - {id})
    else s.(refs := s.refs[id := s.refs[id] - 1])
  }

  /** AppendVersion: the new version becomes current, the old one loses that reference. */
  function AppendVersion(s: State, files: set<nat>): State
    requires s.current in s.refs && s.refs[s.current] > 0
  {
    var t := Unref(s, s.current);
    t.(versions := t.versions[s.nextVersion := files], refs := t.refs[s.nextVersion := 1],
       current := s.nextVersion, nextVersion := s.nextVersion + 1)
  }

  // ----- DeleteObsoleteFiles -----

  ghost predicate LiveFile(s: State, n: nat) {
    n in s.pending || exists id <- s.versions :: n in s.versions[id]
  }

  /** AddLiveFiles: pending outputs and every file of every version in the list. */
  method AddLiveFiles(s: State) returns (live: set<nat>)
    ensures forall n :: n in live <==> LiveFile(s, n)
  {
    live := s.pending;
    var todo := s.versions.Keys;
    while todo != {}
      invariant todo <= s.versions.Keys
      invariant forall n :: n in live <==> n in s.pending || exists id <- s.versions :: id !in todo && n in s.versions[id]
      decreases todo
    {
      var id :| id in todo;
      live := live + s.versions[id];
      todo := todo - {id};
    }
  }

  ghost predicate Collected(s: State, s': State) {
    if s.failed then s' == s
    else s' == s.(disk := s'.disk) && forall n :: n in s'.disk <==> n in s.disk && LiveFile(s, n)
  }

  datatype FileType = LogFile | DBLockFile | TableFile | DescriptorFile | CurrentFile | TempFile | InfoLogFile

  /** A name in the directory: what ParseFileName makes of it, or foreign. */
  datatype FileName = Parsed(kind: FileType, number: nat) | Foreign(name: string)

  /** The numbers of the table files among the names. */
  ghost function TablesIn(names: seq<FileName>): set<nat> {
    set name | name in names && name.Parsed? && name.kind.TableFile? :: name.number
  }

  /** What each kind of file is kept for. */
  ghost predicate Kept(s: State, name: FileName, logNumber: nat, prevLogNumber: nat, manifestNumber: nat) {
    name.Parsed? ==>
      match name.kind
      case LogFile => name.number >= logNumber || name.number == prevLogNumber
      case DescriptorFile => name.number >= manifestNumber
      case TableFile => LiveFile(s, name.number)
      case TempFile => LiveFile(s, name.number)
      case _ => true
  }

  /** The directory afterwards. After a background error nothing is deleted. */
  method DeleteObsoleteFiles(s: State, names: seq<FileName>, logNumber: nat, prevLogNumber: nat, manifestNumber: nat)
    returns (kept: seq<FileName>)
    requires TablesIn(names) == s.disk
    ensures s.failed ==> kept == names
    ensures !s.failed ==>
      forall name :: name in kept <==> name in names && Kept(s, name, logNumber, prevLogNumber, manifestNumber)
    ensures Collected(s, s.(disk := TablesIn(kept)))
  {
    if s.failed {
      return names;
    }
    var live := AddLiveFiles(s);
    kept := [];
    for i := 0 to |names|
      invariant forall name :: name in kept <==> name in names[..i] && Kept(s, name, logNumber, prevLogNumber, manifestNumber)
    {
      var keep := true;
      var name := names[i];
      if name.Parsed? {
        match name.kind {
          case LogFile => keep := name.number >= logNumber || name.number == prevLogNumber;
          case DescriptorFile => keep := name.number >= manifestNumber;
          case TableFile => keep := name.number in live;
          case TempFile => keep := name.number in live;
          case _ =>
        }
      }
      if keep {
        kept := kept + [name];
      }
    }
    assert names[..|names|] == names;
    TablesKept(s, names, kept, logNumber, prevLogNumber, manifestNumber);
  }

  /** Of the tables, exactly the live ones remain. */
  lemma TablesKept(s: State, names: seq<FileName>, kept: seq<FileName>, logNumber: nat, prevLogNumber: nat, manifestNumber: nat)
    requires forall name :: name in kept <==> name in names && Kept(s, name, logNumber, prevLogNumber, manifestNumber)
    ensures forall n :: n in TablesIn(kept) <==> n in TablesIn(names) && LiveFile(s, n)
  {
    forall n | n in TablesIn(names) && LiveFile(s, n) ensures n in TablesIn(kept) {
      assert Parsed(TableFile, n) in names && Kept(s, Parsed(TableFile, n), logNumber, prevLogNumber, manifestNumber);
    }
  }

  // ----- the steps -----

  ghost predicate Init(s: State) {
    && s.current in s.versions && s.versions.Keys == {s.current} && s.refs == map[s.current := 1]
    && s.versions[s.current] <= s.disk && s.pending == {} && !s.scheduled && s.flush.None? && s.work.None?
    && s.readers == multiset{} && s.current < s.nextVersion && forall n <- s.disk :: n < s.nextFile
  }

  /** MaybeScheduleCompaction: one background call at a time. */
  ghost predicate Schedule(s: State, s': State) {
    !s.scheduled && s' == s.(scheduled := true)
  }

  ghost predicate Unschedule(s: State, s': State) {
    s.scheduled && s.flush.None? && s.work.None? && s' == s.(scheduled := false)
  }

  ghost predicate Read(s: State, s': State) {
    s.current in s.refs && s' == Ref(s, s.current).(readers := s.readers + multiset{s.current})
  }

  ghost predicate EndRead(s: State, id: nat, s': State) {
    id in s.readers && id in s.refs && s.refs[id] > 0 && s' == Unref(s, id).(readers := s.readers - multiset{id})
  }

  /** Only the worker flushes: by itself, or between two entries of a running compaction. */
  ghost predicate FlushBegins(s: State, s': State) {
    && s.scheduled && s.flush.None? && (s.work.Some? ==> !s.work.value.installed) && s.current in s.refs
    && s' == Ref(s, s.current).(pending := s.pending + {s.nextFile}, nextFile := s.nextFile + 1,
                                disk := s.disk + {s.nextFile}, flush := Some(Flush(s.nextFile, s.current, Building)))
  }

  /** The table is complete, or was empty and is removed; it leaves pending_outputs_ before it is in any version. */
  ghost predicate FlushBuilt(s: State, added: bool, s': State) {
    && s.flush.Some? && s.flush.value.stage.Building?
    && var f := s.flush.value;
       && f.base in s.refs && s.refs[f.base] > 0
       && s' == Unref(s, f.base).(pending := s.pending - {f.number}, disk := if added then s.disk else s.disk - {f.number},
                                  flush := Some(f.(stage := Built(added))))
  }

  ghost predicate FlushInstalls(s: State, s': State) {
    && s.flush.Some? && s.flush.value.stage.Built? && s.current in s.versions && s.current in s.refs && s.refs[s.current] > 0
    && var f := s.flush.value;
       s' == AppendVersion(s, if f.stage.added then s.versions[s.current] + {f.number} else s.versions[s.current])
             .(flush := Some(f.(stage := Installed)))
  }

  ghost predicate FlushCollects(s: State, s': State) {
    s.flush.Some? && s.flush.value.stage.Installed? && Collected(s.(flush := None), s')
  }

  ghost predicate FlushFails(s: State, s': State) {
    s.flush.Some? && s.flush.value.stage.Built? && s' == s.(flush := None, failed := true)
  }

  ghost predicate WorkBegins(s: State, s': State) {
    && s.scheduled && s.flush.None? && s.work.None? && s.current in s.refs
    && s' == Ref(s, s.current).(work := Some(Work({}, s.current, false)))
  }

  ghost predicate OutputOpens(s: State, s': State) {
    && s.flush.None? && s.work.Some? && !s.work.value.installed
    && s' == s.(pending := s.pending + {s.nextFile}, disk := s.disk + {s.nextFile}, nextFile := s.nextFile + 1,
                work := Some(s.work.value.(outputs := s.work.value.outputs + {s.nextFile})))
  }

  ghost predicate WorkInstalls(s: State, inputs: set<nat>, s': State) {
    && s.flush.None? && s.work.Some? && !s.work.value.installed && s.current in s.versions
    && s.current in s.refs && s.refs[s.current] > 0
    && s' == AppendVersion(s, s.versions[s.current] - inputs + s.work.value.outputs)
             .(work := Some(s.work.value.(installed := true)))
  }

  ghost predicate WorkFails(s: State, s': State) {
    && s.flush.None? && s.work.Some? && !s.work.value.installed
    && s' == s.(failed := true, work := Some(s.work.value.(installed := true)))
  }

  /** CleanupCompaction, ReleaseInputs, then DeleteObsoleteFiles, all under the mutex. */
  ghost predicate WorkEnds(s: State, s': State) {
    && s.flush.None? && s.work.Some? && s.work.value.installed
    && var w := s.work.value;
       && w.input in s.refs && s.refs[w.input] > 0
       && Collected(Unref(s, w.input).(pending := s.pending - w.outputs, work := None), s')
  }

  /** A trivial move installs a version of the same files. */
  ghost predicate Moves(s: State, s': State) {
    && s.scheduled && s.flush.None? && s.work.None? && s.current in s.versions && s.current in s.refs && s.refs[s.current] > 0
    && s' == AppendVersion(s, s.versions[s.current])
  }

  ghost predicate Next(s: State, s': State) {
    || Schedule(s, s') || Unschedule(s, s') || Read(s, s') || (exists id :: EndRead(s, id, s'))
    || FlushBegins(s, s') || (exists added :: FlushBuilt(s, added, s')) || FlushInstalls(s, s') || FlushCollects(s, s')
    || FlushFails(s, s') || WorkBegins(s, s') || OutputOpens(s, s') || (exists inputs :: WorkInstalls(s, inputs, s'))
    || WorkFails(s, s') || WorkEnds(s, s') || Moves(s, s')
  }

  ghost predicate Run(states: seq<State>) {
    states != [] && Init(states[0]) && forall i :: 0 <= i < |states| - 1 ==> Next(states[i], states[i + 1])
  }

  // ----- the invariant -----

  /** How many references to a version there should be. */
  function Holders(s: State, id: nat): nat {
    (if id == s.current then 1 else 0) + s.readers[id]
    + (if s.flush.Some? && s.flush.value.stage.Building? && s.flush.value.base == id then 1 else 0)
    + (if s.work.Some? && s.work.value.input == id then 1 else 0)
  }

  ghost predicate RefsOk(s: State) {
    && s.versions.Keys == s.refs.Keys && (forall id <- s.versions :: id < s.nextVersion)
    && forall id: nat :: (if id in s.refs then s.refs[id] > 0 && s.refs[id] == Holders(s, id) else Holders(s, id) == 0)
  }

  /** Files that must be on disk: those of every listed version, and those the worker is writing or about to install. */
  ghost predicate Needed(s: State, n: nat) {
    || (exists id <- s.versions :: n in s.versions[id])
    || (s.flush.Some? && s.flush.value.number == n && s.flush.value.stage != Built(false) && s.flush.value.stage != Installed)
    || (s.work.Some? && !s.work.value.installed && n in s.work.value.outputs)
  }

  ghost predicate FilesOk(s: State) {
    forall n: nat :: Needed(s, n) ==> n in s.disk
  }

  ghost predicate PendingOk(s: State) {
    && (s.flush.Some? || s.work.Some? ==> s.scheduled)
    && (s.flush.Some? && s.flush.value.stage.Building? ==> s.flush.value.number in s.pending)
    && (s.flush.Some? && !s.flush.value.stage.Building? ==> s.flush.value.number !in s.pending)
    && (s.work.Some? ==> s.work.value.outputs <= s.pending)
    && (s.flush.Some? ==> s.flush.value.number < s.nextFile)
    && (s.flush.Some? && s.work.Some? ==> !s.work.value.installed && s.flush.value.number !in s.work.value.outputs)
    && (forall n <- s.pending :: n < s.nextFile)
    && (forall id <- s.versions, n <- s.versions[id] :: n < s.nextFile)
    && (s.flush.Some? && !s.flush.value.stage.Installed? ==> forall id <- s.versions :: s.flush.value.number !in s.versions[id])
  }

  ghost predicate Inv(s: State) {
    RefsOk(s) && FilesOk(s) && PendingOk(s)
  }

  // ----- every step keeps it -----

  lemma RefStep(s: State, t: State, id: nat)
    requires RefsOk(s) && id in s.refs && t.refs == Ref(s, id).refs && t.versions == s.versions && t.nextVersion == s.nextVersion
    requires forall x: nat :: Holders(t, x) == Holders(s, x) + if x == id then 1 else 0
    ensures RefsOk(t)
  {
  }

  lemma UnrefStep(s: State, t: State, id: nat)
    requires RefsOk(s) && id in s.refs && t.nextVersion == s.nextVersion
    requires t.refs == Unref(s, id).refs && t.versions == Unref(s, id).versions
    requires forall x: nat :: Holders(t, x) == Holders(s, x) - if x == id then 1 else 0
    ensures RefsOk(t)
    ensures forall x <- t.versions :: x in s.versions && t.versions[x] == s.versions[x]
  {
  }

  lemma AppendStep(s: State, t: State, files: set<nat>)
    requires RefsOk(s) && s.current in s.refs && s.refs[s.current] > 0
    requires var u := AppendVersion(s, files);
      t.refs == u.refs && t.versions == u.versions && t.current == u.current && t.nextVersion == u.nextVersion
    requires forall x: nat ::
      Holders(t, x) == Holders(s, x) - (if x == s.current then 1 else 0) + (if x == s.nextVersion then 1 else 0)
    ensures RefsOk(t)
    ensures forall x <- t.versions :: if x == s.nextVersion then t.versions[x] == files else x in s.versions && t.versions[x] == s.versions[x]
  {
    assert s.nextVersion !in s.refs && Holders(s, s.nextVersion) == 0;
    var u := Unref(s, s.current);
    assert forall x <- u.versions :: x in s.versions && u.versions[x] == s.versions[x];
  }

  lemma ScheduleKeepsInv(s: State, s': State)
    requires Inv(s) && (Schedule(s, s') || Unschedule(s, s'))
    ensures Inv(s')
  {
    assert forall x: nat :: Holders(s', x) == Holders(s, x);
    assert forall n: nat :: Needed(s', n) ==> Needed(s, n);
  }

  lemma ReadKeepsInv(s: State, s': State)
    requires Inv(s) && Read(s, s')
    ensures Inv(s')
  {
    RefStep(s, s', s.current);
    assert forall n: nat :: Needed(s', n) ==> Needed(s, n);
  }

  lemma EndReadKeepsInv(s: State, id: nat, s': State)
    requires Inv(s) && EndRead(s, id, s')
    ensures Inv(s')
  {
    assert s'.readers[id] == s.readers[id] - 1;
    UnrefStep(s, s', id);
    NeededLess(s, s');
    PendingLess(s, s');
  }

  lemma PendingLess(s: State, s': State)
    requires PendingOk(s) && s'.pending == s.pending && s'.scheduled == s.scheduled
    requires s'.flush == s.flush && s'.work == s.work && s'.nextFile == s.nextFile
    requires forall x <- s'.versions :: x in s.versions && s'.versions[x] == s.versions[x]
    ensures PendingOk(s')
  {
  }

  /** Fewer versions need fewer files. */
  lemma NeededLess(s: State, s': State)
    requires FilesOk(s) && s'.disk == s.disk && s'.flush == s.flush && s'.work == s.work
    requires forall x <- s'.versions :: x in s.versions && s'.versions[x] == s.versions[x]
    ensures FilesOk(s')
  {
    forall n: nat | Needed(s', n) ensures n in s.disk {
      assert Needed(s, n);
    }
  }

  lemma FlushBeginsKeepsInv(s: State, s': State)
    requires Inv(s) && FlushBegins(s, s')
    ensures Inv(s')
  {
    RefStep(s, s', s.current);
    forall n: nat | Needed(s', n) ensures n in s'.disk {
      assert n == s.nextFile || Needed(s, n);
    }
  }

  lemma FlushBuiltKeepsInv(s: State, added: bool, s': State)
    requires Inv(s) && FlushBuilt(s, added, s')
    ensures Inv(s')
  {
    UnrefStep(s, s', s.flush.value.base);
    forall n: nat | Needed(s', n) ensures n in s'.disk {
      assert Needed(s, n);
    }
  }

  lemma FlushInstallsVersions(s: State, s': State, files: set<nat>)
    requires RefsOk(s) && FlushInstalls(s, s')
    requires files == if s.flush.value.stage.added then s.versions[s.current] + {s.flush.value.number} else s.versions[s.current]
    ensures RefsOk(s')
    ensures forall x <- s'.versions :: if x == s.nextVersion then s'.versions[x] == files else x in s.versions && s'.versions[x] == s.versions[x]
  {
    AppendStep(s, s', files);
  }

  lemma FlushInstallsKeepsInv(s: State, s': State)
    requires Inv(s) && FlushInstalls(s, s')
    ensures Inv(s')
  {
    var f := s.flush.value;
    FlushInstallsVersions(s, s', if f.stage.added then s.versions[s.current] + {f.number} else s.versions[s.current]);
    forall n: nat | Needed(s', n) ensures n in s'.disk {
      assert Needed(s, n);
    }
  }

  lemma WorkBeginsKeepsInv(s: State, s': State)
    requires Inv(s) && WorkBegins(s, s')
    ensures Inv(s')
  {
    RefStep(s, s', s.current);
    assert forall n: nat :: Needed(s', n) ==> Needed(s, n);
  }

  lemma OutputOpensKeepsInv(s: State, s': State)
    requires Inv(s) && OutputOpens(s, s')
    ensures Inv(s')
  {
    assert forall x: nat :: Holders(s', x) == Holders(s, x);
    forall n: nat | Needed(s', n) ensures n in s'.disk {
      assert n == s.nextFile || Needed(s, n);
    }
  }

  lemma WorkInstallsKeepsInv(s: State, inputs: set<nat>, s': State)
    requires Inv(s) && WorkInstalls(s, inputs, s')
    ensures Inv(s')
  {
    AppendStep(s, s', s.versions[s.current] - inputs + s.work.value.outputs);
    forall n: nat | Needed(s', n) ensures n in s'.disk {
      assert Needed(s, n);
    }
  }

  lemma FailureKeepsInv(s: State, s': State)
    requires Inv(s) && (WorkFails(s, s') || FlushFails(s, s'))
    ensures Inv(s')
  {
    assert forall x: nat :: Holders(s', x) == Holders(s, x);
    assert forall n: nat :: Needed(s', n) ==> Needed(s, n);
  }

  lemma MovesKeepsInv(s: State, s': State)
    requires Inv(s) && Moves(s, s')
    ensures Inv(s')
  {
    AppendStep(s, s', s.versions[s.current]);
    forall n: nat | Needed(s', n) ensures n in s'.disk {
      assert Needed(s, n);
    }
  }

  /** Collecting is safe whenever the worker has no table that is built and not yet installed. */
  lemma CollectKeepsInv(s: State, s': State)
    requires Inv(s) && Collected(s, s') && (s.flush.None? || s.flush.value.stage.Building?)
    ensures Inv(s')
  {
    if !s.failed {
      assert forall x: nat :: Holders(s', x) == Holders(s, x);
      forall n: nat | Needed(s', n) ensures n in s'.disk {
        assert Needed(s, n) && LiveFile(s, n);
      }
    }
  }

  lemma FlushCollectsKeepsInv(s: State, s': State)
    requires Inv(s) && FlushCollects(s, s')
    ensures Inv(s')
  {
    var t := s.(flush := None);
    assert forall x: nat :: Holders(t, x) == Holders(s, x);
    assert forall n: nat :: Needed(t, n) ==> Needed(s, n);
    CollectKeepsInv(t, s');
  }

  lemma WorkEndsKeepsInv(s: State, s': State)
    requires Inv(s) && WorkEnds(s, s')
    ensures Inv(s')
  {
    var w := s.work.value;
    var t := Unref(s, w.input).(pending := s.pending - w.outputs, work := None);
    UnrefStep(s, t, w.input);
    assert forall n: nat :: Needed(t, n) ==> Needed(s, n);
    CollectKeepsInv(t, s');
  }

  lemma InitInv(s: State)
    requires Init(s)
    ensures Inv(s)
  {
  }

  lemma WorkerStepKeepsInv(s: State, s': State)
    requires Inv(s)
    requires FlushBegins(s, s') || FlushInstalls(s, s') || FlushCollects(s, s') || FlushFails(s, s') || WorkBegins(s, s')
      || OutputOpens(s, s') || WorkFails(s, s') || WorkEnds(s, s') || Moves(s, s')
    ensures Inv(s')
  {
    if FlushBegins(s, s') {
      FlushBeginsKeepsInv(s, s');
    } else if FlushInstalls(s, s') {
      FlushInstallsKeepsInv(s, s');
    } else if FlushCollects(s, s') {
      FlushCollectsKeepsInv(s, s');
    } else if WorkBegins(s, s') {
      WorkBeginsKeepsInv(s, s');
    } else if OutputOpens(s, s') {
      OutputOpensKeepsInv(s, s');
    } else if WorkEnds(s, s') {
      WorkEndsKeepsInv(s, s');
    } else if Moves(s, s') {
      MovesKeepsInv(s, s');
    } else {
      FailureKeepsInv(s, s');
    }
  }

  lemma NextKeepsInv(s: State, s': State)
    requires Inv(s) && Next(s, s')
    ensures Inv(s')
  {
    if Schedule(s, s') || Unschedule(s, s') {
      ScheduleKeepsInv(s, s');
    } else if Read(s, s') {
      ReadKeepsInv(s, s');
    } else if id :| EndRead(s, id, s') {
      EndReadKeepsInv(s, id, s');
    } else if added :| FlushBuilt(s, added, s') {
      FlushBuiltKeepsInv(s, added, s');
    } else if inputs :| WorkInstalls(s, inputs, s') {
      WorkInstallsKeepsInv(s, inputs, s');
    } else {
      WorkerStepKeepsInv(s, s');
    }
  }

  lemma {:induction false} RunKeepsInv(states: seq<State>, i: nat)
    requires Run(states) && i < |states|
    ensures Inv(states[i])
  {
    if i == 0 {
      InitInv(states[0]);
    } else {
      RunKeepsInv(states, i - 1);
      NextKeepsInv(states[i - 1], states[i]);
    }
  }

  /**
   * In every reachable state every table of every version somebody still holds
   * - the current one, a reader's, the compaction's - and every table the worker
   * is writing or about to install is on disk.
   */
  lemma RunKeepsNeededFiles(states: seq<State>, i: nat, n: nat)
    requires Run(states) && i < |states|
    requires var s := states[i];
      || (exists id: nat :: Holders(s, id) > 0 && id in s.versions && n in s.versions[id])
      || (s.flush.Some? && s.flush.value.number == n && (s.flush.value.stage.Building? || s.flush.value.stage == Built(true)))
      || (s.work.Some? && !s.work.value.installed && n in s.work.value.outputs)
    ensures n in states[i].disk
  {
    RunKeepsInv(states, i);
    assert Needed(states[i], n);
  }

  /** A version is listed exactly as long as somebody holds it. */
  lemma ListedIffHeld(states: seq<State>, i: nat, id: nat)
    requires Run(states) && i < |states|
    ensures id in states[i].versions <==> Holders(states[i], id) > 0
  {
    RunKeepsInv(states, i);
  }

  /**
   * The single worker is needed: in every reachable state in which a built
   * table waits to be installed, collecting at that moment would delete it.
   */
  lemma CollectingEarlyLosesTable(states: seq<State>, i: nat, s': State)
    requires Run(states) && i < |states| && Collected(states[i], s') && !states[i].failed
    requires states[i].flush.Some? && states[i].flush.value.stage == Built(true)
    ensures states[i].flush.value.number in states[i].disk && states[i].flush.value.number !in s'.disk
  {
    RunKeepsInv(states, i);
    assert Needed(states[i], states[i].flush.value.number);
  }
}
