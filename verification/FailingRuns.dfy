/**
 Two concrete runs of the database machine from an empty database: a crash that
 loses a write while a later one survives, and a compaction that makes a deleted
 value readable again.
 */
module FailingRuns {
  import opened InternalKeys
  import opened Versions
  import opened VersionBuilder
  import opened InputSelection
  import opened TreeSteps
  import opened Compactions
  import opened CompactionSteps
  import opened Database
  import opened DatabaseRuns

  ghost const EMPTY: Version := [[], [], [], [], [], [], []]

  /** A new database whose first log is number 1. */
  ghost function Fresh(): State {
    State(map[], EMPTY, [], None, map[1 := []], 1, 0, 1, 0, 0, 0, 0, 2, 2, multiset{}, [], 0)
  }

  lemma FirstState()
    ensures Run([Fresh()], [])
  {
  }

  lemma RunGrows(states: seq<State>, steps: seq<Step>, step: Step, s: State)
    requires Run(states, steps) && Next(states[|steps|], step, s)
    ensures Run(states + [s], steps + [step])
  {
    var all, done := states + [s], steps + [step];
    forall i: nat | i < |done| ensures NextAt(all, done, i) {
      if i < |steps| {
        assert NextAt(states, steps, i);
      }
    }
  }

  lemma OneInserted(e: Entry)
    ensures InsertAll([], [e]) == [e]
  {
    assert [e][..0] == [] && InsertAll([], []) == [];
  }

  lemma OneGroup(group: seq<Entry>)
    ensures Concat([group]) == group && Concat([]) == []
  {
    assert [group][..0] == [];
  }

  /** A table added where its level is empty. */
  lemma AddedToEmpty(v: Version, level: nat, f: FileMeta)
    requires level < NUM_LEVELS && v[level] == [] && forall l :: 0 <= l < NUM_LEVELS ==> SortedFiles(v[l])
    ensures Inserted(v, level, f, v[level := [f]])
  {
  }

  // ----- a crash that loses a write below a synced one -----

  const LOST: Entry := Entry(InternalKey(1.0, 1, Value), [1])
  const SYNCED: Entry := Entry(InternalKey(2.0, 2, Value), [2])

  const LOST_OP: Op := Op(1.0, Value, [1])
  const SYNCED_OP: Op := Op(2.0, Value, [2])
  const RECOVERED_FILE: FileMeta := FileMeta(3, 1, SYNCED.key, SYNCED.key)

  ghost function BeforeCrash(): State {
    State(map[], EMPTY, [SYNCED], Some([LOST]), map[1 := [[LOST]], 2 := [[SYNCED]]], 2, 1, 1, 1, 0, 2, 0, 3, 2, multiset{}, [], 0)
  }

  ghost function AfterCrash(): State {
    State(map[3 := [SYNCED]], EMPTY[0 := [RECOVERED_FILE]], [], None, map[1 := [], 2 := [[SYNCED]], 4 := []], 4, 1, 4, 0, 0,
          2, 2, 5, 5, multiset{}, [SYNCED], 0)
  }

  lemma Sequences()
    ensures Sequenced([LOST_OP], 1) == [LOST] && Sequenced([SYNCED_OP], 2) == [SYNCED]
  {
  }

  /** A write group of one entry into an empty log and memtable. */
  lemma WrittenFirst(s: State, op: Op, e: Entry, sync: bool, s': State)
    requires s.mem == [] && s.logfile in s.logs && s.logs[s.logfile] == [] && s.lastSequence < 100
    requires Sequenced([op], s.lastSequence + 1) == [e]
    requires s' == s.(mem := [e], logs := s.logs[s.logfile := [[e]]], lastSequence := s.lastSequence + 1,
                      synced := if sync then 1 else s.synced)
    ensures Next(s, Write([op], sync), s')
  {
    OneInserted(e);
    assert [] + [[e]] == [[e]];
    assert WriteStep(s, [op], sync, s');
  }

  /** An unsynced write, a memtable switch, a synced write. */
  lemma RunBeforeCrash() returns (states: seq<State>, steps: seq<Step>)
    ensures Run(states, steps) && steps == [Write([LOST_OP], false), Switch, Write([SYNCED_OP], true)]
    ensures states[3] == BeforeCrash()
  {
    Sequences();
    var s0 := Fresh();
    FirstState();
    var s1 := s0.(mem := [LOST], logs := map[1 := [[LOST]]], lastSequence := 1);
    assert s1.logs == s0.logs[1 := [[LOST]]];
    WrittenFirst(s0, LOST_OP, LOST, false, s1);
    RunGrows([s0], [], Write([LOST_OP], false), s1);
    var s2 := s1.(imm := Some([LOST]), immLog := 1, mem := [], logs := map[1 := [[LOST]], 2 := []], logfile := 2, nextFile := 3);
    RunGrows([s0, s1], [Write([LOST_OP], false)], Switch, s2);
    var s3 := BeforeCrash();
    assert s3.logs == s2.logs[2 := [[SYNCED]]];
    WrittenFirst(s2, SYNCED_OP, SYNCED, true, s3);
    RunGrows([s0, s1, s2], [Write([LOST_OP], false), Switch], Write([SYNCED_OP], true), s3);
    states, steps := [s0, s1, s2, s3], [Write([LOST_OP], false), Switch, Write([SYNCED_OP], true)];
  }

  ghost function Crash(): Step {
    Recover(0, 1, [[SYNCED]], [RECOVERED_FILE], [map[], map[3 := [SYNCED]]], [EMPTY, EMPTY[0 := [RECOVERED_FILE]]], 4, 2)
  }

  lemma CrashCuts()
    ensures CutTo(BeforeCrash(), 0, 1) && CutLogs(BeforeCrash(), 0, 1) == map[1 := [], 2 := [[SYNCED]]]
    ensures ReplayLogs(CutLogs(BeforeCrash(), 0, 1), 1, 3) == [SYNCED]
  {
    var s := BeforeCrash();
    assert s.logs[2][..1] == [[SYNCED]] && s.logs[1][..0] == [];
    var cut := CutLogs(s, 0, 1);
    OneGroup([SYNCED]);
    ReplayLast(cut, 1, 2, 3);
    ReplayLast(cut, 1, 1, 2);
  }

  lemma CrashTables()
    ensures TablesRecovered(map[], EMPTY, 3, [[SYNCED]], [RECOVERED_FILE], [map[], map[3 := [SYNCED]]],
                            [EMPTY, EMPTY[0 := [RECOVERED_FILE]]])
  {
    OneInserted(SYNCED);
    AddedToEmpty(EMPTY, 0, RECOVERED_FILE);
  }

  /** The crash keeps the synced log and none of the old one. */
  lemma CrashIsStep()
    ensures Next(BeforeCrash(), Crash(), AfterCrash())
  {
    var s := BeforeCrash();
    CrashCuts();
    OneGroup([SYNCED]);
    CrashTables();
    assert AfterCrash().logs == CutLogs(s, 0, 1)[4 := []];
  }

  /**
   The losing run: after the crash the synced second write is there and the
   first is not, so what survives is no prefix of what was committed.
   */
  lemma CrashLosesOlderWrite() returns (states: seq<State>, steps: seq<Step>)
    ensures Run(states, steps) && |steps| == 4 && steps[3].Recover?
    ensures Commits(states[3]) == [LOST, SYNCED] && Commits(states[4]) == [SYNCED]
    ensures !(Commits(states[4]) <= Commits(states[3]))
  {
    states, steps := RunBeforeCrash();
    CrashIsStep();
    RunGrows(states, steps, Crash(), AfterCrash());
    states, steps := states + [AfterCrash()], steps + [Crash()];
    CommitsAroundCrash();
  }

  lemma CommitsAroundCrash()
    ensures Commits(BeforeCrash()) == [LOST, SYNCED] && Commits(AfterCrash()) == [SYNCED]
  {
    OneGroup([LOST]);
    OneGroup([SYNCED]);
  }

  // ----- a compaction that makes a deleted value readable -----

  ghost predicate Reachable(s: State) {
    exists states, steps :: Run(states, steps) && states[|steps|] == s
  }

  lemma NextReachable(s: State, step: Step, s': State)
    requires Reachable(s) && Next(s, step, s')
    ensures Reachable(s')
  {
    var states, steps :| Run(states, steps) && states[|steps|] == s;
    RunGrows(states, steps, step, s');
    assert (states + [s'])[|steps + [step]|] == s';
  }

  lemma FreshReachable()
    ensures Reachable(Fresh())
  {
    FirstState();
    var steps: seq<Step> := [];
    assert Run([Fresh()], steps) && [Fresh()][|steps|] == Fresh();
  }

  const OLD_OP: Op := Op(2.0, Value, [7])
  const UNDER_OP: Op := Op(1.0, Value, [])
  const DELETE_OP: Op := Op(2.0, Deletion, [])
  const FULL_FILE: FileMeta := FileMeta(3, 1, UNDER.key, OLD_VALUE.key)
  const PROBE_OUTPUT: FileMeta := FileMeta(8, 1, PROBE.key, PROBE.key)

  /** A put, a snapshot, then a newer put of another key and a deletion. */
  ghost function Written(): State {
    Fresh().(mem := [UNDER, TOMBSTONE, OLD_VALUE], logs := map[1 := [[OLD_VALUE], [UNDER, TOMBSTONE]]],
             lastSequence := 3, snapshots := multiset{1})
  }

  lemma WrittenMemtable()
    ensures Sequenced([OLD_OP], 1) == [OLD_VALUE] && Sequenced([UNDER_OP, DELETE_OP], 2) == [UNDER, TOMBSTONE]
    ensures InsertAll([OLD_VALUE], [UNDER, TOMBSTONE]) == [UNDER, TOMBSTONE, OLD_VALUE]
  {
    var two := [UNDER, TOMBSTONE];
    assert two[..1] == [UNDER] && [UNDER][..0] == [] && [UNDER][1..] == [] && [TOMBSTONE][1..] == [];
    assert Merge([OLD_VALUE], [UNDER]) == [UNDER, OLD_VALUE];
    assert InsertAll([OLD_VALUE], [UNDER]) == [UNDER, OLD_VALUE];
    assert Merge([OLD_VALUE], [TOMBSTONE]) == [TOMBSTONE, OLD_VALUE];
    assert [UNDER, OLD_VALUE][1..] == [OLD_VALUE];
    assert Merge([UNDER, OLD_VALUE], [TOMBSTONE]) == [UNDER] + Merge([OLD_VALUE], [TOMBSTONE]);
  }

  lemma WrittenReachable()
    ensures Reachable(Written())
  {
    WrittenMemtable();
    var s0 := Fresh();
    FreshReachable();
    var s1 := s0.(mem := [OLD_VALUE], logs := map[1 := [[OLD_VALUE]]], lastSequence := 1);
    assert s1.logs == s0.logs[1 := [[OLD_VALUE]]];
    WrittenFirst(s0, OLD_OP, OLD_VALUE, false, s1);
    NextReachable(s0, Write([OLD_OP], false), s1);
    var s2 := s1.(snapshots := multiset{1});
    NextReachable(s1, NewSnapshot, s2);
    SecondWrite(s2);
    NextReachable(s2, Write([UNDER_OP, DELETE_OP], false), Written());
  }

  lemma SecondWrite(s: State)
    requires s == Fresh().(mem := [OLD_VALUE], logs := map[1 := [[OLD_VALUE]]], lastSequence := 1, snapshots := multiset{1})
    ensures Next(s, Write([UNDER_OP, DELETE_OP], false), Written())
  {
    WrittenMemtable();
    assert [[OLD_VALUE]] + [[UNDER, TOMBSTONE]] == [[OLD_VALUE], [UNDER, TOMBSTONE]];
    assert Written().logs == s.logs[1 := s.logs[1] + [[UNDER, TOMBSTONE]]];
  }

  ghost function Flushed(): State {
    Written().(disk := FIRST_DISK, version := FIRST_VERSION, mem := [],
               logs := map[1 := [[OLD_VALUE], [UNDER, TOMBSTONE]], 2 := []], logfile := 2, immLog := 1, logNumber := 2,
               savedSequence := 3, nextFile := 4, savedNext := 4, flushed := [OLD_VALUE, UNDER, TOMBSTONE])
  }

  lemma TwoGroups(a: seq<Entry>, b: seq<Entry>)
    ensures Concat([a, b]) == a + b
  {
    OneGroup(a);
    ConcatAppend([a], b);
    assert [a] + [b] == [a, b];
  }

  ghost function Switched(): State {
    Written().(imm := Some([UNDER, TOMBSTONE, OLD_VALUE]), immLog := 1, mem := [],
               logs := map[1 := [[OLD_VALUE], [UNDER, TOMBSTONE]], 2 := []], logfile := 2, nextFile := 3)
  }

  lemma SwitchedReachable()
    ensures Reachable(Switched())
  {
    WrittenReachable();
    assert Switched().logs == Written().logs[2 := []];
    NextReachable(Written(), Switch, Switched());
  }

  lemma FirstTable()
    ensures TableAdded(map[], EMPTY, FULL_FILE, [UNDER, TOMBSTONE, OLD_VALUE], 1, map[3 := [UNDER, TOMBSTONE, OLD_VALUE]],
                       EMPTY[1 := [FULL_FILE]])
  {
    AddedToEmpty(EMPTY, 1, FULL_FILE);
  }

  lemma FirstFlush()
    ensures Next(Switched(), Flush(FULL_FILE, 1), Flushed())
  {
    TwoGroups([OLD_VALUE], [UNDER, TOMBSTONE]);
    assert Logged(Switched(), 1) == [OLD_VALUE, UNDER, TOMBSTONE];
    FirstTable();
  }

  lemma FlushedReachable()
    ensures Reachable(Flushed())
  {
    SwitchedReachable();
    FirstFlush();
    NextReachable(Switched(), Flush(FULL_FILE, 1), Flushed());
  }

  const FIRST_INPUTS: CompactionInputs := CompactionInputs(1, [FULL_FILE], [], [])
  const FIRST_VERSION: Version := [[], [FULL_FILE], [], [], [], [], []]
  const SECOND_VERSION: Version := [[], [], [TOMBSTONE_FILE, OLD_FILE], [], [], [], []]
  ghost const FIRST_DISK: Disk := map[3 := [UNDER, TOMBSTONE, OLD_VALUE]]
  ghost const SECOND_DISK: Disk := map[3 := [UNDER, TOMBSTONE, OLD_VALUE], 4 := [UNDER, TOMBSTONE], 5 := [OLD_VALUE]]

  ghost function Compacted(): State {
    Flushed().(disk := SECOND_DISK, version := SECOND_VERSION, nextFile := 6, savedNext := 6, horizon := 1)
  }

  lemma MergedOne(disk: Disk, c: CompactionInputs, f: FileMeta)
    requires c.inputs0 == [f] && c.inputs1 == [] && f.number in disk
    ensures MergedInput(disk, c) == disk[f.number]
  {
    var run := disk[f.number];
    assert c.inputs0 + c.inputs1 == [f] && [f][..0] == [] && MergeFiles(disk, []) == [];
    assert MergeFiles(disk, [f]) == Merge([], run) && Merge([], run) == run;
  }

  /** While the snapshot is held all three entries survive. */
  lemma FirstSurvivors(v: Version)
    ensures Survivors([UNDER, TOMBSTONE, OLD_VALUE], 3, 1, v, 1) == [UNDER, TOMBSTONE, OLD_VALUE]
  {
    var input := [UNDER, TOMBSTONE, OLD_VALUE];
    assert !Dropped(input, 0, 1, v, 1) && !Dropped(input, 1, 1, v, 1) && !Dropped(input, 2, 1, v, 1);
    assert Survivors(input, 1, 1, v, 1) == [UNDER];
    assert Survivors(input, 2, 1, v, 1) == [UNDER, TOMBSTONE];
  }

  lemma FirstChosen()
    ensures Chosen(FIRST_VERSION, FIRST_INPUTS)
  {
  }

  lemma FirstTables()
    ensures TablesWritten(FIRST_DISK, 4, [[UNDER, TOMBSTONE], [OLD_VALUE]], SECOND_DISK, [TOMBSTONE_FILE, OLD_FILE])
  {
  }

  lemma FirstReplaced()
    ensures Replaced(FIRST_VERSION, FIRST_INPUTS, [TOMBSTONE_FILE, OLD_FILE], SECOND_VERSION)
  {
  }

  /** The output is cut between the two versions of one key. */
  lemma FirstCompaction()
    ensures CompactionStep(FIRST_DISK, FIRST_VERSION, FIRST_INPUTS, 1, 4, [[UNDER, TOMBSTONE], [OLD_VALUE]],
                           SECOND_DISK, [TOMBSTONE_FILE, OLD_FILE], SECOND_VERSION)
  {
    FirstChosen();
    MergedOne(FIRST_DISK, FIRST_INPUTS, FULL_FILE);
    FirstSurvivors(FIRST_VERSION);
    TwoGroups([UNDER, TOMBSTONE], [OLD_VALUE]);
    FirstTables();
    FirstReplaced();
  }

  lemma CompactedReachable()
    ensures Reachable(Compacted())
  {
    FlushedReachable();
    FirstCompaction();
    NextReachable(Flushed(), Compact(FIRST_INPUTS, 1, [[UNDER, TOMBSTONE], [OLD_VALUE]], [TOMBSTONE_FILE, OLD_FILE]), Compacted());
  }

  /** The snapshot is released and a newer put reaches a table of its own. */
  ghost function Probed(): State {
    Compacted().(mem := [PROBE], logs := map[1 := [[OLD_VALUE], [UNDER, TOMBSTONE]], 2 := [[PROBE]]],
                 lastSequence := 4, snapshots := multiset{})
  }

  lemma ProbedReachable()
    ensures Reachable(Probed())
  {
    CompactedReachable();
    var s := Compacted();
    var s' := s.(snapshots := multiset{});
    NextReachable(s, Release(1), s');
    PutProbe();
    NextReachable(s', Write([UNDER_OP], false), Probed());
  }

  lemma PutProbe()
    ensures Next(Compacted().(snapshots := multiset{}), Write([UNDER_OP], false), Probed())
  {
    var s := Compacted().(snapshots := multiset{});
    assert Sequenced([UNDER_OP], 4) == [PROBE];
    assert Probed().logs == s.logs[2 := [[PROBE]]];
    WrittenFirst(s, UNDER_OP, PROBE, false, Probed());
  }

  const LOST_INPUTS: CompactionInputs := CompactionInputs(1, [UPPER_FILE], [TOMBSTONE_FILE], [])
  const LOST_VERSION: Version := [[], [UPPER_FILE], [TOMBSTONE_FILE, OLD_FILE], [], [], [], []]
  ghost const LOST_DISK: Disk := map[4 := [UNDER, TOMBSTONE], 5 := [OLD_VALUE], 7 := [PROBE]]

  ghost function ProbeSwitched(): State {
    Probed().(imm := Some([PROBE]), immLog := 2, mem := [],
              logs := map[1 := [[OLD_VALUE], [UNDER, TOMBSTONE]], 2 := [[PROBE]], 6 := []], logfile := 6, nextFile := 7)
  }

  ghost function ProbeFlushed(): State {
    ProbeSwitched().(disk := SECOND_DISK[7 := [PROBE]], version := LOST_VERSION, imm := None, logNumber := 6, savedSequence := 4,
                     nextFile := 8, savedNext := 8, flushed := [OLD_VALUE, UNDER, TOMBSTONE, PROBE])
  }

  lemma ProbeSwitchedReachable()
    ensures Reachable(ProbeSwitched())
  {
    ProbedReachable();
    assert ProbeSwitched().logs == Probed().logs[6 := []];
    NextReachable(Probed(), Switch, ProbeSwitched());
  }

  lemma ProbeTable()
    ensures TableAdded(SECOND_DISK, SECOND_VERSION, UPPER_FILE, [PROBE], 1, SECOND_DISK[7 := [PROBE]], LOST_VERSION)
  {
    assert LOST_VERSION == SECOND_VERSION[1 := [UPPER_FILE]];
    AddedToEmpty(SECOND_VERSION, 1, UPPER_FILE);
  }

  lemma ProbeFlush()
    ensures Next(ProbeSwitched(), Flush(UPPER_FILE, 1), ProbeFlushed())
  {
    OneGroup([PROBE]);
    assert Logged(ProbeSwitched(), 2) == [PROBE];
    ProbeTable();
  }

  ghost function BeforeLoss(): State {
    ProbeFlushed().(disk := LOST_DISK, logs := map[6 := []])
  }

  lemma ObsoleteDeleted()
    ensures Next(ProbeFlushed(), DeleteObsolete({4, 5, 7}), BeforeLoss())
  {
    TablesKept(SECOND_DISK[7 := [PROBE]]);
    LogsKept(ProbeFlushed().logs);
    ObsoletePlaced();
  }

  lemma TablesKept(disk: Disk)
    requires disk == SECOND_DISK[7 := [PROBE]]
    ensures LOST_DISK == map n | n in disk && n in {4, 5, 7} :: disk[n]
  {
  }

  lemma LogsKept(logs: map<nat, seq<seq<Entry>>>)
    requires logs == ProbeFlushed().logs
    ensures BeforeLoss().logs == map n | n in logs && n >= 6 :: logs[n]
  {
  }

  lemma ObsoletePlaced()
    ensures forall m: nat, h :: Placed(LOST_VERSION, m, h) ==> h.number in {4, 5, 7}
  {
  }

  lemma BeforeLossReachable()
    ensures Reachable(BeforeLoss())
  {
    ProbeSwitchedReachable();
    ProbeFlush();
    NextReachable(ProbeSwitched(), Flush(UPPER_FILE, 1), ProbeFlushed());
    ObsoleteDeleted();
    NextReachable(ProbeFlushed(), DeleteObsolete({4, 5, 7}), BeforeLoss());
  }

  lemma LostMerged()
    ensures MergedInput(LOST_DISK, LOST_INPUTS) == [PROBE, UNDER, TOMBSTONE]
  {
    var disk := LOST_DISK;
    MergedOne(disk, CompactionInputs(1, [UPPER_FILE], [], []), UPPER_FILE);
    assert [UPPER_FILE] + [] == [UPPER_FILE];
    var both := [UPPER_FILE, TOMBSTONE_FILE];
    assert [UPPER_FILE] + [TOMBSTONE_FILE] == both && both[..1] == [UPPER_FILE];
    assert [PROBE][1..] == [] && Merge([], [UNDER, TOMBSTONE]) == [UNDER, TOMBSTONE];
    assert Merge([PROBE], [UNDER, TOMBSTONE]) == [PROBE] + Merge([], [UNDER, TOMBSTONE]);
  }

  /** With no snapshot held, the deletion is dropped: no deeper level covers its key. */
  lemma LostSurvivors()
    ensures Survivors([PROBE, UNDER, TOMBSTONE], 3, 4, LOST_VERSION, 1) == [PROBE]
  {
    var input, v := [PROBE, UNDER, TOMBSTONE], LOST_VERSION;
    assert !Dropped(input, 0, 4, v, 1) && Dropped(input, 1, 4, v, 1) && Dropped(input, 2, 4, v, 1);
    assert Survivors(input, 1, 4, v, 1) == [PROBE];
    assert Survivors(input, 2, 4, v, 1) == [PROBE];
  }

  ghost const AFTER_VERSION: Version := [[], [], [PROBE_OUTPUT, OLD_FILE], [], [], [], []]

  ghost function AfterLoss(): State {
    BeforeLoss().(disk := LOST_DISK[8 := [PROBE]], version := AFTER_VERSION, nextFile := 9, savedNext := 9, horizon := 4)
  }

  lemma LosingCompaction()
    ensures CompactionStep(LOST_DISK, LOST_VERSION, LOST_INPUTS, 4, 8, [[PROBE]], LOST_DISK[8 := [PROBE]], [PROBE_OUTPUT], AFTER_VERSION)
  {
    LosingChosen();
    LostMerged();
    LostSurvivors();
    OneGroup([PROBE]);
    LosingTable();
    LosingReplaced();
  }

  lemma LosingChosen()
    ensures Chosen(LOST_VERSION, LOST_INPUTS)
  {
    LostIsChosen(LOST_DISK, LOST_VERSION, LOST_INPUTS);
  }

  lemma LosingTable()
    ensures TablesWritten(LOST_DISK, 8, [[PROBE]], LOST_DISK[8 := [PROBE]], [PROBE_OUTPUT])
    ensures forall m: nat, h :: Placed(LOST_VERSION, m, h) ==> h.number < 8
  {
  }

  lemma LosingReplaced()
    ensures Replaced(LOST_VERSION, LOST_INPUTS, [PROBE_OUTPUT], AFTER_VERSION)
  {
  }

  lemma LosingStep()
    ensures Next(BeforeLoss(), Compact(LOST_INPUTS, 4, [[PROBE]], [PROBE_OUTPUT]), AfterLoss())
  {
    LosingCompaction();
  }

  /** The flat map of the run's commits does not have the deleted key. */
  lemma FlatMapForgets()
    ensures Commits(AfterLoss()) == [OLD_VALUE, UNDER, TOMBSTONE, PROBE]
    ensures Lookup(Replay(Commits(AfterLoss()), 4), 2.0) == None
  {
    OneGroup([]);
    var h := [OLD_VALUE, UNDER, TOMBSTONE, PROBE];
    assert h[..3] == [OLD_VALUE, UNDER, TOMBSTONE];
    assert Commits(AfterLoss()) == h + [] == h;
    ForgetsAt([OLD_VALUE, UNDER], TOMBSTONE, PROBE);
    assert [OLD_VALUE, UNDER] + [TOMBSTONE] + [PROBE] == h;
  }

  lemma ForgetsAt(h: seq<Entry>, t: Entry, e: Entry)
    requires t.key.kind.Deletion? && t.key.seqno <= 4 && e.key.seqno <= 4 && e.key.kind.Value? && e.key.user != t.key.user
    ensures t.key.user !in Replay(h + [t] + [e], 4)
  {
    assert (h + [t] + [e])[..|h| + 1] == h + [t];
    assert (h + [t])[..|h|] == h;
  }

  /** Two reachable states, one compaction apart: the deleted key reads its old value in the second. */
  lemma DeletedValueReappearsInRun()
    ensures Reachable(BeforeLoss()) && Reachable(AfterLoss())
    ensures Next(BeforeLoss(), Compact(LOST_INPUTS, 4, [[PROBE]], [PROBE_OUTPUT]), AfterLoss())
    ensures View(Contents(BeforeLoss().disk, BeforeLoss().version), 2.0, 4) == None
    ensures View(Contents(AfterLoss().disk, AfterLoss().version), 2.0, 4) == Some([7])
    ensures AfterLoss().mem == [] && AfterLoss().imm == None && Lookup(Replay(Commits(AfterLoss()), 4), 2.0) == None
  {
    FlatMapForgets();
    BeforeLossReachable();
    LosingStep();
    NextReachable(BeforeLoss(), Compact(LOST_INPUTS, 4, [[PROBE]], [PROBE_OUTPUT]), AfterLoss());
    LosingCompaction();
    DeletedValueReappears(LOST_DISK, LOST_VERSION, LOST_INPUTS, [[PROBE]], LOST_DISK[8 := [PROBE]], [PROBE_OUTPUT], AFTER_VERSION);
  }
}
