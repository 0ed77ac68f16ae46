/**
 Whole runs of the database machine, and what they mean for a client: the
 history of a run is computed from its steps alone, and the states agree with
 it - what is committed, what a crash can take, and what every read returns.
 */
module DatabaseRuns {
  import opened InternalKeys
  import opened Versions
  import opened InputSelection
  import opened TreeSteps
  import opened Compactions
  import opened CompactionSteps
  import opened Database
  import DbIterator

  datatype Step =
    | Write(ops: seq<Op>, sync: bool)
    | Switch
    | Flush(file: FileMeta, level: nat)
    | Move(inputs: CompactionInputs)
    | Compact(inputs: CompactionInputs, oldest: nat, chunks: seq<seq<Entry>>, outputs: seq<FileMeta>)
    | DeleteObsolete(live: set<nat>)
    | NewSnapshot
    | Release(snapshot: nat)
    | Recover(keepImm: nat, keep: nat, chunks: seq<seq<Entry>>, files: seq<FileMeta>, disks: seq<Disk>, versions: seq<Version>, newLog: nat, last: nat)

  ghost predicate Next(s: State, step: Step, s': State) {
    match step
    case Write(ops, sync) => WriteStep(s, ops, sync, s')
    case Switch => SwitchStep(s, s')
    case Flush(f, level) => FlushStep(s, f, level, s')
    case Move(c) => MoveStep(s, c, s')
    case Compact(c, oldest, chunks, outputs) => CompactStep(s, c, oldest, chunks, outputs, s')
    case DeleteObsolete(live) => DeleteStep(s, live, s')
    case NewSnapshot => SnapshotStep(s, s')
    case Release(x) => ReleaseStep(s, x, s')
    case Recover(keepImm, keep, chunks, files, disks, versions, newLog, last) =>
      RecoverStep(s, keepImm, keep, chunks, files, disks, versions, newLog, last, s')
  }

  /** A new database: one empty log and no tables. */
  ghost predicate Init(s: State) {
    && s.disk == map[] && s.version == [[], [], [], [], [], [], []]
    && s.mem == [] && s.imm == None
    && 0 < s.logfile < s.nextFile && s.logs == map[s.logfile := []] && s.logNumber == s.logfile && s.synced == 0
    && s.lastSequence == 0 && s.savedSequence == 0 && s.savedNext == s.nextFile
    && s.snapshots == multiset{} && s.flushed == [] && s.horizon == 0
  }

  /** Step i leads from state i to the next. */
  ghost predicate NextAt(states: seq<State>, steps: seq<Step>, i: nat)
    requires i < |steps| && |states| == |steps| + 1
  {
    Next(states[i], steps[i], states[i + 1])
  }

  ghost predicate Run(states: seq<State>, steps: seq<Step>) {
    && |states| == |steps| + 1 && Init(states[0])
    && forall i: nat | i < |steps| :: NextAt(states, steps, i)
  }

  /** A compaction drops no deletion the oldest snapshot reads above a value left behind. */
  ghost predicate HarmlessStep(s: State, step: Step) {
    step.Compact? && step.inputs.level + 1 < NUM_LEVELS ==> NothingUncovered(s.disk, s.version, step.inputs, step.oldest, {})
  }

  ghost predicate HarmlessRun(states: seq<State>, steps: seq<Step>) {
    |states| == |steps| + 1 && forall i :: 0 <= i < |steps| ==> HarmlessStep(states[i], steps[i])
  }

  /** Compactions that leave no next-level file behind that continues one of their inputs are harmless. */
  lemma ClosedIsHarmless(s: State, step: Step)
    requires step.Compact? && step.inputs.level + 1 < NUM_LEVELS ==> NextLevelClosed(s.version, step.inputs)
    ensures HarmlessStep(s, step)
  {
    if step.Compact? && step.inputs.level + 1 < NUM_LEVELS {
      ClosedUncoversNothing(s.disk, s.version, step.inputs, step.oldest, {});
    }
  }

  lemma NoTables(disk: Disk, v: Version)
    requires forall l :: 0 <= l < NUM_LEVELS ==> v[l] == []
    ensures SortedTree(disk, v) && Contents(disk, v) == {}
  {
    assert PairwiseFits(disk, v);
    assert Contents(disk, v) == {};
    TreeOfPairs(disk, v);
  }

  lemma InitTree(s: State)
    requires Init(s)
    ensures TreeHolds(s) && TreeReads(s)
  {
    assert forall l :: 0 <= l < NUM_LEVELS ==> s.version[l] == [];
    NoTables(s.disk, s.version);
  }

  lemma InitIsSound(s: State)
    requires Init(s)
    ensures Inv(s) && Commits(s) == []
  {
    InitTree(s);
    assert Logged(s, s.logfile) == [];
    assert forall l :: 0 <= l < NUM_LEVELS ==> s.version[l] == [];
  }

  lemma SnapshotKeepsSound(s: State, s': State)
    requires Sound(s) && SnapshotStep(s, s')
    ensures Sound(s') && (TreeReads(s) ==> TreeReads(s')) && Commits(s') == Commits(s)
  {
    assert forall x :: x in s'.snapshots ==> x in s.snapshots || x == s.lastSequence;
    assert Commits(s') == Commits(s);
  }

  lemma ReleaseKeepsSound(s: State, x: nat, s': State)
    requires Sound(s) && ReleaseStep(s, x, s')
    ensures Sound(s') && (TreeReads(s) ==> TreeReads(s')) && Commits(s') == Commits(s)
  {
    assert forall y :: y in s'.snapshots ==> y in s.snapshots;
    assert Commits(s') == Commits(s);
  }

  lemma NextKeepsSound(s: State, step: Step, s': State)
    requires Sound(s) && Next(s, step, s')
    ensures Sound(s') && (TreeReads(s) && HarmlessStep(s, step) ==> TreeReads(s'))
  {
    match step
    case Write(ops, sync) => WriteKeepsSound(s, ops, sync, s');
    case Switch => SwitchKeepsSound(s, s');
    case Flush(f, level) => FlushKeepsSound(s, f, level, s');
    case Move(c) => MoveKeepsSound(s, c, s');
    case Compact(c, oldest, chunks, outputs) => CompactKeepsSound(s, c, oldest, chunks, outputs, s');
    case DeleteObsolete(live) => DeleteKeepsSound(s, live, s');
    case NewSnapshot => SnapshotKeepsSound(s, s');
    case Release(x) => ReleaseKeepsSound(s, x, s');
    case Recover(keepImm, keep, chunks, files, disks, versions, newLog, last) =>
      RecoverKeepsSound(s, keepImm, keep, chunks, files, disks, versions, newLog, last, s');
  }

  /** Every state of every run keeps the tree's invariants and its logs, whatever the compactions choose. */
  lemma {:induction false} RunKeepsSound(states: seq<State>, steps: seq<Step>, i: nat)
    requires Run(states, steps) && i < |states|
    ensures Sound(states[i])
  {
    if i == 0 {
      InitIsSound(states[0]);
    } else {
      RunKeepsSound(states, steps, i - 1);
      assert NextAt(states, steps, i - 1);
      NextKeepsSound(states[i - 1], steps[i - 1], states[i]);
    }
  }

  lemma RunStep(states: seq<State>, steps: seq<Step>, i: nat)
    requires Run(states, steps) && i < |steps|
    ensures Sound(states[i]) && Next(states[i], steps[i], states[i + 1])
  {
    RunKeepsSound(states, steps, i);
    assert NextAt(states, steps, i);
  }

  /** If its compactions are harmless, a run keeps reads exact as well. */
  lemma {:induction false} RunKeepsInv(states: seq<State>, steps: seq<Step>, i: nat)
    requires Run(states, steps) && HarmlessRun(states, steps) && i < |states|
    ensures Inv(states[i])
  {
    if i == 0 {
      InitIsSound(states[0]);
    } else {
      RunKeepsInv(states, steps, i - 1);
      assert NextAt(states, steps, i - 1) && HarmlessStep(states[i - 1], steps[i - 1]);
      NextKeepsSound(states[i - 1], steps[i - 1], states[i]);
    }
  }

  // ----- the history of a run -----

  /**
   What the steps alone say: the entries no longer in need of a log, the groups
   of the old and of the active log, and the last sequence number.
   */
  datatype Ledger = Ledger(kept: seq<Entry>, older: seq<seq<Entry>>, active: seq<seq<Entry>>, last: nat)

  ghost function Front(groups: seq<seq<Entry>>, n: nat): seq<Entry> {
    Concat(if n <= |groups| then groups[..n] else [])
  }

  ghost function After(l: Ledger, step: Step): Ledger {
    match step
    case Write(ops, _) => l.(active := l.active + [Sequenced(ops, l.last + 1)], last := l.last + |ops|)
    case Switch => l.(older := l.active, active := [])
    case Flush(_, _) => l.(kept := l.kept + Concat(l.older), older := [])
    case Recover(keepImm, keep, _, _, _, _, _, last) =>
      var survived := Front(l.older, keepImm) + Front(l.active, keep);
      Ledger(l.kept + survived, [], [], last)
    case _ => l
  }

  /** The ledger after the first n steps. */
  ghost function LedgerOf(steps: seq<Step>, n: nat): Ledger
    requires n <= |steps|
    decreases n
  {
    if n == 0 then Ledger([], [], [], 0) else After(LedgerOf(steps, n - 1), steps[n - 1])
  }

  /** The writes not yet in need of a table. */
  ghost function Pending(l: Ledger): seq<Entry> {
    Concat(l.older) + Concat(l.active)
  }

  /** Every operation written by the first n steps and not taken by a crash, in order. */
  ghost function History(steps: seq<Step>, n: nat): seq<Entry>
    requires n <= |steps|
  {
    LedgerOf(steps, n).kept + Pending(LedgerOf(steps, n))
  }

  /** The state is what the ledger says. */
  ghost predicate Matches(l: Ledger, s: State) {
    && l.kept == s.flushed && l.older == ImmGroups(s) && s.logfile in s.logs && l.active == s.logs[s.logfile]
    && l.last == s.lastSequence
  }

  lemma RecoverMatches(l: Ledger, s: State, step: Step, s': State)
    requires MemtablesMatchLogs(s) && CountersOk(s) && Matches(l, s) && step.Recover? && Next(s, step, s')
    ensures Matches(After(l, step), s')
  {
    RecoveredCommits(s, step.keepImm, step.keep, step.chunks, step.files, step.disks, step.versions, step.newLog, step.last, s');
  }

  lemma StepMatches(l: Ledger, s: State, step: Step, s': State)
    requires MemtablesMatchLogs(s) && CountersOk(s) && Matches(l, s) && Next(s, step, s')
    ensures Matches(After(l, step), s')
  {
    if step.Recover? {
      RecoverMatches(l, s, step, s');
    }
  }

  /** In every reachable state the logs, the tables' commits and the counters are those of the steps taken. */
  lemma {:induction false} RunMatchesLedger(states: seq<State>, steps: seq<Step>, i: nat)
    requires Run(states, steps) && i < |states|
    ensures Matches(LedgerOf(steps, i), states[i])
  {
    if i > 0 {
      RunMatchesLedger(states, steps, i - 1);
      RunStepMatches(states, steps, i - 1, LedgerOf(steps, i - 1));
    }
  }

  lemma RunStepMatches(states: seq<State>, steps: seq<Step>, i: nat, l: Ledger)
    requires Run(states, steps) && i < |steps| && Matches(l, states[i])
    ensures Matches(After(l, steps[i]), states[i + 1])
  {
    RunStep(states, steps, i);
    StepMatches(l, states[i], steps[i], states[i + 1]);
  }

  lemma MatchingCommits(l: Ledger, s: State)
    requires MemtablesMatchLogs(s) && Matches(l, s)
    ensures Commits(s) == l.kept + Pending(l) && Unflushed(s) == Pending(l)
  {
  }

  /** What is committed is what the run wrote, less what its crashes took. */
  lemma RunCommitsHistory(states: seq<State>, steps: seq<Step>, i: nat)
    requires Run(states, steps) && i < |states|
    ensures Commits(states[i]) == History(steps, i)
  {
    RunMatchesLedger(states, steps, i);
    RunKeepsSound(states, steps, i);
    MatchingCommits(LedgerOf(steps, i), states[i]);
  }

  /**
   In every reachable state of every run of harmless compactions, at every live
   snapshot, searching the memtable, the immutable memtable and the levels in
   turn answers as the flat map of the run's own writes up to that snapshot.
   */
  lemma RunReads(states: seq<State>, steps: seq<Step>, i: nat, user: UserKey, snapshot: nat,
                 inMem: Option<Entry>, inImm: Option<Entry>, inTree: Option<Entry>)
    requires Run(states, steps) && HarmlessRun(states, steps) && i < |states| && Live(states[i], snapshot)
    requires IsNewest(Elements(states[i].mem), user, snapshot, inMem)
    requires IsNewest(ImmEntries(states[i]), user, snapshot, inImm)
    requires IsNewest(Contents(states[i].disk, states[i].version), user, snapshot, inTree)
    ensures Lookup(Replay(History(steps, i), snapshot), user) ==
            Answer(if inMem.Some? then inMem else if inImm.Some? then inImm else inTree)
  {
    RunKeepsInv(states, steps, i);
    RunCommitsHistory(states, steps, i);
    ReadLayers(states[i], user, snapshot, inMem, inImm, inTree);
  }

  // ----- what the client sees -----

  /** The client's operations, as the steps alone tell: stored for good, in the old log, in the active one. */
  datatype Client = Client(kept: seq<Op>, older: seq<seq<Op>>, active: seq<seq<Op>>)

  ghost function Joined(groups: seq<seq<Op>>): seq<Op> {
    if groups == [] then [] else Joined(groups[..|groups| - 1]) + groups[|groups| - 1]
  }

  ghost function FirstGroups(groups: seq<seq<Op>>, n: nat): seq<Op> {
    Joined(if n <= |groups| then groups[..n] else [])
  }

  ghost function Served(c: Client, step: Step): Client {
    match step
    case Write(ops, _) => c.(active := c.active + [ops])
    case Switch => c.(older := c.active, active := [])
    case Flush(_, _) => c.(kept := c.kept + Joined(c.older), older := [])
    case Recover(keepImm, keep, _, _, _, _, _, _) =>
      Client(c.kept + (FirstGroups(c.older, keepImm) + FirstGroups(c.active, keep)), [], [])
    case _ => c
  }

  ghost function ClientOf(steps: seq<Step>, n: nat): Client
    requires n <= |steps|
    decreases n
  {
    if n == 0 then Client([], [], []) else Served(ClientOf(steps, n - 1), steps[n - 1])
  }

  /** The map a client expects after n steps: its writes in order, without those a crash took. */
  ghost function ClientMap(steps: seq<Step>, n: nat): map<UserKey, Bytes>
    requires n <= |steps|
  {
    var c := ClientOf(steps, n);
    ApplyOps(map[], c.kept + (Joined(c.older) + Joined(c.active)))
  }

  ghost predicate GroupsCarry(es: seq<seq<Entry>>, ops: seq<seq<Op>>) {
    |es| == |ops| && forall i :: 0 <= i < |es| ==> Carries(es[i], ops[i])
  }

  ghost predicate LedgerCarries(l: Ledger, c: Client) {
    Carries(l.kept, c.kept) && GroupsCarry(l.older, c.older) && GroupsCarry(l.active, c.active)
  }

  lemma {:induction false} JoinedCarries(es: seq<seq<Entry>>, ops: seq<seq<Op>>)
    requires GroupsCarry(es, ops)
    ensures Carries(Concat(es), Joined(ops))
  {
    if es != [] {
      var n := |es| - 1;
      JoinedCarries(es[..n], ops[..n]);
      CarriesJoin(Concat(es[..n]), es[n], Joined(ops[..n]), ops[n]);
    }
  }

  lemma FrontCarries(es: seq<seq<Entry>>, ops: seq<seq<Op>>, n: nat)
    requires GroupsCarry(es, ops)
    ensures Carries(Front(es, n), FirstGroups(ops, n))
  {
    JoinedCarries(if n <= |es| then es[..n] else [], if n <= |ops| then ops[..n] else []);
  }

  lemma ServedCarries(l: Ledger, c: Client, step: Step)
    requires LedgerCarries(l, c)
    ensures LedgerCarries(After(l, step), Served(c, step))
  {
    match step
    case Write(ops, _) => SequencedCarries(ops, l.last + 1);
    case Flush(_, _) =>
      JoinedCarries(l.older, c.older);
      CarriesJoin(l.kept, Concat(l.older), c.kept, Joined(c.older));
    case Recover(keepImm, keep, _, _, _, _, _, _) =>
      FrontCarries(l.older, c.older, keepImm);
      FrontCarries(l.active, c.active, keep);
      CarriesJoin(Front(l.older, keepImm), Front(l.active, keep), FirstGroups(c.older, keepImm), FirstGroups(c.active, keep));
      CarriesJoin(l.kept, Front(l.older, keepImm) + Front(l.active, keep),
                  c.kept, FirstGroups(c.older, keepImm) + FirstGroups(c.active, keep));
    case _ =>
  }

  lemma {:induction false} LedgerIsClient(steps: seq<Step>, n: nat)
    requires n <= |steps|
    ensures LedgerCarries(LedgerOf(steps, n), ClientOf(steps, n))
  {
    if n > 0 {
      LedgerIsClient(steps, n - 1);
      ServedCarries(LedgerOf(steps, n - 1), ClientOf(steps, n - 1), steps[n - 1]);
    }
  }

  lemma HistoryCarries(l: Ledger, c: Client)
    requires LedgerCarries(l, c)
    ensures Carries(l.kept + Pending(l), c.kept + (Joined(c.older) + Joined(c.active)))
  {
    JoinedCarries(l.older, c.older);
    JoinedCarries(l.active, c.active);
    CarriesJoin(Concat(l.older), Concat(l.active), Joined(c.older), Joined(c.active));
    CarriesJoin(l.kept, Pending(l), c.kept, Joined(c.older) + Joined(c.active));
  }

  lemma RunSequences(states: seq<State>, steps: seq<Step>, i: nat)
    requires Run(states, steps) && i < |states|
    ensures forall e :: e in History(steps, i) ==> e.key.seqno <= states[i].lastSequence
  {
    RunKeepsSound(states, steps, i);
    RunCommitsHistory(states, steps, i);
  }

  /** In every reachable state the history reads, in the present, as the client's own map. */
  lemma HistoryIsClientMap(states: seq<State>, steps: seq<Step>, i: nat)
    requires Run(states, steps) && i < |states|
    ensures Replay(History(steps, i), states[i].lastSequence) == ClientMap(steps, i)
  {
    RunSequences(states, steps, i);
    LedgerIsClient(steps, i);
    var l, c := LedgerOf(steps, i), ClientOf(steps, i);
    HistoryCarries(l, c);
    ReplayIsApplied(History(steps, i), c.kept + (Joined(c.older) + Joined(c.active)), states[i].lastSequence);
  }

  /**
   A client reading the present finds its own map: the last of its puts to the
   key, or nothing after a deletion, crashes aside.
   */
  lemma PresentReads(states: seq<State>, steps: seq<Step>, i: nat, user: UserKey,
                     inMem: Option<Entry>, inImm: Option<Entry>, inTree: Option<Entry>)
    requires Run(states, steps) && HarmlessRun(states, steps) && i < |states|
    requires IsNewest(Elements(states[i].mem), user, states[i].lastSequence, inMem)
    requires IsNewest(ImmEntries(states[i]), user, states[i].lastSequence, inImm)
    requires IsNewest(Contents(states[i].disk, states[i].version), user, states[i].lastSequence, inTree)
    ensures Answer(if inMem.Some? then inMem else if inImm.Some? then inImm else inTree)
         == if user in ClientMap(steps, i) then Some(ClientMap(steps, i)[user]) else None
  {
    RunReads(states, steps, i, user, states[i].lastSequence, inMem, inImm, inTree);
    HistoryIsClientMap(states, steps, i);
  }

  // ----- what needs a log has one -----

  /**
   In every reachable state the logs that exist from LogNumber() on hold, in
   order, exactly the writes of the run that no flush has covered, so that
   recovery replays them all.
   */
  lemma RunLogsUnflushed(states: seq<State>, steps: seq<Step>, i: nat)
    requires Run(states, steps) && i < |states|
    ensures ReplayLogs(states[i].logs, states[i].logNumber, states[i].nextFile) == Pending(LedgerOf(steps, i))
  {
    RunKeepsSound(states, steps, i);
    RunMatchesLedger(states, steps, i);
    MatchingCommits(LedgerOf(steps, i), states[i]);
    ReplayIsUnflushed(states[i], states[i].logs);
  }

  /** What a step puts aside, a table of the next version holds. */
  lemma StepStores(s: State, step: Step, s': State, e: Entry)
    requires Sound(s) && Next(s, step, s') && e in s'.flushed && e !in s.flushed
    ensures e in Contents(s'.disk, s'.version)
  {
    match step
    case Flush(f, level) => FlushKeepsTreeInv(s, f, level, s');
    case Recover(keepImm, keep, chunks, files, disks, versions, newLog, last) =>
      RecoverKeepsSound(s, keepImm, keep, chunks, files, disks, versions, newLog, last, s');
      RecoveredCommits(s, keepImm, keep, chunks, files, disks, versions, newLog, last, s');
    case _ =>
  }

  lemma {:induction false} KeptWasStored(states: seq<State>, steps: seq<Step>, i: nat, e: Entry)
    requires Run(states, steps) && i < |states| && e in states[i].flushed
    ensures exists j: nat :: j <= i && e in Contents(states[j].disk, states[j].version)
  {
    if i > 0 {
      if e in states[i - 1].flushed {
        KeptWasStored(states, steps, i - 1, e);
      } else {
        RunStepStores(states, steps, i - 1, e);
      }
    }
  }

  lemma RunStepStores(states: seq<State>, steps: seq<Step>, i: nat, e: Entry)
    requires Run(states, steps) && i < |steps| && e in states[i + 1].flushed && e !in states[i].flushed
    ensures e in Contents(states[i + 1].disk, states[i + 1].version)
  {
    RunStep(states, steps, i);
    StepStores(states[i], steps[i], states[i + 1], e);
  }

  /** Every write of the run is in a log recovery will replay, or has been in a table of the version. */
  lemma LoggedOrStored(states: seq<State>, steps: seq<Step>, i: nat, e: Entry)
    requires Run(states, steps) && i < |states| && e in History(steps, i)
    ensures e in ReplayLogs(states[i].logs, states[i].logNumber, states[i].nextFile)
         || exists j: nat :: j <= i && e in Contents(states[j].disk, states[j].version)
  {
    RunLogsUnflushed(states, steps, i);
    RunMatchesLedger(states, steps, i);
    if e in LedgerOf(steps, i).kept {
      KeptWasStored(states, steps, i, e);
    }
  }

  // ----- durability -----

  /** What no crash can take: the tables' commits and the synced groups of both logs. */
  ghost function Durable(s: State): set<Entry> {
    Elements(s.flushed) + Elements(Front(ImmGroups(s), s.immSynced))
    + (if s.logfile in s.logs then Elements(Front(s.logs[s.logfile], s.synced)) else {})
  }

  lemma StepKeepsDurable(s: State, step: Step, s': State)
    requires Sound(s) && Next(s, step, s')
    ensures Durable(s) <= Durable(s')
  {
    match step
    case Write(ops, sync) => WriteKeepsDurable(s, ops, sync, s');
    case Switch =>
      assert Concat(s'.logs[s'.logfile][..0]) == [];
    case Flush(_, _) => FlushKeepsDurable(s, s');
    case Recover(keepImm, keep, chunks, files, disks, versions, newLog, last) =>
      RecoveredCommits(s, keepImm, keep, chunks, files, disks, versions, newLog, last, s');
      RecoverKeepsDurable(s, keepImm, keep);
    case _ =>
  }

  /** More groups hold more entries. */
  lemma FrontGrows(groups: seq<seq<Entry>>, a: nat, b: nat)
    requires a <= b <= |groups|
    ensures Elements(Concat(groups[..a])) <= Elements(Concat(groups[..b]))
  {
    ConcatSplit(groups[..b], a);
    assert groups[..b][..a] == groups[..a];
  }

  lemma WriteKeepsDurable(s: State, ops: seq<Op>, sync: bool, s': State)
    requires MemtablesMatchLogs(s) && WriteStep(s, ops, sync, s')
    ensures Durable(s) <= Durable(s')
    ensures sync ==> Elements(Sequenced(ops, s.lastSequence + 1)) <= Durable(s')
  {
    var group := Sequenced(ops, s.lastSequence + 1);
    var groups, groups' := s.logs[s.logfile], s'.logs[s'.logfile];
    assert groups'[..s.synced] == groups[..s.synced];
    FrontGrows(groups', s.synced, s'.synced);
    assert ImmGroups(s') == ImmGroups(s);
    if sync {
      assert groups'[..s'.synced] == groups + [group];
      ConcatAppend(groups, group);
    }
  }

  lemma FlushKeepsDurable(s: State, s': State)
    requires MemtablesMatchLogs(s) && s.imm.Some?
    requires s'.flushed == s.flushed + Logged(s, s.immLog) && s'.logs == s.logs && s'.logfile == s.logfile && s'.synced == s.synced
    ensures Durable(s) <= Durable(s')
  {
    FrontGrows(s.logs[s.immLog], s.immSynced, |s.logs[s.immLog]|);
    assert s.logs[s.immLog][..|s.logs[s.immLog]|] == s.logs[s.immLog];
  }

  lemma RecoverKeepsDurable(s: State, keepImm: nat, keep: nat)
    requires MemtablesMatchLogs(s) && CutTo(s, keepImm, keep)
    ensures Durable(s) <= Elements(s.flushed + (KeptImm(s, keepImm) + KeptActive(s, keep)))
  {
    FrontGrows(s.logs[s.logfile], s.synced, keep);
    if s.imm.Some? {
      FrontGrows(s.logs[s.immLog], s.immSynced, keepImm);
    }
  }

  lemma DurableIsCommitted(s: State)
    requires MemtablesMatchLogs(s)
    ensures Durable(s) <= Elements(Commits(s))
  {
    FrontGrows(s.logs[s.logfile], s.synced, |s.logs[s.logfile]|);
    assert s.logs[s.logfile][..|s.logs[s.logfile]|] == s.logs[s.logfile];
    if s.imm.Some? {
      FrontGrows(s.logs[s.immLog], s.immSynced, |s.logs[s.immLog]|);
      assert s.logs[s.immLog][..|s.logs[s.immLog]|] == s.logs[s.immLog];
    }
  }

  /** What no crash can take from state i on. */
  ghost predicate DurableAt(states: seq<State>, i: nat, e: Entry) {
    i < |states| && e in Durable(states[i])
  }

  lemma RunStepDurable(states: seq<State>, steps: seq<Step>, i: nat, e: Entry)
    requires Run(states, steps) && i < |steps| && DurableAt(states, i, e)
    ensures DurableAt(states, i + 1, e)
  {
    RunStep(states, steps, i);
    StepKeepsDurable(states[i], steps[i], states[i + 1]);
  }

  /** What is durable stays so, crashes included. */
  lemma {:induction false} RunKeepsDurable(states: seq<State>, steps: seq<Step>, i: nat, j: nat, e: Entry)
    requires Run(states, steps) && i <= j < |states| && DurableAt(states, i, e)
    ensures DurableAt(states, j, e)
    decreases j - i
  {
    if i < j {
      RunKeepsDurable(states, steps, i, j - 1, e);
      RunStepDurable(states, steps, j - 1, e);
    }
  }

  /** An entry that step i, a synced write, adds. */
  ghost predicate SyncedBy(steps: seq<Step>, i: nat, e: Entry) {
    i < |steps| && steps[i].Write? && steps[i].sync && e in Sequenced(steps[i].ops, LedgerOf(steps, i).last + 1)
  }

  lemma RunWriteDurable(states: seq<State>, steps: seq<Step>, i: nat, e: Entry)
    requires Run(states, steps) && SyncedBy(steps, i, e)
    ensures DurableAt(states, i + 1, e)
  {
    RunNumbers(states, steps, i);
    RunStep(states, steps, i);
    SyncedGroupIsDurable(states[i], steps[i], states[i + 1], LedgerOf(steps, i).last, e);
  }

  lemma RunNumbers(states: seq<State>, steps: seq<Step>, i: nat)
    requires Run(states, steps) && i < |states|
    ensures LedgerOf(steps, i).last == states[i].lastSequence
  {
    RunMatchesLedger(states, steps, i);
  }

  lemma SyncedGroupIsDurable(s: State, step: Step, s': State, last: nat, e: Entry)
    requires Sound(s) && Next(s, step, s') && step.Write? && step.sync && last == s.lastSequence
    requires e in Sequenced(step.ops, last + 1)
    ensures e in Durable(s')
  {
    WriteKeepsDurable(s, step.ops, true, s');
  }

  lemma RunDurableInHistory(states: seq<State>, steps: seq<Step>, i: nat, e: Entry)
    requires Run(states, steps) && i < |states| && DurableAt(states, i, e)
    ensures e in History(steps, i)
  {
    RunKeepsSound(states, steps, i);
    RunCommitsHistory(states, steps, i);
    DurableIsCommitted(states[i]);
  }

  /** Durability: what a synced write adds is in the history of every later state, crashes included. */
  lemma SyncedWriteSurvives(states: seq<State>, steps: seq<Step>, i: nat, j: nat, e: Entry)
    requires Run(states, steps) && SyncedBy(steps, i, e) && i < j < |states|
    ensures e in History(steps, j)
  {
    RunWriteDurable(states, steps, i, e);
    RunKeepsDurable(states, steps, i + 1, j, e);
    RunDurableInHistory(states, steps, j, e);
  }

  // ----- snapshots -----

  lemma {:induction false} LaterCommitsUnseen(h: seq<Entry>, more: seq<Entry>, snapshot: nat)
    requires forall e :: e in more ==> e.key.seqno > snapshot
    ensures Replay(h + more, snapshot) == Replay(h, snapshot)
    decreases |more|
  {
    if more == [] {
      assert h + more == h;
    } else {
      var n := |more| - 1;
      assert (h + more)[..|h + more| - 1] == h + more[..n];
      assert (h + more)[|h + more| - 1] == more[n] && more[n] in more;
      LaterCommitsUnseen(h, more[..n], snapshot);
    }
  }

  lemma GroupUnseen(h: seq<Entry>, ops: seq<Op>, last: nat, snapshot: nat)
    requires snapshot <= last
    ensures Replay(h + Sequenced(ops, last + 1), snapshot) == Replay(h, snapshot)
  {
    var group := Sequenced(ops, last + 1);
    forall e | e in group ensures e.key.seqno > snapshot {
    }
    LaterCommitsUnseen(h, group, snapshot);
  }

  lemma SequenceGrows(s: State, step: Step, s': State)
    requires Next(s, step, s') && !step.Recover?
    ensures s.lastSequence <= s'.lastSequence
  {
  }

  lemma WriteUnseen(s: State, ops: seq<Op>, sync: bool, s': State, snapshot: nat)
    requires MemtablesMatchLogs(s) && CommitsInOrder(s) && WriteStep(s, ops, sync, s') && snapshot <= s.lastSequence
    ensures Replay(Commits(s'), snapshot) == Replay(Commits(s), snapshot)
  {
    WriteExtendsCommits(s, ops, sync, s');
    GroupUnseen(Commits(s), ops, s.lastSequence, snapshot);
  }

  /** Background work and snapshots commit nothing. */
  lemma QuietStep(s: State, step: Step, s': State)
    requires MemtablesMatchLogs(s) && CommitsInOrder(s) && CountersOk(s) && Next(s, step, s')
    requires !step.Write? && !step.Recover?
    ensures Commits(s') == Commits(s)
  {
    match step
    case Switch => SwitchKeepsCommits(s, s');
    case Flush(f, level) => FlushKeepsLogs(s, f, level, s');
    case DeleteObsolete(live) => DeleteKeepsLogs(s, live, s');
    case _ =>
  }

  lemma StepKeepsSnapshot(s: State, step: Step, s': State, snapshot: nat)
    requires MemtablesMatchLogs(s) && CommitsInOrder(s) && CountersOk(s)
    requires Next(s, step, s') && !step.Recover? && snapshot <= s.lastSequence
    ensures Replay(Commits(s'), snapshot) == Replay(Commits(s), snapshot)
  {
    if step.Write? {
      WriteUnseen(s, step.ops, step.sync, s', snapshot);
    } else {
      QuietStep(s, step, s');
    }
  }

  /** A held snapshot keeps reading the same map until a crash, whatever else happens. */
  lemma {:induction false} SnapshotReadsRepeat(states: seq<State>, steps: seq<Step>, i: nat, j: nat, snapshot: nat)
    requires Run(states, steps) && i <= j < |states| && Live(states[i], snapshot)
    requires forall k :: i <= k < j ==> !steps[k].Recover?
    ensures Replay(History(steps, j), snapshot) == Replay(History(steps, i), snapshot)
    ensures snapshot <= states[j].lastSequence
    decreases j - i
  {
    LiveIsPast(states, steps, i, snapshot);
    if i < j {
      SnapshotReadsRepeat(states, steps, i, j - 1, snapshot);
      RunStepKeepsSnapshot(states, steps, j - 1, snapshot);
    }
  }

  lemma LiveIsPast(states: seq<State>, steps: seq<Step>, i: nat, snapshot: nat)
    requires Run(states, steps) && i < |states| && Live(states[i], snapshot)
    ensures snapshot <= states[i].lastSequence
  {
    RunKeepsSound(states, steps, i);
  }

  lemma RunStepKeepsSnapshot(states: seq<State>, steps: seq<Step>, k: nat, snapshot: nat)
    requires Run(states, steps) && k < |steps| && !steps[k].Recover? && snapshot <= states[k].lastSequence
    ensures Replay(History(steps, k + 1), snapshot) == Replay(History(steps, k), snapshot)
    ensures snapshot <= states[k + 1].lastSequence
  {
    RunCommitsHistory(states, steps, k);
    RunCommitsHistory(states, steps, k + 1);
    RunStep(states, steps, k);
    SequenceGrows(states[k], steps[k], states[k + 1]);
    StepKeepsSnapshot(states[k], steps[k], states[k + 1], snapshot);
  }

  /** Until a crash, a snapshot taken in state i reads the client's map of that moment. */
  lemma SnapshotReadsItsMap(states: seq<State>, steps: seq<Step>, i: nat, j: nat)
    requires Run(states, steps) && i <= j < |states|
    requires forall k :: i <= k < j ==> !steps[k].Recover?
    ensures Replay(History(steps, j), states[i].lastSequence) == ClientMap(steps, i)
  {
    SnapshotReadsRepeat(states, steps, i, j, states[i].lastSequence);
    HistoryIsClientMap(states, steps, i);
  }

  /**
   What an iterator over all layers shows in the present is the client's map:
   `es` lists the entries of the memtables and the tree.
   */
  lemma IterationShowsClientMap(states: seq<State>, steps: seq<Step>, i: nat, es: seq<Entry>, user: UserKey)
    requires Run(states, steps) && HarmlessRun(states, steps) && i < |states|
    requires Elements(es) == Elements(states[i].mem) + (ImmEntries(states[i]) + Contents(states[i].disk, states[i].version))
    ensures DbIterator.Shown(es, states[i].lastSequence, user)
         == if user in ClientMap(steps, i) then Some(ClientMap(steps, i)[user]) else None
  {
    RunKeepsInv(states, steps, i);
    LayersAreOrdered(states[i]);
    RunCommitsHistory(states, steps, i);
    HistoryIsClientMap(states, steps, i);
    ReplayIsView(Commits(states[i]), user, states[i].lastSequence);
  }
}
