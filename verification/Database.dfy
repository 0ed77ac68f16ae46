/**
 The database as a state machine: write groups, memtable switches, flushes,
 moves, compactions, file deletion, snapshots, and crash recovery. In every
 reachable state every live read returns what replaying the committed
 operations into one flat map would give (db_impl.cc).
 */
module Database {
  import opened InternalKeys
  import opened Versions
  import opened InputSelection
  import opened TreeSteps
  import opened Compactions
  import opened CompactionSteps

  // ----- the flat specification -----

  /** Committed entries in commit order have increasing sequence numbers. */
  ghost predicate Ascending(h: seq<Entry>) {
    forall i, j :: 0 <= i < j < |h| ==> h[i].key.seqno < h[j].key.seqno
  }

  /** The map left by the operations up to `snapshot`, in commit order. */
  ghost function Replay(h: seq<Entry>, snapshot: nat): map<UserKey, Bytes> {
    if h == [] then map[]
    else
      var e := h[|h| - 1];
      var m := Replay(h[..|h| - 1], snapshot);
      if e.key.seqno > snapshot then m
      else if e.key.kind.Value? then m[e.key.user := e.value]
      else m - {e.key.user}
  }

  ghost function Lookup(m: map<UserKey, Bytes>, user: UserKey): Option<Bytes> {
    if user in m then Some(m[user]) else None
  }

  lemma AscendingDistinct(h: seq<Entry>)
    requires Ascending(h)
    ensures Distinct(Elements(h))
  {
    forall a, b | a in h && b in h && a.key.seqno == b.key.seqno ensures a == b {
      var i :| 0 <= i < |h| && h[i] == a;
      var j :| 0 <= j < |h| && h[j] == b;
    }
  }

  /** A newer entry decides the reads it is visible to and no others. */
  lemma ViewAppend(front: set<Entry>, e: Entry, user: UserKey, snapshot: nat)
    requires Distinct(front) && Newer({e}, front) && e !in front
    ensures View(front + {e}, user, snapshot) ==
            if Candidate(e, user, snapshot) then Answer(Some(e)) else View(front, user, snapshot)
  {
    var found := FindNewest(front, user, snapshot);
    ViewIs(front, user, snapshot, found);
    NewestLayered({e}, front, user, snapshot, if Candidate(e, user, snapshot) then Some(e) else None, found);
    assert {e} + front == front + {e};
    ViewIs(front + {e}, user, snapshot, if Candidate(e, user, snapshot) then Some(e) else found);
  }

  lemma AscendingSplit(h: seq<Entry>, n: nat)
    requires Ascending(h) && |h| == n + 1
    ensures Ascending(h[..n]) && Distinct(Elements(h[..n])) && Newer({h[n]}, Elements(h[..n])) && h[n] !in h[..n]
    ensures Elements(h) == Elements(h[..n]) + {h[n]}
  {
    AscendingDistinct(h[..n]);
    assert h == h[..n] + [h[n]];
  }

  /** The newest-visible view of the committed entries is the replayed map. */
  lemma {:induction false} ReplayIsView(h: seq<Entry>, user: UserKey, snapshot: nat)
    requires Ascending(h)
    ensures View(Elements(h), user, snapshot) == Lookup(Replay(h, snapshot), user)
  {
    if h == [] {
      ViewIs(Elements(h), user, snapshot, None);
    } else {
      var n := |h| - 1;
      AscendingSplit(h, n);
      ReplayIsView(h[..n], user, snapshot);
      ViewAppend(Elements(h[..n]), h[n], user, snapshot);
    }
  }

  /** Newer data on top of two sets with the same views leaves the same views. */
  lemma SameViewsUnder(top: set<Entry>, a: set<Entry>, b: set<Entry>, horizon: nat)
    requires SameViews(a, b, horizon) && Newer(top, a) && Newer(top, b)
    requires Distinct(top + a) && Distinct(top + b)
    ensures SameViews(top + a, top + b, horizon)
  {
    forall user, snapshot | snapshot >= horizon ensures View(top + a, user, snapshot) == View(top + b, user, snapshot) {
      var above := FindNewest(top, user, snapshot);
      var inA, inB := FindNewest(a, user, snapshot), FindNewest(b, user, snapshot);
      NewestLayered(top, a, user, snapshot, above, inA);
      NewestLayered(top, b, user, snapshot, above, inB);
      ViewIs(top + a, user, snapshot, if above.Some? then above else inA);
      ViewIs(top + b, user, snapshot, if above.Some? then above else inB);
      ViewIs(a, user, snapshot, inA);
      ViewIs(b, user, snapshot, inB);
    }
  }

  // ----- the state -----

  /**
   `logs` maps a log number to the write groups in it; the first `synced` groups
   of the active log and `immSynced` of the immutable memtable's are on stable
   storage. `flushed` is the
   committed entries no longer needed from any log, in commit order, and
   `horizon` the oldest snapshot whose reads are still kept.
   */
  datatype State = State(
    disk: Disk, version: Version,
    mem: seq<Entry>, imm: Option<seq<Entry>>,
    logs: map<nat, seq<seq<Entry>>>, logfile: nat, immLog: nat, logNumber: nat,
    synced: nat, immSynced: nat,
    lastSequence: nat, savedSequence: nat, nextFile: nat, savedNext: nat,
    snapshots: multiset<nat>,
    flushed: seq<Entry>, horizon: nat)

  /** Entries held by one log file, in commit order. */
  function Logged(s: State, log: nat): seq<Entry> {
    if log in s.logs then Concat(s.logs[log]) else []
  }

  ghost function Unflushed(s: State): seq<Entry> {
    (if s.imm.Some? then Logged(s, s.immLog) else []) + Logged(s, s.logfile)
  }

  /** Every committed operation, in commit order. */
  ghost function Commits(s: State): seq<Entry> {
    s.flushed + Unflushed(s)
  }

  ghost predicate MemtablesMatchLogs(s: State) {
    && s.logfile in s.logs && s.logNumber <= s.logfile
    && Sorted(s.mem) && Elements(s.mem) == Elements(Logged(s, s.logfile))
    && (s.imm.Some? ==>
          && s.immLog in s.logs && s.logNumber <= s.immLog < s.logfile
          && Sorted(s.imm.value) && Elements(s.imm.value) == Elements(Logged(s, s.immLog))
          && s.immSynced <= |s.logs[s.immLog]|)
    && (forall n :: n in s.logs && n >= s.logNumber ==> n == s.logfile || (s.imm.Some? && n == s.immLog))
    && s.synced <= |s.logs[s.logfile]|
  }

  ghost predicate CommitsInOrder(s: State) {
    && Ascending(Commits(s))
    && (forall e :: e in Commits(s) ==> e.key.seqno <= s.lastSequence)
    && (forall e :: e in s.flushed ==> e.key.seqno <= s.savedSequence)
  }

  /** The tree keeps its invariants and holds nothing but commits of `h`. */
  ghost predicate Holds(disk: Disk, v: Version, h: seq<Entry>) {
    SortedTree(disk, v) && Contents(disk, v) <= Elements(h)
  }

  ghost predicate TreeHolds(s: State) {
    Holds(s.disk, s.version, s.flushed)
  }

  /** What is missing from the tree cannot be seen by any read from `horizon` on. */
  ghost predicate TreeReads(s: State) {
    SameViews(Contents(s.disk, s.version), Elements(s.flushed), s.horizon)
  }

  ghost predicate CountersOk(s: State) {
    && s.horizon <= s.savedSequence <= s.lastSequence < MAX_SEQUENCE
    && (forall x :: x in s.snapshots ==> s.horizon <= x <= s.lastSequence)
    && (forall m: nat, h :: Placed(s.version, m, h) ==> h.number < s.savedNext)
    && s.savedNext <= s.nextFile
    && (forall n :: n in s.disk ==> n < s.savedNext)
    && (forall n :: n in s.logs ==> 0 < n < s.nextFile)
  }

  /** What every run keeps, whatever its compactions choose. */
  ghost predicate Sound(s: State) {
    MemtablesMatchLogs(s) && CommitsInOrder(s) && TreeHolds(s) && CountersOk(s)
  }

  /** Reads are exact as well. */
  ghost predicate Inv(s: State) {
    Sound(s) && TreeReads(s)
  }

  /** A snapshot a reader may use: a held one, or the present. */
  ghost predicate Live(s: State, snapshot: nat) {
    snapshot in s.snapshots || snapshot == s.lastSequence
  }

  // ----- reads -----

  lemma PrefixOlder(a: seq<Entry>, b: seq<Entry>)
    requires Ascending(a + b)
    ensures Newer(Elements(b), Elements(a)) && Distinct(Elements(a) + Elements(b)) && Ascending(a) && Ascending(b)
  {
    var h := a + b;
    AscendingDistinct(h);
    forall i, j | 0 <= i < j < |a| ensures a[i].key.seqno < a[j].key.seqno {
      assert h[i] == a[i] && h[j] == a[j];
    }
    forall x, y | x in b && y in a ensures x.key.seqno > y.key.seqno {
      var i :| 0 <= i < |b| && b[i] == x;
      var j :| 0 <= j < |a| && a[j] == y;
      assert h[j] == y && h[|a| + i] == x;
    }
    forall i, j | 0 <= i < j < |b| ensures b[i].key.seqno < b[j].key.seqno {
      assert h[|a| + i] == b[i] && h[|a| + j] == b[j];
    }
    assert Elements(a) + Elements(b) == Elements(h);
  }

  /** DBImpl::Get: the memtable, then the immutable memtable, then the current version. */
  method Get(s: State, user: UserKey, snapshot: nat) returns (r: Option<Bytes>)
    requires Inv(s) && s.horizon <= snapshot
    ensures r == Lookup(Replay(Commits(s), snapshot), user)
  {
    ghost var imm := if s.imm.Some? then s.imm.value else [];
    var inMem := SearchRun(s.mem, user, snapshot);
    SearchRunIsNewest(s.mem, user, snapshot);
    if inMem.Some? {
      r := Answer(inMem);
      ReadLayers(s, user, snapshot, inMem, None, None);
      return;
    }
    var inImm: Option<Entry> := None;
    if s.imm.Some? {
      inImm := SearchRun(s.imm.value, user, snapshot);
      SearchRunIsNewest(s.imm.value, user, snapshot);
      if inImm.Some? {
        r := Answer(inImm);
        ReadLayers(s, user, snapshot, inMem, inImm, None);
        return;
      }
    }
    var inTree := Versions.Get(s.disk, s.version, user, snapshot);
    r := Answer(inTree);
    ReadLayers(s, user, snapshot, inMem, inImm, inTree);
  }

  ghost function ImmEntries(s: State): set<Entry> {
    if s.imm.Some? then Elements(s.imm.value) else {}
  }

  /** The first layer that answers, answers as the replayed map does. */
  lemma ReadLayers(s: State, user: UserKey, snapshot: nat, inMem: Option<Entry>, inImm: Option<Entry>, inTree: Option<Entry>)
    requires Inv(s) && s.horizon <= snapshot
    requires IsNewest(Elements(s.mem), user, snapshot, inMem)
    requires inMem.None? ==> IsNewest(ImmEntries(s), user, snapshot, inImm)
    requires inMem.None? && inImm.None? ==> IsNewest(Contents(s.disk, s.version), user, snapshot, inTree)
    ensures Lookup(Replay(Commits(s), snapshot), user) ==
            Answer(if inMem.Some? then inMem else if inImm.Some? then inImm else inTree)
  {
    var tree, imm, mem := Contents(s.disk, s.version), ImmEntries(s), Elements(s.mem);
    LayersAreOrdered(s);
    NewestLayered(imm, tree, user, snapshot, if inMem.Some? then FindNewest(imm, user, snapshot) else inImm,
                  if inMem.Some? || inImm.Some? then FindNewest(tree, user, snapshot) else inTree);
    var below := FindNewest(imm + tree, user, snapshot);
    NewestLayered(mem, imm + tree, user, snapshot, inMem,
                  if inMem.Some? then below else if inImm.Some? then inImm else inTree);
    ViewIs(mem + (imm + tree), user, snapshot, if inMem.Some? then inMem else if inImm.Some? then inImm else inTree);
    ReplayIsView(Commits(s), user, snapshot);
  }

  /** Memtables lie above the tree, newest first, and together they read as the committed entries do. */
  lemma LayersAreOrdered(s: State)
    requires Inv(s)
    ensures var tree, imm, mem := Contents(s.disk, s.version), ImmEntries(s), Elements(s.mem);
            && Newer(imm, tree) && Newer(mem, imm + tree) && Distinct(mem + (imm + tree))
            && SameViews(mem + (imm + tree), Elements(Commits(s)), s.horizon)
  {
    var tree, imm, mem := Contents(s.disk, s.version), ImmEntries(s), Elements(s.mem);
    var f, u := Elements(s.flushed), Unflushed(s);
    PrefixOlder(s.flushed, u);
    PrefixOlder(if s.imm.Some? then Logged(s, s.immLog) else [], Logged(s, s.logfile));
    assert Elements(u) == imm + mem;
    assert Elements(Commits(s)) == f + Elements(u);
    assert mem + (imm + tree) == Elements(u) + tree;
    SameViewsUnder(Elements(u), tree, f, s.horizon);
    assert Elements(u) + f == Elements(Commits(s));
  }

  // ----- writes and memtable switches -----

  datatype Op = Op(user: UserKey, kind: ValueType, value: Bytes)

  /** MemTableInserter: consecutive sequence numbers from `first`. */
  function Sequenced(ops: seq<Op>, first: nat): (es: seq<Entry>)
    ensures |es| == |ops|
    ensures forall i :: 0 <= i < |es| ==> es[i].key.seqno == first + i
  {
    seq(|ops|, i requires 0 <= i < |ops| =>
      Entry(InternalKey(ops[i].user, first + i, ops[i].kind), if ops[i].kind.Value? then ops[i].value else []))
  }

  /** What the client means: a put sets its key, a deletion removes it. */
  function ApplyOps(m: map<UserKey, Bytes>, ops: seq<Op>): map<UserKey, Bytes> {
    if ops == [] then m
    else
      var n := |ops| - 1;
      var before := ApplyOps(m, ops[..n]);
      if ops[n].kind.Value? then before[ops[n].user := ops[n].value] else before - {ops[n].user}
  }

  /** Entry by entry the same keys, kinds and values. */
  ghost predicate Carries(es: seq<Entry>, ops: seq<Op>) {
    |es| == |ops| && forall i :: 0 <= i < |es| ==>
      && es[i].key.user == ops[i].user && es[i].key.kind == ops[i].kind
      && (ops[i].kind.Value? ==> es[i].value == ops[i].value)
  }

  lemma SequencedCarries(ops: seq<Op>, first: nat)
    ensures Carries(Sequenced(ops, first), ops)
  {
  }

  lemma CarriesJoin(a: seq<Entry>, b: seq<Entry>, x: seq<Op>, y: seq<Op>)
    requires Carries(a, x) && Carries(b, y)
    ensures Carries(a + b, x + y)
  {
  }

  /** Replaying entries that are all visible is applying the client's operations in order. */
  lemma {:induction false} ReplayIsApplied(es: seq<Entry>, ops: seq<Op>, snapshot: nat)
    requires Carries(es, ops) && forall e :: e in es ==> e.key.seqno <= snapshot
    ensures Replay(es, snapshot) == ApplyOps(map[], ops)
  {
    if es != [] {
      var n := |es| - 1;
      assert es[n] in es;
      ReplayIsApplied(es[..n], ops[..n], snapshot);
    }
  }

  /** MemTable::Add of each entry in turn. */
  function InsertAll(run: seq<Entry>, es: seq<Entry>): (r: seq<Entry>)
    ensures forall e :: e in r <==> e in run || e in es
  {
    if es == [] then run
    else
      assert es == es[..|es| - 1] + [es[|es| - 1]];
      Merge(InsertAll(run, es[..|es| - 1]), [es[|es| - 1]])
  }

  lemma InsertedAreOlder(run: seq<Entry>, es: seq<Entry>, e: Entry)
    requires forall x :: x in run || x in es ==> x.key.seqno < e.key.seqno
    ensures KeysDiffer(Elements(InsertAll(run, es)), Elements([e]))
  {
    forall x, y | x in Elements(InsertAll(run, es)) && y in Elements([e]) ensures x.key != y.key {
      assert y == e && (x in run || x in es);
    }
  }

  lemma AddSorted(run: seq<Entry>, e: Entry)
    requires Sorted(run) && KeysDiffer(Elements(run), Elements([e]))
    ensures Sorted(Merge(run, [e]))
  {
    MergeSorted(run, [e]);
  }

  lemma LastIsNewest(run: seq<Entry>, es: seq<Entry>, n: nat)
    requires |es| == n + 1 && Ascending(es)
    requires forall x, y :: x in run && y in es ==> x.key.seqno < y.key.seqno
    ensures Ascending(es[..n]) && forall x :: x in run || x in es[..n] ==> x.key.seqno < es[n].key.seqno
    ensures forall x, y :: x in run && y in es[..n] ==> x.key.seqno < y.key.seqno
  {
    assert es[n] in es && forall y :: y in es[..n] ==> y in es;
  }

  lemma {:induction false} InsertAllSorted(run: seq<Entry>, es: seq<Entry>)
    requires Sorted(run) && Ascending(es)
    requires forall x, y :: x in run && y in es ==> x.key.seqno < y.key.seqno
    ensures Sorted(InsertAll(run, es))
    decreases |es|
  {
    if es != [] {
      var n := |es| - 1;
      LastIsNewest(run, es, n);
      InsertAllSorted(run, es[..n]);
      InsertedAreOlder(run, es[..n], es[n]);
      AddSorted(InsertAll(run, es[..n]), es[n]);
    }
  }

  /** A write group: one log record, one block of sequence numbers, then published. */
  ghost predicate WriteStep(s: State, ops: seq<Op>, sync: bool, s': State) {
    && s.logfile in s.logs && s.lastSequence + |ops| < MAX_SEQUENCE
    && var group := Sequenced(ops, s.lastSequence + 1);
       s' == s.(mem := InsertAll(s.mem, group),
                logs := s.logs[s.logfile := s.logs[s.logfile] + [group]],
                synced := if sync then |s.logs[s.logfile]| + 1 else s.synced,
                lastSequence := s.lastSequence + |ops|)
  }

  lemma AppendAscending(h: seq<Entry>, es: seq<Entry>, last: nat)
    requires Ascending(h) && Ascending(es)
    requires forall e :: e in h ==> e.key.seqno <= last
    requires forall e :: e in es ==> e.key.seqno > last
    ensures Ascending(h + es)
  {
    assert forall i :: 0 <= i < |h| ==> h[i] in h;
    assert forall i :: 0 <= i < |es| ==> es[i] in es;
  }

  lemma WriteExtendsCommits(s: State, ops: seq<Op>, sync: bool, s': State)
    requires MemtablesMatchLogs(s) && CommitsInOrder(s) && WriteStep(s, ops, sync, s')
    ensures Logged(s', s.logfile) == Logged(s, s.logfile) + Sequenced(ops, s.lastSequence + 1)
    ensures Commits(s') == Commits(s) + Sequenced(ops, s.lastSequence + 1) && CommitsInOrder(s')
  {
    var group := Sequenced(ops, s.lastSequence + 1);
    ConcatAppend(s.logs[s.logfile], group);
    assert s.imm.Some? ==> Logged(s', s.immLog) == Logged(s, s.immLog);
    assert Commits(s') == Commits(s) + group;
    AppendAscending(Commits(s), group, s.lastSequence);
  }

  lemma WriteFillsMemtable(s: State, ops: seq<Op>, sync: bool, s': State)
    requires MemtablesMatchLogs(s) && CommitsInOrder(s) && WriteStep(s, ops, sync, s')
    requires Logged(s', s.logfile) == Logged(s, s.logfile) + Sequenced(ops, s.lastSequence + 1)
    ensures MemtablesMatchLogs(s')
  {
    forall x | x in s.mem ensures x.key.seqno <= s.lastSequence {
      assert x in Elements(Logged(s, s.logfile)) && x in Commits(s);
    }
    var group := Sequenced(ops, s.lastSequence + 1);
    InsertAllSorted(s.mem, group);
    assert Elements(s'.mem) == Elements(s.mem) + Elements(group);
    assert Elements(Logged(s', s'.logfile)) == Elements(Logged(s, s.logfile)) + Elements(group);
    assert s.imm.Some? ==> Logged(s', s.immLog) == Logged(s, s.immLog);
  }

  lemma WriteKeepsSound(s: State, ops: seq<Op>, sync: bool, s': State)
    requires Sound(s) && WriteStep(s, ops, sync, s')
    ensures Sound(s') && (TreeReads(s) ==> TreeReads(s')) && Commits(s') == Commits(s) + Sequenced(ops, s.lastSequence + 1)
  {
    WriteExtendsCommits(s, ops, sync, s');
    WriteFillsMemtable(s, ops, sync, s');
  }

  /** MakeRoomForWrite: a new log and memtable; the old memtable becomes immutable. */
  ghost predicate SwitchStep(s: State, s': State) {
    && s.imm.None?
    && s' == s.(imm := Some(s.mem), immLog := s.logfile, mem := [],
                logs := s.logs[s.nextFile := []], logfile := s.nextFile,
                synced := 0, immSynced := s.synced, nextFile := s.nextFile + 1)
  }

  lemma SwitchKeepsCommits(s: State, s': State)
    requires MemtablesMatchLogs(s) && CountersOk(s) && SwitchStep(s, s')
    ensures MemtablesMatchLogs(s') && Commits(s') == Commits(s)
  {
    assert s.logfile in s.logs && s.logfile != s.nextFile;
    assert Logged(s', s'.immLog) == Logged(s, s.logfile);
    assert Logged(s', s'.logfile) == [];
    assert Unflushed(s') == Unflushed(s);
  }

  lemma SwitchKeepsSound(s: State, s': State)
    requires Sound(s) && SwitchStep(s, s')
    ensures Sound(s') && (TreeReads(s) ==> TreeReads(s')) && Commits(s') == Commits(s)
  {
    SwitchKeepsCommits(s, s');
  }

  // ----- flush -----

  /** WriteLevel0Table: a sorted run becomes table `f` at `level`. */
  ghost predicate TableAdded(disk: Disk, v: Version, f: FileMeta, run: seq<Entry>, level: nat, disk': Disk, v': Version) {
    && |run| > 0 && level < NUM_LEVELS
    && f.smallest == run[0].key && f.largest == run[|run| - 1].key
    && f.number !in disk && disk' == disk[f.number := run]
    && (forall m: nat, h :: Placed(v, m, h) ==> h.number < f.number)
    && (level > 0 ==> ClearDownTo(v, level, f.smallest.user, f.largest.user))
    && Inserted(v, level, f, v')
  }

  /** Newer commits on top of a set of commits of `h`. */
  lemma NewerOnTop(tree: set<Entry>, h: seq<Entry>, more: seq<Entry>)
    requires Ascending(h + more) && tree <= Elements(h)
    ensures Newer(Elements(more), tree) && Distinct(tree + Elements(more))
    ensures tree + Elements(more) <= Elements(h + more)
  {
    PrefixOlder(h, more);
    assert Elements(h + more) == Elements(more) + Elements(h);
  }

  lemma ViewsExtend(tree: set<Entry>, h: seq<Entry>, more: seq<Entry>, horizon: nat)
    requires Ascending(h + more) && tree <= Elements(h) && SameViews(tree, Elements(h), horizon)
    ensures SameViews(tree + Elements(more), Elements(h + more), horizon)
  {
    PrefixOlder(h, more);
    SameViewsUnder(Elements(more), tree, Elements(h), horizon);
    assert tree + Elements(more) == Elements(more) + tree;
    assert Elements(h + more) == Elements(more) + Elements(h);
  }

  lemma TableKeepsTree(disk: Disk, v: Version, f: FileMeta, run: seq<Entry>, level: nat, disk': Disk, v': Version)
    requires SortedTree(disk, v) && Sorted(run) && TableAdded(disk, v, f, run, level, disk', v')
    requires Newer(Elements(run), Contents(disk, v)) && Distinct(Contents(disk, v) + Elements(run))
    ensures SortedTree(disk', v') && Contents(disk', v') == Contents(disk, v) + Elements(run)
  {
    assert Extends(disk, disk') && Stored(disk', f) && Table(disk', f) == Elements(run);
    FlushKeepsTree(disk, disk', v, level, f, v');
  }

  /** Adding a table of the next commits extends what the tree holds and shows. */
  lemma TableExtends(disk: Disk, v: Version, h: seq<Entry>, more: seq<Entry>,
                     f: FileMeta, run: seq<Entry>, level: nat, disk': Disk, v': Version)
    requires Holds(disk, v, h) && Ascending(h + more)
    requires Sorted(run) && Elements(run) == Elements(more)
    requires TableAdded(disk, v, f, run, level, disk', v')
    ensures Holds(disk', v', h + more) && Contents(disk', v') == Contents(disk, v) + Elements(more)
  {
    NewerOnTop(Contents(disk, v), h, more);
    TableKeepsTree(disk, v, f, run, level, disk', v');
  }

  /** CompactMemTable: install the immutable memtable, then older logs are no longer needed. */
  ghost predicate FlushStep(s: State, f: FileMeta, level: nat, s': State) {
    && s.imm.Some? && f.number == s.nextFile
    && (if s.imm.value == [] then s'.disk == s.disk && s'.version == s.version
        else TableAdded(s.disk, s.version, f, s.imm.value, level, s'.disk, s'.version))
    && s' == s.(disk := s'.disk, version := s'.version, imm := None, logNumber := s.logfile,
                savedSequence := s.lastSequence, nextFile := s.nextFile + 1, savedNext := s.nextFile + 1,
                flushed := s.flushed + Logged(s, s.immLog))
  }

  lemma FlushKeepsLogs(s: State, f: FileMeta, level: nat, s': State)
    requires MemtablesMatchLogs(s) && CommitsInOrder(s) && FlushStep(s, f, level, s')
    ensures MemtablesMatchLogs(s') && CommitsInOrder(s') && Commits(s') == Commits(s)
  {
    assert Logged(s', s.logfile) == Logged(s, s.logfile);
    assert Commits(s') == Commits(s);
  }

  lemma SomeElement(es: seq<Entry>)
    ensures es != [] ==> Elements(es) != {}
  {
    if es != [] {
      assert es[0] in Elements(es);
    }
  }

  lemma FlushKeepsTreeInv(s: State, f: FileMeta, level: nat, s': State)
    requires MemtablesMatchLogs(s) && CommitsInOrder(s) && TreeHolds(s) && FlushStep(s, f, level, s')
    ensures TreeHolds(s') && Contents(s'.disk, s'.version) == Contents(s.disk, s.version) + Elements(Logged(s, s.immLog))
    ensures TreeReads(s) ==> TreeReads(s')
  {
    var more := Logged(s, s.immLog);
    assert Commits(s) == (s.flushed + more) + Logged(s, s.logfile);
    PrefixOlder(s.flushed + more, Logged(s, s.logfile));
    if s.imm.value == [] {
      SomeElement(more);
      assert s.flushed + more == s.flushed;
    } else {
      TableExtends(s.disk, s.version, s.flushed, more, f, s.imm.value, level, s'.disk, s'.version);
    }
    if TreeReads(s) {
      ViewsExtend(Contents(s.disk, s.version), s.flushed, more, s.horizon);
    }
  }

  lemma FlushKeepsCounters(s: State, f: FileMeta, level: nat, s': State)
    requires CountersOk(s) && FlushStep(s, f, level, s')
    ensures CountersOk(s')
  {
    forall m: nat, h | Placed(s'.version, m, h) ensures h.number < s'.savedNext {
      assert Placed(s.version, m, h) || h == f;
    }
  }

  lemma FlushKeepsSound(s: State, f: FileMeta, level: nat, s': State)
    requires Sound(s) && FlushStep(s, f, level, s')
    ensures Sound(s') && (TreeReads(s) ==> TreeReads(s')) && Commits(s') == Commits(s)
  {
    FlushKeepsLogs(s, f, level, s');
    FlushKeepsTreeInv(s, f, level, s');
    FlushKeepsCounters(s, f, level, s');
  }

  // ----- moves and compactions -----

  ghost predicate MoveStep(s: State, c: CompactionInputs, s': State) {
    && Chosen(s.version, c) && |c.inputs0| == 1 && c.inputs1 == []
    && Replaced(s.version, c, c.inputs0, s'.version)
    && s' == s.(version := s'.version, savedSequence := s.lastSequence, savedNext := s.nextFile)
  }

  lemma MoveKeepsSound(s: State, c: CompactionInputs, s': State)
    requires Sound(s) && MoveStep(s, c, s')
    ensures Sound(s') && (TreeReads(s) ==> TreeReads(s')) && Commits(s') == Commits(s)
  {
    TrivialMoveKeepsTree(s.disk, s.version, c, s'.version);
    assert Commits(s') == Commits(s);
    MovedNumbers(s, c, s');
  }

  lemma MovedNumbers(s: State, c: CompactionInputs, s': State)
    requires CountersOk(s) && MoveStep(s, c, s')
    ensures CountersOk(s')
  {
    forall m: nat, h | Placed(s'.version, m, h) ensures h.number < s.savedNext {
      assert Left(s.version, c, m, h) ==> Placed(s.version, m, h);
      assert h in c.inputs0 ==> Placed(s.version, c.level, h);
    }
  }

  /** smallest_snapshot: the oldest held snapshot, or the present when none is held. */
  ghost predicate IsOldest(s: State, oldest: nat) {
    if s.snapshots == multiset{} then oldest == s.lastSequence
    else oldest in s.snapshots && forall x :: x in s.snapshots ==> oldest <= x
  }

  ghost predicate CompactStep(s: State, c: CompactionInputs, oldest: nat, chunks: seq<seq<Entry>>, outputs: seq<FileMeta>, s': State) {
    && IsOldest(s, oldest)
    && CompactionStep(s.disk, s.version, c, oldest, s.nextFile, chunks, s'.disk, outputs, s'.version)
    && s' == s.(disk := s'.disk, version := s'.version, savedSequence := s.lastSequence,
                nextFile := s.nextFile + |chunks|, savedNext := s.nextFile + |chunks|,
                horizon := if oldest > s.horizon then oldest else s.horizon)
  }

  lemma SameViewsVia(a: set<Entry>, b: set<Entry>, h: set<Entry>, horizon: nat, oldest: nat)
    requires SameViews(a, h, horizon) && SameViews(a, b, oldest)
    ensures SameViews(b, h, if oldest > horizon then oldest else horizon)
  {
  }

  lemma SurvivorsAreInputs(input: seq<Entry>, oldest: nat, v: Version, level: nat)
    ensures Elements(Survivors(input, |input|, oldest, v, level)) <= Elements(input)
  {
  }

  lemma CompactionViews(disk: Disk, v: Version, c: CompactionInputs, oldest: nat, next: nat,
                        chunks: seq<seq<Entry>>, disk': Disk, outputs: seq<FileMeta>, v': Version)
    requires SortedTree(disk, v) && CompactionStep(disk, v, c, oldest, next, chunks, disk', outputs, v')
    requires NothingUncovered(disk, v, c, oldest, {}) && oldest < MAX_SEQUENCE
    ensures SameViews(Contents(disk, v), Contents(disk', v'), oldest)
  {
    assert Contents(disk, v) + {} == Contents(disk, v) && Contents(disk', v') + {} == Contents(disk', v');
    CompactionIsInvisibleIff(disk, v, c, oldest, next, chunks, disk', outputs, v', {});
  }

  /** Whatever the choice of inputs, a compaction keeps the tree's invariants and adds nothing. */
  lemma CompactionHolds(disk: Disk, v: Version, h: seq<Entry>, c: CompactionInputs, oldest: nat, next: nat,
                        chunks: seq<seq<Entry>>, disk': Disk, outputs: seq<FileMeta>, v': Version)
    requires Holds(disk, v, h) && CompactionStep(disk, v, c, oldest, next, chunks, disk', outputs, v')
    ensures Holds(disk', v', h)
  {
    CompactionKeepsTree(disk, v, c, oldest, next, chunks, disk', outputs, v');
    SurvivorsAreInputs(MergedInput(disk, c), oldest, v, c.level);
  }

  lemma CompactedNumbers(s: State, c: CompactionInputs, oldest: nat, chunks: seq<seq<Entry>>, outputs: seq<FileMeta>, s': State)
    requires CountersOk(s) && CompactStep(s, c, oldest, chunks, outputs, s')
    ensures CountersOk(s') && oldest < MAX_SEQUENCE
  {
    forall m: nat, h | Placed(s'.version, m, h) ensures h.number < s'.savedNext {
      if !Left(s.version, c, m, h) {
        var i :| 0 <= i < |outputs| && outputs[i] == h;
      }
    }
  }

  /** Reads are kept too if no dropped deletion uncovers a value. */
  lemma CompactKeepsReads(s: State, c: CompactionInputs, oldest: nat, chunks: seq<seq<Entry>>, outputs: seq<FileMeta>, s': State)
    requires Inv(s) && CompactStep(s, c, oldest, chunks, outputs, s') && NothingUncovered(s.disk, s.version, c, oldest, {})
    ensures TreeReads(s')
  {
    CompactedNumbers(s, c, oldest, chunks, outputs, s');
    CompactionViews(s.disk, s.version, c, oldest, s.nextFile, chunks, s'.disk, outputs, s'.version);
    SameViewsVia(Contents(s.disk, s.version), Contents(s'.disk, s'.version), Elements(s.flushed), s.horizon, oldest);
  }

  lemma CompactKeepsSound(s: State, c: CompactionInputs, oldest: nat, chunks: seq<seq<Entry>>, outputs: seq<FileMeta>, s': State)
    requires Sound(s) && CompactStep(s, c, oldest, chunks, outputs, s')
    ensures Sound(s') && Commits(s') == Commits(s)
    ensures TreeReads(s) && NothingUncovered(s.disk, s.version, c, oldest, {}) ==> TreeReads(s')
  {
    CompactedNumbers(s, c, oldest, chunks, outputs, s');
    CompactionHolds(s.disk, s.version, s.flushed, c, oldest, s.nextFile, chunks, s'.disk, outputs, s'.version);
    assert Commits(s') == Commits(s);
    if TreeReads(s) && NothingUncovered(s.disk, s.version, c, oldest, {}) {
      CompactKeepsReads(s, c, oldest, chunks, outputs, s');
    }
  }

  // ----- deleting files, snapshots -----

  /** The tree reads only the tables of its files. */
  lemma TreeOnFewerTables(disk: Disk, disk': Disk, v: Version)
    requires SortedTree(disk, v)
    requires forall m: nat, h :: Placed(v, m, h) ==> h.number in disk' && disk'[h.number] == disk[h.number]
    ensures SortedTree(disk', v) && Contents(disk', v) == Contents(disk, v)
  {
    forall m: nat, h | Placed(v, m, h) ensures Stored(disk', h) && Table(disk', h) == Table(disk, h) {
      assert Stored(disk, h);
    }
    PairsOfTree(disk, v);
    SameContents(disk, disk', v);
    SamePairs(disk, disk', v);
    forall l, h | 0 <= l < NUM_LEVELS && h in v[l] ensures Stored(disk', h) {
      assert Placed(v, l, h);
    }
    TreeOfPairs(disk', v);
  }

  lemma SamePairs(disk: Disk, disk': Disk, v: Version)
    requires PairwiseFits(disk, v)
    requires forall m: nat, h :: Placed(v, m, h) ==> Table(disk', h) == Table(disk, h)
    ensures PairwiseFits(disk', v)
  {
    forall l: nat, f, m: nat, g | Placed(v, l, f) && Placed(v, m, g) && (l != m || f != g)
      ensures f.number != g.number && Fits(disk', l, f, m, g)
    {
      assert Fits(disk, l, f, m, g);
    }
  }

  lemma SameContents(disk: Disk, disk': Disk, v: Version)
    requires forall m: nat, h :: Placed(v, m, h) ==> Table(disk', h) == Table(disk, h)
    ensures Contents(disk', v) == Contents(disk, v)
  {
    forall e ensures e in Contents(disk, v) <==> e in Contents(disk', v) {
      if e in Contents(disk, v) {
        var m, h := FileOf(disk, v, e);
        InContents(disk', v, m, h, e);
      }
      if e in Contents(disk', v) {
        var m, h := FileOf(disk', v, e);
        InContents(disk, v, m, h, e);
      }
    }
  }

  /**
   DeleteObsoleteFiles: logs below LogNumber() go, and every table outside
   `live`, which holds at least the current version's tables.
   */
  ghost predicate DeleteStep(s: State, live: set<nat>, s': State) {
    && (forall m: nat, h :: Placed(s.version, m, h) ==> h.number in live)
    && s' == s.(disk := map n | n in s.disk && n in live :: s.disk[n],
                logs := map n | n in s.logs && n >= s.logNumber :: s.logs[n])
  }

  lemma DeleteKeepsSound(s: State, live: set<nat>, s': State)
    requires Sound(s) && DeleteStep(s, live, s')
    ensures Sound(s') && (TreeReads(s) ==> TreeReads(s')) && Commits(s') == Commits(s)
  {
    forall m: nat, h | Placed(s.version, m, h) ensures h.number in s'.disk && s'.disk[h.number] == s.disk[h.number] {
      assert Stored(s.disk, h);
    }
    TreeOnFewerTables(s.disk, s'.disk, s.version);
    DeleteKeepsLogs(s, live, s');
  }

  lemma DeleteKeepsLogs(s: State, live: set<nat>, s': State)
    requires MemtablesMatchLogs(s) && CommitsInOrder(s) && DeleteStep(s, live, s')
    ensures MemtablesMatchLogs(s') && CommitsInOrder(s') && Commits(s') == Commits(s)
  {
    assert Logged(s', s.logfile) == Logged(s, s.logfile);
    assert s.imm.Some? ==> Logged(s', s.immLog) == Logged(s, s.immLog);
  }

  /** GetSnapshot and ReleaseSnapshot. */
  ghost predicate SnapshotStep(s: State, s': State) {
    s' == s.(snapshots := s.snapshots + multiset{s.lastSequence})
  }

  ghost predicate ReleaseStep(s: State, x: nat, s': State) {
    x in s.snapshots && s' == s.(snapshots := s.snapshots - multiset{x})
  }

  // ----- crash and recovery -----

  /** The entries of the logs numbered from `from` up to `bound`, in log order. */
  ghost function ReplayLogs(logs: map<nat, seq<seq<Entry>>>, from: nat, bound: nat): seq<Entry>
    decreases bound
  {
    if bound <= from then []
    else ReplayLogs(logs, from, bound - 1) + if bound - 1 in logs then Concat(logs[bound - 1]) else []
  }

  lemma {:induction false} NoLogsNothing(logs: map<nat, seq<seq<Entry>>>, from: nat, bound: nat)
    requires forall n :: from <= n < bound ==> n !in logs
    ensures ReplayLogs(logs, from, bound) == []
    decreases bound
  {
    if from < bound {
      NoLogsNothing(logs, from, bound - 1);
    }
  }

  /** The last log in range is replayed last. */
  lemma {:induction false} ReplayLast(logs: map<nat, seq<seq<Entry>>>, from: nat, last: nat, bound: nat)
    requires from <= last < bound && last in logs
    requires forall n :: last < n < bound ==> n !in logs
    ensures ReplayLogs(logs, from, bound) == ReplayLogs(logs, from, last) + Concat(logs[last])
    decreases bound
  {
    if last < bound - 1 {
      ReplayLast(logs, from, last, bound - 1);
    }
  }

  /** Recovery replays exactly the entries no table holds yet. */
  lemma ReplayIsUnflushed(s: State, logs: map<nat, seq<seq<Entry>>>)
    requires MemtablesMatchLogs(s) && logs.Keys == s.logs.Keys
    requires forall n :: n in logs ==> n < s.nextFile
    ensures ReplayLogs(logs, s.logNumber, s.nextFile) ==
            (if s.imm.Some? then Concat(logs[s.immLog]) else []) + Concat(logs[s.logfile])
  {
    assert s.logfile in logs;
    ReplayLast(logs, s.logNumber, s.logfile, s.nextFile);
    if s.imm.Some? {
      assert s.immLog in logs;
      ReplayLast(logs, s.logNumber, s.immLog, s.logfile);
      NoLogsNothing(logs, s.logNumber, s.immLog);
    } else {
      NoLogsNothing(logs, s.logNumber, s.logfile);
    }
  }

  lemma {:induction false} ConcatSplit(groups: seq<seq<Entry>>, k: nat)
    requires k <= |groups|
    ensures Concat(groups) == Concat(groups[..k]) + Concat(groups[k..])
    decreases |groups|
  {
    if k == |groups| {
      assert groups[..k] == groups;
    } else {
      var n := |groups| - 1;
      ConcatSplit(groups[..n], k);
      assert groups[..n][..k] == groups[..k] && groups[..n][k..] == groups[k..][..n - k];
      assert groups[k..][|groups[k..]| - 1] == groups[n];
    }
  }

  /**
   The logs as a crash leaves them: each of the two in use is cut on its own, at
   a group boundary not before its last sync. The old log is not synced when the
   memtable is switched.
   */
  ghost predicate CutTo(s: State, keepImm: nat, keep: nat) {
    && s.logfile in s.logs && s.synced <= keep <= |s.logs[s.logfile]|
    && (s.imm.Some? ==> s.immLog in s.logs && s.immLog != s.logfile && s.immSynced <= keepImm <= |s.logs[s.immLog]|)
  }

  ghost function CutLogs(s: State, keepImm: nat, keep: nat): map<nat, seq<seq<Entry>>>
    requires CutTo(s, keepImm, keep)
  {
    var cut := s.logs[s.logfile := s.logs[s.logfile][..keep]];
    if s.imm.Some? then cut[s.immLog := s.logs[s.immLog][..keepImm]] else cut
  }

  /** The groups of the immutable memtable's log, and those a crash takes from it. */
  ghost function ImmGroups(s: State): seq<seq<Entry>> {
    if s.imm.Some? && s.immLog in s.logs then s.logs[s.immLog] else []
  }

  ghost function KeptImm(s: State, keepImm: nat): seq<Entry> {
    Concat(if keepImm <= |ImmGroups(s)| then ImmGroups(s)[..keepImm] else [])
  }

  ghost function LostImm(s: State, keepImm: nat): seq<Entry> {
    Concat(if keepImm <= |ImmGroups(s)| then ImmGroups(s)[keepImm..] else [])
  }

  ghost function KeptActive(s: State, keep: nat): seq<Entry>
    requires s.logfile in s.logs && keep <= |s.logs[s.logfile]|
  {
    Concat(s.logs[s.logfile][..keep])
  }

  ghost function LostActive(s: State, keep: nat): seq<Entry>
    requires s.logfile in s.logs && keep <= |s.logs[s.logfile]|
  {
    Concat(s.logs[s.logfile][keep..])
  }

  function LastSequenceOf(es: seq<Entry>): nat {
    if es == [] then 0 else es[|es| - 1].key.seqno
  }

  /** The tables written while replaying: one per memtable that holds anything, all on level 0, in order. */
  ghost predicate TablesRecovered(disk: Disk, v: Version, next: nat, chunks: seq<seq<Entry>>, files: seq<FileMeta>,
                                  disks: seq<Disk>, versions: seq<Version>) {
    && |files| == |chunks| && |disks| == |versions| == |chunks| + 1
    && disks[0] == disk && versions[0] == v
    && forall i :: 0 <= i < |chunks| ==>
         && files[i].number >= next
         && TableAdded(disks[i], versions[i], files[i], InsertAll([], chunks[i]), 0, disks[i + 1], versions[i + 1])
  }

  lemma {:induction false} RecoveredHolds(disk: Disk, v: Version, next: nat, chunks: seq<seq<Entry>>, files: seq<FileMeta>,
                                          disks: seq<Disk>, versions: seq<Version>, h: seq<Entry>, i: nat)
    requires TablesRecovered(disk, v, next, chunks, files, disks, versions) && i <= |chunks|
    requires Holds(disk, v, h) && Ascending(h + Concat(chunks))
    ensures Holds(disks[i], versions[i], h + Concat(chunks[..i]))
    ensures Contents(disks[i], versions[i]) == Contents(disk, v) + Elements(Concat(chunks[..i]))
  {
    if i == 0 {
      assert h + Concat(chunks[..0]) == h && Elements(Concat(chunks[..0])) == {};
    } else {
      RecoveredHolds(disk, v, next, chunks, files, disks, versions, h, i - 1);
      NextChunk(h, chunks, i - 1);
      RunExtends(disks[i - 1], versions[i - 1], h + Concat(chunks[..i - 1]), chunks[i - 1], files[i - 1], disks[i], versions[i]);
      ElementsNext(chunks, i - 1);
    }
  }

  lemma ElementsNext(chunks: seq<seq<Entry>>, i: nat)
    requires i < |chunks|
    ensures Elements(Concat(chunks[..i + 1])) == Elements(Concat(chunks[..i])) + Elements(chunks[i])
  {
    ConcatNext(chunks, i);
  }

  lemma ConcatNext(chunks: seq<seq<Entry>>, i: nat)
    requires i < |chunks|
    ensures Concat(chunks[..i + 1]) == Concat(chunks[..i]) + chunks[i]
  {
    assert chunks[..i + 1] == chunks[..i] + [chunks[i]];
    ConcatAppend(chunks[..i], chunks[i]);
  }

  lemma ChunkAscends(h: seq<Entry>, a: seq<Entry>, c: seq<Entry>, rest: seq<Entry>)
    requires Ascending(h + ((a + c) + rest))
    ensures h + (a + c) == (h + a) + c && Ascending((h + a) + c)
  {
    Regroup(h, a, c, rest);
    AscendingPrefix((h + a) + c, rest, h + ((a + c) + rest));
  }

  lemma NextChunk(h: seq<Entry>, chunks: seq<seq<Entry>>, i: nat)
    requires i < |chunks| && Ascending(h + Concat(chunks))
    ensures h + Concat(chunks[..i + 1]) == (h + Concat(chunks[..i])) + chunks[i]
    ensures Ascending((h + Concat(chunks[..i])) + chunks[i])
  {
    ConcatNext(chunks, i);
    ConcatSplit(chunks, i + 1);
    ChunkAscends(h, Concat(chunks[..i]), chunks[i], Concat(chunks[i + 1..]));
  }

  lemma AscendingPrefix(a: seq<Entry>, b: seq<Entry>, whole: seq<Entry>)
    requires Ascending(whole) && whole == a + b
    ensures Ascending(a)
  {
    forall i, j | 0 <= i < j < |a| ensures a[i].key.seqno < a[j].key.seqno {
      assert whole[i] == a[i] && whole[j] == a[j];
    }
  }

  lemma Regroup(a: seq<Entry>, b: seq<Entry>, c: seq<Entry>, d: seq<Entry>)
    ensures a + (b + c) == (a + b) + c
    ensures a + ((b + c) + d) == ((a + b) + c) + d
    ensures a + (b + (c + d)) == (a + (b + c)) + d
  {
  }

  /** A memtable filled with the next commits and written to level 0. */
  lemma RunExtends(disk: Disk, v: Version, h: seq<Entry>, more: seq<Entry>, f: FileMeta, disk': Disk, v': Version)
    requires Holds(disk, v, h) && Ascending(h + more)
    requires TableAdded(disk, v, f, InsertAll([], more), 0, disk', v')
    ensures Holds(disk', v', h + more) && Contents(disk', v') == Contents(disk, v) + Elements(more)
  {
    PrefixOlder(h, more);
    InsertAllSorted([], more);
    assert Elements(InsertAll([], more)) == Elements(more);
    TableExtends(disk, v, h, more, f, InsertAll([], more), 0, disk', v');
  }

  lemma {:induction false} RecoveredNumbers(disk: Disk, v: Version, next: nat, chunks: seq<seq<Entry>>, files: seq<FileMeta>,
                                            disks: seq<Disk>, versions: seq<Version>, bound: nat, i: nat)
    requires TablesRecovered(disk, v, next, chunks, files, disks, versions) && i <= |chunks|
    requires (forall f <- files :: f.number < bound) && next <= bound
    requires forall m: nat, h :: Placed(v, m, h) ==> h.number < next
    requires forall n :: n in disk ==> n < next
    ensures forall m: nat, h :: Placed(versions[i], m, h) ==> h.number < bound
    ensures forall n :: n in disks[i] ==> n < bound
  {
    if i > 0 {
      RecoveredNumbers(disk, v, next, chunks, files, disks, versions, bound, i - 1);
      assert files[i - 1] in files;
      assert TableAdded(disks[i - 1], versions[i - 1], files[i - 1], InsertAll([], chunks[i - 1]), 0, disks[i], versions[i]);
    }
  }

  /**
   A crash that keeps `keepImm` groups of the immutable memtable's log and
   `keep` of the active one, then DB::Open: replay the logs from LogNumber() on
   into level-0 tables, start a new log, install. `last` is the greatest sequence
   number the manifest and the logs tell of.
   */
  ghost predicate RecoverStep(s: State, keepImm: nat, keep: nat, chunks: seq<seq<Entry>>, files: seq<FileMeta>,
                              disks: seq<Disk>, versions: seq<Version>, newLog: nat, last: nat, s': State) {
    && CutTo(s, keepImm, keep)
    && Concat(chunks) == ReplayLogs(CutLogs(s, keepImm, keep), s.logNumber, s.nextFile)
    && TablesRecovered(s.disk, s.version, s.savedNext + 1, chunks, files, disks, versions)
    && newLog > s.savedNext && (forall f <- files :: f.number < newLog) && (forall n :: n in s.logs ==> n < newLog)
    && s.savedSequence <= last && LastSequenceOf(Concat(chunks)) <= last <= s.lastSequence
    && s' == State(disks[|chunks|], versions[|chunks|], [], None,
                   CutLogs(s, keepImm, keep)[newLog := []], newLog, s.immLog, newLog, 0, 0,
                   last, last, newLog + 1, newLog + 1, multiset{},
                   s.flushed + Concat(chunks), s.horizon)
  }

  /** The commits before the crash, piece by piece. */
  lemma CommitsInPieces(s: State, keepImm: nat, keep: nat)
    requires MemtablesMatchLogs(s) && CutTo(s, keepImm, keep)
    ensures Commits(s) == s.flushed + ((KeptImm(s, keepImm) + LostImm(s, keepImm)) + (KeptActive(s, keep) + LostActive(s, keep)))
  {
    ConcatSplit(s.logs[s.logfile], keep);
    if s.imm.Some? {
      ConcatSplit(s.logs[s.immLog], keepImm);
    }
  }

  lemma RecoveredCommits(s: State, keepImm: nat, keep: nat, chunks: seq<seq<Entry>>, files: seq<FileMeta>,
                         disks: seq<Disk>, versions: seq<Version>, newLog: nat, last: nat, s': State)
    requires MemtablesMatchLogs(s) && CountersOk(s) && RecoverStep(s, keepImm, keep, chunks, files, disks, versions, newLog, last, s')
    ensures Concat(chunks) == KeptImm(s, keepImm) + KeptActive(s, keep)
    ensures Commits(s') == s.flushed + Concat(chunks)
  {
    ReplayIsUnflushed(s, CutLogs(s, keepImm, keep));
    assert Logged(s', newLog) == [];
  }

  /** Leaving pieces out of an ascending list leaves it ascending. */
  lemma PiecesAscend(h: seq<Entry>, a: seq<Entry>, b: seq<Entry>, c: seq<Entry>, d: seq<Entry>)
    requires Ascending(h + ((a + b) + (c + d)))
    ensures Ascending(h + (a + c)) && forall e :: e in h + (a + c) ==> e in h + ((a + b) + (c + d))
  {
    var whole, kept := h + ((a + b) + (c + d)), h + (a + c);
    var n := |h| + |a|;
    assert forall i :: 0 <= i < n ==> kept[i] == whole[i];
    assert forall i :: n <= i < |kept| ==> kept[i] == whole[i + |b|];
  }

  lemma AllRecovered(disk: Disk, v: Version, next: nat, chunks: seq<seq<Entry>>, files: seq<FileMeta>,
                     disks: seq<Disk>, versions: seq<Version>, h: seq<Entry>)
    requires TablesRecovered(disk, v, next, chunks, files, disks, versions)
    requires Holds(disk, v, h) && Ascending(h + Concat(chunks))
    ensures Holds(disks[|chunks|], versions[|chunks|], h + Concat(chunks))
    ensures Contents(disks[|chunks|], versions[|chunks|]) == Contents(disk, v) + Elements(Concat(chunks))
  {
    RecoveredHolds(disk, v, next, chunks, files, disks, versions, h, |chunks|);
    assert chunks[..|chunks|] == chunks;
  }

  lemma RecoverKeepsTree(s: State, chunks: seq<seq<Entry>>, files: seq<FileMeta>, disks: seq<Disk>, versions: seq<Version>, s': State)
    requires TreeHolds(s) && Ascending(s.flushed + Concat(chunks))
    requires TablesRecovered(s.disk, s.version, s.savedNext + 1, chunks, files, disks, versions)
    requires s'.disk == disks[|chunks|] && s'.version == versions[|chunks|] && s'.flushed == s.flushed + Concat(chunks)
    requires s'.horizon == s.horizon
    ensures TreeHolds(s') && (TreeReads(s) ==> TreeReads(s'))
    ensures Contents(s'.disk, s'.version) == Contents(s.disk, s.version) + Elements(Concat(chunks))
  {
    AllRecovered(s.disk, s.version, s.savedNext + 1, chunks, files, disks, versions, s.flushed);
    if TreeReads(s) {
      ViewsExtend(Contents(s.disk, s.version), s.flushed, Concat(chunks), s.horizon);
    }
  }

  lemma RecoverKeepsCounters(s: State, keepImm: nat, keep: nat, chunks: seq<seq<Entry>>, files: seq<FileMeta>,
                             disks: seq<Disk>, versions: seq<Version>, newLog: nat, last: nat, s': State)
    requires CountersOk(s) && RecoverStep(s, keepImm, keep, chunks, files, disks, versions, newLog, last, s')
    requires s'.lastSequence <= s.lastSequence
    ensures CountersOk(s')
  {
    RecoveredNumbers(s.disk, s.version, s.savedNext + 1, chunks, files, disks, versions, newLog, |chunks|);
  }

  lemma RecoverKeepsSound(s: State, keepImm: nat, keep: nat, chunks: seq<seq<Entry>>, files: seq<FileMeta>,
                          disks: seq<Disk>, versions: seq<Version>, newLog: nat, last: nat, s': State)
    requires Sound(s) && RecoverStep(s, keepImm, keep, chunks, files, disks, versions, newLog, last, s')
    ensures Sound(s') && (TreeReads(s) ==> TreeReads(s'))
    ensures Commits(s') == s.flushed + (KeptImm(s, keepImm) + KeptActive(s, keep))
    ensures Contents(s'.disk, s'.version) == Contents(s.disk, s.version) + Elements(Concat(chunks))
  {
    RecoveredCommits(s, keepImm, keep, chunks, files, disks, versions, newLog, last, s');
    CommitsInPieces(s, keepImm, keep);
    PiecesAscend(s.flushed, KeptImm(s, keepImm), LostImm(s, keepImm), KeptActive(s, keep), LostActive(s, keep));
    RecoveredSequence(s, s', chunks);
    RecoverKeepsTree(s, chunks, files, disks, versions, s');
    RecoverKeepsCounters(s, keepImm, keep, chunks, files, disks, versions, newLog, last, s');
  }

  /**
   What survives a crash is a prefix of the commits if and only if the old log
   kept all its entries or the new one kept none: an unsynced tail of the old
   log can be missing below a synced write in the new one.
   */
  lemma RecoveredPrefixIff(s: State, keepImm: nat, keep: nat, s': State)
    requires MemtablesMatchLogs(s) && CommitsInOrder(s) && CutTo(s, keepImm, keep)
    requires Commits(s') == s.flushed + (KeptImm(s, keepImm) + KeptActive(s, keep))
    ensures Commits(s') <= Commits(s) <==> LostImm(s, keepImm) == [] || KeptActive(s, keep) == []
  {
    CommitsInPieces(s, keepImm, keep);
    PrefixIff(s.flushed, KeptImm(s, keepImm), LostImm(s, keepImm), KeptActive(s, keep), LostActive(s, keep));
  }

  lemma PrefixIff(h: seq<Entry>, a: seq<Entry>, b: seq<Entry>, c: seq<Entry>, d: seq<Entry>)
    requires Ascending(h + ((a + b) + (c + d)))
    ensures h + (a + c) <= h + ((a + b) + (c + d)) <==> b == [] || c == []
  {
    var whole, kept := h + ((a + b) + (c + d)), h + (a + c);
    var n := |h| + |a|;
    if b == [] {
      assert whole == kept + d;
    } else if c == [] {
      assert whole == kept + (b + d);
    } else {
      assert kept[n] == whole[n + |b|] && whole[n].key.seqno < whole[n + |b|].key.seqno;
    }
  }

  lemma RecoveredSequence(s: State, s': State, chunks: seq<seq<Entry>>)
    requires CommitsInOrder(s) && Ascending(Commits(s')) && Commits(s') == s.flushed + Concat(chunks)
    requires forall e :: e in Commits(s') ==> e in Commits(s)
    requires forall e :: e in s.flushed ==> e.key.seqno <= s.savedSequence
    requires s'.flushed == Commits(s') && s'.savedSequence == s'.lastSequence
    requires s.savedSequence <= s'.lastSequence && LastSequenceOf(Concat(chunks)) <= s'.lastSequence
    ensures CommitsInOrder(s')
  {
    PrefixOlder(s.flushed, Concat(chunks));
    LastIsGreatest(Concat(chunks));
  }

  lemma LastIsGreatest(es: seq<Entry>)
    requires Ascending(es)
    ensures forall e :: e in es ==> e.key.seqno <= LastSequenceOf(es)
    ensures es == [] || es[|es| - 1] in es
  {
  }
}
