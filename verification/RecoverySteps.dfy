/**
 * DB::Open after a crash, as code: list the logs, replay each into level-0
 * tables, start a new log and install. Whatever byte each log was cut at, what
 * it leaves is a recovery step of the database machine (db_impl.cc).
 */
module RecoverySteps {
  import opened InternalKeys
  import opened Coding
  import opened Log
  import opened LogReader
  import opened LogSafety
  import opened WriteBatches
  import opened Versions
  import opened VersionBuilder
  import opened TreeSteps
  import opened Compactions
  import opened Database
  import opened DatabaseRuns
  import opened DirectoryGc
  import opened LogRecovery
  import FileGc
  import Background

  // ----- which logs to replay -----

  predicate Rising(numbers: seq<nat>) {
    forall i, j :: 0 <= i < j < |numbers| ==> numbers[i] < numbers[j]
  }

  predicate NoneAgain<T(==)>(items: seq<T>) {
    forall i, j :: 0 <= i < j < |items| ==> items[i] != items[j]
  }

  /** std::sort, one number at a time. */
  function Slot(sorted: seq<nat>, n: nat): (r: seq<nat>)
    ensures forall x :: x in r <==> x in sorted || x == n
  {
    if sorted == [] || n <= sorted[0] then [n] + sorted
    else
      assert sorted == [sorted[0]] + sorted[1..];
      [sorted[0]] + Slot(sorted[1..], n)
  }

  function SortNumbers(numbers: seq<nat>): (r: seq<nat>)
    ensures forall x :: x in r <==> x in numbers
  {
    if numbers == [] then []
    else
      assert numbers == [numbers[0]] + numbers[1..];
      Slot(SortNumbers(numbers[1..]), numbers[0])
  }

  lemma {:induction false} SlotRises(sorted: seq<nat>, n: nat)
    requires Rising(sorted) && n !in sorted
    ensures Rising(Slot(sorted, n))
  {
    if sorted != [] && n > sorted[0] {
      var rest := Slot(sorted[1..], n);
      SlotRises(sorted[1..], n);
      forall j | 0 <= j < |rest| ensures sorted[0] < rest[j] {
        assert rest[j] in sorted[1..] || rest[j] == n;
      }
    }
  }

  lemma {:induction false} SortRises(numbers: seq<nat>)
    requires NoneAgain(numbers)
    ensures Rising(SortNumbers(numbers))
  {
    if numbers != [] {
      SortRises(numbers[1..]);
      SlotRises(SortNumbers(numbers[1..]), numbers[0]);
    }
  }

  ghost predicate HasNumber(names: Names, n: nat) {
    exists name :: name in names && name.Parsed? && name.number == n
  }

  /**
   The directory part of DBImpl::Recover: the logs not before `minLog`, or
   numbered `prevLog`, in order, and the expected numbers no name carries.
   */
  method FindLogs(names: Names, expected: set<nat>, minLog: nat, prevLog: nat) returns (missing: set<nat>, logs: seq<nat>)
    ensures forall n :: n in missing <==> n in expected && !HasNumber(names, n)
    ensures forall n: nat :: n in logs <==> HasLog(names, n) && (n >= minLog || n == prevLog)
    ensures NoneAgain(names) ==> Rising(logs)
  {
    missing := expected;
    var found: seq<nat> := [];
    for i := 0 to |names|
      invariant forall n :: n in missing <==> n in expected && !HasNumber(names[..i], n)
      invariant forall n: nat :: n in found <==> HasLog(names[..i], n) && (n >= minLog || n == prevLog)
      invariant NoneAgain(names) ==> NoneAgain(found)
    {
      var name := names[i];
      assert names[..i + 1] == names[..i] + [name];
      if name.Parsed? {
        missing := missing - {name.number};
        if name.kind.LogFile? && (name.number >= minLog || name.number == prevLog) {
          assert NoneAgain(names) ==> name !in names[..i];
          assert name.number in found ==> HasLog(names[..i], name.number);
          found := found + [name.number];
        }
      }
    }
    assert names[..|names|] == names;
    logs := SortNumbers(found);
    if NoneAgain(found) {
      SortRises(found);
    }
  }

  /**
   Deleting obsolete files changes nothing recovery looks for: with the log
   numbers in force the same logs are listed, and a table of a version in the
   list is never missing.
   */
  lemma DeletingKeepsListing(gc: FileGc.State, names: Names, kept: Names, logNumber: nat, prevLogNumber: nat, manifestNumber: nat, n: nat)
    requires forall name :: name in kept <==> name in names && FileGc.Kept(gc, name, logNumber, prevLogNumber, manifestNumber)
    ensures n >= logNumber || n == prevLogNumber ==> (HasLog(kept, n) <==> HasLog(names, n))
    ensures n < logNumber && n != prevLogNumber ==> !HasLog(kept, n)
    ensures FileGc.LiveFile(gc, n) && HasTable(names, n) ==> HasTable(kept, n) && HasNumber(kept, n)
  {
    if FileGc.LiveFile(gc, n) && HasTable(names, n) {
      assert HasTable(kept, n);
    }
  }

  // ----- the tables written while replaying -----

  /** What WriteLevel0Table adds to: the tables on disk, the files of the edit and the next file number. */
  datatype Written = Written(disk: Disk, files: seq<FileMeta>, next: nat)

  /** What recovery starts from: the tree the manifest tells of and the next file number. */
  datatype Base = Base(disk: Disk, version: Version, next: nat)

  /** The memtables written so far, and the states of the tree if each were installed by itself. */
  datatype Trail = Trail(chunks: seq<seq<Entry>>, files: seq<FileMeta>, disks: seq<Disk>, versions: seq<Version>)

  ghost predicate NumbersBelow(w: Written, v: Version) {
    && (forall n :: n in w.disk ==> n < w.next) && (forall f <- w.files :: f.number < w.next)
    && forall m: nat, h :: Placed(v, m, h) ==> h.number < w.next
  }

  ghost predicate WithFiles(v: Version, files: seq<FileMeta>, v': Version) {
    forall m :: 0 <= m < NUM_LEVELS ==>
      SortedFiles(v'[m]) && forall h :: h in v'[m] <==> h in v[m] || (m == 0 && h in files)
  }

  ghost predicate Built(t: Trail, base: Base, w: Written) {
    && TablesRecovered(base.disk, base.version, base.next, t.chunks, t.files, t.disks, t.versions)
    && t.disks[|t.chunks|] == w.disk && t.files == w.files && base.next <= w.next
    && NumbersBelow(w, t.versions[|t.chunks|]) && WithFiles(base.version, w.files, t.versions[|t.chunks|])
    && UniqueNumbers(Elements(w.files))
  }

  lemma PlacedOnLevel0(v: Version, f: FileMeta)
    requires forall l :: 0 <= l < NUM_LEVELS ==> SortedFiles(v[l])
    requires forall m: nat, h :: Placed(v, m, h) ==> h.number < f.number
    ensures TreeSteps.Inserted(v, 0, f, v[0 := InsertSorted(f, v[0])])
  {
    forall h | h in v[0] ensures h.number != f.number {
      assert Placed(v, 0, h);
    }
    var files := InsertSorted(f, v[0]);
    forall h ensures h in files <==> h in v[0] || h == f {
      assert h in files <==> h in Elements(files);
    }
  }

  /** One memtable more. */
  lemma BuildsOne(t: Trail, base: Base, w: Written, chunk: seq<Entry>, run: seq<Entry>, f: FileMeta) returns (t': Trail)
    requires Built(t, base, w) && run == InsertAll([], chunk) && run != []
    requires f.number == w.next && f.smallest == run[0].key && f.largest == run[|run| - 1].key
    ensures Built(t', base, Written(w.disk[w.next := run], w.files + [f], w.next + 1))
    ensures t'.chunks == t.chunks + [chunk]
  {
    var n := |t.chunks|;
    var last := t.versions[n];
    PlacedOnLevel0(last, f);
    var v', disk' := last[0 := InsertSorted(f, last[0])], w.disk[w.next := run];
    assert TableAdded(w.disk, last, f, run, 0, disk', v');
    t' := Trail(t.chunks + [chunk], t.files + [f], t.disks + [disk'], t.versions + [v']);
    TrailGrows(t, base, chunk, f, disk', v', t');
    FilesGrow(base, w, last, f, run, v');
  }

  lemma FilesGrow(base: Base, w: Written, v: Version, f: FileMeta, run: seq<Entry>, v': Version)
    requires NumbersBelow(w, v) && WithFiles(base.version, w.files, v) && UniqueNumbers(Elements(w.files))
    requires f.number == w.next && TreeSteps.Inserted(v, 0, f, v')
    ensures NumbersBelow(Written(w.disk[w.next := run], w.files + [f], w.next + 1), v')
    ensures WithFiles(base.version, w.files + [f], v') && UniqueNumbers(Elements(w.files + [f]))
  {
    forall m: nat, h | Placed(v', m, h) ensures h.number < w.next + 1 {
      assert Placed(v, m, h) || h == f;
    }
    forall m, h | 0 <= m < NUM_LEVELS ensures h in v'[m] <==> h in base.version[m] || (m == 0 && h in w.files + [f]) {
      assert h in v[m] <==> Placed(v, m, h);
    }
  }

  lemma TrailGrows(t: Trail, base: Base, chunk: seq<Entry>, f: FileMeta, disk': Disk, v': Version, t': Trail)
    requires TablesRecovered(base.disk, base.version, base.next, t.chunks, t.files, t.disks, t.versions)
    requires f.number >= base.next && TableAdded(t.disks[|t.chunks|], t.versions[|t.chunks|], f, InsertAll([], chunk), 0, disk', v')
    requires t' == Trail(t.chunks + [chunk], t.files + [f], t.disks + [disk'], t.versions + [v'])
    ensures TablesRecovered(base.disk, base.version, base.next, t'.chunks, t'.files, t'.disks, t'.versions)
  {
    var n := |t.chunks|;
    forall i | 0 <= i < n + 1
      ensures t'.files[i].number >= base.next
      ensures TableAdded(t'.disks[i], t'.versions[i], t'.files[i], InsertAll([], t'.chunks[i]), 0, t'.disks[i + 1], t'.versions[i + 1])
    {
      if i < n {
        assert t'.chunks[i] == t.chunks[i];
      }
    }
  }

  lemma NoEntriesNoRun(chunk: seq<Entry>)
    ensures InsertAll([], chunk) == [] <==> chunk == []
  {
    if chunk != [] {
      assert chunk[0] in InsertAll([], chunk);
    }
  }

  /** WriteLevel0Table for one memtable; an empty one only uses up a number. */
  method WriteLevel0Table(chunk: seq<Entry>, w: Written, size: nat, ghost t: Trail, ghost base: Base)
    returns (w': Written, ghost t': Trail)
    requires Built(t, base, w)
    ensures Built(t', base, w') && w'.next == w.next + 1
    ensures Concat(t'.chunks) == Concat(t.chunks) + chunk
  {
    var run := InsertAll([], chunk);
    NoEntriesNoRun(chunk);
    if run == [] {
      w', t' := w.(next := w.next + 1), t;
    } else {
      var f := FileMeta(w.next, size, run[0].key, run[|run| - 1].key);
      t' := BuildsOne(t, base, w, chunk, run, f);
      ConcatAppend(t.chunks, chunk);
      w' := Written(w.disk[w.next := run], w.files + [f], w.next + 1);
    }
  }

  method WriteLevel0Tables(chunks: seq<seq<Entry>>, w: Written, size: nat, ghost t: Trail, ghost base: Base)
    returns (w': Written, ghost t': Trail)
    requires Built(t, base, w)
    ensures Built(t', base, w') && w'.next == w.next + |chunks|
    ensures Concat(t'.chunks) == Concat(t.chunks) + Concat(chunks)
  {
    w', t' := w, t;
    assert chunks[..0] == [];
    for i := 0 to |chunks|
      invariant Built(t', base, w') && w'.next == w.next + i
      invariant Concat(t'.chunks) == Concat(t.chunks) + Concat(chunks[..i])
    {
      ConcatNext(chunks, i);
      Regroup(Concat(t.chunks), Concat(chunks[..i]), chunks[i], []);
      w', t' := WriteLevel0Table(chunks[i], w', size, t', base);
    }
    assert chunks[..|chunks|] == chunks;
  }

  // ----- the logs a crash leaves -----

  /** What a log held and the byte it was cut at. */
  datatype CutLog = CutLog(groups: seq<Group>, at: nat)

  /** The file a crash left: a log of these groups, cut, with `kept` of them whole. */
  ghost predicate Left(opts: Settings, crc: Checksum, log: CutLog, entries: seq<seq<Entry>>, last: nat, kept: nat, file: Bytes) {
    && (forall g <- log.groups :: Loggable(g) && LastOf(g) <= last)
    && PartsOf(opts.order, log.groups, entries)
    && var whole := LogBytes(Writes(crc), 0, Records(opts.c, log.groups));
       log.at <= |whole| && file == whole[..log.at] && kept == Whole(Writes(crc), 0, Records(opts.c, log.groups), log.at)
  }

  /** Operations determine their entries. */
  lemma PartsAreUnique(order: Order, groups: seq<Group>, a: seq<seq<Entry>>, b: seq<seq<Entry>>)
    requires PartsOf(order, groups, a) && PartsOf(order, groups, b)
    ensures a == b
  {
    forall i | 0 <= i < |groups| ensures a[i] == b[i] {
      forall j | 0 <= j < |groups[i].ops| ensures a[i][j] == b[i][j] {
        assert IsEntry(order, groups[i].ops[j], groups[i].sequence + j, a[i][j]);
        assert IsEntry(order, groups[i].ops[j], groups[i].sequence + j, b[i][j]);
      }
    }
  }

  lemma {:induction false} MaxSequenceBounds(groups: seq<Group>, start: nat, last: nat)
    requires forall g <- groups :: Loggable(g)
    ensures MaxSequence(groups, start) >= start
    ensures forall g <- groups :: LastOf(g) <= MaxSequence(groups, start)
    ensures start <= last && (forall g <- groups :: LastOf(g) <= last) ==> MaxSequence(groups, start) <= last
    decreases |groups|
  {
    if groups != [] {
      var next: nat := if LastOf(groups[0]) > start then LastOf(groups[0]) else start;
      assert groups == [groups[0]] + groups[1..];
      MaxSequenceBounds(groups[1..], next, last);
    }
  }

  lemma PartsBelow(order: Order, groups: seq<Group>, parts: seq<seq<Entry>>, max: nat)
    requires PartsOf(order, groups, parts) && forall g <- groups :: LastOf(g) <= max
    ensures forall e :: e in Concat(parts) ==> e.key.seqno <= max
  {
    forall e | e in Concat(parts) ensures e.key.seqno <= max {
      var i := PartWith(parts, e);
      var j :| 0 <= j < |parts[i]| && parts[i][j] == e;
      assert AreEntries(order, groups[i].sequence, groups[i].ops, parts[i]);
      assert IsEntry(order, groups[i].ops[j], groups[i].sequence + j, e) && groups[i] in groups;
    }
  }

  lemma {:induction false} PartWith(parts: seq<seq<Entry>>, e: Entry) returns (i: nat)
    requires e in Concat(parts)
    ensures i < |parts| && e in parts[i]
    decreases |parts|
  {
    var n := |parts| - 1;
    if e in parts[n] {
      i := n;
    } else {
      i := PartWith(parts[..n], e);
    }
  }

  /** One log replayed: exactly the entries of its whole groups, none above the number returned. */
  lemma LeftLogReplays(opts: Settings, crc: Checksum, log: CutLog, entries: seq<seq<Entry>>, last: nat, kept: nat, file: Bytes, max: nat)
    requires Left(opts, crc, log, entries, last, kept, file) && max <= last
    ensures kept <= |entries|
    ensures var out := Recovered(opts, crc, Open(file), Replayed([], None, max, Ok));
      && out.status == Ok && max <= out.maxSequence <= last
      && Concat(Finished(out)) == Concat(entries[..kept])
      && forall e :: e in Concat(entries[..kept]) ==> e.key.seqno <= out.maxSequence
  {
    var parts := CutLogRecoversWholeGroups(opts, crc, log.groups, log.at, max);
    PartsAreUnique(opts.order, log.groups[..kept], parts, entries[..kept]);
    MaxSequenceBounds(log.groups[..kept], max, last);
    PartsBelow(opts.order, log.groups[..kept], parts, MaxSequence(log.groups[..kept], max));
  }

  // ----- opening the database -----

  ghost function KeptIn(s: State, keepImm: nat, keep: nat, n: nat): nat {
    if n == s.logfile then keep else keepImm
  }

  /** The logs as a crash leaves them: those in use hold what the state says and are cut on their own. */
  ghost predicate LogsLeft(opts: Settings, crc: Checksum, s: State, keepImm: nat, keep: nat, cuts: map<nat, CutLog>, contents: map<nat, Bytes>) {
    CutTo(s, keepImm, keep) && forall n :: n in s.logs && n >= s.logNumber ==>
      && n in cuts && n in contents
      && Left(opts, crc, cuts[n], s.logs[n], s.lastSequence, KeptIn(s, keepImm, keep, n), contents[n])
  }

  /** Every log in use is the active one or the immutable memtable's. */
  lemma KeptOfLog(s: State, keepImm: nat, keep: nat, n: nat)
    requires MemtablesMatchLogs(s) && CutTo(s, keepImm, keep) && n in s.logs && n >= s.logNumber
    ensures CutLogs(s, keepImm, keep)[n] == s.logs[n][..KeptIn(s, keepImm, keep, n)]
  {
  }

  lemma {:induction false} GapReplaysNothing(logs: map<nat, seq<seq<Entry>>>, from: nat, a: nat, b: nat)
    requires from <= a <= b && forall n :: a <= n < b ==> n !in logs
    ensures ReplayLogs(logs, from, b) == ReplayLogs(logs, from, a)
    decreases b
  {
    if a < b {
      GapReplaysNothing(logs, from, a, b - 1);
    }
  }

  /** The logs listed, in order, are those of the state from LogNumber() on. */
  ghost predicate InUse(s: State, logs: seq<nat>) {
    Rising(logs) && forall n: nat :: n in logs <==> n in s.logs && n >= s.logNumber
  }

  ghost function Reached(s: State, logs: seq<nat>, i: nat): nat
    requires i <= |logs|
  {
    if i == 0 then s.logNumber else logs[i - 1] + 1
  }

  lemma NextLogReplayed(s: State, cut: map<nat, seq<seq<Entry>>>, logs: seq<nat>, i: nat)
    requires InUse(s, logs) && i < |logs| && cut.Keys == s.logs.Keys
    ensures ReplayLogs(cut, s.logNumber, Reached(s, logs, i + 1)) ==
            ReplayLogs(cut, s.logNumber, Reached(s, logs, i)) + Concat(cut[logs[i]])
  {
    NoLogBetween(s, logs, i);
    GapReplaysNothing(cut, s.logNumber, Reached(s, logs, i), logs[i]);
  }

  lemma NoLogBetween(s: State, logs: seq<nat>, i: nat)
    requires InUse(s, logs) && i <= |logs|
    ensures Reached(s, logs, i) >= s.logNumber
    ensures i < |logs| ==> logs[i] in s.logs && Reached(s, logs, i) <= logs[i]
    ensures forall n :: Reached(s, logs, i) <= n && (i < |logs| ==> n < logs[i]) ==> n !in s.logs
  {
    if i < |logs| {
      assert logs[i] in logs;
    }
    if i > 0 {
      assert logs[i - 1] in logs;
    }
    forall n | Reached(s, logs, i) <= n && (i < |logs| ==> n < logs[i]) ensures n !in s.logs {
      assert n in logs <==> n in s.logs;
    }
  }

  /** RecoverLogFile with its tables, then MarkFileNumberUsed. */
  method ReplayFile(opts: Settings, crc: Checksum, number: nat, file: Bytes, max: nat, w: Written, size: nat,
                    ghost t: Trail, ghost base: Base, ghost log: CutLog, ghost entries: seq<seq<Entry>>, ghost last: nat, ghost kept: nat)
    returns (w': Written, max': nat, status: Status, ghost t': Trail)
    requires Built(t, base, w) && Left(opts, crc, log, entries, last, kept, file) && max <= last
    ensures status == Ok && Built(t', base, w') && w.next <= w'.next && number < w'.next
    ensures kept <= |entries| && Concat(t'.chunks) == Concat(t.chunks) + Concat(entries[..kept])
    ensures max <= max' <= last && forall e :: e in Concat(entries[..kept]) ==> e.key.seqno <= max'
    ensures var memtables := |Finished(Recovered(opts, crc, Open(file), Replayed([], None, max, Ok)))|;
      w'.next == if w.next + memtables > number then w.next + memtables else number + 1
  {
    LeftLogReplays(opts, crc, log, entries, last, kept, file, max);
    var chunks;
    chunks, max', status := RecoverLogFile(opts, crc, file, max);
    w', t' := WriteLevel0Tables(chunks, w, size, t, base);
    if w'.next <= number {
      w' := w'.(next := number + 1);
    }
  }

  /** The memtables written are the entries the cut logs hold up to `bound`, none above `max`. */
  ghost predicate Caught(s: State, cut: map<nat, seq<seq<Entry>>>, bound: nat, chunks: seq<seq<Entry>>, max: nat) {
    && Concat(chunks) == ReplayLogs(cut, s.logNumber, bound) && max <= s.lastSequence
    && forall e :: e in Concat(chunks) ==> e.key.seqno <= max
  }

  lemma CatchesMore(s: State, cut: map<nat, seq<seq<Entry>>>, a: nat, b: nat, chunks: seq<seq<Entry>>, max: nat,
                    more: seq<Entry>, chunks': seq<seq<Entry>>, max': nat)
    requires Caught(s, cut, a, chunks, max) && Concat(chunks') == Concat(chunks) + more
    requires ReplayLogs(cut, s.logNumber, b) == ReplayLogs(cut, s.logNumber, a) + more
    requires max <= max' <= s.lastSequence && forall e :: e in more ==> e.key.seqno <= max'
    ensures Caught(s, cut, b, chunks', max')
  {
  }

  lemma LogInUse(opts: Settings, crc: Checksum, s: State, keepImm: nat, keep: nat, cuts: map<nat, CutLog>, contents: map<nat, Bytes>, n: nat)
    requires MemtablesMatchLogs(s) && LogsLeft(opts, crc, s, keepImm, keep, cuts, contents) && n in s.logs && n >= s.logNumber
    ensures n in cuts && n in contents
    ensures Left(opts, crc, cuts[n], s.logs[n], s.lastSequence, KeptIn(s, keepImm, keep, n), contents[n])
    ensures CutLogs(s, keepImm, keep)[n] == s.logs[n][..KeptIn(s, keepImm, keep, n)]
  {
    KeptOfLog(s, keepImm, keep, n);
  }

  /** The first i logs are replayed. */
  ghost predicate ReplayedTo(s: State, cut: map<nat, seq<seq<Entry>>>, logs: seq<nat>, i: nat, base: Base, t: Trail, w: Written, max: nat) {
    && i <= |logs| && Built(t, base, w) && Caught(s, cut, Reached(s, logs, i), t.chunks, max)
    && forall j :: 0 <= j < i ==> logs[j] < w.next
  }

  /** One round of Recover's loop over the logs. */
  method ReplayNext(opts: Settings, crc: Checksum, logs: seq<nat>, i: nat, contents: map<nat, Bytes>, max: nat, w: Written, size: nat,
                    ghost s: State, ghost keepImm: nat, ghost keep: nat, ghost cuts: map<nat, CutLog>, ghost t: Trail, ghost base: Base)
    returns (w': Written, max': nat, status: Status, ghost t': Trail)
    requires MemtablesMatchLogs(s) && InUse(s, logs) && LogsLeft(opts, crc, s, keepImm, keep, cuts, contents)
    requires i < |logs| && logs[i] in contents && ReplayedTo(s, CutLogs(s, keepImm, keep), logs, i, base, t, w, max)
    ensures status == Ok && w.next <= w'.next
    ensures ReplayedTo(s, CutLogs(s, keepImm, keep), logs, i + 1, base, t', w', max')
  {
    ghost var cut, n := CutLogs(s, keepImm, keep), logs[i];
    assert n in logs;
    LogInUse(opts, crc, s, keepImm, keep, cuts, contents, n);
    w', max', status, t' := ReplayFile(opts, crc, logs[i], contents[logs[i]], max, w, size, t, base,
                                       cuts[n], s.logs[n], s.lastSequence, KeptIn(s, keepImm, keep, n));
    ReplayedNext(s, cut, logs, i, base, t, w, max, t', w', max');
  }

  /** Recover's loop over the logs. */
  method ReplayFiles(opts: Settings, crc: Checksum, logs: seq<nat>, contents: map<nat, Bytes>, w: Written, size: nat,
                     ghost s: State, ghost keepImm: nat, ghost keep: nat, ghost cuts: map<nat, CutLog>, ghost t: Trail, ghost base: Base)
    returns (w': Written, max: nat, status: Status, ghost t': Trail)
    requires MemtablesMatchLogs(s) && InUse(s, logs) && LogsLeft(opts, crc, s, keepImm, keep, cuts, contents)
    requires forall n <- logs :: n in contents
    requires ReplayedTo(s, CutLogs(s, keepImm, keep), logs, 0, base, t, w, 0)
    ensures status == Ok && w.next <= w'.next
    ensures ReplayedTo(s, CutLogs(s, keepImm, keep), logs, |logs|, base, t', w', max)
  {
    w', max, status, t' := w, 0, Ok, t;
    for i := 0 to |logs|
      invariant status == Ok && w.next <= w'.next
      invariant ReplayedTo(s, CutLogs(s, keepImm, keep), logs, i, base, t', w', max)
    {
      w', max, status, t' := ReplayNext(opts, crc, logs, i, contents, max, w', size, s, keepImm, keep, cuts, t', base);
      if status != Ok {
        return;
      }
    }
  }

  lemma ReplayedNext(s: State, cut: map<nat, seq<seq<Entry>>>, logs: seq<nat>, i: nat, base: Base,
                     t: Trail, w: Written, max: nat, t': Trail, w': Written, max': nat)
    requires InUse(s, logs) && i < |logs| && cut.Keys == s.logs.Keys && logs[i] in cut
    requires ReplayedTo(s, cut, logs, i, base, t, w, max)
    requires Built(t', base, w') && w.next <= w'.next && logs[i] < w'.next
    requires Concat(t'.chunks) == Concat(t.chunks) + Concat(cut[logs[i]])
    requires max <= max' <= s.lastSequence && forall e :: e in Concat(cut[logs[i]]) ==> e.key.seqno <= max'
    ensures ReplayedTo(s, cut, logs, i + 1, base, t', w', max')
  {
    NextLogReplayed(s, cut, logs, i);
    CatchesMore(s, cut, Reached(s, logs, i), Reached(s, logs, i + 1), t.chunks, max, Concat(cut[logs[i]]), t'.chunks, max');
  }

  /** The edit of a recovery: every table on level 0. */
  lemma RecoveryEditAt(files: seq<FileMeta>, l: nat)
    ensures AddedAt(Edit({}, Background.PlacedAt(0, files)), l) == if l == 0 then Elements(files) else {}
    ensures DeletedAt(Edit({}, Background.PlacedAt(0, files)), l) == {}
  {
    var edit := Edit({}, Background.PlacedAt(0, files));
    if l == 0 {
      forall f | f in files ensures f in AddedAt(edit, l) {
        var i :| 0 <= i < |files| && files[i] == f;
        assert edit.added[i] == (l, f) && (l, f) in edit.added;
      }
    }
  }

  /** LogAndApply at the end installs what the trail reaches one table at a time. */
  method InstallTables(v: Version, files: seq<FileMeta>, ghost t: Trail, ghost base: Base, ghost w: Written) returns (v': Version)
    requires Built(t, base, w) && v == base.version && files == w.files
    requires forall l :: 0 <= l < NUM_LEVELS ==> SortedFiles(v[l])
    requires forall m: nat, h :: Placed(v, m, h) ==> h.number < base.next
    ensures v' == t.versions[|t.chunks|]
  {
    var edit := Edit({}, Background.PlacedAt(0, files));
    forall l: nat ensures AddedAt(edit, l) == (if l == 0 then Elements(files) else {}) && DeletedAt(edit, l) == {} {
      RecoveryEditAt(files, l);
    }
    forall l, f, g | 0 <= l < NUM_LEVELS && f in v[l] && g in AddedAt(edit, l) ensures f.number != g.number {
      assert Placed(v, l, f);
      assert g in files;
    }
    v' := Background.Install(v, edit);
    var built := t.versions[|t.chunks|];
    forall l | 0 <= l < NUM_LEVELS ensures v'[l] == built[l] {
      Background.UniqueApply(edit, l);
      assert {} - Numbers(AddedAt(edit, l)) == {};
      forall h ensures h in v'[l] <==> h in built[l] {
        assert h in v'[l] <==> h in Elements(v'[l]);
      }
      SortedUnique(v'[l], built[l]);
    }
  }

  /** The tables on disk and what VersionSet::Recover learnt from the manifest; also what an open database starts with. */
  datatype Told = Told(disk: Disk, version: Version, logNumber: nat, nextFile: nat, lastSequence: nat)

  function TablesOf(v: Version): (r: set<nat>)
    ensures forall n :: n in r <==> exists l: nat, f :: Placed(v, l, f) && f.number == n
  {
    var r := set l, f | 0 <= l < NUM_LEVELS && f in v[l] :: f.number;
    assert forall l: int, f :: 0 <= l < NUM_LEVELS && f in v[l] ==> Placed(v, l, f);
    r
  }

  /** The machine's state once the database is open again. */
  ghost function Opened(s: State, keepImm: nat, keep: nat, now: Told, t: Trail): State
    requires CutTo(s, keepImm, keep)
  {
    State(now.disk, now.version, [], None, CutLogs(s, keepImm, keep)[now.logNumber := []], now.logNumber, s.immLog, now.logNumber, 0, 0,
          now.lastSequence, now.lastSequence, now.nextFile, now.nextFile, multiset{}, s.flushed + Concat(t.chunks), s.horizon)
  }

  /** What the manifest tells of the state. */
  ghost predicate Tells(told: Told, s: State) {
    told == Told(s.disk, s.version, s.logNumber, s.savedNext + 1, s.savedSequence)
  }

  ghost function NothingYet(told: Told): Trail {
    Trail([], [], [told.disk], [told.version])
  }

  lemma StartsBuilding(s: State, told: Told, logs: seq<nat>, cut: map<nat, seq<seq<Entry>>>)
    requires Database.Sound(s) && Tells(told, s)
    ensures ReplayedTo(s, cut, logs, 0, Base(told.disk, told.version, told.nextFile), NothingYet(told), Written(told.disk, [], told.nextFile), 0)
    ensures forall l :: 0 <= l < NUM_LEVELS ==> SortedFiles(told.version[l])
    ensures forall m: nat, h :: Placed(told.version, m, h) ==> h.number < told.nextFile
  {
  }

  /** Every log in use was replayed, so that the memtables hold what the cut logs do. */
  lemma AllReplayed(s: State, cut: map<nat, seq<seq<Entry>>>, logs: seq<nat>, chunks: seq<seq<Entry>>, max: nat)
    requires MemtablesMatchLogs(s) && CountersOk(s) && InUse(s, logs) && cut.Keys == s.logs.Keys
    requires Caught(s, cut, Reached(s, logs, |logs|), chunks, max)
    ensures Concat(chunks) == ReplayLogs(cut, s.logNumber, s.nextFile)
    ensures LastSequenceOf(Concat(chunks)) <= max
  {
    NoLogBetween(s, logs, |logs|);
    assert s.logfile in logs && logs[|logs| - 1] in logs;
    GapReplaysNothing(cut, s.logNumber, Reached(s, logs, |logs|), s.nextFile);
    if Concat(chunks) != [] {
      assert Concat(chunks)[|Concat(chunks)| - 1] in Concat(chunks);
    }
  }

  lemma LogsBelow(s: State, logs: seq<nat>, next: nat)
    requires MemtablesMatchLogs(s) && InUse(s, logs) && forall j :: 0 <= j < |logs| ==> logs[j] < next
    ensures forall n :: n in s.logs ==> n < next
  {
    assert s.logfile in logs;
    forall n | n in s.logs ensures n < next {
      assert n >= s.logNumber ==> n in logs;
    }
  }

  /** All logs replayed and everything installed: a recovery step. */
  lemma OpenedIsStep(s: State, keepImm: nat, keep: nat, told: Told, logs: seq<nat>, t: Trail, w: Written, max: nat, now: Told)
    requires MemtablesMatchLogs(s) && CountersOk(s) && Tells(told, s) && InUse(s, logs) && CutTo(s, keepImm, keep)
    requires ReplayedTo(s, CutLogs(s, keepImm, keep), logs, |logs|, Base(told.disk, told.version, told.nextFile), t, w, max)
    requires now == Told(w.disk, t.versions[|t.chunks|], w.next, w.next + 1, if told.lastSequence < max then max else told.lastSequence)
    ensures RecoverStep(s, keepImm, keep, t.chunks, t.files, t.disks, t.versions, w.next, now.lastSequence, Opened(s, keepImm, keep, now, t))
  {
    AllReplayed(s, CutLogs(s, keepImm, keep), logs, t.chunks, max);
    LogsBelow(s, logs, w.next);
  }

  /** What the database opens with: the tables' entries and those left in the logs, and a log numbered above all others. */
  ghost predicate Opens(s: State, keepImm: nat, keep: nat, now: Told)
    requires CutTo(s, keepImm, keep)
  {
    && Contents(now.disk, now.version) == Contents(s.disk, s.version) + Elements(KeptImm(s, keepImm) + KeptActive(s, keep))
    && (forall n :: n in s.logs ==> n < now.logNumber) && (forall n :: n in now.disk ==> n < now.logNumber)
    && now.nextFile == now.logNumber + 1
    && s.savedSequence <= now.lastSequence <= s.lastSequence
    && forall e :: e in KeptImm(s, keepImm) + KeptActive(s, keep) ==> e.key.seqno <= now.lastSequence
  }

  ghost function StepOf(keepImm: nat, keep: nat, t: Trail, newLog: nat, last: nat): DatabaseRuns.Step {
    Recover(keepImm, keep, t.chunks, t.files, t.disks, t.versions, newLog, last)
  }

  lemma OpenedIsSound(s: State, keepImm: nat, keep: nat, told: Told, logs: seq<nat>, t: Trail, w: Written, max: nat, now: Told)
    requires Database.Sound(s) && Tells(told, s) && InUse(s, logs) && CutTo(s, keepImm, keep)
    requires ReplayedTo(s, CutLogs(s, keepImm, keep), logs, |logs|, Base(told.disk, told.version, told.nextFile), t, w, max)
    requires now == Told(w.disk, t.versions[|t.chunks|], w.next, w.next + 1, if told.lastSequence < max then max else told.lastSequence)
    ensures var s' := Opened(s, keepImm, keep, now, t);
      && Next(s, StepOf(keepImm, keep, t, w.next, now.lastSequence), s') && Database.Sound(s')
      && Commits(s') == s.flushed + (KeptImm(s, keepImm) + KeptActive(s, keep))
    ensures Opens(s, keepImm, keep, now)
  {
    OpenedIsStep(s, keepImm, keep, told, logs, t, w, max, now);
    RecoveredCommits(s, keepImm, keep, t.chunks, t.files, t.disks, t.versions, w.next, now.lastSequence, Opened(s, keepImm, keep, now, t));
    RecoverKeepsSound(s, keepImm, keep, t.chunks, t.files, t.disks, t.versions, w.next, now.lastSequence, Opened(s, keepImm, keep, now, t));
  }

  /** No table of the current version is missing, and the logs found are those in use. */
  lemma FoundAll(s: State, names: Names, missing: set<nat>, logs: seq<nat>)
    requires Database.Sound(s) && Lists(names, s)
    requires forall n :: n in missing <==> n in TablesOf(s.version) && !HasNumber(names, n)
    requires forall n: nat :: n in logs <==> HasLog(names, n) && (n >= s.logNumber || n == 0)
    ensures missing == {}
    ensures forall n: nat :: n in logs <==> n in s.logs && n >= s.logNumber
  {
    forall n | n in TablesOf(s.version) ensures HasNumber(names, n) {
      var l: nat, f :| Placed(s.version, l, f) && f.number == n;
      assert Stored(s.disk, f);
      assert HasTable(names, n);
    }
    forall n: nat ensures n in logs <==> n in s.logs && n >= s.logNumber {
      assert HasLog(names, n) <==> n in s.logs;
    }
  }

  /**
   DB::Open after a crash. Each log in use may be cut at any byte not before its
   last sync: the database opens, and what it opens with is a recovery step of
   the machine that keeps exactly the groups whole in each log.
   */
  method OpenDatabase(opts: Settings, crc: Checksum, told: Told, names: Names, contents: map<nat, Bytes>, size: nat,
              ghost s: State, ghost keepImm: nat, ghost keep: nat, ghost cuts: map<nat, CutLog>)
    returns (now: Option<Told>, ghost s': State, ghost step: DatabaseRuns.Step)
    requires Database.Sound(s) && Tells(told, s) && Lists(names, s) && NoneAgain(names)
    requires LogsLeft(opts, crc, s, keepImm, keep, cuts, contents)
    ensures step.Recover? && step.keepImm == keepImm && step.keep == keep && Next(s, step, s')
    ensures Database.Sound(s') && Commits(s') == s.flushed + (KeptImm(s, keepImm) + KeptActive(s, keep))
    ensures now == Some(Told(s'.disk, s'.version, s'.logNumber, s'.nextFile, s'.lastSequence))
    ensures now.Some? && Opens(s, keepImm, keep, now.value)
  {
    var missing, logs := FindLogs(names, TablesOf(told.version), told.logNumber, 0);
    FoundAll(s, names, missing, logs);
    if missing != {} {
      return None, s, DatabaseRuns.Switch;
    }
    ghost var cut, base := CutLogs(s, keepImm, keep), Base(told.disk, told.version, told.nextFile);
    StartsBuilding(s, told, logs, cut);
    var w, max, status;
    ghost var t;
    w, max, status, t := ReplayFiles(opts, crc, logs, contents, Written(told.disk, [], told.nextFile), size,
                                     s, keepImm, keep, cuts, NothingYet(told), base);
    if status != Ok {
      return None, s, DatabaseRuns.Switch;
    }
    var v' := InstallTables(told.version, w.files, t, base, w);
    var after := Told(w.disk, v', w.next, w.next + 1, if told.lastSequence < max then max else told.lastSequence);
    OpenedIsSound(s, keepImm, keep, told, logs, t, w, max, after);
    now, s', step := Some(after), Opened(s, keepImm, keep, after, t), StepOf(keepImm, keep, t, w.next, after.lastSequence);
  }
}
